/** What every operation on an epoll port keeps, whatever the kernel answers. */
module PortInvariant {
  import opened Options
  import opened PollGroups
  import opened Port

  ghost predicate Live(s: State, id: nat) {
    id in s.socks && !s.socks[id].deletePending
  }

  /** Only a pending poll has events, and errors are asked for if anything is. */
  ghost predicate Consistent(x: SockState) {
    (x.status != Pending ==> x.pendingEvents == 0) && AsksForErrors(x.userEvents)
  }

  /** A live socket state is in the tree under its key and never in the deleted queue; one that is
      being deleted is in the deleted queue and in no other structure. */
  ghost predicate Structure(s: State) {
    && NoDuplicates(s.updateQueue) && NoDuplicates(s.deletedQueue)
    && (forall id :: id in s.updateQueue ==> Live(s, id))
    && (forall id :: id in s.deletedQueue <==> id in s.socks && s.socks[id].deletePending)
    && (forall id :: Live(s, id) ==> s.socks[id].key in s.tree && s.tree[s.socks[id].key] == id)
    && (forall k :: k in s.tree ==> Live(s, s.tree[k]) && s.socks[s.tree[k]].key == k)
    && (forall id :: id in s.socks ==> id < s.next)
    && (forall id :: id in s.socks ==> Consistent(s.socks[id]))
  }

  ghost function Members(s: State, g: nat): set<nat> {
    set id | id in s.socks && s.socks[id].group == g
  }

  /** Every group holds as many slots as there are socket states in it. */
  ghost predicate Grouped(s: State) {
    && Ordered(s.groups)
    && forall g: nat :: SizeOf(s.groups, g) == |Members(s, g)|
  }

  /** Conservation: slots in use, allocated states, and tree plus deleted queue agree in number. */
  ghost predicate Counted(s: State) {
    Total(s.groups) == |s.socks| == |s.tree| + |s.deletedQueue|
  }

  ghost predicate Sound(s: State) {
    Structure(s) && Grouped(s) && Counted(s)
  }

  /** A socket state is other than idle exactly while one poll of it is outstanding; nothing is
      outstanding for an address that is not allocated. */
  ghost predicate Tracked(s: State) {
    && s.dequeued <= s.outstanding
    && forall id: nat :: s.outstanding[id] == if id in s.socks && s.socks[id].status != Idle then 1 else 0
  }

  /** The socket still needs attention: it is idle, or its pending poll misses a requested event. */
  ghost predicate Needy(x: SockState) {
    x.status == Idle || (x.status == Pending && x.Missing())
  }

  ghost predicate AttentiveBut(s: State, except: set<nat>) {
    forall id :: Live(s, id) && id !in except && Needy(s.socks[id]) ==> id in s.updateQueue
  }

  /** No interest is lost. */
  ghost predicate Attentive(s: State) { AttentiveBut(s, {}) }

  ghost predicate Inv(s: State) {
    && Sound(s) && Tracked(s) && Attentive(s)
    && s.activePolls == |s.polling|
  }

  /** Nothing but socket `id` is different. */
  ghost predicate Elsewhere(s: State, t: State, id: nat) {
    && (forall j :: j != id ==> (j in t.socks <==> j in s.socks))
    && (forall j :: j != id && j in s.socks ==> t.socks[j] == s.socks[j])
    && (forall j :: j != id ==> (j in t.updateQueue <==> j in s.updateQueue))
    && (forall j :: j != id ==> (j in t.deletedQueue <==> j in s.deletedQueue))
    && t.activePolls == s.activePolls && t.polling == s.polling && t.closed == s.closed && t.failed == s.failed
  }

  lemma {:induction false} HasItsSlot(s: State, id: nat)
    requires Grouped(s) && id in s.socks
    ensures HasSlot(s.groups, s.socks[id].group)
  {
    assert id in Members(s, s.socks[id].group);
    SizedHasSlot(s.groups, s.socks[id].group);
  }

  // ---- fields and queues -------------------------------------------------------------------

  lemma {:induction false} SameGroups(s: State, t: State)
    requires Grouped(s) && t.groups == s.groups && t.socks.Keys == s.socks.Keys
    requires forall id :: id in s.socks ==> t.socks[id].group == s.socks[id].group
    ensures Grouped(t)
  {
    forall g: nat ensures Members(t, g) == Members(s, g) {}
  }

  lemma {:induction false} SetSockSound(s: State, id: nat, x: SockState)
    requires Sound(s) && id in s.socks
    requires x.key == s.socks[id].key && x.group == s.socks[id].group && x.deletePending == s.socks[id].deletePending
    requires Consistent(x)
    ensures Sound(SetSock(s, id, x)) && Elsewhere(s, SetSock(s, id, x), id)
  {
    SameGroups(s, SetSock(s, id, x));
    SetSockStructure(s, id, x);
  }

  lemma {:induction false} SetSockStructure(s: State, id: nat, x: SockState)
    requires Structure(s) && id in s.socks
    requires x.key == s.socks[id].key && x.deletePending == s.socks[id].deletePending
    requires Consistent(x)
    ensures Structure(SetSock(s, id, x)) && SetSock(s, id, x).socks.Keys == s.socks.Keys
    ensures |SetSock(s, id, x).socks| == |s.socks|
  {
    var t := SetSock(s, id, x);
    assert t.socks.Keys == s.socks.Keys;
    assert |t.socks.Keys| == |s.socks.Keys|;
    assert forall j :: Live(t, j) <==> Live(s, j);
  }

  lemma {:induction false} RequestSound(s: State, id: nat)
    requires Sound(s) && Live(s, id)
    ensures Sound(Request(s, id)) && Elsewhere(s, Request(s, id), id)
    ensures id in Request(s, id).updateQueue && Request(s, id).socks == s.socks
  {
    SameGroups(s, Request(s, id));
    RequestStructure(s, id);
  }

  lemma {:induction false} RequestStructure(s: State, id: nat)
    requires Structure(s) && Live(s, id)
    ensures Structure(Request(s, id)) && Elsewhere(s, Request(s, id), id) && id in Request(s, id).updateQueue
  {
    if !Enqueued(s, id) {
      AppendFacts(s.updateQueue, id);
    }
  }

  lemma {:induction false} UnqueueFacts(s: State, id: nat)
    requires NoDuplicates(s.updateQueue) && NoDuplicates(s.deletedQueue)
    ensures var t := Unqueue(s, id);
      && NoDuplicates(t.updateQueue) && NoDuplicates(t.deletedQueue)
      && (forall j :: j in t.updateQueue <==> j in s.updateQueue && j != id)
      && (forall j :: j in t.deletedQueue <==> j in s.deletedQueue && j != id)
      && |t.deletedQueue| == (if id in s.deletedQueue then |s.deletedQueue| - 1 else |s.deletedQueue|)
      && |t.updateQueue| == (if id in s.updateQueue then |s.updateQueue| - 1 else |s.updateQueue|)
      && t == s.(updateQueue := t.updateQueue, deletedQueue := t.deletedQueue)
  {
    RemoveFacts(s.updateQueue, id);
    RemoveFacts(s.deletedQueue, id);
  }

  lemma {:induction false} UnqueueSound(s: State, id: nat)
    requires Sound(s) && Live(s, id)
    ensures Sound(Unqueue(s, id)) && Elsewhere(s, Unqueue(s, id), id)
    ensures Unqueue(s, id).socks == s.socks && id !in Unqueue(s, id).updateQueue
    ensures |Unqueue(s, id).updateQueue| == if id in s.updateQueue then |s.updateQueue| - 1 else |s.updateQueue|
  {
    UnqueueFacts(s, id);
    SameGroups(s, Unqueue(s, id));
  }

  // ---- sock__delete ------------------------------------------------------------------------

  /** All is in order except that socket `id`, which is being deleted, may be on no queue. */
  ghost predicate SoundBut(s: State, id: nat) {
    && id in s.socks && s.socks[id].deletePending && id !in s.updateQueue
    && NoDuplicates(s.updateQueue) && NoDuplicates(s.deletedQueue)
    && (forall j :: j in s.updateQueue ==> Live(s, j))
    && (forall j :: j != id ==> (j in s.deletedQueue <==> j in s.socks && s.socks[j].deletePending))
    && (forall j :: Live(s, j) ==> s.socks[j].key in s.tree && s.tree[s.socks[j].key] == j)
    && (forall k :: k in s.tree ==> Live(s, s.tree[k]) && s.socks[s.tree[k]].key == k)
    && (forall j :: j in s.socks ==> j < s.next)
    && (forall j :: j in s.socks ==> Consistent(s.socks[j]))
    && Grouped(s) && Total(s.groups) == |s.socks|
    && |s.socks| == |s.tree| + |s.deletedQueue| + (if id in s.deletedQueue then 0 else 1)
  }

  lemma {:induction false} NotRemoved(q: seq<nat>, id: nat)
    requires id !in q
    ensures Remove(q, id) == q
  {
    if q != [] { NotRemoved(q[1..], id); }
  }

  /** Retiring a live socket takes it out of the tree and off the update queue. */
  lemma {:induction false} RetireSound(s: State, id: nat, cancels: bool)
    requires Sound(s) && Live(s, id)
    ensures var t := Retire(s, id, cancels);
      && SoundBut(t, id) && Elsewhere(s, t, id) && id !in t.deletedQueue
      && (t.socks[id].status == Idle <==> s.socks[id].status == Idle)
      && t.outstanding == s.outstanding && t.dequeued == s.dequeued
  {
    RetireElsewhere(s, id, cancels);
    SameGroups(s, Retire(s, id, cancels));
    RetireShape(s, Retire(s, id, cancels), id);
  }

  /** All it changes */
  lemma {:induction false} RetireElsewhere(s: State, id: nat, cancels: bool)
    requires NoDuplicates(s.updateQueue) && NoDuplicates(s.deletedQueue) && id !in s.deletedQueue
    requires id in s.socks && Consistent(s.socks[id])
    ensures var t := Retire(s, id, cancels);
      && t == s.(socks := t.socks, tree := s.tree - {s.socks[id].key}, updateQueue := t.updateQueue)
      && t.socks == s.socks[id := t.socks[id]] && t.socks[id].deletePending && Consistent(t.socks[id])
      && t.socks[id].key == s.socks[id].key && t.socks[id].group == s.socks[id].group
      && (t.socks[id].status == Idle <==> s.socks[id].status == Idle)
      && (cancels ==> t.socks[id].status != Pending)
      && NoDuplicates(t.updateQueue) && (forall j :: j in t.updateQueue <==> j in s.updateQueue && j != id)
  {
    RetireFields(s, if s.socks[id].status == Pending && cancels then CancelPoll(s, id) else s, id);
  }

  /** What of the port a retirement changes */
  lemma {:induction false} RetireFields(s: State, s1: State, id: nat)
    requires NoDuplicates(s.updateQueue) && NoDuplicates(s.deletedQueue) && id !in s.deletedQueue
    requires s1 == s.(socks := s1.socks)
    ensures var t := Unqueue(s1, id);
      && t.deletedQueue == s.deletedQueue && NoDuplicates(t.updateQueue)
      && (forall j :: j in t.updateQueue <==> j in s.updateQueue && j != id)
      && t == s.(socks := s1.socks, updateQueue := t.updateQueue)
  {
    UnqueueFacts(s1, id);
    NotRemoved(s.deletedQueue, id);
  }

  lemma {:induction false} RetireShape(s: State, t: State, id: nat)
    requires Sound(s) && Live(s, id) && Grouped(t)
    requires t.socks.Keys == s.socks.Keys && t.deletedQueue == s.deletedQueue && t.groups == s.groups
    requires t.next == s.next
    requires forall j :: j in s.socks && j != id ==> t.socks[j] == s.socks[j]
    requires t.socks[id].deletePending && Consistent(t.socks[id])
    requires t.tree == s.tree - {s.socks[id].key}
    requires NoDuplicates(t.updateQueue) && forall j :: j in t.updateQueue <==> j in s.updateQueue && j != id
    ensures SoundBut(t, id)
  {
    assert |t.socks| == |s.socks| by { assert |t.socks.Keys| == |s.socks.Keys|; }
    assert |t.tree| == |s.tree| - 1 by {
      assert t.tree.Keys == s.tree.Keys - {s.socks[id].key};
      assert |t.tree.Keys| == |s.tree.Keys| - 1;
    }
    assert forall j :: Live(t, j) <==> Live(s, j) && j != id;
  }

  lemma {:induction false} MembersWithout(s: State, t: State, id: nat, h: nat)
    requires id in s.socks && t.socks == s.socks - {id}
    ensures |Members(t, h)| == |Members(s, h)| - (if s.socks[id].group == h then 1 else 0)
  {
    if s.socks[id].group == h {
      assert id in Members(s, h);
      assert Members(t, h) == Members(s, h) - {id};
    } else {
      assert Members(t, h) == Members(s, h);
    }
  }

  lemma {:induction false} FreeGrouped(s: State, id: nat)
    requires Grouped(s) && id in s.socks
    ensures HasSlot(s.groups, s.socks[id].group)
    ensures Grouped(Freed(s, id))
  {
    HasItsSlot(s, id);
    FreedFields(s, id);
    FreeSizes(s, Freed(s, id), id);
  }

  lemma {:induction false} FreedFields(s: State, id: nat)
    requires id in s.socks && HasSlot(s.groups, s.socks[id].group)
    ensures Freed(s, id).groups == Released(s.groups, s.socks[id].group) && Freed(s, id).socks == s.socks - {id}
  {
  }

  lemma {:induction false} FreeCounted(s: State, id: nat)
    requires Ordered(s.groups) && id in s.socks && HasSlot(s.groups, s.socks[id].group)
    requires Total(s.groups) == |s.socks|
    ensures Total(Freed(s, id).groups) == |Freed(s, id).socks| == |s.socks| - 1
  {
    FreeTotals(s.groups, s.socks, id);
  }

  lemma {:induction false} FreeTotals(q: seq<Group>, socks: map<nat, SockState>, id: nat)
    requires Ordered(q) && id in socks && HasSlot(q, socks[id].group) && Total(q) == |socks|
    ensures Ordered(Released(q, socks[id].group))
    ensures Total(Released(q, socks[id].group)) == |socks - {id}| == |socks| - 1
  {
    ReleaseKeeps(q, socks[id].group);
    OneLess(socks, id);
  }

  lemma {:induction false} OneLess(socks: map<nat, SockState>, id: nat)
    requires id in socks
    ensures |socks - {id}| == |socks| - 1
  {
    assert (socks - {id}).Keys == socks.Keys - {id};
    assert |(socks - {id}).Keys| == |socks.Keys| - 1;
  }

  lemma {:induction false} FreeSizes(s: State, t: State, id: nat)
    requires Grouped(s) && id in s.socks && HasSlot(s.groups, s.socks[id].group)
    requires t.groups == Released(s.groups, s.socks[id].group) && t.socks == s.socks - {id}
    ensures Grouped(t)
  {
    ReleaseKeeps(s.groups, s.socks[id].group);
    forall h: nat
      ensures SizeOf(t.groups, h) == |Members(t, h)|
    {
      ReleaseSizes(s.groups, s.socks[id].group, h);
      MembersWithout(s, t, id, h);
    }
  }

  /** Freeing a retired socket releases its slot and leaves everything in order. */
  lemma {:induction false} FreeSound(s: State, id: nat)
    requires SoundBut(s, id)
    ensures HasSlot(s.groups, s.socks[id].group)
    ensures Sound(Freed(s, id)) && Elsewhere(s, Freed(s, id), id) && id !in Freed(s, id).socks
    ensures Freed(s, id).outstanding == s.outstanding && Freed(s, id).dequeued == s.dequeued
  {
    FreeGrouped(s, id);
    FreeCounted(s, id);
    FreeStructure(s, id);
  }

  lemma {:induction false} FreeStructure(s: State, id: nat)
    requires SoundBut(s, id) && HasSlot(s.groups, s.socks[id].group)
    ensures var t := Freed(s, id);
      && Structure(t) && Elsewhere(s, t, id)
      && |t.tree| == |s.tree| && |t.deletedQueue| == |s.deletedQueue| - if id in s.deletedQueue then 1 else 0
  {
    UnqueueFacts(s, id);
    var t := Freed(s, id);
    assert forall j :: Live(t, j) <==> Live(s, j);
  }

  lemma {:induction false} AddDeletedSound(s: State, id: nat)
    requires SoundBut(s, id)
    ensures Sound(AddDeleted(s, id)) && Elsewhere(s, AddDeleted(s, id), id) && AddDeleted(s, id).socks == s.socks
  {
    SameGroups(s, AddDeleted(s, id));
    AddDeletedStructure(s, id);
  }

  lemma {:induction false} AddDeletedStructure(s: State, id: nat)
    requires SoundBut(s, id)
    ensures Structure(AddDeleted(s, id)) && Elsewhere(s, AddDeleted(s, id), id)
    ensures |AddDeleted(s, id).deletedQueue| == |s.deletedQueue| + if id in s.deletedQueue then 0 else 1
  {
    var t := AddDeleted(s, id);
    if id !in s.deletedQueue {
      AppendFacts(s.deletedQueue, id);
    }
    assert forall j :: Live(t, j) <==> Live(s, j);
  }

  /** sock__delete frees the state now (forced, or no poll outstanding), or files it as deleted. */
  lemma {:induction false} DeleteSound(s: State, id: nat, force: bool, cancels: bool)
    requires Sound(s) && id in s.socks
    ensures HasSlot(s.groups, s.socks[id].group)
    ensures var t := Deleted(s, id, force, cancels);
      && Sound(t) && Elsewhere(s, t, id) && id !in t.updateQueue
      && (id in t.socks <==> !force && s.socks[id].status != Idle)
      && (id in t.socks ==> t.socks[id].deletePending && t.socks[id].status != Idle)
      && t.outstanding == s.outstanding && t.dequeued == s.dequeued
  {
    HasItsSlot(s, id);
    var t := if s.socks[id].deletePending then s else Retire(s, id, cancels);
    if !s.socks[id].deletePending {
      RetireSound(s, id, cancels);
    }
    if force || t.socks[id].status == Idle {
      FreeSound(t, id);
    } else {
      AddDeletedSound(t, id);
    }
  }

  /** What the end of sock__delete relies on. */
  lemma {:induction false} DeleteReady(s: State, id: nat, force: bool, cancels: bool)
    requires Sound(s) && id in s.socks
    ensures var t := if s.socks[id].deletePending then s else Retire(s, id, cancels);
      id in t.socks && Ordered(t.groups) && HasSlot(t.groups, t.socks[id].group)
      && t.socks[id].group == s.socks[id].group && t.groups == s.groups
  {
    HasItsSlot(s, id);
  }

  // ---- tracking and attention --------------------------------------------------------------

  lemma {:induction false} TrackedElsewhere(s: State, t: State, id: nat)
    requires Tracked(s) && Elsewhere(s, t, id) && t.dequeued <= t.outstanding
    requires forall j: nat :: j != id ==> t.outstanding[j] == s.outstanding[j]
    requires t.outstanding[id] == if id in t.socks && t.socks[id].status != Idle then 1 else 0
    ensures Tracked(t)
  {
    forall j: nat
      ensures t.outstanding[j] == if j in t.socks && t.socks[j].status != Idle then 1 else 0
    {
      if j != id { assert j in t.socks <==> j in s.socks; }
    }
  }

  lemma {:induction false} AttentiveElsewhere(s: State, t: State, id: nat, except: set<nat>)
    requires AttentiveBut(s, except + {id}) && Elsewhere(s, t, id)
    requires Live(t, id) && id !in except && Needy(t.socks[id]) ==> id in t.updateQueue
    ensures AttentiveBut(t, except)
  {
  }

  // ---- sock_update, port__update_events ----------------------------------------------------

  /** Socket `id` was attended to: all is in order, it is off the update queue and not needy. */
  ghost predicate Attended(s: State, t: State, id: nat) {
    && Sound(t) && Tracked(t) && Elsewhere(s, t, id)
    && id !in t.updateQueue && (Live(t, id) ==> !Needy(t.socks[id]))
  }

  /** Setting the fields of a socket and counting its polls anew */
  lemma {:induction false} SetSockPolls(s: State, id: nat, x: SockState, t: State)
    requires Sound(s) && id in s.socks
    requires x.key == s.socks[id].key && x.group == s.socks[id].group && x.deletePending == s.socks[id].deletePending
    requires Consistent(x)
    requires t == SetSock(s, id, x).(outstanding := t.outstanding, dequeued := t.dequeued)
    ensures Sound(t) && Elsewhere(s, t, id)
  {
    SetSockSound(s, id, x);
    SameButPolls(SetSock(s, id, x), t);
  }

  /** Submitting a poll for an idle socket. */
  lemma {:induction false} SubmitSound(s: State, id: nat)
    requires Sound(s) && Live(s, id)
    ensures Sound(Submitted(s, id)) && Elsewhere(s, Submitted(s, id), id) && !Needy(Submitted(s, id).socks[id])
  {
    var y := s.socks[id].(status := Pending, pendingEvents := s.socks[id].userEvents);
    Covered(y.userEvents);
    SetSockPolls(s, id, y, Submitted(s, id));
  }

  lemma {:induction false} SubmitKeeps(s: State, id: nat)
    requires Sound(s) && Tracked(s) && Live(s, id) && s.socks[id].status == Idle
    ensures Attended(s, Unqueue(Submitted(s, id), id), id)
  {
    SubmitSound(s, id);
    LeaveSound(s, Submitted(s, id), id);
    SubmitTracked(s, id);
  }

  lemma {:induction false} SubmitTracked(s: State, id: nat)
    requires Tracked(s) && id in s.socks && s.socks[id].status == Idle
    requires Elsewhere(s, Unqueue(Submitted(s, id), id), id)
    ensures Tracked(Unqueue(Submitted(s, id), id))
  {
    TrackedElsewhere(s, Unqueue(Submitted(s, id), id), id);
  }

  /** Taking a changed socket off the update queue. */
  lemma {:induction false} LeaveSound(s: State, u: State, id: nat)
    requires Sound(u) && Live(u, id) && Elsewhere(s, u, id)
    ensures var t := Unqueue(u, id);
      Sound(t) && Elsewhere(s, t, id) && id !in t.updateQueue && t.socks == u.socks
      && t.outstanding == u.outstanding && t.dequeued == u.dequeued
  {
    UnqueueSound(u, id);
  }

  /** Cancelling the pending poll of a socket whose interest has changed. */
  lemma {:induction false} RecallKeeps(s: State, id: nat)
    requires Sound(s) && Tracked(s) && Live(s, id) && s.socks[id].status == Pending
    ensures Attended(s, Unqueue(CancelPoll(s, id), id), id)
  {
    SetSockSound(s, id, CancelPoll(s, id).socks[id]);
    LeaveSound(s, CancelPoll(s, id), id);
    TrackedElsewhere(s, Unqueue(CancelPoll(s, id), id), id);
  }

  lemma {:induction false} DropKeeps(s: State, id: nat, cancels: bool)
    requires Sound(s) && Tracked(s) && id in s.socks
    ensures HasSlot(s.groups, s.socks[id].group)
    ensures Attended(s, Deleted(s, id, false, cancels), id) && !Live(Deleted(s, id, false, cancels), id)
  {
    DeleteSound(s, id, false, cancels);
    TrackedElsewhere(s, Deleted(s, id, false, cancels), id);
  }

  lemma {:induction false} LeaveKeeps(s: State, id: nat)
    requires Sound(s) && Tracked(s) && Live(s, id) && !Needy(s.socks[id])
    ensures Attended(s, Unqueue(s, id), id)
  {
    UnqueueSound(s, id);
    TrackedElsewhere(s, Unqueue(s, id), id);
  }

  /** sock_update on an idle socket submits a poll. */
  lemma {:induction false} UpdateIdleKeeps(s: State, id: nat, k: Kernel)
    requires Sound(s) && Tracked(s) && Live(s, id) && s.socks[id].status == Idle && HasSlot(s.groups, s.socks[id].group)
    ensures Updated(s, id, k).1 ==> Attended(s, Updated(s, id, k).0, id)
    ensures !Updated(s, id, k).1 ==> Updated(s, id, k).0 == s && !Reliable(k)
  {
    if k.submit(id) == Accepted {
      SubmitKeeps(s, id);
    } else if k.submit(id) == SocketClosed {
      DropKeeps(s, id, true);
    }
  }

  /** On one that has a poll it cancels it if it misses an event. */
  lemma {:induction false} UpdatePolledKeeps(s: State, id: nat, k: Kernel)
    requires Sound(s) && Tracked(s) && Live(s, id) && s.socks[id].status != Idle && HasSlot(s.groups, s.socks[id].group)
    ensures Updated(s, id, k).1 ==> Attended(s, Updated(s, id, k).0, id)
    ensures !Updated(s, id, k).1 ==> Updated(s, id, k).0 == s && !Reliable(k)
  {
    if s.socks[id].status == Pending && s.socks[id].Missing() {
      RecallKeeps(s, id);
    } else {
      LeaveKeeps(s, id);
    }
  }

  /** sock_update on a queued socket: it is attended to unless an error is returned, and an error
      changes nothing. */
  lemma {:induction false} UpdateKeeps(s: State, id: nat, k: Kernel)
    requires Sound(s) && Tracked(s) && id in s.updateQueue
    ensures id in s.socks && HasSlot(s.groups, s.socks[id].group)
    ensures Updated(s, id, k).1 ==> Attended(s, Updated(s, id, k).0, id)
    ensures !Updated(s, id, k).1 ==> Updated(s, id, k).0 == s && !Reliable(k)
  {
    HasItsSlot(s, id);
    if s.socks[id].status == Idle {
      UpdateIdleKeeps(s, id, k);
    } else {
      UpdatePolledKeeps(s, id, k);
    }
  }

  lemma {:induction false} AttendedKeepsAttention(s: State, t: State, id: nat)
    requires Attended(s, t, id) && AttentiveBut(s, {id})
    ensures Attentive(t)
  {
    AttentiveElsewhere(s, t, id, {});
  }

  lemma {:induction false} Covered(events: bv32)
    ensures events & KNOWN_EPOLL_EVENTS & !events == 0
  {
  }

  lemma {:induction false} SameButPolls(s: State, t: State)
    requires Sound(s) && t == s.(outstanding := t.outstanding, dequeued := t.dequeued)
    ensures Sound(t)
  {
    SameGroups(s, t);
  }

  ghost function Elements(q: seq<nat>): set<nat> { set x | x in q }

  lemma {:induction false} QueueSize(q: seq<nat>)
    requires NoDuplicates(q)
    ensures |Elements(q)| == |q|
  {
    if q == [] {
      assert Elements(q) == {};
    } else {
      QueueSize(q[1..]);
      assert Elements(q) == Elements(q[1..]) + {q[0]};
    }
  }

  lemma {:induction false} UpdateShrinks(s: State, t: State, id: nat)
    requires NoDuplicates(s.updateQueue) && NoDuplicates(t.updateQueue) && id in s.updateQueue
    requires forall j :: j in t.updateQueue <==> j in s.updateQueue && j != id
    ensures |t.updateQueue| < |s.updateQueue|
  {
    QueueSize(s.updateQueue);
    QueueSize(t.updateQueue);
    assert Elements(t.updateQueue) == Elements(s.updateQueue) - {id};
    assert id in Elements(s.updateQueue);
  }

  /** port__update_events: the new state, and false if an error cut it short. */
  ghost function UpdatedAll(s: State, k: Kernel): (State, bool)
    requires Sound(s) && Tracked(s)
    decreases |s.updateQueue|
  {
    if s.updateQueue == [] then (s, true)
    else
      var id := s.updateQueue[0];
      UpdateKeeps(s, id, k);
      var (t, ok) := Updated(s, id, k);
      if !ok then (t, false)
      else
        UpdateShrinks(s, t, id);
        UpdatedAll(t, k)
  }

  /** One turn of its loop. */
  lemma {:induction false} UpdateNext(s: State, k: Kernel)
    requires Sound(s) && Tracked(s) && s.updateQueue != []
    ensures s.updateQueue[0] in s.socks && HasSlot(s.groups, s.socks[s.updateQueue[0]].group)
    ensures var (t, ok) := Updated(s, s.updateQueue[0], k);
      && (!ok ==> UpdatedAll(s, k) == (t, false))
      && (ok ==> Sound(t) && Tracked(t) && |t.updateQueue| < |s.updateQueue| && UpdatedAll(s, k) == UpdatedAll(t, k))
  {
    UpdateKeeps(s, s.updateQueue[0], k);
    if Updated(s, s.updateQueue[0], k).1 {
      UpdateShrinks(s, Updated(s, s.updateQueue[0], k).0, s.updateQueue[0]);
    }
  }

  /** It empties the update queue unless the kernel answers with an unexpected error. */
  lemma {:induction false} UpdateAllKeeps(s: State, k: Kernel)
    requires Sound(s) && Tracked(s) && Attentive(s)
    ensures var (t, ok) := UpdatedAll(s, k);
      && Sound(t) && Tracked(t) && Attentive(t)
      && t.activePolls == s.activePolls && t.polling == s.polling && t.closed == s.closed && t.failed == s.failed
      && (ok ==> t.updateQueue == []) && (Reliable(k) ==> ok)
    decreases |s.updateQueue|
  {
    if s.updateQueue != [] {
      var id := s.updateQueue[0];
      UpdateKeeps(s, id, k);
      var (t, ok) := Updated(s, id, k);
      if ok {
        AttendedKeepsAttention(s, t, id);
        UpdateShrinks(s, t, id);
        UpdateAllKeeps(t, k);
      }
    }
  }

  lemma {:induction false} UpdateAllSound(s: State, k: Kernel)
    requires Sound(s) && Tracked(s) && Attentive(s)
    ensures Sound(UpdatedAll(s, k).0) && Tracked(UpdatedAll(s, k).0)
  {
    UpdateAllKeeps(s, k);
  }

  /** port__update_events_if_polling, whose caller ignores errors */
  ghost function UpdatedIfPolling(s: State, k: Kernel): State
    requires Sound(s) && Tracked(s)
  {
    if s.activePolls > 0 then UpdatedAll(s, k).0 else s
  }

  // ---- sock_feed_event, port__feed_events --------------------------------------------------

  lemma {:induction false} FedExists(s: State, id: nat)
    requires Grouped(s) && Tracked(s) && s.dequeued[id] > 0
    ensures id in s.socks && s.socks[id].status != Idle && HasSlot(s.groups, s.socks[id].group)
    ensures s.outstanding[id] == 1
  {
    assert s.outstanding[id] > 0;
    HasItsSlot(s, id);
  }

  lemma {:induction false} SettleKeeps(s: State, id: nat)
    requires Sound(s) && Tracked(s) && s.dequeued[id] > 0
    ensures id in s.socks
    ensures Sound(Settled(s, id)) && Tracked(Settled(s, id)) && Elsewhere(s, Settled(s, id), id)
  {
    FedExists(s, id);
    SettleSound(s, id);
    SettleTracked(s, id);
  }

  lemma {:induction false} SettleSound(s: State, id: nat)
    requires Sound(s) && id in s.socks
    ensures Sound(Settled(s, id)) && Elsewhere(s, Settled(s, id), id)
  {
    SetSockPolls(s, id, s.socks[id].(status := Idle, pendingEvents := 0), Settled(s, id));
  }

  lemma {:induction false} SettleTracked(s: State, id: nat)
    requires Tracked(s) && id in s.socks && s.outstanding[id] == 1 && Elsewhere(s, Settled(s, id), id)
    ensures Tracked(Settled(s, id))
  {
    TrackedElsewhere(s, Settled(s, id), id);
  }

  lemma {:induction false} FeedReady(s: State, id: nat)
    requires Sound(s) && Tracked(s) && s.dequeued[id] > 0
    ensures id in s.socks && HasSlot(s.groups, s.socks[id].group) && Sound(Settled(s, id))
  {
    FedExists(s, id);
    SettleKeeps(s, id);
  }

  lemma {:induction false} RequestKeeps(s: State, id: nat)
    requires Sound(s) && Tracked(s) && Live(s, id)
    ensures var t := Request(s, id);
      Sound(t) && Tracked(t) && Elsewhere(s, t, id) && id in t.updateQueue && t.socks == s.socks
  {
    RequestSound(s, id);
    TrackedElsewhere(s, Request(s, id), id);
  }

  lemma {:induction false} ForgetEventsKeeps(s: State, id: nat)
    requires Sound(s) && Tracked(s) && Live(s, id)
    ensures var t := SetSock(s, id, s.socks[id].(userEvents := 0));
      Sound(t) && Tracked(t) && Elsewhere(s, t, id) && t.updateQueue == s.updateQueue
  {
    var t := SetSock(s, id, s.socks[id].(userEvents := 0));
    SetSockSound(s, id, t.socks[id]);
    TrackedElsewhere(s, t, id);
  }

  lemma {:induction false} ElsewhereChain(s: State, t: State, u: State, id: nat)
    requires Elsewhere(s, t, id) && Elsewhere(t, u, id)
    ensures Elsewhere(s, u, id)
  {
  }

  lemma {:induction false} Masked(found: bv32, wanted: bv32)
    ensures found & wanted & !wanted == 0
  {
  }

  /** Socket `id` was fed: all is in order, and if the socket lives on it is queued for a new poll. */
  ghost predicate Requeued(s: State, t: State, id: nat) {
    Sound(t) && Tracked(t) && Elsewhere(s, t, id) && (Live(t, id) ==> id in t.updateQueue)
  }

  lemma {:induction false} FeedClosedKeeps(s: State, id: nat)
    requires Sound(s) && Tracked(s) && s.dequeued[id] > 0
    ensures id in s.socks && HasSlot(s.groups, s.socks[id].group)
    ensures Requeued(s, FedClosed(s, id), id) && FedClosed(s, id).dequeued == s.dequeued - multiset{id}
  {
    FedExists(s, id);
    SettleKeeps(s, id);
    var t := Settled(s, id);
    DropKeeps(t, id, true);
    ElsewhereChain(s, t, Deleted(t, id, false, true), id);
    DeleteSound(t, id, false, true);
  }

  lemma {:induction false} FeedOpenKeeps(s: State, id: nat, once: bool)
    requires Sound(s) && Tracked(s) && s.dequeued[id] > 0 && Live(s, id)
    ensures Requeued(s, FedOpen(s, id, once), id) && FedOpen(s, id, once).dequeued == s.dequeued - multiset{id}
  {
    SettleKeeps(s, id);
    var t := Settled(s, id);
    var u := Request(t, id);
    RequestKeeps(t, id);
    ElsewhereChain(s, t, u, id);
    if once {
      ForgetEventsKeeps(u, id);
      ElsewhereChain(s, u, FedOpen(s, id, once), id);
    }
  }

  /** sock_feed_event belongs to an allocated state, which is idle afterwards and, if it is still
      live, queued for a new poll. */
  lemma {:induction false} FeedKeeps(s: State, id: nat, c: Completion)
    requires Sound(s) && Tracked(s) && s.dequeued[id] > 0
    ensures id in s.socks && HasSlot(s.groups, s.socks[id].group)
    ensures Requeued(s, Fed(s, id, c), id) && Fed(s, id, c).dequeued == s.dequeued - multiset{id}
  {
    FedExists(s, id);
    var x := s.socks[id];
    if x.deletePending || Closes(c) {
      FeedClosedKeeps(s, id);
    } else {
      FeedOpenKeeps(s, id, Reported(x, c) != 0 && Has(x.userEvents, EPOLLONESHOT));
    }
  }

  /** What sock_feed_event reports was asked for, and nothing is reported about a socket that is
      being deleted or whose poll was cancelled. */
  lemma {:induction false} FeedReports(x: SockState, c: Completion)
    ensures Reported(x, c) & !x.userEvents == 0
    ensures Reported(x, c) != 0 ==> !x.deletePending && c != Aborted && !Closes(c)
  {
    var found := if c.Failed? then EPOLLERR else if c.Success? && c.handles >= 1 then AfdToEpoll(c.afdEvents) else 0;
    Masked(found, x.userEvents);
  }

  /** Nothing is reported for a socket nothing is asked about. */
  lemma {:induction false} NothingAsked(x: SockState, c: Completion)
    requires x.userEvents == 0
    ensures Reported(x, c) == 0
  {
    var found := if c.Failed? then EPOLLERR else if c.Success? && c.handles >= 1 then AfdToEpoll(c.afdEvents) else 0;
    MaskedByNothing(found);
  }

  lemma {:induction false} MaskedByNothing(found: bv32)
    ensures found & 0 == 0
  {
  }

  /** What a socket asks for after an event of it was reported */
  lemma {:induction false} FedAsks(s: State, id: nat, c: Completion)
    requires id in s.socks && HasSlot(s.groups, s.socks[id].group) && Reported(s.socks[id], c) != 0
    ensures id in Fed(s, id, c).socks
    ensures Fed(s, id, c).socks[id].userEvents ==
      if Has(s.socks[id].userEvents, EPOLLONESHOT) then 0 else s.socks[id].userEvents
  {
  }

  lemma {:induction false} ClosingIsMonitored(events: bv32)
    ensures Has(EpollToAfd(events), AFD_POLL_LOCAL_CLOSE)
  {
  }

  /** Once an event has been reported for a one-shot socket, no other one is until its events are set
      again, but polls go on looking for the socket being closed; for other sockets the interest stays. */
  lemma {:induction false} OneShotSilences(s: State, id: nat, c: Completion, later: Completion)
    requires id in s.socks && HasSlot(s.groups, s.socks[id].group) && Reported(s.socks[id], c) != 0
    ensures id in Fed(s, id, c).socks
    ensures var x, y := s.socks[id], Fed(s, id, c).socks[id];
      && (Has(x.userEvents, EPOLLONESHOT) ==> Reported(y, later) == 0)
      && (!Has(x.userEvents, EPOLLONESHOT) ==> y.userEvents == x.userEvents)
      && Has(EpollToAfd(y.userEvents), AFD_POLL_LOCAL_CLOSE)
  {
    FedAsks(s, id, c);
    var y := Fed(s, id, c).socks[id];
    if y.userEvents == 0 {
      NothingAsked(y, later);
    }
    ClosingIsMonitored(y.userEvents);
  }

  /** Unless the kernel refuses, deleting a socket cancels its poll. */
  lemma {:induction false} DeleteCancels(s: State, id: nat, force: bool)
    requires Sound(s) && Live(s, id)
    ensures HasSlot(s.groups, s.socks[id].group)
    ensures id in Deleted(s, id, force, true).socks ==> Deleted(s, id, force, true).socks[id].status == Cancelled
  {
    HasItsSlot(s, id);
    RetireElsewhere(s, id, true);
  }

  ghost function Ids(batch: seq<(nat, Completion)>): multiset<nat> {
    if batch == [] then multiset{} else multiset{batch[0].0} + Ids(batch[1..])
  }

  lemma {:induction false} FeedFirst(s: State, batch: seq<(nat, Completion)>)
    requires Sound(s) && Tracked(s) && batch != [] && Ids(batch) <= s.dequeued
    ensures batch[0].0 in s.socks && HasSlot(s.groups, s.socks[batch[0].0].group)
    ensures var t := Fed(s, batch[0].0, batch[0].1);
      Requeued(s, t, batch[0].0) && t.dequeued == s.dequeued - multiset{batch[0].0} && Ids(batch[1..]) <= t.dequeued
  {
    assert Ids(batch)[batch[0].0] > 0;
    FeedKeeps(s, batch[0].0, batch[0].1);
  }

  /** One completion less: everything still holds, and attention too. */
  lemma {:induction false} FeedFirstKeeps(s: State, batch: seq<(nat, Completion)>)
    requires Sound(s) && Tracked(s) && Attentive(s) && batch != [] && Ids(batch) <= s.dequeued
    ensures batch[0].0 in s.socks && HasSlot(s.groups, s.socks[batch[0].0].group)
    ensures var t := Fed(s, batch[0].0, batch[0].1);
      && Sound(t) && Tracked(t) && Attentive(t) && t.activePolls == s.activePolls && t.polling == s.polling
      && t.closed == s.closed && t.failed == s.failed
      && t.dequeued == s.dequeued - multiset{batch[0].0} && Ids(batch[1..]) <= t.dequeued
  {
    FeedFirst(s, batch);
    AttentiveElsewhere(s, Fed(s, batch[0].0, batch[0].1), batch[0].0, {});
  }

  /** port__feed_events */
  ghost function FedAll(s: State, batch: seq<(nat, Completion)>): State
    requires Sound(s) && Tracked(s) && Ids(batch) <= s.dequeued
    decreases |batch|
  {
    if batch == [] then s
    else
      FeedFirst(s, batch);
      FedAll(Fed(s, batch[0].0, batch[0].1), batch[1..])
  }

  function Listed(e: Option<Event>): seq<Event> { if e.Some? then [e.value] else [] }

  /** The events it reports, in the order of the completions */
  ghost function FedEvents(s: State, batch: seq<(nat, Completion)>): seq<Event>
    requires Sound(s) && Tracked(s) && Ids(batch) <= s.dequeued
    decreases |batch|
  {
    if batch == [] then []
    else
      FeedFirst(s, batch);
      Listed(EventOf(s.socks[batch[0].0], batch[0].1)) + FedEvents(Fed(s, batch[0].0, batch[0].1), batch[1..])
  }

  /** One turn of its loop. */
  lemma {:induction false} FeedNext(s: State, batch: seq<(nat, Completion)>)
    requires Sound(s) && Tracked(s) && batch != [] && Ids(batch) <= s.dequeued
    ensures s.dequeued[batch[0].0] > 0 && batch[0].0 in s.socks && HasSlot(s.groups, s.socks[batch[0].0].group)
    ensures var t := Fed(s, batch[0].0, batch[0].1);
      && Sound(t) && Tracked(t) && Ids(batch[1..]) <= t.dequeued
      && FedAll(s, batch) == FedAll(t, batch[1..])
      && FedEvents(s, batch) == Listed(EventOf(s.socks[batch[0].0], batch[0].1)) + FedEvents(t, batch[1..])
  {
    assert Ids(batch)[batch[0].0] > 0;
    FeedFirst(s, batch);
  }

  /** The events of a batch if every socket is as it was before the first completion is fed */
  ghost function EventsOf(socks: map<nat, SockState>, batch: seq<(nat, Completion)>): seq<Event>
    requires forall i :: 0 <= i < |batch| ==> batch[i].0 in socks
  {
    if batch == [] then []
    else Listed(EventOf(socks[batch[0].0], batch[0].1)) + EventsOf(socks, batch[1..])
  }

  lemma {:induction false} InIds(batch: seq<(nat, Completion)>, i: nat)
    requires i < |batch|
    ensures Ids(batch)[batch[i].0] > 0
    ensures forall j :: 0 <= j < i && batch[j].0 == batch[i].0 ==> Ids(batch)[batch[i].0] > 1
  {
    if i > 0 {
      InIds(batch[1..], i - 1);
      assert batch[i] == batch[1..][i - 1];
      forall j | 0 <= j < i && batch[j].0 == batch[i].0
        ensures Ids(batch)[batch[i].0] > 1
      {
        if j > 0 { assert batch[j] == batch[1..][j - 1]; }
      }
    }
  }

  lemma {:induction false} SameEvents(a: map<nat, SockState>, b: map<nat, SockState>, batch: seq<(nat, Completion)>)
    requires forall i :: 0 <= i < |batch| ==> batch[i].0 in a && batch[i].0 in b && a[batch[i].0] == b[batch[i].0]
    ensures EventsOf(a, batch) == EventsOf(b, batch)
  {
    if batch != [] {
      SameEvents(a, b, batch[1..]);
    }
  }

  /** Every event reported is about the socket of its completion as it was before the batch, with that
      socket's own data: feeding one completion changes nothing for the others. */
  lemma {:induction false} EventsBelong(s: State, batch: seq<(nat, Completion)>)
    requires Sound(s) && Tracked(s) && Ids(batch) <= s.dequeued
    ensures forall i :: 0 <= i < |batch| ==> batch[i].0 in s.socks
    ensures FedEvents(s, batch) == EventsOf(s.socks, batch)
    decreases |batch|
  {
    if batch != [] {
      FeedFirst(s, batch);
      var t := Fed(s, batch[0].0, batch[0].1);
      EventsBelong(t, batch[1..]);
      OthersStay(s, t, batch);
      SameEvents(s.socks, t.socks, batch[1..]);
    }
  }

  lemma {:induction false} OthersStay(s: State, t: State, batch: seq<(nat, Completion)>)
    requires Tracked(s) && batch != [] && Ids(batch) <= s.dequeued && Elsewhere(s, t, batch[0].0)
    requires forall i :: 0 <= i < |batch[1..]| ==> batch[1..][i].0 in t.socks
    requires batch[0].0 in s.socks
    ensures forall i :: 0 <= i < |batch[1..]| ==>
      batch[1..][i].0 in s.socks && s.socks[batch[1..][i].0] == t.socks[batch[1..][i].0]
    ensures forall i :: 0 <= i < |batch| ==> batch[i].0 in s.socks
  {
    forall i | 0 <= i < |batch[1..]|
      ensures batch[1..][i].0 in s.socks && s.socks[batch[1..][i].0] == t.socks[batch[1..][i].0]
    {
      NotFirst(s, batch, i + 1);
    }
    forall i | 0 <= i < |batch|
      ensures batch[i].0 in s.socks
    {
      if i > 0 { assert batch[i] == batch[1..][i - 1]; }
    }
  }

  /** No socket has two completions in a batch. */
  lemma {:induction false} NotFirst(s: State, batch: seq<(nat, Completion)>, i: nat)
    requires Tracked(s) && Ids(batch) <= s.dequeued && 0 < i < |batch|
    ensures batch[i].0 != batch[0].0
  {
    InIds(batch, i);
    assert Ids(batch)[batch[i].0] <= s.dequeued[batch[i].0] <= s.outstanding[batch[i].0];
  }

  lemma {:induction false} FeedAllKeeps(s: State, batch: seq<(nat, Completion)>)
    requires Sound(s) && Tracked(s) && Attentive(s) && Ids(batch) <= s.dequeued
    ensures var t := FedAll(s, batch);
      && Sound(t) && Tracked(t) && Attentive(t) && t.dequeued == s.dequeued - Ids(batch)
      && t.activePolls == s.activePolls && t.polling == s.polling && t.closed == s.closed && t.failed == s.failed
    decreases |batch|
  {
    if batch != [] {
      FeedNext(s, batch);
      FeedFirstKeeps(s, batch);
      FeedAllKeeps(Fed(s, batch[0].0, batch[0].1), batch[1..]);
      TakenTogether(s.dequeued, multiset{batch[0].0}, Ids(batch[1..]));
    }
  }

  lemma {:induction false} TakenTogether(a: multiset<nat>, b: multiset<nat>, c: multiset<nat>)
    ensures a - b - c == a - (b + c)
  {
  }
}
