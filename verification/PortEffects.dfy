/** What the calls on an epoll port do, field by field, in terms of the state before and after only. */
module PortEffects {
  import opened Options
  import opened PollGroups
  import opened Port
  import opened PortInvariant
  import opened PortRuns

  /** The state `x` once it has been deleted but not freed; `cancels` says that its poll could be cancelled. */
  function Dead(x: SockState, cancels: bool): SockState {
    if x.deletePending then x
    else if x.status == Pending && cancels then x.(deletePending := true, status := Cancelled, pendingEvents := 0)
    else x.(deletePending := true)
  }

  /** Socket `id` has been deleted: it is out of the tree and the update queue, and freed if that was
      forced or no poll was outstanding; otherwise it is marked and in the deleted queue.  No other
      socket is touched. */
  ghost predicate Drops(s: State, t: State, id: nat, force: bool, cancels: bool)
    requires id in s.socks
  {
    var x := s.socks[id];
    var frees := force || x.status == Idle;
    && t.tree == (if x.deletePending then s.tree else s.tree - {x.key})
    && t.socks == (if frees then s.socks - {id} else s.socks[id := Dead(x, cancels)])
    && (forall j :: j in t.updateQueue <==> j in s.updateQueue && j != id)
    && (forall j :: j in t.deletedQueue <==> (if j == id then !frees else j in s.deletedQueue))
    && t == s.(tree := t.tree, socks := t.socks, updateQueue := t.updateQueue, deletedQueue := t.deletedQueue,
               groups := t.groups)
  }

  /** The first part: it is out of the tree and the update queue. */
  ghost predicate Leaves(s: State, t: State, id: nat, cancels: bool)
    requires id in s.socks
  {
    && t.tree == (if s.socks[id].deletePending then s.tree else s.tree - {s.socks[id].key})
    && t.socks == s.socks[id := Dead(s.socks[id], cancels)]
    && (forall j :: j in t.updateQueue <==> j in s.updateQueue && j != id)
    && t == s.(tree := t.tree, socks := t.socks, updateQueue := t.updateQueue)
  }

  lemma {:induction false} RetireLeaves(s: State, id: nat, cancels: bool)
    requires NoDuplicates(s.updateQueue) && NoDuplicates(s.deletedQueue) && id !in s.deletedQueue
    requires id in s.socks && !s.socks[id].deletePending && Consistent(s.socks[id])
    ensures Leaves(s, Retire(s, id, cancels), id, cancels)
  {
    RetiredIsDead(s, id, cancels);
    RetireElsewhere(s, id, cancels);
  }

  lemma {:induction false} RetiredIsDead(s: State, id: nat, cancels: bool)
    requires id in s.socks && !s.socks[id].deletePending
    ensures id in Retire(s, id, cancels).socks && Retire(s, id, cancels).socks[id] == Dead(s.socks[id], cancels)
  {
  }

  /** The second part: it is freed, */
  ghost predicate Frees(s: State, t: State, id: nat) {
    && t.socks == s.socks - {id}
    && (forall j :: j in t.updateQueue <==> j in s.updateQueue && j != id)
    && (forall j :: j in t.deletedQueue <==> j in s.deletedQueue && j != id)
    && t == s.(socks := t.socks, updateQueue := t.updateQueue, deletedQueue := t.deletedQueue, groups := t.groups)
  }

  lemma {:induction false} FreedFrees(s: State, id: nat)
    requires SoundBut(s, id) && HasSlot(s.groups, s.socks[id].group)
    ensures Frees(s, Freed(s, id), id)
  {
    UnqueueFacts(s, id);
  }

  /** or filed as deleted. */
  ghost predicate Files(s: State, t: State, id: nat) {
    && (forall j :: j in t.deletedQueue <==> j in s.deletedQueue || j == id)
    && t == s.(deletedQueue := t.deletedQueue)
  }

  lemma {:induction false} AddDeletedFiles(s: State, id: nat)
    requires SoundBut(s, id)
    ensures Files(s, AddDeleted(s, id), id)
  {
    if id !in s.deletedQueue {
      AppendFacts(s.deletedQueue, id);
    }
  }

  lemma {:induction false} LeavesAndFrees(s: State, t: State, u: State, id: nat, force: bool, cancels: bool)
    requires id in s.socks && Leaves(s, t, id, cancels) && Frees(t, u, id)
    requires force || s.socks[id].status == Idle
    ensures Drops(s, u, id, force, cancels)
  {
    assert s.socks[id := t.socks[id]] - {id} == s.socks - {id};
  }

  lemma {:induction false} LeavesAndFiles(s: State, t: State, u: State, id: nat, force: bool, cancels: bool)
    requires id in s.socks && Leaves(s, t, id, cancels) && Files(t, u, id)
    requires !force && s.socks[id].status != Idle
    ensures Drops(s, u, id, force, cancels)
  {
  }

  /** sock__delete */
  lemma {:induction false} DeleteDrops(s: State, id: nat, force: bool, cancels: bool)
    requires Sound(s) && id in s.socks
    ensures HasSlot(s.groups, s.socks[id].group)
    ensures Drops(s, Deleted(s, id, force, cancels), id, force, cancels)
  {
    HasItsSlot(s, id);
    var t := if s.socks[id].deletePending then s else Retire(s, id, cancels);
    if !s.socks[id].deletePending {
      RetireSound(s, id, cancels);
      RetireLeaves(s, id, cancels);
    }
    assert Leaves(s, t, id, cancels) && SoundBut(t, id);
    DeletedIs(s, t, id, force, cancels);
    if force || s.socks[id].status == Idle {
      FreedFrees(t, id);
      LeavesAndFrees(s, t, Freed(t, id), id, force, cancels);
    } else {
      AddDeletedFiles(t, id);
      LeavesAndFiles(s, t, AddDeleted(t, id), id, force, cancels);
    }
  }

  lemma {:induction false} DeletedIs(s: State, t: State, id: nat, force: bool, cancels: bool)
    requires id in s.socks && HasSlot(s.groups, s.socks[id].group) && id in t.socks
    requires t == if s.socks[id].deletePending then s else Retire(s, id, cancels)
    requires Leaves(s, t, id, cancels)
    ensures t.groups == s.groups && t.socks[id].group == s.socks[id].group
    ensures t.socks[id].status == Idle <==> s.socks[id].status == Idle
    ensures Deleted(s, id, force, cancels) ==
            if force || s.socks[id].status == Idle then Freed(t, id) else AddDeleted(t, id)
  {
  }

  // ---- sock_set_event, sock_update ---------------------------------------------------------

  /** A poll for `polled` covers all known events in `wanted`. */
  ghost predicate Covers(polled: bv32, wanted: bv32) { wanted & KNOWN_EPOLL_EVENTS & !polled == 0 }

  /** The user asks for `events` and gives `data`: errors and hang-ups are always asked for, what was
      asked for before is forgotten, and the socket is queued if its poll misses an event. */
  ghost predicate Asks(s: State, t: State, id: nat, events: bv32, data: nat)
    requires id in s.socks
  {
    var x, wanted := s.socks[id], events | EPOLLERR | EPOLLHUP;
    && t.socks == s.socks[id := x.(userEvents := wanted, userData := data)]
    && (forall j :: j in t.updateQueue <==>
          j in s.updateQueue || (j == id && !Covers(x.pendingEvents, wanted)))
    && t == s.(socks := t.socks, updateQueue := t.updateQueue)
  }

  lemma {:induction false} SetEventAsks(s: State, id: nat, events: bv32, data: nat)
    requires id in s.socks && id !in s.deletedQueue
    ensures Asks(s, SetEvent(s, id, events, data), id, events, data)
  {
    var x := s.socks[id].(userEvents := events | EPOLLERR | EPOLLHUP, userData := data);
    MissingIsUncovered(x);
    RequestAppends(SetSock(s, id, x), id);
  }

  lemma {:induction false} MissingIsUncovered(x: SockState)
    ensures x.Missing() <==> !Covers(x.pendingEvents, x.userEvents)
  {
  }

  lemma {:induction false} RequestAppends(s: State, id: nat)
    requires id !in s.deletedQueue
    ensures var t := Request(s, id);
      t == s.(updateQueue := t.updateQueue) && forall j :: j in t.updateQueue <==> j in s.updateQueue || j == id
  {
  }

  /** Socket `id` is off the update queue, and its status and poll are those of `x`. */
  ghost predicate Polls(s: State, t: State, id: nat, x: SockState) {
    && t.socks == s.socks[id := x]
    && (forall j :: j in t.updateQueue <==> j in s.updateQueue && j != id)
    && t == s.(socks := t.socks, updateQueue := t.updateQueue, outstanding := t.outstanding)
  }

  /** A queued socket has been updated: a poll is submitted for all that is asked for if there is none, and
      cancelled if it misses something; a closed socket is deleted, and an error changes nothing. */
  ghost predicate Updates(s: State, t: State, ok: bool, id: nat, k: Kernel)
    requires id in s.socks
  {
    var x := s.socks[id];
    match x.status
    case Pending =>
      if Covers(x.pendingEvents, x.userEvents) then
        ok && Polls(s, t, id, x) && t.outstanding == s.outstanding
      else if k.cancel(id) then
        ok && Polls(s, t, id, x.(status := Cancelled, pendingEvents := 0)) && t.outstanding == s.outstanding
      else !ok && t == s
    case Cancelled => ok && Polls(s, t, id, x) && t.outstanding == s.outstanding
    case Idle =>
      match k.submit(id)
      case Accepted =>
        && ok && Polls(s, t, id, x.(status := Pending, pendingEvents := x.userEvents))
        && t.outstanding == s.outstanding + multiset{id}
      case SocketClosed => ok && Drops(s, t, id, false, true)
      case OtherError => !ok && t == s
  }

  lemma {:induction false} UnqueuePolls(s: State, u: State, id: nat, x: SockState)
    requires id in s.socks && id !in s.deletedQueue && NoDuplicates(s.updateQueue) && NoDuplicates(s.deletedQueue)
    requires u == s.(socks := s.socks[id := x], outstanding := u.outstanding)
    ensures Polls(s, Unqueue(u, id), id, x) && Unqueue(u, id).outstanding == u.outstanding
  {
    UnqueueFacts(u, id);
    NotRemoved(u.deletedQueue, id);
  }

  /** sock_update */
  lemma {:induction false} UpdateUpdates(s: State, id: nat, k: Kernel)
    requires Sound(s) && Live(s, id)
    ensures HasSlot(s.groups, s.socks[id].group)
    ensures Updates(s, Updated(s, id, k).0, Updated(s, id, k).1, id, k)
  {
    HasItsSlot(s, id);
    var x := s.socks[id];
    assert id !in s.deletedQueue && s.socks[id := x] == s.socks;
    MissingIsUncovered(x);
    match x.status {
      case Pending =>
        UnqueuePolls(s, s, id, x);
        UnqueuePolls(s, CancelPoll(s, id), id, x.(status := Cancelled, pendingEvents := 0));
      case Cancelled =>
        UnqueuePolls(s, s, id, x);
      case Idle =>
        UnqueuePolls(s, Submitted(s, id), id, x.(status := Pending, pendingEvents := x.userEvents));
        DeleteDrops(s, id, false, true);
    }
  }

  /** An update walk keeps what the users asked for.  A socket leaves the tree only if the kernel says that
      it was closed, and keeps its state, but for its status and poll, if it stays. */
  ghost predicate Retains(s: State, t: State, k: Kernel) {
    && (forall j :: j in t.socks ==> j in s.socks && SameInterest(s.socks[j], t.socks[j]))
    && (forall h :: h in t.tree ==> h in s.tree && t.tree[h] == s.tree[h])
    && (forall h :: h in s.tree && k.submit(s.tree[h]) != SocketClosed ==> h in t.tree)
    && t.next == s.next
  }

  ghost predicate SameInterest(x: SockState, y: SockState) {
    y == x.(status := y.status, pendingEvents := y.pendingEvents)
  }

  lemma {:induction false} PollsRetains(s: State, t: State, id: nat, x: SockState, k: Kernel)
    requires id in s.socks && Polls(s, t, id, x) && SameInterest(s.socks[id], x)
    ensures Retains(s, t, k)
  {
  }

  lemma {:induction false} DropsRetains(s: State, t: State, id: nat, k: Kernel)
    requires Structure(s) && Live(s, id) && Drops(s, t, id, false, true) && s.socks[id].status == Idle
    requires k.submit(id) == SocketClosed
    ensures Retains(s, t, k)
  {
    assert s.tree[s.socks[id].key] == id;
  }

  lemma {:induction false} UpdateRetains(s: State, t: State, ok: bool, id: nat, k: Kernel)
    requires Structure(s) && Live(s, id) && Updates(s, t, ok, id, k)
    ensures Retains(s, t, k)
  {
    match s.socks[id].status {
      case Pending => PendingRetains(s, t, ok, id, k);
      case Cancelled => PollsRetains(s, t, id, s.socks[id], k);
      case Idle => IdleRetains(s, t, ok, id, k);
    }
  }

  lemma {:induction false} PendingRetains(s: State, t: State, ok: bool, id: nat, k: Kernel)
    requires id in s.socks && Updates(s, t, ok, id, k) && s.socks[id].status == Pending
    ensures Retains(s, t, k)
  {
    var x := s.socks[id];
    if Covers(x.pendingEvents, x.userEvents) {
      PollsRetains(s, t, id, x, k);
    } else if k.cancel(id) {
      PollsRetains(s, t, id, x.(status := Cancelled, pendingEvents := 0), k);
    } else {
      SameRetains(s, k);
    }
  }

  lemma {:induction false} IdleRetains(s: State, t: State, ok: bool, id: nat, k: Kernel)
    requires Structure(s) && Live(s, id) && Updates(s, t, ok, id, k) && s.socks[id].status == Idle
    ensures Retains(s, t, k)
  {
    var x := s.socks[id];
    match k.submit(id) {
      case Accepted => PollsRetains(s, t, id, x.(status := Pending, pendingEvents := x.userEvents), k);
      case SocketClosed => DropsRetains(s, t, id, k);
      case OtherError => SameRetains(s, k);
    }
  }

  lemma {:induction false} SameRetains(s: State, k: Kernel)
    ensures Retains(s, s, k)
  {
  }

  lemma {:induction false} RetainsChain(s: State, t: State, u: State, k: Kernel)
    requires Retains(s, t, k) && Retains(t, u, k)
    ensures Retains(s, u, k)
  {
  }

  /** port__update_events */
  lemma {:induction false} WalkRetains(s: State, k: Kernel)
    requires Sound(s) && Tracked(s)
    ensures Retains(s, UpdatedAll(s, k).0, k)
    decreases |s.updateQueue|
  {
    if s.updateQueue != [] {
      var id := s.updateQueue[0];
      assert id in s.updateQueue;
      UpdateNext(s, k);
      var (t, ok) := Updated(s, id, k);
      UpdateUpdates(s, id, k);
      UpdateRetains(s, t, ok, id, k);
      if ok {
        WalkRetains(t, k);
        RetainsChain(s, t, UpdatedAll(t, k).0, k);
      }
    }
  }

  lemma {:induction false} IfPollingRetains(s: State, k: Kernel)
    requires Sound(s) && Tracked(s)
    ensures Retains(s, UpdatedIfPolling(s, k), k) && (s.activePolls == 0 ==> UpdatedIfPolling(s, k) == s)
  {
    if s.activePolls > 0 {
      WalkRetains(s, k);
    }
  }

  // ---- sock_feed_event ---------------------------------------------------------------------

  /** The AFD events in `afd` show a socket event in `mask`. */
  ghost predicate Shows(afd: bv32, mask: bv32) {
    exists a :: IsAfdEvent(a) && Has(afd, a) && Has(AfdToEpoll(a), mask)
  }

  ghost predicate IsBit(mask: bv32) { mask != 0 && mask & (mask - 1) == 0 }

  /** What epoll_wait is to say about a socket that is alive, when its poll completed with AFD events:
      bit for bit what was asked for and shows; nothing if there is no such bit. */
  ghost predicate Tells(event: Option<Event>, x: SockState, afd: bv32) {
    && (event.None? <==> forall bit :: IsBit(bit) ==> !(Has(x.userEvents, bit) && Shows(afd, bit)))
    && (event.Some? ==>
      && event.value.data == x.userData
      && forall bit :: IsBit(bit) ==> (Has(event.value.events, bit) <==> Has(x.userEvents, bit) && Shows(afd, bit)))
  }

  /** The same for every way in which a poll may complete */
  ghost predicate Answers(event: Option<Event>, x: SockState, c: Completion) {
    if x.deletePending then event == None
    else
      match c
      case Aborted => event == None
      case Failed => event == if Has(x.userEvents, EPOLLERR) then Some(Event(EPOLLERR, x.userData)) else None
      case Success(handles, afd) =>
        if handles < 1 || Has(afd, AFD_POLL_LOCAL_CLOSE) then event == None else Tells(event, x, afd)
  }

  // Which AFD events each socket event shows

  lemma {:induction false} WhatShowsIn(afd: bv32)
    ensures Has(AfdToEpoll(afd), EPOLLIN) <==>
            Has(afd, AFD_POLL_RECEIVE | AFD_POLL_ACCEPT | AFD_POLL_DISCONNECT | AFD_POLL_CONNECT_FAIL)
    ensures Has(AfdToEpoll(afd), EPOLLRDNORM) <==>
            Has(afd, AFD_POLL_RECEIVE | AFD_POLL_ACCEPT | AFD_POLL_DISCONNECT | AFD_POLL_CONNECT_FAIL)
  {
  }

  lemma {:induction false} WhatShowsPri(afd: bv32)
    ensures Has(AfdToEpoll(afd), EPOLLPRI) <==> Has(afd, AFD_POLL_RECEIVE_EXPEDITED)
    ensures Has(AfdToEpoll(afd), EPOLLRDBAND) <==> Has(afd, AFD_POLL_RECEIVE_EXPEDITED)
  {
  }

  lemma {:induction false} WhatShowsOut(afd: bv32)
    ensures Has(AfdToEpoll(afd), EPOLLOUT) <==> Has(afd, AFD_POLL_SEND | AFD_POLL_CONNECT_FAIL)
    ensures Has(AfdToEpoll(afd), EPOLLWRNORM) <==> Has(afd, AFD_POLL_SEND | AFD_POLL_CONNECT_FAIL)
    ensures Has(AfdToEpoll(afd), EPOLLWRBAND) <==> Has(afd, AFD_POLL_SEND)
  {
  }

  lemma {:induction false} WhatShowsErr(afd: bv32)
    ensures Has(AfdToEpoll(afd), EPOLLERR) <==> Has(afd, AFD_POLL_CONNECT_FAIL)
    ensures Has(AfdToEpoll(afd), EPOLLHUP) <==> Has(afd, AFD_POLL_ABORT)
    ensures Has(AfdToEpoll(afd), EPOLLRDHUP) <==> Has(afd, AFD_POLL_DISCONNECT | AFD_POLL_CONNECT_FAIL)
    ensures AfdToEpoll(afd) & !(KNOWN_EPOLL_EVENTS & !EPOLLMSG) == 0
  {
  }

  /** No other event is monitored than these and the closing of the socket. */
  lemma {:induction false} NothingElseMonitored(events: bv32)
    ensures EpollToAfd(events) & !(AFD_POLL_RECEIVE | AFD_POLL_RECEIVE_EXPEDITED | AFD_POLL_SEND | AFD_POLL_DISCONNECT
                                   | AFD_POLL_ABORT | AFD_POLL_LOCAL_CLOSE | AFD_POLL_ACCEPT
                                   | AFD_POLL_CONNECT_FAIL) == 0
  {
  }

  /** What one AFD event of `afd` adds */
  function Part(afd: bv32, a: bv32): bv32 { if Has(afd, a) then AfdToEpoll(a) else 0 }

  lemma {:induction false} SumOfEvents(afd: bv32)
    ensures AfdToEpoll(afd) ==
      Part(afd, AFD_POLL_RECEIVE) | Part(afd, AFD_POLL_ACCEPT) | Part(afd, AFD_POLL_RECEIVE_EXPEDITED)
      | Part(afd, AFD_POLL_SEND) | Part(afd, AFD_POLL_DISCONNECT) | Part(afd, AFD_POLL_ABORT)
      | Part(afd, AFD_POLL_CONNECT_FAIL)
  {
  }

  lemma {:induction false} HasSum(a: bv32, b: bv32, c: bv32, d: bv32, e: bv32, f: bv32, g: bv32, mask: bv32)
    requires Has(a | b | c | d | e | f | g, mask)
    ensures Has(a, mask) || Has(b, mask) || Has(c, mask) || Has(d, mask) || Has(e, mask) || Has(f, mask)
         || Has(g, mask)
  {
  }

  lemma {:induction false} ShowsMore(afd: bv32, a: bv32, mask: bv32)
    requires IsAfdEvent(a) && Has(afd, a) && Has(AfdToEpoll(a), mask)
    ensures Has(AfdToEpoll(afd), mask)
  {
    PartOfSum(afd, a);
    HasMore(AfdToEpoll(a), AfdToEpoll(afd), mask);
  }

  lemma {:induction false} PartOfSum(afd: bv32, a: bv32)
    requires IsAfdEvent(a) && Has(afd, a)
    ensures AfdToEpoll(a) & !AfdToEpoll(afd) == 0
  {
  }

  lemma {:induction false} HasMore(a: bv32, b: bv32, mask: bv32)
    requires a & !b == 0 && Has(a, mask)
    ensures Has(b, mask)
  {
  }

  /** Translating a set of events is translating each of them. */
  lemma {:induction false} ShowsIff(afd: bv32, mask: bv32)
    ensures Shows(afd, mask) <==> Has(AfdToEpoll(afd), mask)
  {
    if Has(AfdToEpoll(afd), mask) {
      SumOfEvents(afd);
      HasSum(Part(afd, AFD_POLL_RECEIVE), Part(afd, AFD_POLL_ACCEPT), Part(afd, AFD_POLL_RECEIVE_EXPEDITED),
             Part(afd, AFD_POLL_SEND), Part(afd, AFD_POLL_DISCONNECT), Part(afd, AFD_POLL_ABORT),
             Part(afd, AFD_POLL_CONNECT_FAIL), mask);
      var a :| IsAfdEvent(a) && Has(Part(afd, a), mask);
      AddedShows(afd, a, mask);
    }
    if Shows(afd, mask) {
      var a :| IsAfdEvent(a) && Has(afd, a) && Has(AfdToEpoll(a), mask);
      ShowsMore(afd, a, mask);
    }
  }

  lemma {:induction false} AddedShows(afd: bv32, a: bv32, mask: bv32)
    requires Has(Part(afd, a), mask)
    ensures Has(afd, a) && Has(AfdToEpoll(a), mask)
  {
    if !Has(afd, a) {
      NothingShows(mask);
    }
  }

  lemma {:induction false} NothingShows(mask: bv32)
    ensures !Has(0, mask)
  {
  }

  lemma {:induction false} BothHave(a: bv32, b: bv32, bit: bv32)
    requires IsBit(bit)
    ensures Has(a & b, bit) <==> Has(a, bit) && Has(b, bit)
  {
  }

  lemma {:induction false} SomeBit(a: bv32) returns (bit: bv32)
    requires a != 0
    ensures IsBit(bit) && Has(a, bit)
  {
    bit := a & (0 - a);
    LowestBit(a);
  }

  lemma {:induction false} LowestBit(a: bv32)
    requires a != 0
    ensures IsBit(a & (0 - a)) && Has(a, a & (0 - a))
  {
  }

  /** sock_feed_event says this. */
  lemma {:induction false} FoundTells(x: SockState, afd: bv32)
    ensures var r := AfdToEpoll(afd) & x.userEvents;
      Tells(if r == 0 then None else Some(Event(r, x.userData)), x, afd)
  {
    var r := AfdToEpoll(afd) & x.userEvents;
    forall bit | IsBit(bit)
      ensures Has(r, bit) <==> Has(x.userEvents, bit) && Shows(afd, bit)
    {
      BothHave(AfdToEpoll(afd), x.userEvents, bit);
      ShowsIff(afd, bit);
    }
    if r == 0 {
      forall bit | IsBit(bit) ensures !Has(r, bit) { NothingShows(bit); }
    } else {
      var bit := SomeBit(r);
      BothHave(AfdToEpoll(afd), x.userEvents, bit);
      ShowsIff(afd, bit);
    }
  }

  lemma {:induction false} EventAnswers(x: SockState, c: Completion)
    ensures Answers(EventOf(x, c), x, c)
  {
    match c {
      case Aborted => MaskedNothing(x.userEvents);
      case Failed => OnlyFailure(x.userEvents);
      case Success(handles, afd) =>
        SuccessAnswers(x, handles, afd);
    }
  }

  lemma {:induction false} SuccessAnswers(x: SockState, handles: nat, afd: bv32)
    ensures Answers(EventOf(x, Success(handles, afd)), x, Success(handles, afd))
  {
    if handles < 1 {
      MaskedNothing(x.userEvents);
    } else if !x.deletePending && !Has(afd, AFD_POLL_LOCAL_CLOSE) {
      FoundTells(x, afd);
      assert Reported(x, Success(handles, afd)) == AfdToEpoll(afd) & x.userEvents;
    }
  }

  lemma {:induction false} MaskedNothing(wanted: bv32)
    ensures 0 & wanted == 0
  {
  }

  lemma {:induction false} OnlyFailure(wanted: bv32)
    ensures EPOLLERR & wanted == if Has(wanted, EPOLLERR) then EPOLLERR else 0
  {
  }

  /** A completion has been fed for socket `id`.  A socket that was being deleted or was closed is gone;
      any other one is idle, is queued for a new poll, and asks for nothing more if `event` used up its
      one shot.  The poll is accounted for, and no other socket is touched. */
  ghost predicate Feeds(s: State, t: State, id: nat, c: Completion, event: Option<Event>)
    requires id in s.socks
  {
    var x := s.socks[id];
    var gone := x.deletePending || (c.Success? && c.handles >= 1 && Has(c.afdEvents, AFD_POLL_LOCAL_CLOSE));
    var wanted := if event.Some? && Has(x.userEvents, EPOLLONESHOT) then 0 else x.userEvents;
    && t.tree == (if gone && !x.deletePending then s.tree - {x.key} else s.tree)
    && t.socks == (if gone then s.socks - {id}
                   else s.socks[id := x.(status := Idle, pendingEvents := 0, userEvents := wanted)])
    && (forall j :: j in t.updateQueue <==> (if j == id then !gone else j in s.updateQueue))
    && (forall j :: j in t.deletedQueue <==> (if gone then j in s.deletedQueue && j != id else j in s.deletedQueue))
    && t.outstanding == s.outstanding - multiset{id} && t.dequeued == s.dequeued - multiset{id}
    && t == s.(tree := t.tree, socks := t.socks, updateQueue := t.updateQueue, deletedQueue := t.deletedQueue,
               groups := t.groups, outstanding := t.outstanding, dequeued := t.dequeued)
  }

  lemma {:induction false} FedClosedFeeds(s: State, id: nat, c: Completion)
    requires Sound(s) && Tracked(s) && s.dequeued[id] > 0 && id in s.socks && HasSlot(s.groups, s.socks[id].group)
    requires s.socks[id].deletePending || Closes(c)
    ensures Feeds(s, FedClosed(s, id), id, c, None)
  {
    SettleKeeps(s, id);
    DeleteDrops(Settled(s, id), id, false, true);
    SettleDrops(s, Settled(s, id), FedClosed(s, id), id, c);
  }

  lemma {:induction false} SettleDrops(s: State, u: State, t: State, id: nat, c: Completion)
    requires id in s.socks && (s.socks[id].deletePending || Closes(c)) && u == Settled(s, id)
    requires Drops(u, t, id, false, true)
    ensures Feeds(s, t, id, c, None)
  {
    assert s.socks[id := u.socks[id]] - {id} == s.socks - {id};
  }

  lemma {:induction false} FedOpenFeeds(s: State, id: nat, c: Completion, event: Option<Event>)
    requires Structure(s) && Live(s, id) && !Closes(c)
    ensures Feeds(s, FedOpen(s, id, event.Some? && Has(s.socks[id].userEvents, EPOLLONESHOT)), id, c, event)
  {
    RequestAppends(Settled(s, id), id);
  }

  /** sock_feed_event */
  lemma {:induction false} FedFeeds(s: State, id: nat, c: Completion)
    requires Sound(s) && Tracked(s) && s.dequeued[id] > 0
    ensures id in s.socks && HasSlot(s.groups, s.socks[id].group)
    ensures Feeds(s, Fed(s, id, c), id, c, EventOf(s.socks[id], c))
  {
    FedExists(s, id);
    FedIs(s, id, c);
    if s.socks[id].deletePending || Closes(c) {
      FedClosedFeeds(s, id, c);
    } else {
      FedOpenFeeds(s, id, c, EventOf(s.socks[id], c));
    }
  }

  lemma {:induction false} FedIs(s: State, id: nat, c: Completion)
    requires id in s.socks && HasSlot(s.groups, s.socks[id].group)
    ensures var x, event := s.socks[id], EventOf(s.socks[id], c);
      if x.deletePending || Closes(c) then Fed(s, id, c) == FedClosed(s, id) && event == None
      else Fed(s, id, c) == FedOpen(s, id, event.Some? && Has(x.userEvents, EPOLLONESHOT))
  {
  }

  // ---- epoll_ctl ---------------------------------------------------------------------------

  /** A socket can be added if it is a valid one that is not known yet and memory does not run out; a new
      group is needed if 32 socket states share each of the others. */
  ghost predicate CanAdd(s: State, key: nat, env: Resources) {
    && key != 0 && key != INVALID_SOCKET && env.hasBaseSocket && env.allocates && key !in s.tree
    && (env.createsGroup || |s.socks| < MAX_GROUP_SIZE * |s.groups|)
  }

  /** `s` with a new socket state that asks for `events` */
  function WithNew(s: State, key: nat, group: nat, events: bv32, data: nat): State {
    s.(socks := s.socks[s.next := SockState(key, group, data, events | EPOLLERR | EPOLLHUP, 0, Idle, false)],
       tree := s.tree[key := s.next], next := s.next + 1)
  }

  /** `s` with other events asked for */
  function WithEvents(s: State, id: nat, events: bv32, data: nat): State
    requires id in s.socks
  {
    s.(socks := s.socks[id := s.socks[id].(userEvents := events | EPOLLERR | EPOLLHUP, userData := data)])
  }

  lemma {:induction false} CanAddIff(s: State, key: nat, env: Resources)
    requires Sound(s)
    ensures Created(s, key, env).1.Some? <==> CanAdd(s, key, env)
    ensures Created(s, key, env).1.Some? ==> Created(s, key, env).1 == Some(s.next)
  {
    NeedsGroupIffFull(s.groups);
    TotalBounds(s.groups);
  }

  lemma {:induction false} CreatedIsNew(s: State, key: nat, env: Resources)
    requires Created(s, key, env).1.Some?
    ensures var (t, id) := Created(s, key, env);
      exists group: nat ::
        && t.socks == s.socks[s.next := SockState(key, group, 0, 0, 0, Idle, false)]
        && t.tree == s.tree[key := s.next] && t.next == s.next + 1 && id == Some(s.next)
        && t.activePolls == s.activePolls
  {
    var group := Acquired(s.groups, env.createsGroup).1.value;
    assert Created(s, key, env).0.socks == s.socks[s.next := SockState(key, group, 0, 0, 0, Idle, false)];
  }

  lemma {:induction false} NewAsks(s: State, t: State, u: State, key: nat, group: nat, events: bv32, data: nat)
    requires t.socks == s.socks[s.next := SockState(key, group, 0, 0, 0, Idle, false)]
    requires t.tree == s.tree[key := s.next] && t.next == s.next + 1 && Asks(t, u, s.next, events, data)
    ensures var v := WithNew(s, key, group, events, data);
      u.socks == v.socks && u.tree == v.tree && u.next == v.next
  {
  }

  /** EPOLL_CTL_ADD: whatever the update walk does, the socket is in the tree and asks for the events
      given, unless the kernel says that it was closed; the others keep what they ask for. */
  lemma {:induction false} AddRetains(s: State, key: nat, events: bv32, data: nat, env: Resources, k: Kernel)
    returns (group: nat)
    requires Inv(s) && CanAdd(s, key, env)
    ensures Retains(WithNew(s, key, group, events, data), PortRuns.Next(s, Add(key, events, data, env, k)), k)
  {
    CanAddIff(s, key, env);
    CreatedIsNew(s, key, env);
    CreateKeeps(s, key, env);
    var t := Created(s, key, env).0;
    group :| t.socks == s.socks[s.next := SockState(key, group, 0, 0, 0, Idle, false)];
    var u := AddedUpdates(t, s.next, events, data, k);
    NewAsks(s, t, u, key, group, events, data);
    RetainsFrom(u, WithNew(s, key, group, events, data), UpdatedIfPolling(u, k), k);
  }

  /** The end of port__ctl_add and port__ctl_mod */
  lemma {:induction false} AddedUpdates(t: State, id: nat, events: bv32, data: nat, k: Kernel) returns (u: State)
    requires Sound(t) && Tracked(t) && AttentiveBut(t, {id}) && Live(t, id)
    ensures u == SetEvent(t, id, events, data) && Sound(u) && Tracked(u) && Asks(t, u, id, events, data)
    ensures Retains(u, UpdatedIfPolling(u, k), k) && (u.activePolls == 0 ==> UpdatedIfPolling(u, k) == u)
  {
    SetEventKeeps(t, id, events, data);
    SetEventAsks(t, id, events, data);
    u := SetEvent(t, id, events, data);
    IfPollingRetains(u, k);
  }

  lemma {:induction false} RetainsFrom(s: State, s': State, t: State, k: Kernel)
    requires Retains(s, t, k) && s'.socks == s.socks && s'.tree == s.tree && s'.next == s.next
    ensures Retains(s', t, k)
  {
  }

  /** The sockets in the tree stay there, unless the kernel says that they were closed. */
  ghost predicate Stay(s: State, t: State, k: Kernel) {
    forall h :: h in s.tree && k.submit(s.tree[h]) != SocketClosed ==> h in t.tree && t.tree[h] == s.tree[h]
  }

  /** What the caller sees of it */
  lemma {:induction false} AddSeen(s: State, t: State, key: nat, group: nat, events: bv32, data: nat, k: Kernel)
    requires Retains(WithNew(s, key, group, events, data), t, k) && key !in s.tree
    ensures Stay(s, t, k)
    ensures key in t.tree ==> t.tree[key] == s.next
    ensures k.submit(s.next) != SocketClosed ==> key in t.tree
    ensures s.next in t.socks ==> AskedFor(t.socks[s.next], key, events, data)
    ensures forall j :: j in t.socks && j != s.next ==> j in s.socks && SameInterest(s.socks[j], t.socks[j])
  {
  }

  /** The socket asks for these events, and errors and hang-ups. */
  ghost predicate AskedFor(x: SockState, key: nat, events: bv32, data: nat) {
    x.key == key && !x.deletePending && x.userEvents == events | EPOLLERR | EPOLLHUP && x.userData == data
  }

  lemma {:induction false} ModifySeen(s: State, t: State, key: nat, events: bv32, data: nat, k: Kernel)
    requires Structure(s) && key in s.tree && Retains(WithEvents(s, s.tree[key], events, data), t, k)
    ensures Stay(s, t, k)
    ensures key in t.tree ==> t.tree[key] == s.tree[key]
    ensures k.submit(s.tree[key]) != SocketClosed ==> key in t.tree
    ensures s.tree[key] in t.socks ==> AskedFor(t.socks[s.tree[key]], key, events, data)
    ensures forall j :: j in t.socks && j != s.tree[key] ==> j in s.socks && SameInterest(s.socks[j], t.socks[j])
  {
  }

  /** A failed one leaves all sockets as they were. */
  lemma {:induction false} AddFails(s: State, key: nat, events: bv32, data: nat, env: Resources, k: Kernel)
    requires Inv(s) && !CanAdd(s, key, env)
    ensures var t := PortRuns.Next(s, Add(key, events, data, env, k));
      t == s.(groups := t.groups, failed := t.failed)
  {
    CanAddIff(s, key, env);
    CreateKeeps(s, key, env);
  }

  /** EPOLL_CTL_MOD */
  lemma {:induction false} ModifyRetains(s: State, key: nat, events: bv32, data: nat, k: Kernel)
    requires Inv(s) && key in s.tree
    ensures var t := PortRuns.Next(s, Modify(key, events, data, k));
      && Retains(WithEvents(s, s.tree[key], events, data), t, k)
      && (s.activePolls == 0 ==> Asks(s, t, s.tree[key], events, data))
  {
    var id := s.tree[key];
    var u := AddedUpdates(s, id, events, data, k);
    RetainsFrom(u, WithEvents(s, id, events, data), UpdatedIfPolling(u, k), k);
  }

  /** EPOLL_CTL_DEL */
  lemma {:induction false} DropDrops(s: State, key: nat, cancels: bool)
    requires Inv(s) && key in s.tree
    ensures Drops(s, PortRuns.Next(s, Drop(key, cancels)), s.tree[key], false, cancels)
  {
    DeleteDrops(s, s.tree[key], false, cancels);
  }

  /** The head of port__poll: once nothing is left to update, the thread counts as waiting. */
  lemma {:induction false} PolledRetains(s: State, thread: nat, k: Kernel, k2: Kernel)
    requires Sound(s) && Tracked(s) && Attentive(s) && UpdatedAll(s, k).1
    ensures var t := Polled(s, thread, k, k2);
      && Retains(s, t, k) && t.updateQueue == []
      && t.activePolls == s.activePolls + 1 && t.polling == s.polling + {thread}
  {
    UpdateAllKeeps(s, k);
    WalkRetains(s, k);
    RetainsTo(s, UpdatedAll(s, k).0, Polled(s, thread, k, k2), k);
  }

  lemma {:induction false} RetainsTo(s: State, u: State, t: State, k: Kernel)
    requires Retains(s, u, k) && t.socks == u.socks && t.tree == u.tree && t.next == u.next
    ensures Retains(s, t, k)
  {
  }

  /** If an update fails the thread does not wait, and port_wait tries again for those that do. */
  lemma {:induction false} PolledFails(s: State, thread: nat, k: Kernel, k2: Kernel)
    requires Sound(s) && Tracked(s) && Attentive(s) && !UpdatedAll(s, k).1
    ensures var t := Polled(s, thread, k, k2);
      && t.activePolls == s.activePolls && t.polling == s.polling
      && (s.activePolls > 0 && Reliable(k2) ==> t.updateQueue == [])
  {
    UpdateAllKeeps(s, k);
    IfPollingKeeps(UpdatedAll(s, k).0, k2);
  }

  /** The end of port__poll and port_wait: the completions have been fed, and the thread waits again if it
      is to and nothing fails. */
  lemma {:induction false} WakeEffect(s: State, thread: nat, ok: bool, batch: seq<(nat, Completion)>, again: bool,
                                      k: Kernel, k2: Kernel)
    requires Inv(s) && Enabled(s, Wake(thread, ok, batch, again, k, k2))
    ensures var t := PortRuns.Next(s, Wake(thread, ok, batch, again, k, k2));
      && (again && Reliable(k) ==> thread in t.polling && t.activePolls == s.activePolls && t.updateQueue == [])
      && (!again ==> thread !in t.polling && t.activePolls == s.activePolls - 1)
      && (!again && t.activePolls > 0 && Reliable(k2) ==> t.updateQueue == [])
  {
    WakeKeeps(s, thread, batch, again, k, k2);
    FeedAllKeeps(Awake(s, thread), batch);
    var u := FedAll(Awake(s, thread), batch);
    assert thread in s.polling && |s.polling| > 0;
    if again {
      UpdateAllKeeps(u, k);
      if UpdatedAll(u, k).1 {
        PolledRetains(u, thread, k, k2);
      }
    } else {
      IfPollingKeeps(u, k2);
    }
  }
}
