/** port_state_t and sock_state_t of src/lib/wepoll.c as they are updated in place.  Every method
    runs with the port lock held and is proved against the functions of Port and PortInvariant. */
module PortObject {
  import opened Options
  import opened PollGroups
  import opened Port
  import opened PortInvariant
  import opened PortRuns
  import opened PortEffects

  class EpollPort {
    var socks: map<nat, SockState>
    var tree: map<nat, nat>
    var updateQueue: seq<nat>
    var deletedQueue: seq<nat>
    const groups: Allocator
    var activePolls: nat
    var next: nat
    var closed: bool
    ghost var failed: bool
    ghost var polling: set<nat>
    ghost var outstanding: multiset<nat>
    ghost var dequeued: multiset<nat>

    ghost function Value(): State
      reads this, groups
    {
      State(socks, tree, updateQueue, deletedQueue, groups.queue, activePolls, polling, outstanding, dequeued, next,
            closed, failed)
    }

    /** port_new */
    constructor ()
      ensures Value() == INITIAL && fresh(groups)
    {
      socks, tree, updateQueue, deletedQueue, activePolls, next, closed := map[], map[], [], [], 0, 0, false;
      groups := new Allocator();
      failed, polling, outstanding, dequeued := false, {}, multiset{}, multiset{};
    }

    /** port_close up to the point where it gives up the lock: the handle becomes NULL. */
    method PortClose()
      requires Inv(Value()) && !closed
      modifies `closed
      ensures Value() == Next(old(Value()), Close)
    {
      ghost var s := Value();
      assert Next(s, Close) == s.(closed := true);
      closed := true;
    }

    /** port_get_iocp_handle as poll_group_acquire reaches it: its assertion is recorded. */
    method AssertOpen()
      modifies `failed
      ensures Value() == Asserted(old(Value()))
    {
      if NeedsGroup(groups.queue) && closed {
        failed := true;
      }
    }

    /** port_request_socket_update */
    method RequestSocketUpdate(id: nat)
      modifies this
      ensures Value() == Request(old(Value()), id)
    {
      if id in updateQueue || id in deletedQueue {
        return;
      }
      updateQueue := updateQueue + [id];
    }

    /** port_cancel_socket_update, port_remove_deleted_socket */
    method TakeOffQueue(id: nat)
      modifies this
      ensures Value() == Unqueue(old(Value()), id)
    {
      if id !in updateQueue && id !in deletedQueue {
        return;
      }
      updateQueue, deletedQueue := Remove(updateQueue, id), Remove(deletedQueue, id);
    }

    /** port_add_deleted_socket */
    method AddDeletedSocket(id: nat)
      modifies this
      ensures Value() == AddDeleted(old(Value()), id)
    {
      if id in updateQueue || id in deletedQueue {
        return;
      }
      deletedQueue := deletedQueue + [id];
    }

    /** The first part of sock__delete, for a socket that is not being deleted yet. */
    method SockRetire(id: nat, cancels: bool)
      requires id in socks
      modifies this
      ensures Value() == Retire(old(Value()), id, cancels)
    {
      if socks[id].status == Pending && cancels {
        SetFields(id, socks[id].(status := Cancelled, pendingEvents := 0));
      }
      TakeOffQueue(id);
      LeaveTree(id);
    }

    method LeaveTree(id: nat)
      requires id in socks
      modifies `tree, `socks
      ensures var s := old(Value());
        Value() == s.(tree := s.tree - {s.socks[id].key},
                      socks := s.socks[id := s.socks[id].(deletePending := true)])
    {
      tree := tree - {socks[id].key};
      socks := socks[id := socks[id].(deletePending := true)];
    }

    /** The end of sock__delete: the state is freed. */
    method SockFree(id: nat)
      requires id in socks && Ordered(groups.queue) && HasSlot(groups.queue, socks[id].group)
      modifies this, groups
      ensures Value() == Freed(old(Value()), id)
    {
      TakeOffQueue(id);
      groups.ReleaseSlot(socks[id].group);
      socks := socks - {id};
    }

    /** sock__delete */
    method SockDelete(id: nat, force: bool, cancels: bool)
      requires Sound(Value()) && id in socks
      modifies this, groups
      ensures HasSlot(old(groups.queue), old(socks[id].group))
      ensures Value() == Deleted(old(Value()), id, force, cancels)
    {
      DeleteReady(Value(), id, force, cancels);
      if !socks[id].deletePending {
        SockRetire(id, cancels);
      }
      if force || socks[id].status == Idle {
        SockFree(id);
      } else {
        AddDeletedSocket(id);
      }
    }

    /** An update of the fields of one socket state. */
    method SetFields(id: nat, x: SockState)
      requires id in socks
      modifies `socks
      ensures Value() == SetSock(old(Value()), id, x)
    {
      socks := socks[id := x];
    }

    /** sock_set_event */
    method SockSetEvent(id: nat, events: bv32, data: nat)
      requires id in socks
      modifies this
      ensures Value() == SetEvent(old(Value()), id, events, data)
      ensures id !in old(deletedQueue) ==> Asks(old(Value()), Value(), id, events, data)
    {
      if id !in deletedQueue {
        SetEventAsks(Value(), id, events, data);
      }
      var x := socks[id].(userEvents := events | EPOLLERR | EPOLLHUP, userData := data);
      SetFields(id, x);
      if x.Missing() {
        RequestSocketUpdate(id);
      }
    }

    /** sock_update */
    method SockUpdate(id: nat, k: Kernel) returns (ok: bool)
      requires Sound(Value()) && id in socks && !socks[id].deletePending
      modifies this, groups
      ensures HasSlot(old(groups.queue), old(socks[id].group))
      ensures (Value(), ok) == Updated(old(Value()), id, k)
      ensures Updates(old(Value()), Value(), ok, id, k)
    {
      HasItsSlot(Value(), id);
      ghost var s, u := Value(), Updated(Value(), id, k);
      UpdateUpdates(s, id, k);
      assert Updates(s, u.0, u.1, id, k);
      ok := SockUpdateNow(id, k);
      assert (Value(), ok) == u;
    }

    /** Its branches */
    method SockUpdateNow(id: nat, k: Kernel) returns (ok: bool)
      requires Sound(Value()) && id in socks && HasSlot(groups.queue, socks[id].group)
      modifies this, groups
      ensures HasSlot(old(groups.queue), old(socks[id].group))
      ensures (Value(), ok) == Updated(old(Value()), id, k)
    {
      var x := socks[id];
      ok := true;
      if x.status == Pending && !x.Missing() {
        TakeOffQueue(id);
      } else if x.status == Pending {
        if !k.cancel(id) {
          return false;
        }
        SetFields(id, x.(status := Cancelled, pendingEvents := 0));
        TakeOffQueue(id);
      } else if x.status == Cancelled {
        TakeOffQueue(id);
      } else {
        ok := SockSubmit(id, k);
      }
    }

    /** The last branch: no poll is pending, so one is started. */
    method SockSubmit(id: nat, k: Kernel) returns (ok: bool)
      requires Sound(Value()) && id in socks && HasSlot(groups.queue, socks[id].group) && socks[id].status == Idle
      modifies this, groups
      ensures HasSlot(old(groups.queue), old(socks[id].group))
      ensures (Value(), ok) == Updated(old(Value()), id, k)
    {
      var answer := k.submit(id);
      ok := true;
      if answer == SocketClosed {
        SockDelete(id, false, true);
      } else if answer == OtherError {
        ok := false;
      } else {
        SubmitPoll(id);
        TakeOffQueue(id);
      }
    }

    method SubmitPoll(id: nat)
      requires id in socks
      modifies this
      ensures Value() == Submitted(old(Value()), id)
    {
      outstanding := outstanding + multiset{id};
      SetFields(id, socks[id].(status := Pending, pendingEvents := socks[id].userEvents));
    }

    /** The first assignments of sock_feed_event. */
    method Settle(id: nat)
      requires id in socks
      modifies this
      ensures Value() == Settled(old(Value()), id)
    {
      SetFields(id, socks[id].(status := Idle, pendingEvents := 0));
      outstanding, dequeued := outstanding - multiset{id}, dequeued - multiset{id};
    }

    /** sock_feed_event for a socket that is being deleted or was closed */
    method FeedClosed(id: nat)
      requires id in socks && Sound(Settled(Value(), id)) && HasSlot(groups.queue, socks[id].group)
      modifies this, groups
      ensures HasSlot(old(groups.queue), old(socks[id].group)) && Value() == FedClosed(old(Value()), id)
    {
      Settle(id);
      SockDelete(id, false, true);
    }

    /** sock_feed_event for a socket that lives on; `once` if its one shot has been used up */
    method FeedOpen(id: nat, once: bool)
      requires id in socks
      modifies this
      ensures Value() == FedOpen(old(Value()), id, once)
    {
      Settle(id);
      RequestSocketUpdate(id);
      if once {
        SetFields(id, socks[id].(userEvents := 0));
      }
    }

    /** sock_feed_event: the event put into the caller's array, if any. */
    method SockFeedEvent(id: nat, c: Completion) returns (event: Option<Event>)
      requires Sound(Value()) && Tracked(Value()) && dequeued[id] > 0
      modifies this, groups
      ensures id in old(socks) && HasSlot(old(groups.queue), old(socks[id].group))
      ensures Value() == Fed(old(Value()), id, c) && event == EventOf(old(socks[id]), c)
      ensures Answers(event, old(socks[id]), c) && Feeds(old(Value()), Value(), id, c, event)
    {
      FeedReady(Value(), id);
      ghost var s, x, t := Value(), socks[id], Fed(Value(), id, c);
      EventAnswers(x, c);
      FedFeeds(s, id, c);
      assert Answers(EventOf(x, c), x, c) && Feeds(s, t, id, c, EventOf(x, c));
      event := SockFeedNow(id, c);
      assert Value() == t && event == EventOf(x, c);
    }

    /** Its branches */
    method SockFeedNow(id: nat, c: Completion) returns (event: Option<Event>)
      requires id in socks && HasSlot(groups.queue, socks[id].group) && Sound(Settled(Value(), id))
      modifies this, groups
      ensures HasSlot(old(groups.queue), old(socks[id].group))
      ensures Value() == Fed(old(Value()), id, c) && event == EventOf(old(socks[id]), c)
    {
      var x := socks[id];
      if x.deletePending || Closes(c) {
        FeedClosed(id);
        return None;
      }
      var events := Reported(x, c);
      FeedOpen(id, events != 0 && Has(x.userEvents, EPOLLONESHOT));
      event := if events == 0 then None else Some(Event(events, x.userData));
    }

    /** port__update_events: walks the update queue until it is empty or an update fails. */
    method UpdateEvents(k: Kernel) returns (ok: bool)
      requires Sound(Value()) && Tracked(Value())
      modifies this, groups
      ensures (Value(), ok) == UpdatedAll(old(Value()), k)
      ensures ok ==> updateQueue == []
    {
      while updateQueue != []
        invariant Sound(Value()) && Tracked(Value())
        invariant UpdatedAll(Value(), k) == UpdatedAll(old(Value()), k)
        decreases |updateQueue|
      {
        ghost var s := Value();
        UpdateNext(s, k);
        ok := SockUpdate(updateQueue[0], k);
        if !ok {
          return;
        }
      }
      ok := true;
    }

    /** port__feed_events: the events put into the caller's array. */
    method FeedEvents(batch: seq<(nat, Completion)>) returns (events: seq<Event>)
      requires Sound(Value()) && Tracked(Value()) && Ids(batch) <= dequeued
      modifies this, groups
      ensures Value() == FedAll(old(Value()), batch) && events == FedEvents(old(Value()), batch)
    {
      events := [];
      var i := 0;
      assert Feeding(Progress(Value(), batch, [], Value(), batch));
      ghost var s, rest := Value(), batch;
      while i < |batch|
        invariant 0 <= i <= |batch| && rest == batch[i..] && Feeding(Progress(s, batch, events, Value(), rest))
      {
        events := FeedOne(batch[i], events, s, batch, rest);
        i, rest := i + 1, rest[1..];
      }
    }

    /** One turn of its loop, `rest` being what is left to be fed */
    method FeedOne(c: (nat, Completion), events: seq<Event>, ghost s: State, ghost batch: seq<(nat, Completion)>,
                   ghost rest: seq<(nat, Completion)>)
      returns (more: seq<Event>)
      requires Feeding(Progress(s, batch, events, Value(), rest)) && rest != [] && rest[0] == c
      modifies this, groups
      ensures Feeding(Progress(s, batch, more, Value(), rest[1..]))
    {
      FeedNext(Value(), rest);
      var event := SockFeedEvent(c.0, c.1);
      more := if event.Some? then events + [event.value] else events;
      Regroup(events, Listed(event), FedEvents(Value(), rest[1..]));
      assert more == events + Listed(event);
    }

    /** sock_new */
    method SockNew(key: nat, env: Resources) returns (id: Option<nat>)
      requires Sound(Value())
      modifies this, groups
      ensures (Value(), id) == Created(old(Value()), key, env)
      ensures id == if CanAdd(old(Value()), key, env) then Some(old(next)) else None
    {
      CanAddIff(Value(), key, env);
      if key == 0 || key == INVALID_SOCKET {
        return None;
      }
      if !env.hasBaseSocket {
        return None;
      }
      AssertOpen();
      id := SockRegister(key, env);
    }

    /** The rest of sock_new */
    method SockRegister(key: nat, env: Resources) returns (id: Option<nat>)
      requires Ordered(groups.queue)
      modifies this, groups
      ensures (Value(), id) == Registered(old(Value()), key, env)
    {
      AcquireKeeps(groups.queue, env.createsGroup);
      var group := groups.AcquireSlot(env.createsGroup);
      if group == None {
        return None;
      }
      id := SockPlace(key, group.value, env.allocates);
    }

    /** What it does once it has a slot, port_register_socket */
    method SockPlace(key: nat, group: nat, allocates: bool) returns (id: Option<nat>)
      requires Ordered(groups.queue) && HasSlot(groups.queue, group)
      modifies this, groups
      ensures (Value(), id) == Placed(old(Value()), key, group, allocates)
    {
      if !allocates || key in tree {
        groups.ReleaseSlot(group);
        return None;
      }
      id := Some(next);
      tree := tree[key := next];
      socks := socks[next := SockState(key, group, 0, 0, 0, Idle, false)];
      next := next + 1;
    }

    /** port__update_events_if_polling */
    method UpdateEventsIfPolling(k: Kernel)
      requires Sound(Value()) && Tracked(Value())
      modifies this, groups
      ensures Value() == UpdatedIfPolling(old(Value()), k)
    {
      if activePolls > 0 {
        var _ := UpdateEvents(k);
      }
    }

    /** The end of port__ctl_add and port__ctl_mod */
    method SetAndUpdate(id: nat, events: bv32, data: nat, k: Kernel)
      requires Sound(Value()) && Tracked(Value()) && AttentiveBut(Value(), {id}) && Live(Value(), id)
      modifies this, groups
      ensures Sound(SetEvent(old(Value()), id, events, data)) && Tracked(SetEvent(old(Value()), id, events, data))
      ensures Value() == UpdatedIfPolling(SetEvent(old(Value()), id, events, data), k)
    {
      SetEventKeeps(Value(), id, events, data);
      SockSetEvent(id, events, data);
      UpdateEventsIfPolling(k);
    }

    /** port__ctl_add */
    method CtlAdd(key: nat, events: bv32, data: nat, env: Resources, k: Kernel) returns (r: int)
      requires Inv(Value())
      modifies this, groups
      ensures Value() == Next(old(Value()), Add(key, events, data, env, k))
      ensures r == if CanAdd(old(Value()), key, env) then 0 else -1
      ensures r == 0 ==>
        && (k.submit(old(next)) != SocketClosed ==> key in tree) && (key in tree ==> tree[key] == old(next))
        && (old(next) in socks ==> AskedFor(socks[old(next)], key, events, data))
        && Stay(old(Value()), Value(), k)
        && forall j :: j in socks && j != old(next) ==> j in old(socks) && SameInterest(old(socks)[j], socks[j])
      ensures r == -1 ==> socks == old(socks) && tree == old(tree) && updateQueue == old(updateQueue)
    {
      AddEffect(Value(), key, events, data, env, k);
      CreateKeeps(Value(), key, env);
      var id := SockNew(key, env);
      if id == None {
        return -1;
      }
      SetAndUpdate(id.value, events, data, k);
      r := 0;
    }

    /** port__ctl_mod */
    method CtlMod(key: nat, events: bv32, data: nat, k: Kernel) returns (r: int)
      requires Inv(Value())
      modifies this, groups
      ensures Value() == Next(old(Value()), Modify(key, events, data, k))
      ensures r == if key in old(tree) then 0 else -1
      ensures r == 0 ==>
        var id := old(tree)[key];
        && (k.submit(id) != SocketClosed ==> key in tree) && (key in tree ==> tree[key] == id)
        && (id in socks ==> AskedFor(socks[id], key, events, data))
        && Stay(old(Value()), Value(), k)
        && (forall j :: j in socks && j != id ==> j in old(socks) && SameInterest(old(socks)[j], socks[j]))
        && (old(activePolls) == 0 ==> Asks(old(Value()), Value(), id, events, data))
      ensures r == -1 ==> Value() == old(Value())
    {
      ModifyEffect(Value(), key, events, data, k);
      if key !in tree {
        return -1;
      }
      SetAndUpdate(tree[key], events, data, k);
      r := 0;
    }

    /** port__ctl_del */
    method CtlDel(key: nat, cancels: bool) returns (r: int)
      requires Inv(Value())
      modifies this, groups
      ensures Value() == Next(old(Value()), Drop(key, cancels))
      ensures r == if key in old(tree) then 0 else -1
      ensures tree == old(tree) - {key}
      ensures r == 0 ==>
        var id, x := old(tree)[key], old(socks)[old(tree)[key]];
        && socks == (if x.status == Idle then old(socks) - {id} else old(socks)[id := Dead(x, cancels)])
        && (forall j :: j in updateQueue <==> j in old(updateQueue) && j != id)
        && (forall j :: j in deletedQueue <==> j in old(deletedQueue) || (j == id && x.status != Idle))
      ensures r == -1 ==> Value() == old(Value())
    {
      if key !in tree {
        NothingDropped(tree, key);
        return -1;
      }
      DropEffect(Value(), key, cancels);
      DropSock(key, cancels);
      r := 0;
    }

    /** sock_delete for a socket in the tree */
    method DropSock(key: nat, cancels: bool)
      requires Inv(Value()) && key in tree
      modifies this, groups
      ensures Value() == Next(old(Value()), Drop(key, cancels))
    {
      SockDelete(tree[key], false, cancels);
    }

    /** active_poll_count++ and active_poll_count-- around the wait */
    method EnterWait(ghost thread: nat)
      modifies `activePolls, `polling
      ensures var s := old(Value());
        Value() == s.(activePolls := s.activePolls + 1, polling := s.polling + {thread})
    {
      activePolls := activePolls + 1;
      polling := polling + {thread};
    }

    method LeaveWait(ghost thread: nat)
      modifies `activePolls, `polling
      ensures Value() == Awake(old(Value()), thread)
    {
      activePolls := if activePolls > 0 then activePolls - 1 else 0;
      polling := polling - {thread};
    }

    /** port__poll up to the point where it gives up the lock; on failure the rest of port_wait.
        True if the thread is waiting now. */
    method PollEnter(ghost thread: nat, k: Kernel, k2: Kernel) returns (waits: bool)
      requires Sound(Value()) && Tracked(Value()) && Attentive(Value())
      modifies this, groups
      ensures Value() == Polled(old(Value()), thread, k, k2)
      ensures waits == UpdatedAll(old(Value()), k).1
    {
      ghost var u := UpdatedAll(Value(), k);
      UpdateAllSound(Value(), k);
      assert Sound(u.0) && Tracked(u.0);
      waits := UpdateEvents(k);
      assert (Value(), waits) == u;
      WaitUnlessFailed(waits, thread, k2);
    }

    method WaitUnlessFailed(waits: bool, ghost thread: nat, k2: Kernel)
      requires Sound(Value()) && Tracked(Value())
      modifies this, groups
      ensures var t := old(Value());
        Value() == if waits then t.(activePolls := t.activePolls + 1, polling := t.polling + {thread})
                   else UpdatedIfPolling(t, k2)
    {
      if waits {
        EnterWait(thread);
      } else {
        UpdateEventsIfPolling(k2);
      }
    }

    /** port__poll from where it has the lock back, and port_wait from there on: `expired` says
        whether the time is up. */
    method PollLeave(ghost thread: nat, ok: bool, batch: seq<(nat, Completion)>, expired: bool, k: Kernel, k2: Kernel)
      returns (events: seq<Event>)
      requires Inv(Value()) && thread in polling && Ids(batch) <= dequeued && (!ok ==> batch == [])
      modifies this, groups
      ensures Sound(Awake(old(Value()), thread)) && Tracked(Awake(old(Value()), thread))
      ensures events == FedEvents(Awake(old(Value()), thread), batch)
      ensures var again := ok && events == [] && !expired;
        var step := Wake(thread, ok, batch, again, k, k2);
        Enabled(old(Value()), step) && Value() == Next(old(Value()), step)
    {
      AwakeKeeps(Value(), thread);
      LeaveWait(thread);
      FeedAllKeeps(Value(), batch);
      events := FeedEvents(batch);
      if ok && |events| == 0 && !expired {
        var _ := PollEnter(thread, k, k2);
      } else {
        UpdateEventsIfPolling(k2);
      }
    }

    /** One sock_force_delete of port_delete: the state is gone, every other one stays. */
    method ForceDelete(id: nat, cancels: bool, ghost freed: seq<nat>, ghost all: set<nat>)
      requires Sound(Value()) && id in socks && Freeing(Value(), freed, all)
      modifies this, groups
      ensures Sound(Value()) && Freeing(Value(), freed + [id], all)
      ensures forall j :: j in socks <==> j in old(socks) && j != id
      ensures forall j :: j in deletedQueue <==> j in old(deletedQueue) && j != id
      ensures tree.Keys <= old(tree.Keys)
    {
      DeleteSound(Value(), id, true, cancels);
      DeletedTree(Value(), id, cancels);
      AppendFacts(freed, id);
      SockDelete(id, true, cancels);
    }

    /** port_delete.  `freed` lists the socket states in the order in which they are freed. */
    method PortDelete(k: Kernel) returns (ghost freed: seq<nat>)
      requires Sound(Value())
      modifies this, groups
      ensures NoDuplicates(freed) && forall id :: id in freed <==> id in old(socks)
      ensures socks == map[] && tree == map[] && updateQueue == [] && deletedQueue == [] && groups.queue == []
    {
      ghost var all := socks.Keys;
      freed := DeleteLive(k, all);
      freed := DeletePending(k, freed, all);
      NothingLeft(Value());
      DeleteGroups();
    }

    /** The third one: all poll groups, whose slots must all have been released. */
    method DeleteGroups()
      requires forall i :: 0 <= i < |groups.queue| ==> groups.queue[i].size == 0
      modifies groups
      ensures groups.queue == []
    {
      while groups.queue != []
        invariant forall i :: 0 <= i < |groups.queue| ==> groups.queue[i].size == 0
        decreases |groups.queue|
      {
        groups.Drop();
      }
    }

    /** The first loop of port_delete: everything in the tree. */
    method DeleteLive(k: Kernel, ghost all: set<nat>) returns (ghost freed: seq<nat>)
      requires Sound(Value()) && all == socks.Keys
      modifies this, groups
      ensures Sound(Value()) && Freeing(Value(), freed, all) && tree == map[]
    {
      freed := [];
      while tree != map[]
        invariant Sound(Value()) && Freeing(Value(), freed, all)
        decreases |socks|
      {
        ghost var before := socks.Keys;
        var key :| key in tree;
        var id := tree[key];
        ForceDelete(id, k.cancel(id), freed, all);
        freed := freed + [id];
        Fewer(before, socks.Keys, id);
      }
    }

    /** The second one: everything in the deleted queue. */
    method DeletePending(k: Kernel, ghost gone: seq<nat>, ghost all: set<nat>) returns (ghost freed: seq<nat>)
      requires Sound(Value()) && Freeing(Value(), gone, all) && tree == map[]
      modifies this, groups
      ensures Sound(Value()) && Freeing(Value(), freed, all) && tree == map[] && deletedQueue == []
    {
      freed := gone;
      while deletedQueue != []
        invariant Sound(Value()) && Freeing(Value(), freed, all) && tree == map[]
        decreases |socks|
      {
        freed := DeletePendingFirst(k, freed, all);
      }
    }

    /** One turn of it */
    method DeletePendingFirst(k: Kernel, ghost gone: seq<nat>, ghost all: set<nat>) returns (ghost freed: seq<nat>)
      requires Sound(Value()) && Freeing(Value(), gone, all) && tree == map[] && deletedQueue != []
      modifies this, groups
      ensures Sound(Value()) && Freeing(Value(), freed, all) && tree == map[] && |socks| < |old(socks)|
    {
      ghost var before := socks.Keys;
      var id := deletedQueue[0];
      assert id in deletedQueue;
      ForceDelete(id, k.cancel(id), gone, all);
      freed := gone + [id];
      assert tree.Keys == {};
      Fewer(before, socks.Keys, id);
    }
  }

  // What the calls of epoll_ctl do, as PortEffects says it

  lemma {:induction false} AddEffect(s: State, key: nat, events: bv32, data: nat, env: Resources, k: Kernel)
    requires Inv(s)
    ensures var t := PortRuns.Next(s, Add(key, events, data, env, k));
      if CanAdd(s, key, env) then
        && (k.submit(s.next) != SocketClosed ==> key in t.tree) && (key in t.tree ==> t.tree[key] == s.next)
        && (s.next in t.socks ==> AskedFor(t.socks[s.next], key, events, data))
        && Stay(s, t, k)
        && forall j :: j in t.socks && j != s.next ==> j in s.socks && SameInterest(s.socks[j], t.socks[j])
      else t.socks == s.socks && t.tree == s.tree && t.updateQueue == s.updateQueue
    ensures Created(s, key, env).1.Some? <==> CanAdd(s, key, env)
  {
    CanAddIff(s, key, env);
    if CanAdd(s, key, env) {
      var group := AddRetains(s, key, events, data, env, k);
      AddSeen(s, PortRuns.Next(s, Add(key, events, data, env, k)), key, group, events, data, k);
    } else {
      AddFails(s, key, events, data, env, k);
    }
  }

  lemma {:induction false} ModifyEffect(s: State, key: nat, events: bv32, data: nat, k: Kernel)
    requires Inv(s)
    ensures var t := PortRuns.Next(s, Modify(key, events, data, k));
      if key in s.tree then
        var id := s.tree[key];
        && (k.submit(id) != SocketClosed ==> key in t.tree) && (key in t.tree ==> t.tree[key] == id)
        && (id in t.socks ==> AskedFor(t.socks[id], key, events, data))
        && Stay(s, t, k)
        && (forall j :: j in t.socks && j != id ==> j in s.socks && SameInterest(s.socks[j], t.socks[j]))
        && (s.activePolls == 0 ==> Asks(s, t, id, events, data))
      else t == s
  {
    if key in s.tree {
      ModifyRetains(s, key, events, data, k);
      ModifySeen(s, PortRuns.Next(s, Modify(key, events, data, k)), key, events, data, k);
    }
  }

  lemma {:induction false} NothingDropped(tree: map<nat, nat>, key: nat)
    requires key !in tree
    ensures tree - {key} == tree
  {
  }

  lemma {:induction false} DropEffect(s: State, key: nat, cancels: bool)
    requires Inv(s) && key in s.tree
    ensures var t, id, x := PortRuns.Next(s, Drop(key, cancels)), s.tree[key], s.socks[s.tree[key]];
      && t.tree == s.tree - {key}
      && t.socks == (if x.status == Idle then s.socks - {id} else s.socks[id := Dead(x, cancels)])
      && (forall j :: j in t.updateQueue <==> j in s.updateQueue && j != id)
      && (forall j :: j in t.deletedQueue <==> j in s.deletedQueue || (j == id && x.status != Idle))
  {
    DropDrops(s, key, cancels);
    assert Live(s, s.tree[key]) && s.tree[key] !in s.deletedQueue;
  }

  /** Every one of the states `all` is either allocated or has been freed, once. */
  ghost predicate Freeing(s: State, freed: seq<nat>, all: set<nat>) {
    && NoDuplicates(freed)
    && (forall id :: id in freed ==> id !in s.socks)
    && (forall id :: id in all <==> id in s.socks || id in freed)
  }

  /** Feeding `batch` to `s` has reported `events` and led to `t`; `rest` is still to be fed. */
  datatype Progress = Progress(
    s: State, batch: seq<(nat, Completion)>, events: seq<Event>, t: State, rest: seq<(nat, Completion)>)

  ghost predicate Feeding(p: Progress) {
    match p
    case Progress(s, batch, events, t, rest) =>
      && Sound(s) && Tracked(s) && Ids(batch) <= s.dequeued
      && Sound(t) && Tracked(t) && Ids(rest) <= t.dequeued
      && FedAll(s, batch) == FedAll(t, rest)
      && FedEvents(s, batch) == events + FedEvents(t, rest)
  }

  lemma {:induction false} Regroup(a: seq<Event>, b: seq<Event>, c: seq<Event>)
    ensures a + (b + c) == (a + b) + c
  {
  }

  lemma {:induction false} DeletedTree(s: State, id: nat, cancels: bool)
    requires id in s.socks && HasSlot(s.groups, s.socks[id].group)
    ensures Deleted(s, id, true, cancels).tree.Keys <= s.tree.Keys
  {
  }

  lemma {:induction false} HasMember(q: seq<nat>)
    ensures q == [] || exists id :: id in q
  {
    if q != [] {
      assert q[0] in q;
    }
  }

  lemma {:induction false} Fewer(before: set<nat>, after: set<nat>, id: nat)
    requires id in before && forall j :: j in after <==> j in before && j != id
    ensures |after| < |before|
  {
    assert after == before - {id};
  }

  /** Once the tree and the deleted queue are empty there is no state left, no update is queued and
      every poll group is empty. */
  lemma {:induction false} NothingLeft(s: State)
    requires Sound(s) && s.tree == map[] && s.deletedQueue == []
    ensures s.socks == map[] && s.updateQueue == []
    ensures forall i :: 0 <= i < |s.groups| ==> s.groups[i].size == 0
  {
    assert |s.socks| == 0;
    HasMember(s.updateQueue);
    ZeroTotal(s.groups);
  }
}
