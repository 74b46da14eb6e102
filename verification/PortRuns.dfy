/** Every run of an epoll port: calls of epoll_ctl and epoll_wait by any number of threads, and the
    kernel's doings, in any order.  The port lock makes each of the steps below one; epoll_wait is
    two, as the lock is free while a thread waits for completions. */
module PortRuns {
  import opened Options
  import opened PollGroups
  import opened Port
  import opened PortInvariant

  datatype Step =
    | Add(key: nat, events: bv32, data: nat, env: Resources, k: Kernel)
    | Modify(key: nat, events: bv32, data: nat, k: Kernel)
    | Drop(key: nat, cancels: bool)
      // port_close, by the thread that closes the handle; others may still be at work on the port
    | Close
      // a thread enters port__poll; `k2` answers the update on the way out if the first one fails
    | Wait(thread: nat, k: Kernel, k2: Kernel)
      // completions are taken off the completion port, lock free
    | Take(ids: multiset<nat>)
      // a thread returns from waiting; `ok` unless it timed out or failed; `again` if it goes on waiting
    | Wake(thread: nat, ok: bool, batch: seq<(nat, Completion)>, again: bool, k: Kernel, k2: Kernel)

  /** The head of port__poll, and the end of port_wait should it fail. */
  ghost function Polled(s: State, thread: nat, k: Kernel, k2: Kernel): State
    requires Sound(s) && Tracked(s) && Attentive(s)
  {
    UpdateAllKeeps(s, k);
    var (t, ok) := UpdatedAll(s, k);
    if ok then t.(activePolls := t.activePolls + 1, polling := t.polling + {thread})
    else UpdatedIfPolling(t, k2)
  }

  ghost function Awake(s: State, thread: nat): State {
    s.(activePolls := if s.activePolls > 0 then s.activePolls - 1 else 0, polling := s.polling - {thread})
  }

  /** What the caller and the kernel may do next: each submitted poll completes at most once. */
  ghost predicate Enabled(s: State, step: Step)
    requires Inv(s)
  {
    match step
    case Wait(thread, _, _) => thread !in s.polling
    case Take(ids) => s.dequeued + ids <= s.outstanding
    case Wake(thread, ok, batch, again, _, _) =>
      && thread in s.polling
      && (!ok ==> batch == [] && !again)
      && Ids(batch) <= s.dequeued
      && (AwakeKeeps(s, thread); again ==> FedEvents(Awake(s, thread), batch) == [])
    case Close => !s.closed
    case _ => true
  }

  ghost function Next(s: State, step: Step): State
    requires Inv(s) && Enabled(s, step)
  {
    match step
    case Add(key, events, data, env, k) =>
      CreateKeeps(s, key, env);
      var (t, id) := Created(s, key, env);
      if id.None? then t
      else
        SetEventKeeps(t, id.value, events, data);
        UpdatedIfPolling(SetEvent(t, id.value, events, data), k)
    case Modify(key, events, data, k) =>
      if key !in s.tree then s
      else
        SetEventKeeps(s, s.tree[key], events, data);
        UpdatedIfPolling(SetEvent(s, s.tree[key], events, data), k)
    case Drop(key, cancels) =>
      if key !in s.tree then s
      else
        HasItsSlot(s, s.tree[key]);
        Deleted(s, s.tree[key], false, cancels)
    case Close => s.(closed := true)
    case Wait(thread, k, k2) => Polled(s, thread, k, k2)
    case Take(ids) => s.(dequeued := s.dequeued + ids)
    case Wake(thread, ok, batch, again, k, k2) =>
      AwakeKeeps(s, thread);
      FeedAllKeeps(Awake(s, thread), batch);
      var t := FedAll(Awake(s, thread), batch);
      if again then Polled(t, thread, k, k2) else UpdatedIfPolling(t, k2)
  }

  // ---- sock_new and sock_set_event ---------------------------------------------------------

  lemma {:induction false} AcquireReleaseSizes(q: seq<Group>, creates: bool, h: nat)
    requires Ordered(q) && Acquired(q, creates).1.Some?
    ensures var (r, g) := Acquired(q, creates);
      && HasSlot(r, g.value) && Ordered(Released(r, g.value))
      && Total(Released(r, g.value)) == Total(q) && SizeOf(Released(r, g.value), h) == SizeOf(q, h)
  {
    var (r, g) := Acquired(q, creates);
    AcquireKeeps(q, creates);
    AcquireSizes(q, creates, h);
    ReleaseKeeps(r, g.value);
    ReleaseSizes(r, g.value, h);
  }

  /** A failed sock_new leaves nothing behind but perhaps an empty or reordered group. */
  lemma {:induction false} FailedCreateKeeps(s: State, creates: bool)
    requires Sound(s) && Acquired(s.groups, creates).1.Some?
    ensures var (r, g) := Acquired(s.groups, creates);
      HasSlot(r, g.value) && Sound(s.(groups := Released(r, g.value)))
  {
    var (r, g) := Acquired(s.groups, creates);
    AcquireReleaseSizes(s.groups, creates, 0);
    var t := s.(groups := Released(r, g.value));
    forall h: nat
      ensures SizeOf(t.groups, h) == |Members(t, h)|
    {
      AcquireReleaseSizes(s.groups, creates, h);
      assert Members(t, h) == Members(s, h);
    }
    assert forall j :: Live(t, j) <==> Live(s, j);
    assert Structure(t);
  }

  lemma {:induction false} MembersWith(s: State, t: State, id: nat, x: SockState, h: nat)
    requires id !in s.socks && t.socks == s.socks[id := x]
    ensures |Members(t, h)| == |Members(s, h)| + (if x.group == h then 1 else 0)
  {
    if x.group == h {
      assert id !in Members(s, h);
      assert Members(t, h) == Members(s, h) + {id};
    } else {
      assert Members(t, h) == Members(s, h);
    }
  }

  lemma {:induction false} NewSockGrouped(s: State, t: State, x: SockState, creates: bool)
    requires Grouped(s) && Total(s.groups) == |s.socks| && s.next !in s.socks
    requires Acquired(s.groups, creates) == (t.groups, Some(x.group)) && t.socks == s.socks[s.next := x]
    ensures Grouped(t) && Total(t.groups) == |t.socks| == |s.socks| + 1
  {
    AcquireKeeps(s.groups, creates);
    OneMore(s.socks, s.next, x);
    NewSockSizes(s, t, x, creates);
  }

  lemma {:induction false} OneMore(socks: map<nat, SockState>, id: nat, x: SockState)
    requires id !in socks
    ensures |socks[id := x]| == |socks| + 1
  {
    assert socks[id := x].Keys == socks.Keys + {id};
    assert |socks[id := x].Keys| == |socks.Keys| + 1;
  }

  lemma {:induction false} NewSockSizes(s: State, t: State, x: SockState, creates: bool)
    requires Grouped(s) && s.next !in s.socks
    requires Acquired(s.groups, creates) == (t.groups, Some(x.group)) && t.socks == s.socks[s.next := x]
    ensures forall h: nat :: SizeOf(t.groups, h) == |Members(t, h)|
  {
    forall h: nat
      ensures SizeOf(t.groups, h) == |Members(t, h)|
    {
      AcquireSizes(s.groups, creates, h);
      MembersWith(s, t, s.next, x, h);
    }
  }

  /** `t` is `s` with a new socket state under `key`. */
  ghost predicate Extended(s: State, t: State, key: nat, group: nat) {
    t == s.(groups := t.groups, tree := s.tree[key := s.next], next := s.next + 1,
            socks := s.socks[s.next := SockState(key, group, 0, 0, 0, Idle, false)])
  }

  lemma {:induction false} NewSockStructure(s: State, t: State, key: nat, group: nat)
    requires Structure(s) && s.next !in s.socks && key !in s.tree && Extended(s, t, key, group)
    ensures Structure(t)
  {
    assert forall j :: j != s.next ==> (Live(t, j) <==> Live(s, j));
  }

  lemma {:induction false} NewSockElsewhere(s: State, t: State, key: nat, group: nat)
    requires Extended(s, t, key, group)
    ensures Elsewhere(s, t, s.next) && Live(t, s.next)
  {
  }

  lemma {:induction false} NewSockSound(s: State, t: State, key: nat, creates: bool, group: nat)
    requires Sound(s) && key !in s.tree && Acquired(s.groups, creates) == (t.groups, Some(group))
    requires Extended(s, t, key, group)
    ensures Sound(t) && Elsewhere(s, t, s.next) && Live(t, s.next)
  {
    assert s.next !in s.socks;
    NewSockGrouped(s, t, t.socks[s.next], creates);
    assert |t.tree| == |s.tree| + 1 by {
      assert t.tree.Keys == s.tree.Keys + {key};
      assert |t.tree.Keys| == |s.tree.Keys| + 1;
    }
    NewSockStructure(s, t, key, group);
    NewSockElsewhere(s, t, key, group);
  }

  lemma {:induction false} NewSockKeeps(s: State, t: State, key: nat, creates: bool, group: nat)
    requires Sound(s) && Tracked(s) && Attentive(s) && key !in s.tree
    requires Acquired(s.groups, creates) == (t.groups, Some(group)) && Extended(s, t, key, group)
    ensures Sound(t) && Tracked(t) && AttentiveBut(t, {s.next}) && Live(t, s.next)
  {
    NewSockSound(s, t, key, creates, group);
    assert s.next !in s.socks;
    TrackedElsewhere(s, t, s.next);
  }

  lemma {:induction false} FailedCreateSettles(s: State, creates: bool)
    requires Sound(s) && Tracked(s) && Attentive(s) && Acquired(s.groups, creates).1.Some?
    ensures var (r, g) := Acquired(s.groups, creates);
      HasSlot(r, g.value) &&
      var t := s.(groups := Released(r, g.value));
      Sound(t) && Tracked(t) && Attentive(t)
  {
    FailedCreateKeeps(s, creates);
  }

  lemma {:induction false} RegisterFailsKeeps(s: State, key: nat, env: Resources)
    requires Sound(s) && Tracked(s) && Attentive(s) && Registered(s, key, env).1.None?
    ensures var t := Registered(s, key, env).0;
      Sound(t) && Tracked(t) && Attentive(t) && t == s.(groups := t.groups)
  {
    if Acquired(s.groups, env.createsGroup).1.Some? {
      FailedCreateSettles(s, env.createsGroup);
    }
  }

  lemma {:induction false} RegisterSucceedsKeeps(s: State, key: nat, env: Resources)
    requires Sound(s) && Tracked(s) && Attentive(s) && Registered(s, key, env).1.Some?
    ensures var (t, id) := Registered(s, key, env);
      && Sound(t) && Tracked(t) && AttentiveBut(t, {id.value}) && Live(t, id.value)
      && t.activePolls == s.activePolls && t.polling == s.polling && t.updateQueue == s.updateQueue
      && t.closed == s.closed && t.failed == s.failed
  {
    var t := Registered(s, key, env).0;
    NewSockKeeps(s, t, key, env.createsGroup, Acquired(s.groups, env.createsGroup).1.value);
  }

  /** The flags are of no concern to the rest. */
  lemma {:induction false} FlagsOnly(s: State, t: State)
    requires Sound(s) && Tracked(s) && Attentive(s) && t == s.(closed := t.closed, failed := t.failed)
    ensures Sound(t) && Tracked(t) && Attentive(t)
  {
    SameGroups(s, t);
    assert forall j :: Live(t, j) <==> Live(s, j);
  }

  /** An attempt to add a socket that reaches the assertion after the completion port has gone */
  ghost predicate MissesPort(s: State, key: nat, env: Resources) {
    s.closed && Creatable(key, env) && NeedsGroup(s.groups)
  }

  /** sock_new either fails, changing at most the order or number of the groups, or adds a live
      socket that is not queued for an update yet. */
  lemma {:induction false} CreateKeeps(s: State, key: nat, env: Resources)
    requires Sound(s) && Tracked(s) && Attentive(s)
    ensures var (t, id) := Created(s, key, env);
      && Sound(t) && Tracked(t) && t.activePolls == s.activePolls && t.polling == s.polling
      && t.updateQueue == s.updateQueue
      && (id.None? ==> Attentive(t) && t == s.(groups := t.groups, failed := t.failed))
      && (id.Some? ==> AttentiveBut(t, {id.value}) && Live(t, id.value))
      && t.closed == s.closed && (t.failed <==> s.failed || MissesPort(s, key, env))
  {
    if Creatable(key, env) {
      var u := Asserted(s);
      FlagsOnly(s, u);
      if Registered(u, key, env).1.None? {
        RegisterFailsKeeps(u, key, env);
      } else {
        RegisterSucceedsKeeps(u, key, env);
      }
    }
  }

  lemma {:induction false} AlwaysAsked(events: bv32)
    ensures (events | EPOLLERR | EPOLLHUP) & KNOWN_EPOLL_EVENTS & !0 != 0
    ensures AsksForErrors(events | EPOLLERR | EPOLLHUP)
  {
  }

  lemma {:induction false} SetFieldsKeeps(s: State, id: nat, x: SockState)
    requires Sound(s) && Tracked(s) && id in s.socks
    requires x == s.socks[id].(userEvents := x.userEvents, userData := x.userData) && AsksForErrors(x.userEvents)
    ensures var t := SetSock(s, id, x);
      Sound(t) && Tracked(t) && Elsewhere(s, t, id) && t.updateQueue == s.updateQueue
  {
    SetSockSound(s, id, x);
    TrackedElsewhere(s, SetSock(s, id, x), id);
  }

  lemma {:induction false} SetEventKeeps(s: State, id: nat, events: bv32, data: nat)
    requires Sound(s) && Tracked(s) && AttentiveBut(s, {id}) && Live(s, id)
    ensures var t := SetEvent(s, id, events, data);
      Sound(t) && Tracked(t) && Attentive(t) && Elsewhere(s, t, id)
  {
    AlwaysAsked(events);
    FieldsSetKeeps(s, id, s.socks[id].(userEvents := events | EPOLLERR | EPOLLHUP, userData := data));
  }

  lemma {:induction false} FieldsSetKeeps(s: State, id: nat, x: SockState)
    requires Sound(s) && Tracked(s) && AttentiveBut(s, {id}) && Live(s, id)
    requires x == s.socks[id].(userEvents := x.userEvents, userData := x.userData)
    requires AsksForErrors(x.userEvents) && (x.Missing() || !Needy(x))
    ensures var t := if x.Missing() then Request(SetSock(s, id, x), id) else SetSock(s, id, x);
      Sound(t) && Tracked(t) && Attentive(t) && Elsewhere(s, t, id)
  {
    SetFieldsKeeps(s, id, x);
    var u := SetSock(s, id, x);
    if x.Missing() {
      RequestKeeps(u, id);
      ElsewhereChain(s, u, Request(u, id), id);
      AttentiveElsewhere(s, Request(u, id), id, {});
    } else {
      AttentiveElsewhere(s, u, id, {});
    }
  }

  lemma {:induction false} AwakeKeeps(s: State, thread: nat)
    requires Inv(s)
    ensures var t := Awake(s, thread);
      && Sound(t) && Tracked(t) && Attentive(t)
      && (thread in s.polling ==> t.activePolls == |t.polling|)
  {
    WaitersOnly(s, Awake(s, thread));
  }

  /** Who waits is of no concern to the rest. */
  lemma {:induction false} WaitersOnly(s: State, t: State)
    requires Sound(s) && Tracked(s) && Attentive(s) && t == s.(activePolls := t.activePolls, polling := t.polling)
    ensures Sound(t) && Tracked(t) && Attentive(t)
  {
    SameGroups(s, t);
    assert forall j :: Live(t, j) <==> Live(s, j);
  }

  // ---- one step ----------------------------------------------------------------------------

  lemma {:induction false} IfPollingKeeps(s: State, k: Kernel)
    requires Sound(s) && Tracked(s) && Attentive(s)
    ensures var t := UpdatedIfPolling(s, k);
      && Sound(t) && Tracked(t) && Attentive(t)
      && t.activePolls == s.activePolls && t.polling == s.polling && t.closed == s.closed && t.failed == s.failed
      && (Reliable(k) && s.activePolls > 0 ==> t.updateQueue == [])
      && (s.activePolls == 0 ==> t == s)
  {
    UpdateAllKeeps(s, k);
  }

  lemma {:induction false} PolledKeeps(s: State, thread: nat, k: Kernel, k2: Kernel)
    requires Sound(s) && Tracked(s) && Attentive(s) && s.activePolls == |s.polling| && thread !in s.polling
    ensures Inv(Polled(s, thread, k, k2))
    ensures Reliable(k) ==> Polled(s, thread, k, k2).updateQueue == []
  {
    UpdateAllKeeps(s, k);
    var (t, ok) := UpdatedAll(s, k);
    if ok {
      EnterKeeps(t, thread);
    } else {
      IfPollingKeeps(t, k2);
    }
  }

  lemma {:induction false} EnterKeeps(s: State, thread: nat)
    requires Inv(s) && thread !in s.polling
    ensures Inv(s.(activePolls := s.activePolls + 1, polling := s.polling + {thread}))
  {
    WaitersOnly(s, s.(activePolls := s.activePolls + 1, polling := s.polling + {thread}));
    assert |s.polling + {thread}| == |s.polling| + 1;
  }

  lemma {:induction false} DropSockKeeps(s: State, id: nat, cancels: bool)
    requires Inv(s) && Live(s, id)
    ensures HasSlot(s.groups, s.socks[id].group)
    ensures Inv(Deleted(s, id, false, cancels))
    ensures s.updateQueue == [] ==> Deleted(s, id, false, cancels).updateQueue == []
  {
    DropKeeps(s, id, cancels);
    var t := Deleted(s, id, false, cancels);
    AttendedKeepsAttention(s, t, id);
    QueueSize(t.updateQueue);
    if s.updateQueue == [] {
      assert Elements(t.updateQueue) == {};
    }
  }

  /** Whatever the kernel answers and the threads do, every step keeps the invariant. */
  lemma {:induction false} StepKeeps(s: State, step: Step)
    requires Inv(s) && Enabled(s, step)
    ensures Inv(Next(s, step))
  {
    match step {
      case Add(key, events, data, env, k) =>
        CreateKeeps(s, key, env);
        var (t, id) := Created(s, key, env);
        if id.Some? {
          SetEventKeeps(t, id.value, events, data);
          IfPollingKeeps(SetEvent(t, id.value, events, data), k);
        }
      case Modify(key, events, data, k) =>
        if key in s.tree {
          SetEventKeeps(s, s.tree[key], events, data);
          IfPollingKeeps(SetEvent(s, s.tree[key], events, data), k);
        }
      case Drop(key, cancels) =>
        if key in s.tree {
          DropSockKeeps(s, s.tree[key], cancels);
        }
      case Close =>
        FlagsOnly(s, s.(closed := true));
      case Wait(thread, k, k2) =>
        PolledKeeps(s, thread, k, k2);
      case Take(ids) =>
        TakeKeeps(s, ids);
      case Wake(thread, ok, batch, again, k, k2) =>
        WakeKeeps(s, thread, batch, again, k, k2);
    }
  }

  lemma {:induction false} TakeKeeps(s: State, ids: multiset<nat>)
    requires Inv(s) && s.dequeued + ids <= s.outstanding
    ensures Inv(s.(dequeued := s.dequeued + ids))
  {
    SameButPolls(s, s.(dequeued := s.dequeued + ids));
  }

  lemma {:induction false} WakeKeeps(s: State, thread: nat, batch: seq<(nat, Completion)>, again: bool, k: Kernel,
                                     k2: Kernel)
    requires Inv(s) && thread in s.polling && Ids(batch) <= s.dequeued
    ensures Sound(Awake(s, thread)) && Tracked(Awake(s, thread)) && Attentive(Awake(s, thread))
    ensures var t := FedAll(Awake(s, thread), batch);
      Sound(t) && Tracked(t) && Attentive(t) && t.activePolls == |t.polling| && thread !in t.polling
      && Inv(if again then Polled(t, thread, k, k2) else UpdatedIfPolling(t, k2))
  {
    AwakeKeeps(s, thread);
    FeedAllKeeps(Awake(s, thread), batch);
    var t := FedAll(Awake(s, thread), batch);
    if again {
      PolledKeeps(t, thread, k, k2);
    } else {
      IfPollingKeeps(t, k2);
    }
  }

  // ---- no stalls ---------------------------------------------------------------------------

  ghost predicate Quiet(s: State) { s.activePolls > 0 ==> s.updateQueue == [] }

  /** The kernel answers no submission or cancellation of this step with an unexpected error. */
  ghost predicate ReliableStep(step: Step) {
    match step
    case Add(_, _, _, _, k) => Reliable(k)
    case Modify(_, _, _, k) => Reliable(k)
    case Wait(_, k, k2) => Reliable(k) && Reliable(k2)
    case Wake(_, _, _, _, k, k2) => Reliable(k) && Reliable(k2)
    case _ => true
  }

  /** With a reliable kernel no socket is left queued for an update while some thread is waiting. */
  lemma {:induction false} StepQuiet(s: State, step: Step)
    requires Inv(s) && Enabled(s, step) && Quiet(s) && ReliableStep(step)
    ensures Quiet(Next(s, step))
  {
    match step {
      case Add(key, events, data, env, k) =>
        CreateKeeps(s, key, env);
        var (t, id) := Created(s, key, env);
        if id.Some? {
          SetEventKeeps(t, id.value, events, data);
          IfPollingKeeps(SetEvent(t, id.value, events, data), k);
        }
      case Modify(key, events, data, k) =>
        if key in s.tree {
          SetEventKeeps(s, s.tree[key], events, data);
          IfPollingKeeps(SetEvent(s, s.tree[key], events, data), k);
        }
      case Drop(key, cancels) =>
        if key in s.tree {
          DropSockKeeps(s, s.tree[key], cancels);
          DropKeeps(s, s.tree[key], cancels);
        }
      case Close =>
      case Wait(thread, k, k2) =>
        PolledKeeps(s, thread, k, k2);
      case Take(ids) =>
      case Wake(thread, ok, batch, again, k, k2) =>
        WakeKeeps(s, thread, batch, again, k, k2);
        var t := FedAll(Awake(s, thread), batch);
        if again {
          PolledKeeps(t, thread, k, k2);
        } else {
          IfPollingKeeps(t, k2);
        }
    }
  }

  // ---- every run ---------------------------------------------------------------------------

  lemma {:induction false} InitialInv()
    ensures Inv(INITIAL) && Quiet(INITIAL)
  {
    assert Total([]) == 0;
    forall g: nat
      ensures SizeOf(INITIAL.groups, g) == |Members(INITIAL, g)|
    {
      assert Members(INITIAL, g) == {};
    }
  }

  /** The state after a run, None if some step of the run was not possible. */
  ghost function After(run: seq<Step>): (r: Option<State>)
    ensures r.Some? ==> Inv(r.value)
  {
    if run == [] then
      InitialInv();
      Some(INITIAL)
    else
      var r := After(run[..|run| - 1]);
      if r.None? || !Enabled(r.value, run[|run| - 1]) then None
      else
        StepKeeps(r.value, run[|run| - 1]);
        Some(Next(r.value, run[|run| - 1]))
  }

  /** A run goes on with any step that is possible. */
  lemma {:induction false} RunExtends(run: seq<Step>, step: Step)
    requires After(run).Some? && Enabled(After(run).value, step)
    ensures After(run + [step]) == Some(Next(After(run).value, step))
  {
    assert (run + [step])[..|run|] == run;
  }

  /** In every run, with the lock free: a poll is outstanding exactly for the sockets that are not
      idle, a live socket is in the tree and not in the deleted queue, a deleted one the other way
      round, no interest is lost, and slots, states and structures agree in number. */
  lemma {:induction false} EveryRun(run: seq<Step>, id: nat)
    requires After(run).Some?
    ensures var s := After(run).value;
      && (s.outstanding[id] == 1 <==> id in s.socks && s.socks[id].status != Idle)
      && (s.outstanding[id] == 0 <==> id in s.socks ==> s.socks[id].status == Idle)
      && (Live(s, id) ==> s.socks[id].key in s.tree && s.tree[s.socks[id].key] == id && id !in s.deletedQueue)
      && (id in s.socks && !Live(s, id) ==> id in s.deletedQueue && id !in s.updateQueue && id !in s.tree.Values)
      && (Live(s, id) && Needy(s.socks[id]) ==> id in s.updateQueue)
      && Total(s.groups) == |s.socks| == |s.tree| + |s.deletedQueue|
  {
    var s := After(run).value;
    assert Inv(s);
  }

  /** Every completion a thread has taken belongs to an allocated socket state. */
  lemma {:induction false} EveryCompletionIsOwned(run: seq<Step>, id: nat)
    requires After(run).Some? && After(run).value.dequeued[id] > 0
    ensures id in After(run).value.socks
  {
    FedExists(After(run).value, id);
  }

  /** If the kernel never answers with an unexpected error, then whenever the lock is free and some
      thread is waiting, no socket is waiting for an update. */
  lemma {:induction false} EveryRunQuiet(run: seq<Step>)
    requires After(run).Some? && forall i :: 0 <= i < |run| ==> ReliableStep(run[i])
    ensures Quiet(After(run).value)
  {
    if run == [] {
      InitialInv();
    } else {
      EveryRunQuiet(run[..|run| - 1]);
      StepQuiet(After(run[..|run| - 1]).value, run[|run| - 1]);
    }
  }

  /** In every run the poll of a live socket that is not queued for an update monitors every AFD event
      that would be reported to the user. */
  lemma {:induction false} EveryPollMonitors(run: seq<Step>, id: nat, a: bv32)
    requires After(run).Some? && Live(After(run).value, id) && id !in After(run).value.updateQueue && IsAfdEvent(a)
    ensures var x := After(run).value.socks[id];
      && x.status != Idle
      && (x.status == Pending && Has(AfdToEpoll(a), x.userEvents) ==> Has(EpollToAfd(x.pendingEvents), a))
  {
    SockMonitors(After(run).value, id, a);
  }

  lemma {:induction false} SockMonitors(s: State, id: nat, a: bv32)
    requires Inv(s) && Live(s, id) && id !in s.updateQueue && IsAfdEvent(a)
    ensures var x := s.socks[id];
      && x.status != Idle
      && (x.status == Pending && Has(AfdToEpoll(a), x.userEvents) ==> Has(EpollToAfd(x.pendingEvents), a))
  {
    var x := s.socks[id];
    assert Consistent(x) && !Needy(x);
    if x.status == Pending && Has(AfdToEpoll(a), x.userEvents) {
      PollMonitors(x.userEvents, x.pendingEvents, a);
    }
  }

  lemma {:induction false} PollMonitors(events: bv32, pending: bv32, a: bv32)
    requires IsAfdEvent(a) && AsksForErrors(events) && events & KNOWN_EPOLL_EVENTS & !pending == 0
    requires Has(AfdToEpoll(a), events)
    ensures Has(EpollToAfd(pending), a)
  {
    MonitorsWhatIsReported(events, a);
    CoversWhatIsAsked(events, pending);
    InBoth(EpollToAfd(events), EpollToAfd(pending), a);
  }

  lemma {:induction false} InBoth(e: bv32, p: bv32, a: bv32)
    requires e & !p == 0 && Has(e, a)
    ensures Has(p, a)
  {
  }

  // ---- the assertion of port_get_iocp_handle -----------------------------------------------

  /** A step that makes the assertion fail */
  ghost predicate Misses(s: State, step: Step) { step.Add? && MissesPort(s, step.key, step.env) }

  lemma {:induction false} UpdateFlags(s: State, k: Kernel)
    requires Sound(s) && Tracked(s) && Attentive(s)
    ensures UpdatedIfPolling(s, k).failed == s.failed
  {
    IfPollingKeeps(s, k);
  }

  lemma {:induction false} AddFlags(s: State, key: nat, events: bv32, data: nat, env: Resources, k: Kernel)
    requires Inv(s)
    ensures Next(s, Add(key, events, data, env, k)).failed <==> s.failed || MissesPort(s, key, env)
  {
    CreateKeeps(s, key, env);
    var (t, id) := Created(s, key, env);
    if id.Some? {
      SetEventKeeps(t, id.value, events, data);
      UpdateFlags(SetEvent(t, id.value, events, data), k);
    }
  }

  lemma {:induction false} PollFlags(s: State, thread: nat, k: Kernel, k2: Kernel)
    requires Sound(s) && Tracked(s) && Attentive(s)
    ensures Polled(s, thread, k, k2).failed == s.failed
  {
    UpdateAllKeeps(s, k);
    var (t, ok) := UpdatedAll(s, k);
    if !ok { UpdateFlags(t, k2); }
  }

  /** The assertion fails in exactly these steps. */
  lemma {:induction false} StepFlags(s: State, step: Step)
    requires Inv(s) && Enabled(s, step)
    ensures Next(s, step).failed <==> s.failed || Misses(s, step)
  {
    match step {
      case Add(key, events, data, env, k) => AddFlags(s, key, events, data, env, k);
      case Modify(key, events, data, k) =>
        if key in s.tree {
          SetEventKeeps(s, s.tree[key], events, data);
          UpdateFlags(SetEvent(s, s.tree[key], events, data), k);
        }
      case Drop(key, cancels) =>
        if key in s.tree { DropKeeps(s, s.tree[key], cancels); }
      case Close =>
      case Wait(thread, k, k2) => PollFlags(s, thread, k, k2);
      case Take(ids) =>
      case Wake(thread, ok, batch, again, k, k2) =>
        WakeKeeps(s, thread, batch, again, k, k2);
        FeedAllKeeps(Awake(s, thread), batch);
        var t := FedAll(Awake(s, thread), batch);
        if again { PollFlags(t, thread, k, k2); } else { UpdateFlags(t, k2); }
    }
  }

  /** In every run an attempt to add a socket reaches the assertion with the completion port gone exactly
      if port_close has been called, the socket passes the first tests, and all slots of all groups
      are in use: there are 32 socket states for each group. */
  lemma {:induction false} AssertionFailsIff(run: seq<Step>, step: Step)
    requires After(run).Some? && !After(run).value.failed && Enabled(After(run).value, step)
    ensures var s := After(run).value;
      && (Next(s, step).failed <==> step.Add? && s.closed && Creatable(step.key, step.env) && NeedsGroup(s.groups))
      && (NeedsGroup(s.groups) <==> |s.socks| == MAX_GROUP_SIZE * |s.groups|)
  {
    StepFlags(After(run).value, step);
    NeedsGroupIffFull(After(run).value.groups);
  }

  /** The first attempt after port_close on a port without sockets is one. */
  lemma {:induction false} AssertionFails(key: nat, events: bv32, data: nat, env: Resources, k: Kernel)
    requires Creatable(key, env)
    ensures After([Close]).Some? && !After([Close]).value.failed
    ensures After([Close] + [Add(key, events, data, env, k)]).Some?
    ensures After([Close] + [Add(key, events, data, env, k)]).value.failed
  {
    InitialInv();
    assert [] + [Close] == [Close];
    assert After([]) == Some(INITIAL);
    RunExtends([], Close);
    var s := INITIAL.(closed := true);
    assert After([Close]) == Some(s);
    RunExtends([Close], Add(key, events, data, env, k));
    StepFlags(s, Add(key, events, data, env, k));
  }
}
