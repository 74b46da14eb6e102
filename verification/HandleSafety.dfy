/** What holds in every interleaving of the steps of HandleLifetime. */
module HandleSafety {
  import opened Options
  import opened HandleLifetime

  ghost function Holders(s: System, n: nat): set<nat> { set t | t in s.pcs && s.pcs[t].Holds(n) }

  ghost function Signallers(s: System, n: nat): set<nat> { set t | t in s.pcs && s.pcs[t].Signals(n) }

  /** The node can be found through the handle tree. */
  ghost predicate Listed(s: System, n: nat) {
    n in s.ports && s.ports[n].handle in s.tree && s.tree[s.ports[n].handle] == n
  }

  /** No port has more simultaneous references than the reference count has room for. */
  ghost predicate Bounded(s: System) { forall n :: |Holders(s, n)| < DESTROY }

  ghost predicate LockExcludes(s: System) {
    forall t, u :: t in s.pcs && u in s.pcs && t != u && s.pcs[t].Excludes() ==>
      !s.pcs[u].Excludes() && !s.pcs[u].Shares()
  }

  ghost predicate HandlesAgree(s: System) {
    && (forall h :: h in s.tree ==> Listed(s, s.tree[h]) && s.ports[s.tree[h]].handle == h)
    && (forall n :: n in s.ports && s.ports[n].iocpOpen ==> s.ports[n].handle in s.open)
    && (forall m, n :: m in s.ports && n in s.ports && m != n && s.ports[m].iocpOpen && s.ports[n].iocpOpen ==>
          s.ports[m].handle != s.ports[n].handle)
  }

  /** A thread that mentions a node mentions an allocated one; one that owns it is its only owner. */
  ghost predicate ThreadOk(s: System, t: nat, pc: Pc) {
    && !pc.Rejected? && !pc.Failing?
    && (pc.Points() ==> pc.node in s.ports && (pc.Owns(pc.node) ==> s.ports[pc.node].owner == Some(t)))
    && (pc.Found? ==> Listed(s, pc.node))
  }

  /** No reference has been dropped by the closer yet. */
  ghost predicate Unclosed(p: PortNode, holders: nat, signallers: nat) {
    p.state == holders && !p.waited && p.signals == 0 && signallers == 0
  }

  /** What the owner of a node is doing, None if it has no owner. */
  ghost function OwnerAt(s: System, n: nat): Option<Pc>
    requires n in s.ports
  {
    match s.ports[n].owner
    case Some(t) => if t in s.pcs then Some(s.pcs[t]) else Some(Missed)
    case None => None
  }

  /** The reference lock of a node, by what its owner is doing. */
  ghost predicate LockOk(p: PortNode, owner: Option<Pc>, holders: nat, signallers: nat) {
    match owner
    case None => p.iocpOpen && Unclosed(p, holders, signallers)
    case Some(pc) =>
      if pc.Awaiting? then
        && !p.iocpOpen && p.waited && p.state == DESTROY + holders
        && p.signals == signallers == (if holders == 0 then 1 else 0)
      else if pc.Destroying? || pc.Destroyed? then
        && !p.iocpOpen && p.state == (if pc.Destroyed? then POISON else DESTROY)
        && holders == 0 && signallers == 0
        && p.signals == (if p.waited then 1 else 0)
      else
        && Unclosed(p, holders, signallers)
        && (p.iocpOpen <==> !pc.Closed?)
        && (pc.Adding? || pc.Inserting? ==> holders == 0)
  }

  ghost predicate PortOk(s: System, n: nat)
    requires n in s.ports
  {
    var owner := OwnerAt(s, n);
    && (owner == None <==> Listed(s, n))
    && (owner.Some? ==> owner.value.Owns(n))
    && LockOk(s.ports[n], owner, |Holders(s, n)|, |Signallers(s, n)|)
  }

  /** All is in order, but nothing is said of the lock of node `n`. */
  ghost predicate SafeBut(s: System, n: nat) {
    && !s.failed && LockExcludes(s) && HandlesAgree(s)
    && (forall t :: t in s.pcs ==> ThreadOk(s, t, s.pcs[t]))
    && (forall m :: m in s.ports && m != n ==> PortOk(s, m))
  }

  ghost predicate Safe(s: System) {
    && !s.failed && LockExcludes(s) && HandlesAgree(s)
    && (forall t :: t in s.pcs ==> ThreadOk(s, t, s.pcs[t]))
    && (forall m :: m in s.ports ==> PortOk(s, m))
  }

  lemma {:induction false} SafeAgain(s: System, n: nat)
    requires SafeBut(s, n) && (n in s.ports ==> PortOk(s, n))
    ensures Safe(s)
  {
  }

  // ---- one thread moves --------------------------------------------------------------------

  /** Only thread `t` moves (it may come or go), and before and after it mentions no node but `n`. */
  ghost predicate Moves(s: System, s': System, t: nat, n: nat) {
    && (forall u :: u != t ==> (u in s'.pcs <==> u in s.pcs))
    && (forall u :: u != t && u in s.pcs ==> s'.pcs[u] == s.pcs[u])
    && (t in s.pcs ==> s.pcs[t].Only(n))
    && (t in s'.pcs ==> s'.pcs[t].Only(n))
  }

  ghost predicate SameNodes(s: System, s': System, n: nat) {
    && (forall m :: m != n ==> (m in s'.ports <==> m in s.ports))
    && (forall m :: m != n && m in s.ports ==> s'.ports[m] == s.ports[m])
    && (forall m :: m != n && m in s.ports ==> (Listed(s', m) <==> Listed(s, m)))
  }

  lemma {:induction false} OtherCounts(s: System, s': System, t: nat, n: nat, m: nat)
    requires Moves(s, s', t, n) && m != n
    ensures Holders(s', m) == Holders(s, m) && Signallers(s', m) == Signallers(s, m)
    ensures t in s.pcs ==> !s.pcs[t].Owns(m)
  {
    assert t in s.pcs ==> !s.pcs[t].Mentions(m);
    assert t in s'.pcs ==> !s'.pcs[t].Mentions(m);
  }

  /** The lock of a node the step does not mention is as before. */
  lemma {:induction false} OtherPort(s: System, s': System, t: nat, n: nat, m: nat)
    requires Moves(s, s', t, n) && SameNodes(s, s', n) && m != n && m in s.ports && PortOk(s, m)
    ensures PortOk(s', m)
  {
    OtherCounts(s, s', t, n, m);
  }

  /** What every step keeps except the lock of the node it is about. */
  lemma {:induction false} MoveKeeps(s: System, s': System, t: nat, n: nat)
    requires SafeBut(s, n) && Moves(s, s', t, n) && SameNodes(s, s', n)
    requires !s'.failed && LockExcludes(s') && HandlesAgree(s')
    requires t in s'.pcs ==> ThreadOk(s', t, s'.pcs[t])
    requires forall u :: u != t && u in s.pcs && s.pcs[u].Mentions(n) ==>
      && n in s'.ports && (s.pcs[u].Owns(n) ==> s'.ports[n].owner == s.ports[n].owner)
      && (s.pcs[u].Found? ==> Listed(s', n))
    ensures SafeBut(s', n)
  {
    forall u | u in s'.pcs
      ensures ThreadOk(s', u, s'.pcs[u])
    {
      if u != t { OtherThread(s, s', u, n); }
    }
    forall m | m in s'.ports && m != n
      ensures PortOk(s', m)
    {
      OtherPort(s, s', t, n, m);
    }
  }

  lemma {:induction false} OtherThread(s: System, s': System, u: nat, n: nat)
    requires u in s.pcs && u in s'.pcs && s'.pcs[u] == s.pcs[u] && ThreadOk(s, u, s.pcs[u]) && SameNodes(s, s', n)
    requires s.pcs[u].Mentions(n) ==>
      && n in s'.ports && (s.pcs[u].Owns(n) ==> s'.ports[n].owner == s.ports[n].owner)
      && (s.pcs[u].Found? ==> Listed(s', n))
    ensures ThreadOk(s', u, s.pcs[u])
  {
  }

  lemma {:induction false} LockKept(s: System, s': System, t: nat, n: nat)
    requires LockExcludes(s) && Moves(s, s', t, n)
    requires t in s'.pcs && s'.pcs[t].Excludes() ==> t in s.pcs && s.pcs[t].Excludes()
    requires t in s'.pcs && s'.pcs[t].Shares() ==> t in s.pcs && s.pcs[t].Shares()
    ensures LockExcludes(s')
  {
  }

  function Count(b: bool): nat { if b then 1 else 0 }

  lemma {:induction false} Toggle(a: set<nat>, b: set<nat>, t: nat)
    requires forall u :: u != t ==> (u in a <==> u in b)
    ensures |a| - Count(t in a) == |b| - Count(t in b)
  {
    assert a - {t} == b - {t};
    assert |a - {t}| == |a| - Count(t in a);
    assert |b - {t}| == |b| - Count(t in b);
  }

  /** How the move of `t` changes the number of references to `n`, and of threads that signal. */
  lemma {:induction false} Recount(s: System, s': System, t: nat, n: nat)
    requires Moves(s, s', t, n)
    ensures |Holders(s', n)| ==
            |Holders(s, n)| - Count(t in s.pcs && s.pcs[t].Holds(n)) + Count(t in s'.pcs && s'.pcs[t].Holds(n))
    ensures |Signallers(s', n)| ==
            |Signallers(s, n)| - Count(t in s.pcs && s.pcs[t].Signals(n)) + Count(t in s'.pcs && s'.pcs[t].Signals(n))
  {
    Toggle(Holders(s, n), Holders(s', n), t);
    Toggle(Signallers(s, n), Signallers(s', n), t);
  }

  /** A step of a thread that mentions no node and leaves everything else as it is. */
  lemma {:induction false} IdleMove(s: System, s': System, t: nat)
    requires Safe(s) && Moves(s, s', t, 0) && Moves(s, s', t, 1)
    requires s'.ports == s.ports && s'.tree == s.tree && s'.open == s.open && s'.failed == s.failed
    requires LockExcludes(s')
    requires t in s'.pcs ==> !s'.pcs[t].Rejected? && !s'.pcs[t].Failing? && !s'.pcs[t].Found?
    ensures Safe(s')
  {
    assert t in s'.pcs ==> !s'.pcs[t].Points();
    ListedAnywhere(s, s');
    MoveKeeps(s, s', t, 0);
    MoveKeeps(s, s', t, 1);
  }

  lemma {:induction false} ListedAnywhere(s: System, s': System)
    requires s'.tree == s.tree && s'.ports.Keys == s.ports.Keys
    requires forall m :: m in s.ports ==>
      s'.ports[m].handle == s.ports[m].handle && (s'.ports[m].iocpOpen ==> s.ports[m].iocpOpen)
    requires HandlesAgree(s) && s.open <= s'.open
    ensures HandlesAgree(s') && forall m :: Listed(s', m) <==> Listed(s, m)
  {
  }

  /** A step of `t` that changes the fields of node `n`, but not its owner and handle. */
  lemma {:induction false} LocalMove(s: System, s': System, t: nat, n: nat)
    requires SafeBut(s, n) && Moves(s, s', t, n) && t in s.pcs && n in s.ports && n in s'.ports
    requires s'.ports == s.ports[n := s'.ports[n]]
    requires s'.ports[n].owner == s.ports[n].owner && s'.ports[n].handle == s.ports[n].handle
    requires s'.ports[n].iocpOpen == s.ports[n].iocpOpen
    requires s'.tree == s.tree && s'.open == s.open && !s'.failed
    requires t in s'.pcs ==> !s'.pcs[t].Rejected? && !s'.pcs[t].Failing?
    requires t in s'.pcs && s'.pcs[t].Excludes() ==> s.pcs[t].Excludes()
    requires t in s'.pcs && s'.pcs[t].Shares() ==> s.pcs[t].Shares()
    requires t in s'.pcs && s'.pcs[t].Owns(n) ==> s.ports[n].owner == Some(t)
    requires t in s'.pcs && s'.pcs[t].Found? ==> Listed(s, n)
    ensures SafeBut(s', n) && (Listed(s', n) <==> Listed(s, n))
  {
    LockKept(s, s', t, n);
    assert s'.ports.Keys == s.ports.Keys;
    ListedAnywhere(s, s');
    LocalThread(s, s', t, n);
    MoveKeeps(s, s', t, n);
  }

  lemma {:induction false} LocalThread(s: System, s': System, t: nat, n: nat)
    requires Moves(s, s', t, n) && n in s'.ports
    requires t in s'.pcs ==> !s'.pcs[t].Rejected? && !s'.pcs[t].Failing?
    requires t in s'.pcs && s'.pcs[t].Owns(n) ==> s'.ports[n].owner == Some(t)
    requires t in s'.pcs && s'.pcs[t].Found? ==> Listed(s', n)
    ensures t in s'.pcs ==> ThreadOk(s', t, s'.pcs[t])
  {
  }

  /** The numbers of references and of signalling threads once `t` is at `after`. */
  ghost function NewCount(s: System, t: nat, after: Option<Pc>, n: nat): int {
    |Holders(s, n)| - Count(t in s.pcs && s.pcs[t].Holds(n)) + Count(after.Some? && after.value.Holds(n))
  }

  ghost function NewSignals(s: System, t: nat, after: Option<Pc>, n: nat): int {
    |Signallers(s, n)| - Count(t in s.pcs && s.pcs[t].Signals(n)) + Count(after.Some? && after.value.Signals(n))
  }

  ghost predicate Stays(p: PortNode, q: PortNode) {
    q.owner == p.owner && q.handle == p.handle && q.iocpOpen == p.iocpOpen
  }

  /** A step of `t` after which it is at `after` and node `n` is `q`. */
  ghost function Stepped(s: System, t: nat, n: nat, after: Option<Pc>, q: PortNode): System {
    var s' := Store(s, n, q);
    if after.Some? then At(s', t, after.value) else Gone(s', t)
  }

  /** What makes such a step a safe one. */
  ghost predicate CanMove(s: System, t: nat, n: nat, after: Option<Pc>, q: PortNode) {
    && t in s.pcs && s.pcs[t].Only(n) && n in s.ports && Stays(s.ports[n], q)
    && (after.Some? ==> MayFollow(s, t, n, after.value))
    && (s.ports[n].owner == Some(t) ==> after.Some? && after.value.Owns(n))
    && NewCount(s, t, after, n) >= 0 && NewSignals(s, t, after, n) >= 0
    && LockOk(q, if s.ports[n].owner == Some(t) then after else OwnerAt(s, n),
              NewCount(s, t, after, n), NewSignals(s, t, after, n))
  }

  ghost predicate MayFollow(s: System, t: nat, n: nat, pc: Pc)
    requires t in s.pcs && n in s.ports
  {
    && pc.Only(n) && !pc.Rejected? && !pc.Failing?
    && (pc.Excludes() ==> s.pcs[t].Excludes())
    && (pc.Shares() ==> s.pcs[t].Shares())
    && (pc.Found? ==> Listed(s, n))
    && (pc.Owns(n) ==> s.ports[n].owner == Some(t))
  }

  lemma {:induction false} NodeMove(s: System, t: nat, n: nat, after: Option<Pc>, q: PortNode)
    requires Safe(s) && CanMove(s, t, n, after, q)
    ensures Safe(Stepped(s, t, n, after, q))
  {
    LocalMove(s, Stepped(s, t, n, after, q), t, n);
    LockAfter(s, t, n, after, q);
    SafeAgain(Stepped(s, t, n, after, q), n);
  }

  lemma {:induction false} LockAfter(s: System, t: nat, n: nat, after: Option<Pc>, q: PortNode)
    requires CanMove(s, t, n, after, q) && PortOk(s, n)
    requires Listed(Stepped(s, t, n, after, q), n) <==> Listed(s, n)
    ensures PortOk(Stepped(s, t, n, after, q), n)
  {
    Recount(s, Stepped(s, t, n, after, q), t, n);
    OwnerAfter(s, t, n, after, q);
  }

  lemma {:induction false} OwnerAfter(s: System, t: nat, n: nat, after: Option<Pc>, q: PortNode)
    requires n in s.ports && q.owner == s.ports[n].owner && t in s.pcs
    requires s.ports[n].owner == Some(t) ==> after.Some?
    ensures OwnerAt(Stepped(s, t, n, after, q), n) == if s.ports[n].owner == Some(t) then after else OwnerAt(s, n)
  {
  }

  // ---- the steps ---------------------------------------------------------------------------

  /** Steps that only change what the thread is about to do with node `n`. */
  lemma {:induction false} LookKeeps(s: System, t: nat, pc: Pc, n: nat)
    requires Safe(s) && t in s.pcs && n in s.ports
    requires || (s.pcs[t] == Referenced(n) && pc == Working(n))
             || (s.pcs[t] == Taken(n) && pc == Closing(n))
             || (s.pcs[t].Reading? && pc == Found(n) && Listed(s, n))
    ensures Safe(At(s, t, pc))
  {
    assert Store(s, n, s.ports[n]) == s;
    LookReady(s, t, pc, n);
    NodeMove(s, t, n, Some(pc), s.ports[n]);
  }

  lemma {:induction false} LookReady(s: System, t: nat, pc: Pc, n: nat)
    requires t in s.pcs && ThreadOk(s, t, s.pcs[t]) && n in s.ports && PortOk(s, n)
    requires || (s.pcs[t] == Referenced(n) && pc == Working(n))
             || (s.pcs[t] == Taken(n) && pc == Closing(n))
             || (s.pcs[t].Reading? && pc == Found(n) && Listed(s, n))
    ensures CanMove(s, t, n, Some(pc), s.ports[n])
  {
  }

  /** reflock_ref: the assertion holds and the count is right. */
  lemma {:induction false} RefKeeps(s: System, t: nat, pc: Pc, n: nat)
    requires Safe(s) && t in s.pcs && Bounded(At(Ref(s, n), t, pc))
    requires (s.pcs[t] == Found(n) && pc == Referenced(n)) || (s.pcs[t] == Unlinked(n) && pc == Taken(n))
    ensures Safe(At(Ref(s, n), t, pc))
  {
    OneMoreHolder(s, t, pc, n);
    var q := RefReady(s, t, pc, n);
    NodeMove(s, t, n, Some(pc), q);
  }

  lemma {:induction false} OneMoreHolder(s: System, t: nat, pc: Pc, n: nat)
    requires t in s.pcs && !s.pcs[t].Holds(n) && pc.Holds(n) && Bounded(At(Ref(s, n), t, pc))
    ensures |Holders(s, n)| + 1 < DESTROY
  {
    var s' := At(Ref(s, n), t, pc);
    assert Holders(s', n) == Holders(s, n) + {t};
    assert |Holders(s, n) + {t}| == |Holders(s, n)| + 1;
  }

  lemma {:induction false} RefReady(s: System, t: nat, pc: Pc, n: nat) returns (q: PortNode)
    requires t in s.pcs && ThreadOk(s, t, s.pcs[t]) && (n in s.ports ==> PortOk(s, n))
    requires |Holders(s, n)| + 1 < DESTROY
    requires (s.pcs[t] == Found(n) && pc == Referenced(n)) || (s.pcs[t] == Unlinked(n) && pc == Taken(n))
    ensures CanMove(s, t, n, Some(pc), q) && At(Ref(s, n), t, pc) == Stepped(s, t, n, Some(pc), q)
  {
    q := s.ports[n].(state := Add32(s.ports[n].state, REF));
    assert q.state == |Holders(s, n)| + 1;
  }

  /** reflock_unref: the assertion holds, and the event is signalled by the last one to leave. */
  lemma {:induction false} UnrefKeeps(s: System, t: nat, n: nat)
    requires Safe(s) && Bounded(s) && t in s.pcs && s.pcs[t] == Working(n)
    ensures Safe(Unref(s, t, n))
  {
    var after, q := UnrefReady(s, t, n);
    NodeMove(s, t, n, after, q);
  }

  lemma {:induction false} UnrefReady(s: System, t: nat, n: nat) returns (after: Option<Pc>, q: PortNode)
    requires t in s.pcs && ThreadOk(s, t, s.pcs[t]) && (n in s.ports ==> PortOk(s, n))
    requires |Holders(s, n)| < DESTROY && s.pcs[t] == Working(n)
    ensures CanMove(s, t, n, after, q) && Unref(s, t, n) == Stepped(s, t, n, after, q)
  {
    var p := s.ports[n];
    assert t in Holders(s, n);
    var state := Add32(p.state, -REF);
    assert state == p.state - 1;
    after := if state == DESTROY then Some(Signalling(n)) else None;
    q := p.(state := state, signals := p.signals + Count(state == DESTROY));
  }

  /** The first half of reflock_unref_and_destroy: it waits iff other references are left. */
  lemma {:induction false} DestroyKeeps(s: System, t: nat, n: nat)
    requires Safe(s) && Bounded(s) && t in s.pcs && s.pcs[t] == Closed(n)
    ensures Safe(Destroy(s, t, n))
  {
    var after, q := DestroyReady(s, t, n);
    NodeMove(s, t, n, after, q);
  }

  lemma {:induction false} DestroyReady(s: System, t: nat, n: nat) returns (after: Option<Pc>, q: PortNode)
    requires t in s.pcs && ThreadOk(s, t, s.pcs[t]) && (n in s.ports ==> PortOk(s, n))
    requires |Holders(s, n)| < DESTROY && s.pcs[t] == Closed(n)
    ensures CanMove(s, t, n, after, q) && Destroy(s, t, n) == Stepped(s, t, n, after, q)
  {
    var p := s.ports[n];
    assert t in Holders(s, n);
    var state := Add32(p.state, DESTROY - REF);
    assert state == DESTROY + (p.state - 1);
    var waits := RefCount(state) != 0;
    assert waits <==> |Holders(s, n)| > 1;
    after := Some(if waits then Awaiting(n) else Destroying(n));
    q := p.(state := state, waited := waits);
  }

  /** The second half: the word is still REFLOCK__DESTROY. */
  lemma {:induction false} PoisonKeeps(s: System, t: nat, n: nat)
    requires Safe(s) && t in s.pcs && s.pcs[t] == Destroying(n)
    ensures Safe(At(Poison(s, n), t, Destroyed(n)))
  {
    var q := PoisonReady(s, t, n);
    NodeMove(s, t, n, Some(Destroyed(n)), q);
  }

  lemma {:induction false} PoisonReady(s: System, t: nat, n: nat) returns (q: PortNode)
    requires t in s.pcs && ThreadOk(s, t, s.pcs[t]) && (n in s.ports ==> PortOk(s, n))
    requires s.pcs[t] == Destroying(n)
    ensures CanMove(s, t, n, Some(Destroyed(n)), q)
    ensures At(Poison(s, n), t, Destroyed(n)) == Stepped(s, t, n, Some(Destroyed(n)), q)
  {
    q := s.ports[n].(state := POISON);
  }

  /** reflock__signal_event meets reflock__await_event. */
  lemma {:induction false} SignalKeeps(s: System, t: nat, u: nat, n: nat)
    requires Safe(s) && t in s.pcs && u in s.pcs && s.pcs[t] == Signalling(n) && s.pcs[u] == Awaiting(n)
    ensures Safe(At(Gone(s, t), u, Destroying(n)))
  {
    OneOwner(s, u, n);
    SignalCounts(s, t, u, n);
    BothKeep(s, t, u, n);
    SafeAgain(At(Gone(s, t), u, Destroying(n)), n);
  }

  lemma {:induction false} Commute(s: System, t: nat, u: nat, pc: Pc)
    requires t != u
    ensures At(Gone(s, t), u, pc) == Gone(At(s, u, pc), t)
  {
    assert (s.pcs - {t})[u := pc] == s.pcs[u := pc] - {t};
  }

  lemma {:induction false} BothKeep(s: System, t: nat, u: nat, n: nat)
    requires SafeBut(s, n) && t in s.pcs && u in s.pcs && s.pcs[t] == Signalling(n) && s.pcs[u] == Awaiting(n)
    ensures SafeBut(At(Gone(s, t), u, Destroying(n)), n)
  {
    WakeKeeps(s, u, n);
    LeaveKeeps(At(s, u, Destroying(n)), t, n);
    Commute(s, t, u, Destroying(n));
  }

  lemma {:induction false} WakeKeeps(s: System, u: nat, n: nat)
    requires SafeBut(s, n) && u in s.pcs && s.pcs[u] == Awaiting(n)
    ensures SafeBut(At(s, u, Destroying(n)), n)
  {
    assert ThreadOk(s, u, s.pcs[u]);
    LocalMove(s, At(s, u, Destroying(n)), u, n);
  }

  lemma {:induction false} LeaveKeeps(s: System, t: nat, n: nat)
    requires SafeBut(s, n) && t in s.pcs && s.pcs[t] == Signalling(n)
    ensures SafeBut(Gone(s, t), n)
  {
    assert ThreadOk(s, t, s.pcs[t]);
    LocalMove(s, Gone(s, t), t, n);
  }

  lemma {:induction false} SignalCounts(s: System, t: nat, u: nat, n: nat)
    requires t in s.pcs && u in s.pcs && s.pcs[t] == Signalling(n) && s.pcs[u] == Awaiting(n)
    requires n in s.ports && PortOk(s, n) && s.ports[n].owner == Some(u)
    ensures PortOk(At(Gone(s, t), u, Destroying(n)), n)
  {
    var s1, s' := At(s, u, Destroying(n)), At(Gone(s, t), u, Destroying(n));
    assert s' == Gone(s1, t);
    Recount(s, s1, u, n);
    Recount(s1, s', t, n);
    assert t in Signallers(s, n);
  }

  /** A step of `t` that may change the tree, the handles and who owns node `n`. */
  ghost predicate Rearranges(s: System, s': System, t: nat, n: nat) {
    && Moves(s, s', t, n) && SameNodes(s, s', n) && !s'.failed && HandlesAgree(s')
    && (t in s'.pcs ==> ThreadOk(s', t, s'.pcs[t]))
    && (t in s'.pcs && s'.pcs[t].Excludes() ==> t in s.pcs && s.pcs[t].Excludes())
    && (t in s'.pcs && s'.pcs[t].Shares() ==> t in s.pcs && s.pcs[t].Shares())
    && (n in s'.ports ==> PortOk(s', n))
  }

  lemma {:induction false} Rearranged(s: System, s': System, t: nat, n: nat)
    requires Safe(s) && Rearranges(s, s', t, n)
    requires forall u :: u != t && u in s.pcs && s.pcs[u].Mentions(n) ==>
      n in s'.ports && !s.pcs[u].Owns(n) && (s.pcs[u].Found? ==> Listed(s', n))
    ensures Safe(s')
  {
    LockKept(s, s', t, n);
    MoveKeeps(s, s', t, n);
    SafeAgain(s', n);
  }

  /** No other thread owns what `t` owns. */
  lemma {:induction false} OneOwner(s: System, t: nat, n: nat)
    requires Safe(s) && t in s.pcs && s.pcs[t].Owns(n)
    ensures n in s.ports && s.ports[n].owner == Some(t) && !Listed(s, n) && PortOk(s, n)
    ensures forall u :: u != t && u in s.pcs && s.pcs[u].Mentions(n) ==> !s.pcs[u].Owns(n) && !s.pcs[u].Found?
  {
    assert ThreadOk(s, t, s.pcs[t]);
    assert PortOk(s, n);
    forall u | u != t && u in s.pcs && s.pcs[u].Mentions(n)
      ensures !s.pcs[u].Owns(n) && !s.pcs[u].Found?
    {
      assert ThreadOk(s, u, s.pcs[u]);
    }
  }

  /** port_close: the handle may be issued again from here on; no other open port has it. */
  lemma {:induction false} CloseKeeps(s: System, t: nat, n: nat, closes: bool)
    requires Safe(s) && t in s.pcs && s.pcs[t] == Closing(n)
    ensures Safe(At(ClosePort(s, n, closes), t, Closed(n)))
  {
    OneOwner(s, t, n);
    CloseReady(s, t, n, closes);
    Rearranged(s, At(ClosePort(s, n, closes), t, Closed(n)), t, n);
  }

  lemma {:induction false} CloseReady(s: System, t: nat, n: nat, closes: bool)
    requires !s.failed && HandlesAgree(s) && t in s.pcs && s.pcs[t] == Closing(n)
    requires n in s.ports && s.ports[n].owner == Some(t) && PortOk(s, n)
    ensures Rearranges(s, At(ClosePort(s, n, closes), t, Closed(n)), t, n)
  {
    CloseLists(s, n, closes);
    CloseMoves(s, t, n, closes);
    ClosedPort(s, t, n, closes);
  }

  lemma {:induction false} CloseMoves(s: System, t: nat, n: nat, closes: bool)
    requires t in s.pcs && s.pcs[t] == Closing(n) && n in s.ports
    requires forall m :: Listed(ClosePort(s, n, closes), m) <==> Listed(s, m)
    ensures var s' := At(ClosePort(s, n, closes), t, Closed(n)); Moves(s, s', t, n) && SameNodes(s, s', n)
  {
  }

  lemma {:induction false} ClosedPort(s: System, t: nat, n: nat, closes: bool)
    requires t in s.pcs && s.pcs[t] == Closing(n) && n in s.ports && s.ports[n].owner == Some(t) && PortOk(s, n)
    ensures PortOk(At(ClosePort(s, n, closes), t, Closed(n)), n)
  {
    Recount(s, At(ClosePort(s, n, closes), t, Closed(n)), t, n);
  }

  lemma {:induction false} CloseLists(s: System, n: nat, closes: bool)
    requires HandlesAgree(s) && n in s.ports && s.ports[n].iocpOpen
    ensures var s' := ClosePort(s, n, closes); HandlesAgree(s') && forall m :: Listed(s', m) <==> Listed(s, m)
  {
  }

  /** port_delete: nobody refers to the port any more. */
  lemma {:induction false} DeleteKeeps(s: System, t: nat, n: nat)
    requires Safe(s) && t in s.pcs && s.pcs[t] == Destroyed(n)
    ensures Safe(Gone(Delete(s, n), t))
  {
    Alone(s, t, n);
    DeleteReady(s, t, n);
    Rearranged(s, Gone(Delete(s, n), t), t, n);
  }

  /** When reflock_unref_and_destroy returns no other thread has anything to do with the node. */
  lemma {:induction false} Alone(s: System, t: nat, n: nat)
    requires Safe(s) && t in s.pcs && s.pcs[t] == Destroyed(n)
    ensures n in s.ports && s.ports[n].owner == Some(t) && PortOk(s, n)
    ensures forall u :: u in s.pcs && s.pcs[u].Mentions(n) ==> u == t
  {
    OneOwner(s, t, n);
    assert Holders(s, n) == {} && Signallers(s, n) == {};
    forall u | u in s.pcs && s.pcs[u].Mentions(n)
      ensures u == t
    {
      assert u !in Holders(s, n) && u !in Signallers(s, n);
      assert ThreadOk(s, u, s.pcs[u]);
    }
  }

  lemma {:induction false} DeleteReady(s: System, t: nat, n: nat)
    requires !s.failed && HandlesAgree(s) && t in s.pcs && s.pcs[t] == Destroyed(n)
    requires n in s.ports && s.ports[n].owner == Some(t) && PortOk(s, n)
    ensures Rearranges(s, Gone(Delete(s, n), t), t, n)
  {
    DeleteLists(s, n);
  }

  lemma {:induction false} DeleteLists(s: System, n: nat)
    requires HandlesAgree(s) && n in s.ports && !Listed(s, n)
    ensures var s' := s.(ports := s.ports - {n});
      HandlesAgree(s') && forall m :: m != n ==> (Listed(s', m) <==> Listed(s, m))
  {
  }

  /** port_new */
  lemma {:induction false} NewKeeps(s: System, t: nat, n: nat, h: nat)
    requires Safe(s) && t in s.pcs && s.pcs[t] == Opening && n !in s.ports && h !in s.open
    ensures Safe(At(New(s, t, n, h), t, Adding(n)))
  {
    Unmentioned(s, n);
    ListedIsOpen(s);
    NewReady(s, t, n, h);
    Rearranged(s, At(New(s, t, n, h), t, Adding(n)), t, n);
  }

  lemma {:induction false} Unmentioned(s: System, n: nat)
    requires Safe(s) && n !in s.ports
    ensures forall u :: u in s.pcs ==> !s.pcs[u].Mentions(n)
    ensures Holders(s, n) == {} && Signallers(s, n) == {}
  {
    forall u | u in s.pcs
      ensures !s.pcs[u].Mentions(n)
    {
      assert ThreadOk(s, u, s.pcs[u]);
    }
  }

  /** Every handle in the tree is in use, for a port that is open. */
  lemma {:induction false} ListedIsOpen(s: System)
    requires Safe(s)
    ensures forall h :: h in s.tree ==> s.tree[h] in s.ports && s.ports[s.tree[h]].iocpOpen && h in s.open
  {
    forall h | h in s.tree
      ensures s.tree[h] in s.ports && s.ports[s.tree[h]].iocpOpen && h in s.open
    {
      assert PortOk(s, s.tree[h]);
    }
  }

  lemma {:induction false} NewReady(s: System, t: nat, n: nat, h: nat)
    requires !s.failed && HandlesAgree(s) && t in s.pcs && s.pcs[t] == Opening
    requires n !in s.ports && h !in s.open && h !in s.tree
    requires Holders(s, n) == {} && Signallers(s, n) == {}
    ensures Rearranges(s, At(New(s, t, n, h), t, Adding(n)), t, n)
  {
    var s' := At(New(s, t, n, h), t, Adding(n));
    NewLists(s, t, n, h);
    Recount(s, s', t, n);
  }

  lemma {:induction false} NewLists(s: System, t: nat, n: nat, h: nat)
    requires HandlesAgree(s) && n !in s.ports && h !in s.open && h !in s.tree
    ensures var s' := New(s, t, n, h);
      HandlesAgree(s') && !Listed(s', n) && forall m :: m != n ==> (Listed(s', m) <==> Listed(s, m))
  {
  }

  /** tree_add never fails: no listed port has the handle of a new one. */
  lemma {:induction false} InsertKeeps(s: System, t: nat, n: nat)
    requires Safe(s) && t in s.pcs && s.pcs[t] == Inserting(n)
    ensures n in s.ports && s.ports[n].handle !in s.tree
    ensures Safe(Insert(s, t, n))
  {
    OneOwner(s, t, n);
    ListedIsOpen(s);
    InsertReady(s, t, n);
    Rearranged(s, Insert(s, t, n), t, n);
  }

  lemma {:induction false} InsertReady(s: System, t: nat, n: nat)
    requires !s.failed && HandlesAgree(s) && t in s.pcs && s.pcs[t] == Inserting(n)
    requires n in s.ports && s.ports[n].owner == Some(t) && PortOk(s, n)
    requires forall h :: h in s.tree ==> s.tree[h] in s.ports && s.ports[s.tree[h]].iocpOpen
    ensures s.ports[n].handle !in s.tree
    ensures Rearranges(s, Insert(s, t, n), t, n)
  {
    var s' := Insert(s, t, n);
    assert s.ports[n].iocpOpen;
    InsertLists(s, t, n);
    Recount(s, s', t, n);
  }

  lemma {:induction false} InsertLists(s: System, t: nat, n: nat)
    requires HandlesAgree(s) && n in s.ports && s.ports[n].handle !in s.tree
    ensures var s' := Insert(s, t, n);
      HandlesAgree(s') && Listed(s', n) && forall m :: m != n ==> (Listed(s', m) <==> Listed(s, m))
  {
  }

  /** ts_tree_del_and_ref takes the node out of the tree; from here on it has one owner. */
  lemma {:induction false} UnlinkKeeps(s: System, t: nat, h: nat)
    requires Safe(s) && t in s.pcs && s.pcs[t] == Writing(h) && h in s.tree
    ensures Safe(At(Unlink(s, t, h), t, Unlinked(s.tree[h])))
  {
    var n := s.tree[h];
    assert PortOk(s, n);
    forall u | u != t && u in s.pcs && s.pcs[u].Mentions(n)
      ensures !s.pcs[u].Owns(n) && !s.pcs[u].Found?
    {
      assert ThreadOk(s, u, s.pcs[u]);
    }
    UnlinkReady(s, t, h, n);
    Rearranged(s, At(Unlink(s, t, h), t, Unlinked(n)), t, n);
  }

  lemma {:induction false} UnlinkReady(s: System, t: nat, h: nat, n: nat)
    requires !s.failed && HandlesAgree(s) && t in s.pcs && s.pcs[t] == Writing(h)
    requires h in s.tree && n == s.tree[h] && PortOk(s, n)
    ensures Rearranges(s, At(Unlink(s, t, h), t, Unlinked(n)), t, n)
  {
    var s' := At(Unlink(s, t, h), t, Unlinked(n));
    UnlinkLists(s, t, h);
    Recount(s, s', t, n);
  }

  lemma {:induction false} UnlinkLists(s: System, t: nat, h: nat)
    requires HandlesAgree(s) && h in s.tree
    ensures var s', n := Unlink(s, t, h), s.tree[h];
      HandlesAgree(s') && !Listed(s', n) && forall m :: m != n ==> (Listed(s', m) <==> Listed(s, m))
  {
  }
}
