/** Every run of HandleLifetime: any threads, any interleaving, fewer than 2^28 references to one port
    at a time. */
module HandleRuns {
  import opened Options
  import opened HandleLifetime
  import opened HandleSafety

  lemma {:induction false} CallKeeps(s: System, t: nat, pc: Pc)
    requires Safe(s) && t !in s.pcs && (pc.Seeking? || pc.Removing? || pc.Opening?)
    ensures Safe(At(s, t, pc))
  {
    LockKept(s, At(s, t, pc), t, 0);
    IdleMove(s, At(s, t, pc), t);
  }

  lemma {:induction false} LeavesKeeps(s: System, t: nat)
    requires Safe(s) && t in s.pcs && !s.pcs[t].Points()
    ensures Safe(Gone(s, t))
  {
    LockKept(s, Gone(s, t), t, 0);
    IdleMove(s, Gone(s, t), t);
  }

  lemma {:induction false} LookupKeeps(s: System, t: nat, pc: Pc)
    requires Safe(s) && t in s.pcs
    requires (s.pcs[t].Reading? && pc == Missed) || (s.pcs[t].Writing? && pc == Unknown)
    ensures Safe(At(s, t, pc))
  {
    LockKept(s, At(s, t, pc), t, 0);
    IdleMove(s, At(s, t, pc), t);
  }

  /** A reader gets the lock while nobody has it exclusively, a writer while nobody has it. */
  lemma {:induction false} LockGranted(s: System, t: nat, pc: Pc)
    requires LockExcludes(s) && NobodyExcludes(s) && (pc.Excludes() ==> NobodyHolds(s))
    ensures LockExcludes(At(s, t, pc))
  {
  }

  lemma {:induction false} AcquireKeeps(s: System, t: nat, pc: Pc)
    requires Safe(s) && t in s.pcs && !s.pcs[t].Points()
    requires (pc.Reading? && NobodyExcludes(s)) || (pc.Writing? && NobodyHolds(s))
    ensures Safe(At(s, t, pc))
  {
    LockGranted(s, t, pc);
    IdleMove(s, At(s, t, pc), t);
  }

  lemma {:induction false} AcquireToInsertKeeps(s: System, t: nat, n: nat)
    requires Safe(s) && t in s.pcs && s.pcs[t] == Adding(n) && NobodyHolds(s)
    ensures Safe(At(s, t, Inserting(n)))
  {
    var s' := At(s, t, Inserting(n));
    LockGranted(s, t, Inserting(n));
    OneOwner(s, t, n);
    InsertingPort(s, t, n);
    MoveKeeps(s, s', t, n);
    SafeAgain(s', n);
  }

  lemma {:induction false} InsertingPort(s: System, t: nat, n: nat)
    requires t in s.pcs && s.pcs[t] == Adding(n) && n in s.ports && s.ports[n].owner == Some(t) && PortOk(s, n)
    ensures PortOk(At(s, t, Inserting(n)), n)
  {
    Recount(s, At(s, t, Inserting(n)), t, n);
  }

  lemma {:induction false} FoundKeeps(s: System, t: nat, h: nat)
    requires Safe(s) && t in s.pcs && s.pcs[t] == Reading(h)
    ensures Safe(At(s, t, if h in s.tree then Found(s.tree[h]) else Missed))
  {
    if h in s.tree {
      LookKeeps(s, t, Found(s.tree[h]), s.tree[h]);
    } else {
      LookupKeeps(s, t, Missed);
    }
  }

  lemma {:induction false} TakeKeeps(s: System, t: nat, h: nat)
    requires Safe(s) && t in s.pcs && s.pcs[t] == Writing(h)
    ensures Safe(if h in s.tree then At(Unlink(s, t, h), t, Unlinked(s.tree[h])) else At(s, t, Unknown))
  {
    if h in s.tree {
      UnlinkKeeps(s, t, h);
    } else {
      LookupKeeps(s, t, Unknown);
    }
  }

  lemma {:induction false} Allocated(s: System, t: nat)
    requires Safe(s) && t in s.pcs
    ensures s.pcs[t].Points() ==> s.pcs[t].node in s.ports
    ensures !s.pcs[t].Rejected? && !s.pcs[t].Failing?
  {
    assert ThreadOk(s, t, s.pcs[t]);
  }

  /** Every step of every thread keeps the invariant: no assertion fails and no freed port is used. */
  lemma {:induction false} StepKeeps(s: System, step: Step)
    requires Safe(s) && Bounded(s) && Enabled(s, step) && Bounded(Next(s, step))
    ensures Safe(Next(s, step))
  {
    match step {
      case Call(t, pc) => CallKeeps(s, t, pc);
      case Move(t, c) =>
        Allocated(s, t);
        match s.pcs[t] {
          case Seeking(h) => AcquireKeeps(s, t, Reading(h));
          case Reading(h) => FoundKeeps(s, t, h);
          case Found(n) => RefKeeps(s, t, Referenced(n), n);
          case Missed => LeavesKeeps(s, t);
          case Referenced(n) => LookKeeps(s, t, Working(n), n);
          case Working(n) => UnrefKeeps(s, t, n);
          case Signalling(n) => SignalKeeps(s, t, c.waiter, n);
          case Removing(h) => AcquireKeeps(s, t, Writing(h));
          case Writing(h) => TakeKeeps(s, t, h);
          case Unlinked(n) => RefKeeps(s, t, Taken(n), n);
          case Unknown => LeavesKeeps(s, t);
          case Taken(n) => LookKeeps(s, t, Closing(n), n);
          case Closing(n) => CloseKeeps(s, t, n, c.closes);
          case Closed(n) => DestroyKeeps(s, t, n);
          case Destroying(n) => PoisonKeeps(s, t, n);
          case Destroyed(n) => DeleteKeeps(s, t, n);
          case Opening => if c.creates { NewKeeps(s, t, c.address, c.handle); } else { LeavesKeeps(s, t); }
          case Adding(n) => AcquireToInsertKeeps(s, t, n);
          case Inserting(n) => InsertKeeps(s, t, n);
          case Inserted => LeavesKeeps(s, t);
          case _ =>
        }
    }
  }

  lemma {:induction false} StartBounded()
    ensures Bounded(START)
  {
    forall n: nat
      ensures |Holders(START, n)| < DESTROY
    {
      assert Holders(START, n) == {};
    }
  }

  /** The state after a run, None if a step was not possible or there were too many references. */
  ghost function After(run: seq<Step>): (r: Option<System>)
    ensures r.Some? ==> Safe(r.value) && Bounded(r.value)
  {
    if run == [] then
      StartBounded();
      Some(START)
    else
      var r := After(run[..|run| - 1]);
      if r.None? || !Enabled(r.value, run[|run| - 1]) || !Bounded(Next(r.value, run[|run| - 1])) then None
      else
        StepKeeps(r.value, run[|run| - 1]);
        Some(Next(r.value, run[|run| - 1]))
  }

  /** A run goes on with any step that is possible. */
  lemma {:induction false} RunExtends(run: seq<Step>, step: Step)
    requires After(run).Some? && Enabled(After(run).value, step) && Bounded(Next(After(run).value, step))
    ensures After(run + [step]) == Some(Next(After(run).value, step))
  {
    assert (run + [step])[..|run|] == run;
  }

  /** In every run: no assertion of the reference lock fails and no freed port is used, the branch
      of epoll_create that should never happen is not taken, at most one thread creates or closes a
      port, and none of them can be found by its handle. */
  lemma {:induction false} EveryRun(run: seq<Step>, n: nat)
    requires After(run).Some?
    ensures var s := After(run).value;
      && !s.failed
      && (forall t :: t in s.pcs ==> !s.pcs[t].Rejected? && !s.pcs[t].Failing?)
      && (forall t :: t in s.pcs && s.pcs[t].Mentions(n) ==> n in s.ports)
      && (forall t, u :: t in s.pcs && u in s.pcs && s.pcs[t].Owns(n) && s.pcs[u].Owns(n) ==> t == u)
      && (forall t :: t in s.pcs && s.pcs[t].Owns(n) ==> n !in s.tree.Values)
  {
    var s := After(run).value;
    forall t | t in s.pcs
      ensures !s.pcs[t].Rejected? && !s.pcs[t].Failing? && (s.pcs[t].Mentions(n) ==> n in s.ports)
    {
      Allocated(s, t);
    }
    forall t | t in s.pcs && s.pcs[t].Owns(n)
      ensures n in s.ports && s.ports[n].owner == Some(t) && n !in s.tree.Values
    {
      OneOwner(s, t, n);
    }
  }

  /** The word of the reference lock counts the references exactly; the destroyer waits only while
      somebody is left to signal it, and then it is signalled once; before that nobody signals. */
  lemma {:induction false} EveryCount(run: seq<Step>, n: nat)
    requires After(run).Some? && n in After(run).value.ports
    ensures var s, p := After(run).value, After(run).value.ports[n];
      var owner := OwnerAt(s, n);
      && (p.state == POISON <==> owner.Some? && owner.value.Destroyed?)
      && (p.state != POISON ==>
            p.state == |Holders(s, n)| +
                       (if owner.Some? && (owner.value.Awaiting? || owner.value.Destroying?) then DESTROY else 0))
      && (owner.Some? && owner.value.Awaiting? ==>
            p.signals == |Signallers(s, n)| == (if Holders(s, n) == {} then 1 else 0))
      && (owner.Some? && (owner.value.Destroying? || owner.value.Destroyed?) ==>
            p.signals == (if p.waited then 1 else 0) && Signallers(s, n) == {})
      && (owner.None? || !(owner.value.Awaiting? || owner.value.Destroying? || owner.value.Destroyed?) ==>
            p.signals == 0 && !p.waited && Signallers(s, n) == {})
  {
    var s := After(run).value;
    assert PortOk(s, n);
  }

  /** When reflock_unref_and_destroy has returned no other thread has anything to do with the port. */
  lemma {:induction false} EveryDestroyerIsAlone(run: seq<Step>, t: nat, n: nat)
    requires After(run).Some? && t in After(run).value.pcs && After(run).value.pcs[t] == Destroyed(n)
    ensures forall u :: u in After(run).value.pcs && After(run).value.pcs[u].Mentions(n) ==> u == t
  {
    Alone(After(run).value, t, n);
  }

  /** Once a port has been taken out of the tree no thread but the one that took it gains a
      reference to it, whatever happens next. */
  lemma {:induction false} NoReferenceAfterRemoval(run: seq<Step>, step: Step, n: nat, t: nat)
    requires After(run).Some? && Enabled(After(run).value, step)
    requires n in After(run).value.ports && !Listed(After(run).value, n)
    requires t in Holders(Next(After(run).value, step), n) && t !in Holders(After(run).value, n)
    ensures After(run).value.ports[n].owner == Some(t)
  {
    var s := After(run).value;
    GainsBy(s, step, t, n);
    OnlyOwnerGains(s, t, n);
  }

  lemma {:induction false} OnlyOwnerGains(s: System, t: nat, n: nat)
    requires Safe(s) && n in s.ports && !Listed(s, n)
    requires t in s.pcs && (s.pcs[t] == Found(n) || s.pcs[t] == Unlinked(n))
    ensures s.ports[n].owner == Some(t)
  {
    assert ThreadOk(s, t, s.pcs[t]);
  }

  /** A reference is gained only by finding a port, or by taking it out of the tree. */
  lemma {:induction false} GainsBy(s: System, step: Step, t: nat, n: nat)
    requires Enabled(s, step) && t in Holders(Next(s, step), n) && t !in Holders(s, n)
    ensures t in s.pcs && (s.pcs[t] == Found(n) || s.pcs[t] == Unlinked(n))
  {
  }

  /** There is always a thread that can go on. */
  lemma {:induction false} NoDeadlock(run: seq<Step>, t: nat)
    requires After(run).Some? && t in After(run).value.pcs
    ensures exists u, c :: Enabled(After(run).value, Move(u, c))
  {
    var s := After(run).value;
    var u, c := Runnable(s, t);
    assert Enabled(s, Move(u, c));
  }

  lemma {:induction false} Runnable(s: System, t: nat) returns (u: nat, c: Choice)
    requires Safe(s) && t in s.pcs
    ensures Enabled(s, Move(u, c))
  {
    u, c := t, Choice(false, 0, 0, false, 0);
    Allocated(s, t);
    match s.pcs[t] {
      case Seeking(_) =>
        if !NobodyExcludes(s) { u := LockHolder(s); }
      case Removing(_) =>
        if !NobodyHolds(s) { u := LockHolder(s); }
      case Adding(_) =>
        if !NobodyHolds(s) { u := LockHolder(s); }
      case Signalling(n) =>
        var waiter := Waiter(s, t, n);
        c := Choice(false, 0, 0, false, waiter);
      case Awaiting(n) =>
        u, c := Waker(s, t, n);
      case _ =>
    }
  }

  lemma {:induction false} LockHolder(s: System) returns (u: nat)
    requires exists u :: u in s.pcs && (s.pcs[u].Excludes() || s.pcs[u].Shares())
    ensures Enabled(s, Move(u, Choice(false, 0, 0, false, 0)))
  {
    u :| u in s.pcs && (s.pcs[u].Excludes() || s.pcs[u].Shares());
  }

  /** Whoever signals finds the destroyer waiting. */
  lemma {:induction false} Waiter(s: System, t: nat, n: nat) returns (u: nat)
    requires Safe(s) && t in s.pcs && s.pcs[t] == Signalling(n)
    ensures u in s.pcs && s.pcs[u] == Awaiting(n)
  {
    assert ThreadOk(s, t, s.pcs[t]) && PortOk(s, n);
    assert t in Signallers(s, n);
    u := s.ports[n].owner.value;
  }

  /** Whoever waits has somebody to wake it, or somebody who still holds a reference. */
  lemma {:induction false} Waker(s: System, t: nat, n: nat) returns (u: nat, c: Choice)
    requires Safe(s) && t in s.pcs && s.pcs[t] == Awaiting(n)
    ensures Enabled(s, Move(u, c))
  {
    OneOwner(s, t, n);
    if Holders(s, n) == {} {
      assert Signallers(s, n) != {};
      u :| u in Signallers(s, n);
    } else {
      u :| u in Holders(s, n);
    }
    c := Choice(false, 0, 0, false, t);
  }

  /** The completion port of a port is open until its closer has been through port_close: the assertion
      of port_get_iocp_handle holds for a thread that works on the port exactly until then. */
  lemma {:induction false} OpenUntilClosed(run: seq<Step>, n: nat)
    requires After(run).Some? && n in After(run).value.ports
    ensures var s := After(run).value;
      s.ports[n].iocpOpen <==>
        forall u :: u in s.pcs && s.pcs[u].Owns(n) ==>
          !s.pcs[u].Closed? && !s.pcs[u].Awaiting? && !s.pcs[u].Destroying? && !s.pcs[u].Destroyed?
  {
    OpenWhile(After(run).value, n);
  }

  lemma {:induction false} OpenWhile(s: System, n: nat)
    requires Safe(s) && n in s.ports
    ensures s.ports[n].iocpOpen <==>
      forall u :: u in s.pcs && s.pcs[u].Owns(n) ==>
        !s.pcs[u].Closed? && !s.pcs[u].Awaiting? && !s.pcs[u].Destroying? && !s.pcs[u].Destroyed?
  {
    assert PortOk(s, n);
    forall u | u in s.pcs && s.pcs[u].Owns(n)
      ensures s.ports[n].owner == Some(u)
    {
      OneOwner(s, u, n);
    }
  }

  lemma {:induction false} SameHolders(s: System, s': System)
    requires Bounded(s) && s'.pcs.Keys == s.pcs.Keys
    requires forall t, n :: t in s.pcs ==> (s'.pcs[t].Holds(n) <==> s.pcs[t].Holds(n))
    ensures Bounded(s')
  {
    forall n: nat
      ensures |Holders(s', n)| < DESTROY
    {
      assert Holders(s', n) == Holders(s, n);
    }
  }

  /** It fails for a thread that works on a port when another one goes through port_close. */
  lemma {:induction false} ClosedUnderUse(run: seq<Step>, t: nat, u: nat, n: nat, c: Choice)
    requires After(run).Some? && t in After(run).value.pcs && u in After(run).value.pcs
    requires After(run).value.pcs[t] == Working(n) && After(run).value.pcs[u] == Closing(n)
    ensures var r := After(run + [Move(u, c)]);
      r.Some? && t in r.value.pcs && r.value.pcs[t] == Working(n) && n in r.value.ports && !r.value.ports[n].iocpOpen
  {
    var s := After(run).value;
    assert ThreadOk(s, u, s.pcs[u]);
    SameHolders(s, Next(s, Move(u, c)));
    RunExtends(run, Move(u, c));
  }
}
