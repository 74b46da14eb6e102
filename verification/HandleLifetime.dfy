/** The life of an epoll handle in src/lib/wepoll.c: the tree of open ports under its reader-writer
    lock, and the reference lock of each port, as the atomic steps of any number of threads that
    call epoll_create, epoll_ctl, epoll_wait and epoll_close.  What a thread does with a port it
    holds a reference to is the subject of Port and is one state, Working, here. */
module HandleLifetime {
  import opened Options

  const REF: int := 1
  const DESTROY: int := 0x1000_0000
  const POISON: int := 0x300d_ead0

  /** InterlockedAdd on a 32-bit word */
  function Add32(state: int, amount: int): int { (state + amount) % 0x1_0000_0000 }

  /** The bits of REFLOCK__DESTROY_MASK, shifted down: its lowest bit is REFLOCK__DESTROY. */
  function HighNibble(state: int): int { state / DESTROY }

  /** The bits of REFLOCK__REF_MASK */
  function RefCount(state: int): int { state % DESTROY }

  /** A port with the word of its reference lock.  Three fields only record history: `owner` is the
      thread that has the node to itself (creating or closing it), `waited` says whether
      the destroyer had to wait, `signals` how often its event was signalled. */
  datatype PortNode = PortNode(
    handle: nat, iocpOpen: bool, state: int, owner: Option<nat>, waited: bool, signals: nat)

  /** Where a thread is.  Found, Unlinked and so on name the point just after the step they are
      called for. */
  datatype Pc =
    // epoll_ctl and epoll_wait
    | Seeking(handle: nat) | Reading(handle: nat) | Found(node: nat) | Missed
    | Referenced(node: nat) | Working(node: nat) | Signalling(node: nat)
    // epoll_close
    | Removing(handle: nat) | Writing(handle: nat) | Unlinked(node: nat) | Unknown
    | Taken(node: nat) | Closing(node: nat) | Closed(node: nat)
    | Awaiting(node: nat) | Destroying(node: nat) | Destroyed(node: nat)
    // epoll_create
    | Opening | Adding(node: nat) | Inserting(node: nat) | Inserted | Rejected(node: nat) | Failing(node: nat)
  {
    predicate Shares() { Reading? || Found? || Missed? || Referenced? }

    predicate Excludes() {
      Writing? || Unlinked? || Unknown? || Taken? || Inserting? || Inserted? || Rejected?
    }

    /** The thread holds a counted reference to node `n`. */
    predicate Holds(n: nat) {
      (Referenced? || Working? || Taken? || Closing? || Closed?) && node == n
    }

    predicate Signals(n: nat) { Signalling? && node == n }

    /** The thread has node `n` to itself. */
    predicate Owns(n: nat) {
      && (Unlinked? || Taken? || Closing? || Closed? || Awaiting? || Destroying? || Destroyed?
          || Adding? || Inserting? || Rejected? || Failing?)
      && node == n
    }

    predicate Points() {
      !Seeking? && !Reading? && !Missed? && !Removing? && !Writing? && !Unknown? && !Opening? && !Inserted?
    }

    predicate Mentions(n: nat) { Points() && node == n }

    /** The thread mentions no other node than `n`. */
    predicate Only(n: nat) { Points() ==> node == n }
  }

  /** `ports` holds the allocated ports by address, `open` the handles the system has in use.
      `failed` records a failed assertion or an access to a port that is not allocated. */
  datatype System = System(
    ports: map<nat, PortNode>, tree: map<nat, nat>, open: set<nat>, pcs: map<nat, Pc>, failed: bool)

  const START: System := System(map[], map[], {}, map[], false)

  // ---- steps -------------------------------------------------------------------------------

  function At(s: System, t: nat, pc: Pc): System { s.(pcs := s.pcs[t := pc]) }

  function Gone(s: System, t: nat): System { s.(pcs := s.pcs - {t}) }

  function Store(s: System, n: nat, p: PortNode): System { s.(ports := s.ports[n := p]) }

  function Check(s: System, ok: bool): System { s.(failed := s.failed || !ok) }

  function Fail(s: System): System { Check(s, false) }

  ghost predicate NobodyExcludes(s: System) { forall u :: u in s.pcs ==> !s.pcs[u].Excludes() }

  ghost predicate NobodyHolds(s: System) {
    forall u :: u in s.pcs ==> !s.pcs[u].Excludes() && !s.pcs[u].Shares()
  }

  /** What the system decides about a step: whether a port can be created, the address malloc
      returns for it and its handle, whether closing a handle succeeds, which waiter a signal wakes. */
  datatype Choice = Choice(creates: bool, address: nat, handle: nat, closes: bool, waiter: nat)

  datatype Step = Call(thread: nat, pc: Pc) | Move(thread: nat, choice: Choice)

  /** Locks are granted only when they are free, malloc and the system hand out addresses and
      handles not in use, and an event is signalled to a thread that waits for it. */
  ghost predicate Enabled(s: System, step: Step) {
    match step
    case Call(t, pc) => t !in s.pcs && (pc.Seeking? || pc.Removing? || pc.Opening?)
    case Move(t, c) =>
      t in s.pcs &&
      match s.pcs[t]
      case Seeking(_) => NobodyExcludes(s)
      case Removing(_) => NobodyHolds(s)
      case Adding(_) => NobodyHolds(s)
      case Opening => c.creates ==> c.address !in s.ports && c.handle !in s.open
      case Signalling(n) => c.waiter in s.pcs && s.pcs[c.waiter] == Awaiting(n)
      case Awaiting(_) => false
      case _ => true
  }

  /** port_new */
  function New(s: System, t: nat, n: nat, h: nat): System {
    Store(s.(open := s.open + {h}), n, PortNode(h, true, 0, Some(t), false, 0))
  }

  /** reflock_ref */
  function Ref(s: System, n: nat): System {
    if n !in s.ports then Fail(s)
    else
      var state := Add32(s.ports[n].state, REF);
      Check(Store(s, n, s.ports[n].(state := state)), HighNibble(state) == 0)
  }

  /** reflock_unref up to where it signals the event */
  function Unref(s: System, t: nat, n: nat): System {
    if n !in s.ports then Fail(s)
    else
      var state := Add32(s.ports[n].state, -REF);
      var p := s.ports[n].(state := state);
      var ok := HighNibble(state) / 2 == 0;
      if state == DESTROY then Check(At(Store(s, n, p.(signals := p.signals + 1)), t, Signalling(n)), ok)
      else Check(Gone(Store(s, n, p), t), ok)
  }

  /** reflock_unref_and_destroy up to where it waits */
  function Destroy(s: System, t: nat, n: nat): System {
    if n !in s.ports then Fail(s)
    else
      var state := Add32(s.ports[n].state, DESTROY - REF);
      var p := s.ports[n].(state := state);
      var ok := HighNibble(state) == 1;
      if RefCount(state) != 0 then Check(At(Store(s, n, p.(waited := true)), t, Awaiting(n)), ok)
      else Check(At(Store(s, n, p), t, Destroying(n)), ok)
  }

  /** The exchange at the end of reflock_unref_and_destroy */
  function Poison(s: System, n: nat): System {
    if n !in s.ports then Fail(s)
    else Check(Store(s, n, s.ports[n].(state := POISON)), s.ports[n].state == DESTROY)
  }

  /** tree_del, in ts_tree_del_and_ref */
  function Unlink(s: System, t: nat, h: nat): System
    requires h in s.tree
  {
    var n := s.tree[h];
    if n !in s.ports then Fail(s)
    else Store(s.(tree := s.tree - {h}), n, s.ports[n].(owner := Some(t)))
  }

  /** port_close */
  function ClosePort(s: System, n: nat, closes: bool): System {
    if n !in s.ports then Fail(s)
    else
      Store(s.(open := if closes then s.open - {s.ports[n].handle} else s.open), n,
            s.ports[n].(iocpOpen := false))
  }

  /** tree_add, in ts_tree_add */
  function Insert(s: System, t: nat, n: nat): System {
    if n !in s.ports then Fail(s)
    else if s.ports[n].handle in s.tree then At(s, t, Rejected(n))
    else At(Store(s.(tree := s.tree[s.ports[n].handle := n]), n, s.ports[n].(owner := None)), t, Inserted)
  }

  /** port_delete, whose first assertion is that the port has been closed */
  function Delete(s: System, n: nat): System {
    if n !in s.ports then Fail(s) else Check(s.(ports := s.ports - {n}), !s.ports[n].iocpOpen)
  }

  function Next(s: System, step: Step): System
    requires Enabled(s, step)
  {
    match step
    case Call(t, pc) => At(s, t, pc)
    case Move(t, c) =>
      match s.pcs[t]
      case Seeking(h) => At(s, t, Reading(h))
      case Reading(h) => At(s, t, if h in s.tree then Found(s.tree[h]) else Missed)
      case Found(n) => At(Ref(s, n), t, Referenced(n))
      case Missed => Gone(s, t)
      case Referenced(n) => At(s, t, Working(n))
      case Working(n) => Unref(s, t, n)
      case Signalling(n) => At(Gone(s, t), c.waiter, Destroying(n))
      case Removing(h) => At(s, t, Writing(h))
      case Writing(h) => if h in s.tree then At(Unlink(s, t, h), t, Unlinked(s.tree[h])) else At(s, t, Unknown)
      case Unlinked(n) => At(Ref(s, n), t, Taken(n))
      case Unknown => Gone(s, t)
      case Taken(n) => At(s, t, Closing(n))
      case Closing(n) => At(ClosePort(s, n, c.closes), t, Closed(n))
      case Closed(n) => Destroy(s, t, n)
      case Awaiting(n) => s
      case Destroying(n) => At(Poison(s, n), t, Destroyed(n))
      case Destroyed(n) => Gone(Delete(s, n), t)
      case Opening => if c.creates then At(New(s, t, c.address, c.handle), t, Adding(c.address)) else Gone(s, t)
      case Adding(n) => At(s, t, Inserting(n))
      case Inserting(n) => Insert(s, t, n)
      case Inserted => Gone(s, t)
      case Rejected(n) => At(s, t, Failing(n))
      case Failing(n) => Gone(Delete(s, n), t)
  }
}
