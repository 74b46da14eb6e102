/** The state of one epoll port of src/lib/wepoll.c and what each operation does to it while the
    port lock is held.  The socket tree is the map RedBlackTree.Tree refines, the two socket queues
    are the sequences IntrusiveQueue.Queue refines.  The kernel is an environment: it answers
    submissions and cancellations, and owns the polls whose completion has not been fed yet. */
module Port {
  import opened Options
  import opened PollGroups

  // ---- constants of wepoll.h and the AFD interface -----------------------------------------

  const EPOLLIN: bv32 := 0x1
  const EPOLLPRI: bv32 := 0x2
  const EPOLLOUT: bv32 := 0x4
  const EPOLLERR: bv32 := 0x8
  const EPOLLHUP: bv32 := 0x10
  const EPOLLRDNORM: bv32 := 0x40
  const EPOLLRDBAND: bv32 := 0x80
  const EPOLLWRNORM: bv32 := 0x100
  const EPOLLWRBAND: bv32 := 0x200
  const EPOLLMSG: bv32 := 0x400
  const EPOLLRDHUP: bv32 := 0x2000
  const EPOLLONESHOT: bv32 := 0x8000_0000
  const KNOWN_EPOLL_EVENTS: bv32 :=
    EPOLLIN | EPOLLPRI | EPOLLOUT | EPOLLERR | EPOLLHUP | EPOLLRDNORM
    | EPOLLRDBAND | EPOLLWRNORM | EPOLLWRBAND | EPOLLMSG | EPOLLRDHUP

  const AFD_POLL_RECEIVE: bv32 := 0x1
  const AFD_POLL_RECEIVE_EXPEDITED: bv32 := 0x2
  const AFD_POLL_SEND: bv32 := 0x4
  const AFD_POLL_DISCONNECT: bv32 := 0x8
  const AFD_POLL_ABORT: bv32 := 0x10
  const AFD_POLL_LOCAL_CLOSE: bv32 := 0x20
  const AFD_POLL_ACCEPT: bv32 := 0x80
  const AFD_POLL_CONNECT_FAIL: bv32 := 0x100

  function Has(mask: bv32, bits: bv32): bool { mask & bits != 0 }

  /** sock__afd_events_to_epoll_events */
  function AfdToEpoll(afd: bv32): bv32 {
    (if Has(afd, AFD_POLL_RECEIVE | AFD_POLL_ACCEPT) then EPOLLIN | EPOLLRDNORM else 0)
    | (if Has(afd, AFD_POLL_RECEIVE_EXPEDITED) then EPOLLPRI | EPOLLRDBAND else 0)
    | (if Has(afd, AFD_POLL_SEND) then EPOLLOUT | EPOLLWRNORM | EPOLLWRBAND else 0)
    | (if Has(afd, AFD_POLL_DISCONNECT) then EPOLLIN | EPOLLRDNORM | EPOLLRDHUP else 0)
    | (if Has(afd, AFD_POLL_ABORT) then EPOLLHUP else 0)
    | (if Has(afd, AFD_POLL_CONNECT_FAIL) then
         EPOLLIN | EPOLLOUT | EPOLLERR | EPOLLRDNORM | EPOLLWRNORM | EPOLLRDHUP
       else 0)
  }

  /** sock__epoll_events_to_afd_events */
  function EpollToAfd(events: bv32): bv32 {
    AFD_POLL_LOCAL_CLOSE
    | (if Has(events, EPOLLIN | EPOLLRDNORM) then AFD_POLL_RECEIVE | AFD_POLL_ACCEPT else 0)
    | (if Has(events, EPOLLPRI | EPOLLRDBAND) then AFD_POLL_RECEIVE_EXPEDITED else 0)
    | (if Has(events, EPOLLOUT | EPOLLWRNORM | EPOLLWRBAND) then AFD_POLL_SEND else 0)
    | (if Has(events, EPOLLIN | EPOLLRDNORM | EPOLLRDHUP) then AFD_POLL_DISCONNECT else 0)
    | (if Has(events, EPOLLHUP) then AFD_POLL_ABORT else 0)
    | (if Has(events, EPOLLERR) then AFD_POLL_CONNECT_FAIL else 0)
  }

  predicate IsAfdEvent(a: bv32) {
    || a == AFD_POLL_RECEIVE || a == AFD_POLL_ACCEPT || a == AFD_POLL_RECEIVE_EXPEDITED || a == AFD_POLL_SEND
    || a == AFD_POLL_DISCONNECT || a == AFD_POLL_ABORT || a == AFD_POLL_CONNECT_FAIL
  }

  /** sock_set_event always asks for EPOLLERR; after a one-shot event nothing is asked for. */
  predicate AsksForErrors(events: bv32) { events == 0 || Has(events, EPOLLERR) }

  /** A poll monitors an AFD event exactly when it would be reported to the user. */
  lemma {:induction false} MonitorsWhatIsReported(events: bv32, a: bv32)
    requires IsAfdEvent(a) && AsksForErrors(events)
    ensures Has(EpollToAfd(events), a) <==> Has(AfdToEpoll(a), events)
  {
  }

  /** A poll for `pending` that misses no requested event monitors all that one for `events` would. */
  lemma {:induction false} CoversWhatIsAsked(events: bv32, pending: bv32)
    requires events & KNOWN_EPOLL_EVENTS & !pending == 0
    ensures EpollToAfd(events) & !EpollToAfd(pending) == 0
  {
  }

  // ---- state -------------------------------------------------------------------------------

  datatype Status = Idle | Pending | Cancelled

  /** sock_state_t; its queue node is represented by membership in the port's two queues. */
  datatype SockState = SockState(
    key: nat, group: nat, userData: nat, userEvents: bv32, pendingEvents: bv32,
    status: Status, deletePending: bool)
  {
    /** Some event the user asked for is not covered by the pending poll. */
    predicate Missing() { userEvents & KNOWN_EPOLL_EVENTS & !pendingEvents != 0 }
  }

  /** port_state_t.  `socks` holds the allocated socket states by address, `next` is an address not
      used yet.  `outstanding` counts, for each address, the polls submitted and not yet fed;
      `dequeued` those among them whose completion some thread has taken off the port.  `closed` says
      that the completion port is gone (its handle is NULL), `failed` that the assertion of
      port_get_iocp_handle has been reached in this state. */
  datatype State = State(
    socks: map<nat, SockState>, tree: map<nat, nat>, updateQueue: seq<nat>, deletedQueue: seq<nat>,
    groups: seq<Group>, activePolls: nat, polling: set<nat>,
    outstanding: multiset<nat>, dequeued: multiset<nat>, next: nat, closed: bool, failed: bool)

  const INITIAL: State := State(map[], map[], [], [], [], 0, {}, multiset{}, multiset{}, 0, false, false)

  // ---- the kernel's answers ----------------------------------------------------------------

  datatype Submission = Accepted | SocketClosed | OtherError

  /** How the kernel answers the poll and cancel requests made while the lock is held once; no
      socket is submitted or cancelled twice meanwhile. */
  datatype Kernel = Kernel(submit: nat -> Submission, cancel: nat -> bool)

  ghost predicate Reliable(k: Kernel) {
    forall id :: k.submit(id) != OtherError && k.cancel(id)
  }

  /** What a completion says: the status block and the poll info. */
  datatype Completion = Aborted | Failed | Success(handles: nat, afdEvents: bv32)

  /** Whether the allocations sock_new makes succeed. */
  datatype Resources = Resources(hasBaseSocket: bool, createsGroup: bool, allocates: bool)

  // ---- queues ------------------------------------------------------------------------------

  function Remove(q: seq<nat>, id: nat): seq<nat> {
    if q == [] then []
    else if q[0] == id then q[1..]
    else [q[0]] + Remove(q[1..], id)
  }

  ghost predicate NoDuplicates(q: seq<nat>) {
    q != [] ==> q[0] !in q[1..] && NoDuplicates(q[1..])
  }

  lemma {:induction false} AppendFacts(q: seq<nat>, id: nat)
    requires NoDuplicates(q) && id !in q
    ensures NoDuplicates(q + [id])
    ensures forall x :: x in q + [id] <==> x in q || x == id
  {
    if q == [] {
      assert q + [id] == [id];
    } else {
      AppendFacts(q[1..], id);
      assert (q + [id])[1..] == q[1..] + [id];
    }
  }

  lemma {:induction false} RemoveFacts(q: seq<nat>, id: nat)
    requires NoDuplicates(q)
    ensures NoDuplicates(Remove(q, id))
    ensures forall x :: x in Remove(q, id) <==> x in q && x != id
    ensures |Remove(q, id)| == if id in q then |q| - 1 else |q|
  {
    if q != [] {
      var r := Remove(q[1..], id);
      RemoveFacts(q[1..], id);
      assert forall x :: x in q <==> x == q[0] || x in q[1..];
      if q[0] != id {
        assert ([q[0]] + r)[1..] == r;
      }
    }
  }

  predicate Enqueued(s: State, id: nat) {
    id in s.updateQueue || id in s.deletedQueue
  }

  /** port_request_socket_update */
  function Request(s: State, id: nat): State {
    if Enqueued(s, id) then s else s.(updateQueue := s.updateQueue + [id])
  }

  /** port_cancel_socket_update and port_remove_deleted_socket: off whichever queue it is on */
  function Unqueue(s: State, id: nat): State {
    if !Enqueued(s, id) then s
    else s.(updateQueue := Remove(s.updateQueue, id), deletedQueue := Remove(s.deletedQueue, id))
  }

  /** port_add_deleted_socket */
  function AddDeleted(s: State, id: nat): State {
    if Enqueued(s, id) then s else s.(deletedQueue := s.deletedQueue + [id])
  }

  function SetSock(s: State, id: nat, x: SockState): State {
    s.(socks := s.socks[id := x])
  }

  // ---- sockets -----------------------------------------------------------------------------

  /** sock__cancel_poll */
  function CancelPoll(s: State, id: nat): State
    requires id in s.socks
  {
    SetSock(s, id, s.socks[id].(status := Cancelled, pendingEvents := 0))
  }

  /** The first part of sock__delete, for a socket that is not being deleted yet. */
  function Retire(s: State, id: nat, cancels: bool): State
    requires id in s.socks
  {
    var s1 := if s.socks[id].status == Pending && cancels then CancelPoll(s, id) else s;
    var s2 := Unqueue(s1, id);
    s2.(tree := s2.tree - {s.socks[id].key}, socks := s2.socks[id := s2.socks[id].(deletePending := true)])
  }

  /** The end of sock__delete: the state is freed and its slot released. */
  ghost function Freed(s: State, id: nat): State
    requires id in s.socks && HasSlot(s.groups, s.socks[id].group)
  {
    var t := Unqueue(s, id);
    t.(groups := Released(t.groups, s.socks[id].group), socks := t.socks - {id})
  }

  /** sock__delete.  `cancels` is the kernel's answer to a cancellation. */
  ghost function Deleted(s: State, id: nat, force: bool, cancels: bool): State
    requires id in s.socks && HasSlot(s.groups, s.socks[id].group)
  {
    var t := if s.socks[id].deletePending then s else Retire(s, id, cancels);
    if force || t.socks[id].status == Idle then Freed(t, id) else AddDeleted(t, id)
  }

  /** sock_set_event */
  function SetEvent(s: State, id: nat, events: bv32, data: nat): State
    requires id in s.socks
  {
    var x := s.socks[id].(userEvents := events | EPOLLERR | EPOLLHUP, userData := data);
    if x.Missing() then Request(SetSock(s, id, x), id) else SetSock(s, id, x)
  }

  /** sock_new: the new state and the address, if it succeeded. */
  ghost function Created(s: State, key: nat, env: Resources): (State, Option<nat>)
  {
    if !Creatable(key, env) then (s, None) else Registered(Asserted(s), key, env)
  }

  /** The tests sock_new makes before it asks for a slot */
  predicate Creatable(key: nat, env: Resources) { key != 0 && key != INVALID_SOCKET && env.hasBaseSocket }

  /** The assertion of port_get_iocp_handle, which poll_group__new calls */
  ghost function Asserted(s: State): State {
    if NeedsGroup(s.groups) then s.(failed := s.failed || s.closed) else s
  }

  /** The rest of sock_new */
  ghost function Registered(s: State, key: nat, env: Resources): (State, Option<nat>) {
    var (groups, group) := Acquired(s.groups, env.createsGroup);
    if group.None? then (s, None) else Placed(s.(groups := groups), key, group.value, env.allocates)
  }

  /** What it does once it has a slot */
  ghost function Placed(s: State, key: nat, group: nat, allocates: bool): (State, Option<nat>) {
    if !allocates || key in s.tree then
      (s.(groups := if HasSlot(s.groups, group) then Released(s.groups, group) else s.groups), None)
    else
      (s.(tree := s.tree[key := s.next], next := s.next + 1,
          socks := s.socks[s.next := SockState(key, group, 0, 0, 0, Idle, false)]),
       Some(s.next))
  }

  const INVALID_SOCKET: nat := 0xFFFF_FFFF_FFFF_FFFF

  /** sock_update once afd_poll has accepted the request */
  function Submitted(s: State, id: nat): State
    requires id in s.socks
  {
    SetSock(s, id, s.socks[id].(status := Pending, pendingEvents := s.socks[id].userEvents))
      .(outstanding := s.outstanding + multiset{id})
  }

  /** sock_update: the new state, and false if it returned an error. */
  ghost function Updated(s: State, id: nat, k: Kernel): (State, bool)
    requires id in s.socks && HasSlot(s.groups, s.socks[id].group)
  {
    var x := s.socks[id];
    match x.status
    case Pending =>
      if !x.Missing() then (Unqueue(s, id), true)
      else if k.cancel(id) then (Unqueue(CancelPoll(s, id), id), true)
      else (s, false)
    case Cancelled => (Unqueue(s, id), true)
    case Idle =>
      match k.submit(id)
      case Accepted =>
        (Unqueue(Submitted(s, id), id), true)
      case SocketClosed => (Deleted(s, id, false, true), true)
      case OtherError => (s, false)
  }

  /** The poll found that the socket was closed. */
  function Closes(c: Completion): bool {
    c.Success? && c.handles >= 1 && Has(c.afdEvents, AFD_POLL_LOCAL_CLOSE)
  }

  /** What epoll_wait returns for a socket: its events and the data the user gave for it */
  datatype Event = Event(events: bv32, data: nat)

  /** The events sock_feed_event reports for a socket, 0 for none. */
  function Reported(x: SockState, c: Completion): bv32 {
    var found := if c.Failed? then EPOLLERR else if c.Success? && c.handles >= 1 then AfdToEpoll(c.afdEvents) else 0;
    if x.deletePending || Closes(c) then 0 else found & x.userEvents
  }

  /** What sock_feed_event puts into the caller's array */
  function EventOf(x: SockState, c: Completion): Option<Event> {
    if Reported(x, c) == 0 then None else Some(Event(Reported(x, c), x.userData))
  }

  /** sock_feed_event for a socket that is being deleted or was closed */
  ghost function FedClosed(s: State, id: nat): State
    requires id in s.socks && HasSlot(s.groups, s.socks[id].group)
  {
    Deleted(Settled(s, id), id, false, true)
  }

  /** sock_feed_event for a socket that lives on; `once` if its one shot has been used up */
  function FedOpen(s: State, id: nat, once: bool): State
    requires id in s.socks
  {
    var u := Request(Settled(s, id), id);
    if once then SetSock(u, id, u.socks[id].(userEvents := 0)) else u
  }

  /** The state once the completion has been taken in, before anything is done about it. */
  function Settled(s: State, id: nat): State
    requires id in s.socks
  {
    SetSock(s, id, s.socks[id].(status := Idle, pendingEvents := 0))
      .(outstanding := s.outstanding - multiset{id}, dequeued := s.dequeued - multiset{id})
  }

  /** sock_feed_event */
  ghost function Fed(s: State, id: nat, c: Completion): State
    requires id in s.socks && HasSlot(s.groups, s.socks[id].group)
  {
    var x := s.socks[id];
    if x.deletePending || Closes(c) then FedClosed(s, id)
    else FedOpen(s, id, Reported(x, c) != 0 && Has(x.userEvents, EPOLLONESHOT))
  }
}
