/** The two event loops of src/protocols/plain.hpp, in every interleaving, with the pipe between them
    and the connections to the server.  A loop handles one event at a time; what it sends to the
    other loop and what it reads from it goes through the pipe in pieces of any size. */
module Forwarder {
  import opened Options
  import opened Framing
  import opened Channel
  import opened Connections

  type Id = seq<byte>

  /** What is longer is cut off when it is received. */
  const DGRAM_BUFFER_SIZE: nat := 20480

  /** The filter, applied by the inbound loop on the way to the server and by the outbound loop on the
      way back, and the size of a client id. */
  datatype Config = Config(forward: seq<byte> -> seq<byte>, backward: seq<byte> -> seq<byte>, idSize: nat)

  /** A loop waits for an event, is writing a pair to the pipe, is reading one, or has ended with an
      exception. */
  datatype Mode = Waiting | Sending | Reading | Halted

  datatype Request = Request(id: Id, data: seq<byte>)
  datatype Reply = Reply(fd: nat, data: seq<byte>)
  datatype Handled = Handled(fd: nat, pair: Pair)
  datatype Delivery = Delivery(fd: nat, msg: seq<byte>)

  /** `open` holds the file descriptors in use.  The rest records what has happened: the datagrams
      received from clients and from the server, the pairs the outbound loop handled and the connection
      it chose, the datagrams sent to the server and to clients, and the client whose message opened a
      connection. */
  datatype World = World(
    inbound: Mode, outbound: Mode, toOut: Channel, toIn: Channel,
    maps: Maps<Id, nat>, open: set<nat>,
    requests: seq<Request>, replies: seq<Reply>, handled: seq<Handled>,
    toServer: seq<Delivery>, toClient: seq<Pair>, opener: map<nat, Id>)

  const START: World :=
    World(Waiting, Waiting, EMPTY, EMPTY, Maps(map[], map[]), {}, [], [], [], [], [], map[])

  datatype Step =
    | FromClient(id: Id, data: seq<byte>)
    | InboundWrites(k: nat) | InboundStarts | InboundReads(k: nat) | InboundHandles
    | FromServer(fd: nat, data: seq<byte>)
    | OutboundWrites(k: nat) | OutboundStarts | OutboundReads(k: nat) | OutboundHandles(connects: bool, newFd: nat)

  predicate CanRead(c: Channel, k: nat) {
    k <= |c.wire| && Stage(c.part).Needs? && k <= Stage(c.part).n
  }

  /** Messages stay below the limit of recv_msg, the system does not hand out a file descriptor that is
      in use, and only what the loop listens to makes an event. */
  ghost predicate Enabled(g: Config, w: World, step: Step) {
    match step
    case FromClient(id, data) =>
      && w.inbound.Waiting? && |id| == g.idSize && |data| <= DGRAM_BUFFER_SIZE && Fits(Pair(id, g.forward(data)))
    case InboundWrites(k) => w.inbound.Sending? && k <= |w.toOut.rest|
    case InboundStarts => w.inbound.Waiting? && w.toIn.wire != []
    case InboundReads(k) => w.inbound.Reading? && CanRead(w.toIn, k)
    case InboundHandles => w.inbound.Reading? && !Stage(w.toIn.part).Needs?
    case FromServer(fd, data) =>
      && w.outbound.Waiting? && fd in w.maps.server2client && |data| <= DGRAM_BUFFER_SIZE
      && (data != [] ==> Fits(Pair(w.maps.server2client[fd], g.backward(data))))
    case OutboundWrites(k) => w.outbound.Sending? && k <= |w.toIn.rest|
    case OutboundStarts => w.outbound.Waiting? && w.toOut.wire != []
    case OutboundReads(k) => w.outbound.Reading? && CanRead(w.toOut, k)
    case OutboundHandles(connects, newFd) => w.outbound.Reading? && !Stage(w.toOut.part).Needs? && newFd !in w.open
  }

  /** Writing goes on until nothing is left. */
  function Written(c: Channel): Mode { if c.rest == [] then Waiting else Sending }

  /** The inbound loop has a pair from the outbound one: parseClientId and sendto. */
  function Answered(g: Config, w: World, p: Pair): World {
    var u := w.(toIn := Take(w.toIn, p));
    if |p.id| != g.idSize then u.(inbound := Halted)
    else u.(inbound := Waiting, toClient := w.toClient + [p])
  }

  /** quick_send over the connection; sendn sends nothing if there is nothing to send. */
  function Delivered(w: World, fd: nat, p: Pair): World {
    w.(outbound := Waiting, handled := w.handled + [Handled(fd, p)],
       toServer := w.toServer + (if p.msg == [] then [] else [Delivery(fd, p.msg)]))
  }

  function Connected(w: World, id: Id, fd: nat): World {
    w.(maps := Added(w.maps, id, fd), open := w.open + {fd}, opener := w.opener[fd := id])
  }

  /** The outbound loop has a pair from the inbound one. */
  function Forwarded(w: World, p: Pair, connects: bool, newFd: nat): World {
    var u := w.(toOut := Take(w.toOut, p));
    if p.id in w.maps.client2server then Delivered(u, w.maps.client2server[p.id], p)
    else if !connects then u.(outbound := Halted)
    else Delivered(Connected(u, p.id, newFd), newFd, p)
  }

  /** A datagram from the server; after an empty one the connection is given up, and then missed. */
  function Replied(g: Config, w: World, fd: nat, data: seq<byte>): World
    requires fd in w.maps.server2client
  {
    var id := w.maps.server2client[fd];
    if data == [] then w.(maps := Without(w.maps, id, fd), open := w.open - {fd}, outbound := Halted)
    else w.(toIn := Post(w.toIn, Pair(id, g.backward(data))), outbound := Sending,
        replies := w.replies + [Reply(fd, data)])
  }

  function Next(g: Config, w: World, step: Step): World
    requires Enabled(g, w, step)
  {
    match step
    case FromClient(id, data) =>
      w.(toOut := Post(w.toOut, Pair(id, g.forward(data))), inbound := Sending,
          requests := w.requests + [Request(id, data)])
    case InboundWrites(k) => var c := Write(w.toOut, k); w.(toOut := c, inbound := Written(c))
    case InboundStarts => w.(inbound := Reading)
    case InboundReads(k) => w.(toIn := Read(w.toIn, k))
    case InboundHandles =>
      (match Stage(w.toIn.part)
       case Complete(p) => Answered(g, w, p)
       case _ => w.(inbound := Halted))
    case FromServer(fd, data) => Replied(g, w, fd, data)
    case OutboundWrites(k) => var c := Write(w.toIn, k); w.(toIn := c, outbound := Written(c))
    case OutboundStarts => w.(outbound := Reading)
    case OutboundReads(k) => w.(toOut := Read(w.toOut, k))
    case OutboundHandles(connects, newFd) =>
      match Stage(w.toOut.part)
      case Complete(p) => Forwarded(w, p, connects, newFd)
      case _ => w.(outbound := Halted)
  }

  // ---- what holds throughout ---------------------------------------------------------------

  /** Between events a loop is at the boundary of a pair, in both directions. */
  ghost predicate AtBoundary(mode: Mode, mine: Channel, theirs: Channel) {
    && (!mode.Sending? && !mode.Halted? ==> mine.rest == [])
    && (!mode.Reading? && !mode.Halted? ==> theirs.part == [])
  }

  /** The connections of the outbound loop, as long as it runs. */
  ghost predicate MapsOk(w: World) {
    && Inverse(w.maps) && (forall fd :: fd in w.maps.server2client ==> fd in w.open)
    && (!w.outbound.Halted? ==> w.opener == w.maps.server2client)
  }

  function Sent(handled: seq<Handled>): seq<Delivery> {
    if handled == [] then []
    else
      var h := handled[|handled| - 1];
      Sent(handled[..|handled| - 1]) + (if h.pair.msg == [] then [] else [Delivery(h.fd, h.pair.msg)])
  }

  /** What went from clients to the server */
  ghost predicate RequestsOk(g: Config, w: World) {
    && |w.requests| == |w.toOut.sent|
    && (forall i :: 0 <= i < |w.requests| ==>
          w.toOut.sent[i] == Pair(w.requests[i].id, g.forward(w.requests[i].data)) && |w.requests[i].id| == g.idSize)
    && |w.handled| <= |w.toOut.got| && (!w.outbound.Halted? ==> |w.handled| == |w.toOut.got|)
    && (forall i :: 0 <= i < |w.handled| ==>
          && w.handled[i].pair == w.toOut.got[i]
          && w.handled[i].fd in w.opener && w.opener[w.handled[i].fd] == w.handled[i].pair.id)
    && w.toServer == Sent(w.handled)
  }

  /** What went from the server to clients */
  ghost predicate RepliesOk(g: Config, w: World) {
    && |w.replies| == |w.toIn.sent|
    && (forall i :: 0 <= i < |w.replies| ==>
          && w.replies[i].fd in w.opener
          && w.toIn.sent[i] == Pair(w.opener[w.replies[i].fd], g.backward(w.replies[i].data)))
    && w.toClient == w.toIn.got
    && (forall fd :: fd in w.opener ==> |w.opener[fd]| == g.idSize)
  }

  ghost predicate Ok(g: Config, w: World) {
    && ChannelOk(w.toOut) && ChannelOk(w.toIn)
    && AtBoundary(w.inbound, w.toOut, w.toIn) && AtBoundary(w.outbound, w.toIn, w.toOut)
    && !w.inbound.Halted?
    && MapsOk(w) && RequestsOk(g, w) && RepliesOk(g, w)
  }

  // ---- the steps ---------------------------------------------------------------------------

  lemma {:induction false} FromClientKeeps(g: Config, w: World, id: Id, data: seq<byte>)
    requires Ok(g, w) && Enabled(g, w, FromClient(id, data))
    ensures Ok(g, Next(g, w, FromClient(id, data)))
  {
    PostKeeps(w.toOut, Pair(id, g.forward(data)));
  }

  lemma {:induction false} InboundWritesKeeps(g: Config, w: World, k: nat)
    requires Ok(g, w) && Enabled(g, w, InboundWrites(k))
    ensures Ok(g, Next(g, w, InboundWrites(k)))
  {
    WriteKeeps(w.toOut, k);
  }

  lemma {:induction false} OutboundWritesKeeps(g: Config, w: World, k: nat)
    requires Ok(g, w) && Enabled(g, w, OutboundWrites(k))
    ensures Ok(g, Next(g, w, OutboundWrites(k)))
  {
    WriteKeeps(w.toIn, k);
  }

  lemma {:induction false} StartsKeep(g: Config, w: World)
    requires Ok(g, w)
    ensures Enabled(g, w, InboundStarts) ==> Ok(g, Next(g, w, InboundStarts))
    ensures Enabled(g, w, OutboundStarts) ==> Ok(g, Next(g, w, OutboundStarts))
  {
  }

  lemma {:induction false} InboundReadsKeeps(g: Config, w: World, k: nat)
    requires Ok(g, w) && Enabled(g, w, InboundReads(k))
    ensures Ok(g, Next(g, w, InboundReads(k)))
  {
    ReadKeeps(w.toIn, k);
  }

  lemma {:induction false} OutboundReadsKeeps(g: Config, w: World, k: nat)
    requires Ok(g, w) && Enabled(g, w, OutboundReads(k))
    ensures Ok(g, Next(g, w, OutboundReads(k)))
  {
    ReadKeeps(w.toOut, k);
  }

  lemma {:induction false} InboundHandlesKeeps(g: Config, w: World)
    requires Ok(g, w) && Enabled(g, w, InboundHandles)
    ensures Ok(g, Next(g, w, InboundHandles))
  {
    NeverBad(w.toIn);
    var p := Stage(w.toIn.part).p;
    TakeKeeps(w.toIn, p);
    assert p == w.toIn.sent[|w.toIn.got|];
  }

  lemma {:induction false} FromServerKeeps(g: Config, w: World, fd: nat, data: seq<byte>)
    requires Ok(g, w) && Enabled(g, w, FromServer(fd, data))
    ensures Ok(g, Next(g, w, FromServer(fd, data)))
  {
    var id := w.maps.server2client[fd];
    if data == [] {
      WithoutInverse(w.maps, id, fd);
    } else {
      PostKeeps(w.toIn, Pair(id, g.backward(data)));
    }
  }

  lemma {:induction false} SentMore(handled: seq<Handled>, h: Handled)
    ensures Sent(handled + [h]) == Sent(handled) + (if h.pair.msg == [] then [] else [Delivery(h.fd, h.pair.msg)])
  {
    assert (handled + [h])[..|handled|] == handled;
  }

  /** What the reader got is the next request. */
  lemma {:induction false} NextRequest(g: Config, w: World, p: Pair)
    requires Ok(g, w) && Stage(w.toOut.part) == Complete(p)
    ensures ChannelOk(Take(w.toOut, p)) && |w.toOut.got| < |w.requests|
    ensures p == w.toOut.sent[|w.toOut.got|] && |p.id| == g.idSize
  {
    TakeKeeps(w.toOut, p);
  }

  /** One more pair is handled, over a connection its client opened. */
  lemma {:induction false} HandledKeeps(g: Config, w: World, u: World, fd: nat, p: Pair)
    requires RequestsOk(g, w) && !w.outbound.Halted? && |w.toOut.got| < |w.requests| && p == w.toOut.sent[|w.toOut.got|]
    requires u.toOut == Take(w.toOut, p) && u.requests == w.requests && u.handled == w.handled
    requires u.toServer == w.toServer
    requires forall f :: f in w.opener ==> f in u.opener && u.opener[f] == w.opener[f]
    requires fd in u.opener && u.opener[fd] == p.id
    ensures RequestsOk(g, Delivered(u, fd, p))
  {
    SentMore(w.handled, Handled(fd, p));
  }

  lemma {:induction false} OldConnectionKeeps(g: Config, w: World, p: Pair)
    requires Ok(g, w) && w.outbound.Reading? && Stage(w.toOut.part) == Complete(p) && p.id in w.maps.client2server
    ensures Ok(g, Delivered(w.(toOut := Take(w.toOut, p)), w.maps.client2server[p.id], p))
  {
    NextRequest(g, w, p);
    HandledKeeps(g, w, w.(toOut := Take(w.toOut, p)), w.maps.client2server[p.id], p);
  }

  lemma {:induction false} NoConnectionKeeps(g: Config, w: World, p: Pair)
    requires Ok(g, w) && w.outbound.Reading? && Stage(w.toOut.part) == Complete(p)
    ensures Ok(g, w.(toOut := Take(w.toOut, p), outbound := Halted))
  {
    NextRequest(g, w, p);
  }

  /** A new connection leaves the old ones and what came over them as they are. */
  lemma {:induction false} ConnectedKeeps(g: Config, w: World, id: Id, fd: nat)
    requires MapsOk(w) && RepliesOk(g, w) && !w.outbound.Halted?
    requires id !in w.maps.client2server && fd !in w.open && |id| == g.idSize
    ensures fd !in w.opener && MapsOk(Connected(w, id, fd)) && RepliesOk(g, Connected(w, id, fd))
  {
    AddedInverse(w.maps, id, fd);
  }

  lemma {:induction false} NewConnectionKeeps(g: Config, w: World, p: Pair, fd: nat)
    requires Ok(g, w) && w.outbound.Reading? && Stage(w.toOut.part) == Complete(p)
    requires p.id !in w.maps.client2server && fd !in w.open
    ensures Ok(g, Delivered(Connected(w.(toOut := Take(w.toOut, p)), p.id, fd), fd, p))
  {
    NextRequest(g, w, p);
    ConnectedKeeps(g, w, p.id, fd);
    HandledKeeps(g, w, Connected(w.(toOut := Take(w.toOut, p)), p.id, fd), fd, p);
  }

  /** The pair is handled over the connection that its client opened, now or before. */
  lemma {:induction false} ForwardedKeeps(g: Config, w: World, p: Pair, connects: bool, newFd: nat)
    requires Ok(g, w) && w.outbound.Reading? && Stage(w.toOut.part) == Complete(p) && newFd !in w.open
    ensures Ok(g, Forwarded(w, p, connects, newFd))
  {
    if p.id in w.maps.client2server {
      OldConnectionKeeps(g, w, p);
    } else if connects {
      NewConnectionKeeps(g, w, p, newFd);
    } else {
      NoConnectionKeeps(g, w, p);
    }
  }

  lemma {:induction false} OutboundHandlesKeeps(g: Config, w: World, connects: bool, newFd: nat)
    requires Ok(g, w) && Enabled(g, w, OutboundHandles(connects, newFd))
    ensures Ok(g, Next(g, w, OutboundHandles(connects, newFd)))
  {
    NeverBad(w.toOut);
    ForwardedKeeps(g, w, Stage(w.toOut.part).p, connects, newFd);
  }

  lemma {:induction false} StepKeeps(g: Config, w: World, step: Step)
    requires Ok(g, w) && Enabled(g, w, step)
    ensures Ok(g, Next(g, w, step))
  {
    match step
    case FromClient(id, data) => FromClientKeeps(g, w, id, data);
    case InboundWrites(k) => InboundWritesKeeps(g, w, k);
    case InboundStarts => StartsKeep(g, w);
    case InboundReads(k) => InboundReadsKeeps(g, w, k);
    case InboundHandles => InboundHandlesKeeps(g, w);
    case FromServer(fd, data) => FromServerKeeps(g, w, fd, data);
    case OutboundWrites(k) => OutboundWritesKeeps(g, w, k);
    case OutboundStarts => StartsKeep(g, w);
    case OutboundReads(k) => OutboundReadsKeeps(g, w, k);
    case OutboundHandles(connects, newFd) => OutboundHandlesKeeps(g, w, connects, newFd);
  }

  // ---- every run ---------------------------------------------------------------------------

  /** The world after a run, None if some step of it was not possible. */
  ghost function After(g: Config, run: seq<Step>): (r: Option<World>)
    ensures r.Some? ==> Ok(g, r.value)
  {
    if run == [] then Some(START)
    else
      var r := After(g, run[..|run| - 1]);
      if r.None? || !Enabled(g, r.value, run[|run| - 1]) then None
      else
        StepKeeps(g, r.value, run[|run| - 1]);
        Some(Next(g, r.value, run[|run| - 1]))
  }

  /** A run goes on with any step that is possible. */
  lemma {:induction false} RunExtends(g: Config, run: seq<Step>, step: Step)
    requires After(g, run).Some? && Enabled(g, After(g, run).value, step)
    ensures After(g, run + [step]) == Some(Next(g, After(g, run).value, step))
  {
    assert (run + [step])[..|run|] == run;
  }

  /** In every run, however the loops interleave and the pipe splits what goes through it: each loop
      has decoded exactly the first of the pairs sent to it, in order, is at the boundary of a pair
      when it waits for an event, and never meets a bad head. */
  lemma {:induction false} EveryPairArrives(g: Config, run: seq<Step>)
    requires After(g, run).Some?
    ensures var w := After(g, run).value;
      && w.toOut.got <= w.toOut.sent && w.toIn.got <= w.toIn.sent
      && !Stage(w.toOut.part).Bad? && !Stage(w.toIn.part).Bad?
      && (w.inbound.Waiting? ==> w.toOut.rest == [] && w.toIn.part == [])
      && (w.outbound.Waiting? ==> w.toIn.rest == [] && w.toOut.part == [])
      && !w.inbound.Halted?
  {
    var w := After(g, run).value;
    NeverBad(w.toOut);
    NeverBad(w.toIn);
  }

  /** The two maps are inverse to each other, and clients get what the server replied over the
      connections their own messages opened, converted backward, in order. */
  lemma {:induction false} EveryReplyIsRouted(g: Config, run: seq<Step>, i: nat)
    requires After(g, run).Some? && i < |After(g, run).value.toClient|
    ensures var w := After(g, run).value;
      && Inverse(w.maps) && i < |w.replies| && w.replies[i].fd in w.opener
      && w.toClient[i] == Pair(w.opener[w.replies[i].fd], g.backward(w.replies[i].data))
  {
    var w := After(g, run).value;
    assert w.toClient[i] == w.toIn.sent[i];
  }

  /** The server gets what clients sent, converted forward, in order, each over the connection its
      client opened; messages that are empty after conversion are left out. */
  lemma {:induction false} EveryRequestIsForwarded(g: Config, run: seq<Step>, i: nat)
    requires After(g, run).Some? && i < |After(g, run).value.handled|
    ensures var w := After(g, run).value;
      && i < |w.requests| && w.handled[i].pair == Pair(w.requests[i].id, g.forward(w.requests[i].data))
      && w.handled[i].fd in w.opener && w.opener[w.handled[i].fd] == w.requests[i].id
      && w.toServer == Sent(w.handled)
  {
    var w := After(g, run).value;
    assert w.handled[i].pair == w.toOut.got[i] == w.toOut.sent[i];
  }

  /** A reply ends the outbound loop exactly if it is empty: its mapping is gone then, so the assertion
      after it fails. */
  lemma {:induction false} EmptyReplyHalts(g: Config, run: seq<Step>, fd: nat, data: seq<byte>)
    requires After(g, run).Some? && Enabled(g, After(g, run).value, FromServer(fd, data))
    ensures var w := Next(g, After(g, run).value, FromServer(fd, data));
      && (w.outbound.Halted? <==> data == []) && (fd !in w.maps.server2client <==> data == []) && Inverse(w.maps)
  {
    var w := After(g, run).value;
    WithoutInverse(w.maps, w.maps.server2client[fd], fd);
  }

  /** Any client brings it about with its first message, if the server answers with nothing. */
  lemma {:induction false} ReachesEmptyReply(g: Config, id: Id, data: seq<byte>, fd: nat) returns (run: seq<Step>)
    requires |id| == g.idSize && |data| <= DGRAM_BUFFER_SIZE && Fits(Pair(id, g.forward(data)))
    ensures After(g, run).Some? && Enabled(g, After(g, run).value, FromServer(fd, []))
  {
    var p := Pair(id, g.forward(data));
    run := ReachesReading(g, id, data);
    run := ReachesComplete(g, run, p);
    var w := After(g, run).value;
    StageOfPart(p, w.toOut.part);
    RunExtends(g, run, OutboundHandles(true, fd));
    run := run + [OutboundHandles(true, fd)];
  }

  /** The outbound loop reads its first pair. */
  ghost predicate ReadsFirst(w: World, p: Pair) {
    && w.outbound.Reading? && w.maps == Maps(map[], map[]) && w.open == {}
    && Fits(p) && w.toOut.part + w.toOut.wire == Encode(p)
  }

  lemma {:induction false} ReachesReading(g: Config, id: Id, data: seq<byte>) returns (run: seq<Step>)
    requires |id| == g.idSize && |data| <= DGRAM_BUFFER_SIZE && Fits(Pair(id, g.forward(data)))
    ensures After(g, run).Some? && ReadsFirst(After(g, run).value, Pair(id, g.forward(data)))
  {
    var b := Encode(Pair(id, g.forward(data)));
    run := [];
    RunExtends(g, run, FromClient(id, data));
    run := run + [FromClient(id, data)];
    assert After(g, run).value.toOut.rest == b;
    RunExtends(g, run, InboundWrites(|b|));
    run := run + [InboundWrites(|b|)];
    assert After(g, run).value.toOut.wire == b;
    RunExtends(g, run, OutboundStarts);
    run := run + [OutboundStarts];
    assert After(g, run).value.toOut.part == [];
  }

  /** It reads as much as it needs until it has the pair. */
  lemma {:induction false} ReachesComplete(g: Config, run: seq<Step>, p: Pair) returns (longer: seq<Step>)
    requires After(g, run).Some? && ReadsFirst(After(g, run).value, p)
    ensures After(g, longer).Some? && ReadsFirst(After(g, longer).value, p)
    ensures After(g, longer).value.toOut.part == Encode(p)
    decreases |After(g, run).value.toOut.wire|
  {
    longer := run;
    var w := After(g, run).value;
    if w.toOut.part != Encode(p) {
      var k := ReadsOn(w, p);
      RunExtends(g, run, OutboundReads(k));
      longer := ReachesComplete(g, run + [OutboundReads(k)], p);
    }
  }

  lemma {:induction false} ReadsOn(w: World, p: Pair) returns (k: nat)
    requires ReadsFirst(w, p) && w.toOut.part != Encode(p)
    ensures 0 < k && CanRead(w.toOut, k) && ReadsFirst(w.(toOut := Read(w.toOut, k)), p)
  {
    StageOfPart(p, w.toOut.part);
    k := Stage(w.toOut.part).n;
    assert |w.toOut.part| + |w.toOut.wire| == |Encode(p)|;
    assert w.toOut.part + w.toOut.wire[..k] + w.toOut.wire[k..] == w.toOut.part + w.toOut.wire;
  }
}
