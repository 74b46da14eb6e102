/** The event handlers of src/protocols/plain.hpp as they work on a pipe end and the connection maps.
    Forwarder says what they do together. */
module PlainProtocol {
  import opened Options
  import opened Framing
  import opened Channel
  import opened Connections
  import opened Forwarder

  /** forwardMessageToOutbound and forwardMessageToInbound: false where the source throws */
  method SendPair(pipe: Socket, p: Pair) returns (ok: bool)
    modifies pipe`outgoing, pipe`signals
    ensures ok ==> pipe.outgoing == old(pipe.outgoing) + Encode(p)
    ensures pipe.healthy ==> ok
  {
    ok := SendMsg(pipe, p.id);
    if ok {
      ok := SendMsg(pipe, p.msg);
      assert old(pipe.outgoing) + Frame(p.id) + Frame(p.msg) == old(pipe.outgoing) + Encode(p);
    }
  }

  /** The pair of messages both loops start with when the pipe has something for them */
  method ReceivePair(pipe: Socket) returns (r: Option<Pair>)
    modifies pipe`incoming, pipe`signals
    ensures r.Some? ==> Fits(r.value) && old(pipe.incoming) == Encode(r.value) + pipe.incoming
    ensures forall p :: pipe.healthy && Fits(p) && Encode(p) <= old(pipe.incoming) ==> r == Some(p)
  {
    ghost var stream := pipe.incoming;
    forall p | Fits(p) && Encode(p) <= stream
      ensures Framing.Next(stream) == Message(p.id) && Framing.Next(stream[HEAD + |p.id|..]) == Message(p.msg)
    {
      TwoFrames(stream, p);
    }
    var id := RecvMsg(pipe);
    if !id.Message? {
      return None;
    }
    NextIsFrame(stream, id.m);
    var msg := RecvMsg(pipe);
    if !msg.Message? {
      return None;
    }
    NextIsFrame(stream[HEAD + |id.m|..], msg.m);
    r := Some(Pair(id.m, msg.m));
    FramesTaken(stream, r.value);
  }

  lemma {:induction false} TwoFrames(stream: seq<byte>, p: Pair)
    requires Fits(p) && Encode(p) <= stream
    ensures Framing.Next(stream) == Message(p.id) && Framing.Next(stream[HEAD + |p.id|..]) == Message(p.msg)
  {
    var a := HEAD + |p.id|;
    assert Frame(p.id) <= stream by { assert Encode(p)[..a] == Frame(p.id); assert stream[..a] == Encode(p)[..a]; }
    assert Frame(p.msg) <= stream[a..] by {
      assert Encode(p)[a..] == Frame(p.msg);
      assert stream[a..][..|Frame(p.msg)|] == stream[..|Encode(p)|][a..] == Encode(p)[a..];
    }
    NextIsFrame(stream, p.id);
    NextIsFrame(stream[a..], p.msg);
  }

  lemma {:induction false} FramesTaken(stream: seq<byte>, p: Pair)
    requires Frame(p.id) <= stream && Frame(p.msg) <= stream[HEAD + |p.id|..]
    ensures stream == Encode(p) + stream[HEAD + |p.id|..][HEAD + |p.msg|..]
  {
    var rest := stream[HEAD + |p.id|..];
    assert stream == Frame(p.id) + rest;
    assert rest == Frame(p.msg) + rest[HEAD + |p.msg|..];
  }

  /** The connection a message goes over: that of its client, or a new one, if it can be made */
  function Choice(maps: Maps<Id, nat>, id: Id, connects: bool, newFd: nat): Option<nat> {
    if id in maps.client2server then Some(maps.client2server[id]) else if connects then Some(newFd) else None
  }

  class PlainOutbound {
    const pipe: Socket
    const connections: Mapping<Id, nat>
    var toServer: seq<Delivery>

    constructor (pipe: Socket)
      ensures this.pipe == pipe && fresh(connections) && connections.Value() == Maps(map[], map[]) && toServer == []
    {
      this.pipe := pipe;
      connections := new Mapping([], 0);
      toServer := [];
    }

    /** quick_send */
    method QuickSend(fd: nat, msg: seq<byte>)
      modifies `toServer
      ensures toServer == old(toServer) + (if msg == [] then [] else [Delivery(fd, msg)])
    {
      if msg != [] {
        toServer := toServer + [Delivery(fd, msg)];
      }
    }

    /** A pair from the inbound loop; None where the source throws */
    method OnPipe(connects: bool, newFd: nat) returns (r: Option<Pair>)
      requires Inverse(connections.Value()) && newFd !in connections.server2client
      modifies `toServer, pipe, connections
      ensures Inverse(connections.Value())
      ensures r.Some? ==>
        && old(pipe.incoming) == Encode(r.value) + pipe.incoming && pipe.outgoing == old(pipe.outgoing)
        && Choice(old(connections.Value()), r.value.id, connects, newFd).Some?
        && (var fd := Choice(old(connections.Value()), r.value.id, connects, newFd).value;
            && connections.Value() == Added(old(connections.Value()), r.value.id, fd)
            && toServer == old(toServer) + (if r.value.msg == [] then [] else [Delivery(fd, r.value.msg)]))
      ensures forall p :: (pipe.healthy && Fits(p) && Encode(p) <= old(pipe.incoming)
        && Choice(old(connections.Value()), p.id, connects, newFd).Some?) ==> r == Some(p)
    {
      r := ReceivePair(pipe);
      if r == None {
        return;
      }
      var p := r.value;
      if p.id in connections.client2server {
        var fd := connections.client2server[p.id];
        assert Added(connections.Value(), p.id, fd) == connections.Value();
        QuickSend(fd, p.msg);
      } else if connects {
        connections.Add(p.id, newFd);
        QuickSend(newFd, p.msg);
      } else {
        r := None;
      }
    }

    /** A datagram from the server: sent back to the client of the connection.  After an empty one the
        connection is given up, and the assertion that it is known fails. */
    method OnServer(fd: nat, data: seq<byte>, backward: seq<byte> -> seq<byte>) returns (ok: bool)
      requires Inverse(connections.Value()) && fd in connections.server2client
      modifies pipe, connections
      ensures Inverse(connections.Value())
      ensures data == [] ==> !ok && fd !in connections.server2client && pipe.outgoing == old(pipe.outgoing)
      ensures data != [] ==> connections.Value() == old(connections.Value()) && (pipe.healthy ==> ok)
      ensures ok ==>
        pipe.outgoing == old(pipe.outgoing) + Encode(Pair(old(connections.server2client[fd]), backward(data)))
    {
      WithoutInverse(connections.Value(), connections.server2client[fd], fd);
      if data == [] {
        connections.DelServer(fd);
      }
      if fd !in connections.server2client {
        return false;
      }
      ok := SendPair(pipe, Pair(connections.server2client[fd], backward(data)));
    }
  }

  class PlainInbound {
    const pipe: Socket
    const idSize: nat
    var toClient: seq<Pair>

    constructor (pipe: Socket, idSize: nat)
      ensures this.pipe == pipe && this.idSize == idSize && toClient == []
    {
      this.pipe, this.idSize, toClient := pipe, idSize, [];
    }

    /** A pair from the outbound loop; None where the source throws */
    method OnPipe() returns (r: Option<Pair>)
      modifies `toClient, pipe
      ensures r.Some? ==>
        && old(pipe.incoming) == Encode(r.value) + pipe.incoming && |r.value.id| == idSize
        && toClient == old(toClient) + [r.value]
      ensures r.None? ==> toClient == old(toClient)
      ensures forall p :: pipe.healthy && Fits(p) && Encode(p) <= old(pipe.incoming) && |p.id| == idSize ==>
        r == Some(p)
    {
      r := ReceivePair(pipe);
      if r == None {
        return;
      }
      if |r.value.id| != idSize {
        return None;
      }
      toClient := toClient + [r.value];
    }

    /** A datagram from a client */
    method OnClient(id: Id, data: seq<byte>, forward: seq<byte> -> seq<byte>) returns (ok: bool)
      modifies pipe
      ensures ok ==> pipe.outgoing == old(pipe.outgoing) + Encode(Pair(id, forward(data)))
      ensures pipe.healthy ==> ok
    {
      ok := SendPair(pipe, Pair(id, forward(data)));
    }
  }
}
