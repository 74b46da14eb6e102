/** The message framing of src/lib/rlib/sys/sio.hpp over a stream that delivers and accepts bytes in
    pieces of any size. */
module Framing {
  import opened Buffers
  import opened Numbers

  type byte = bv8

  const MAGIC: nat := 0x1999_0823

  /** 2 GiB */
  const MAX_LENGTH: nat := 0x8000_0000

  const SIZE_LIMIT: nat := 0x1_0000_0000_0000_0000

  const HEAD: nat := 12

  /** packed_msg_head on a little-endian machine */
  function Head(size: nat): (r: seq<byte>)
    ensures |r| == HEAD
  {
    Bytes(LittleEndian(MAGIC, 4)) + Bytes(LittleEndian(size, 8))
  }

  function Magic(head: seq<byte>): nat
    requires |head| == HEAD
  {
    LittleValue(Digits(head[..4]))
  }

  function Length(head: seq<byte>): nat
    requires |head| == HEAD
  {
    LittleValue(Digits(head[4..]))
  }

  /** What send_msg puts on the stream */
  function Frame(m: seq<byte>): seq<byte> { Head(|m|) + m }

  lemma {:induction false} HeadSays(size: nat)
    requires size < SIZE_LIMIT
    ensures Magic(Head(size)) == MAGIC && Length(Head(size)) == size
  {
    var a, b := LittleEndian(MAGIC, 4), LittleEndian(size, 8);
    assert Head(size)[..4] == Bytes(a) && Head(size)[4..] == Bytes(b);
    DigitsOfBytes(a);
    DigitsOfBytes(b);
    assert MAGIC < Pow256(4) by { assert Pow256(4) == 0x1_0000_0000; }
    assert Pow256(8) == SIZE_LIMIT;
    ValueOfLittleEndian(MAGIC, 4);
    ValueOfLittleEndian(size, 8);
  }

  /** The bytes of a head: the magic number and the length, the lowest byte first. */
  lemma {:induction false} HeadBytes(size: nat)
    requires size < SIZE_LIMIT
    ensures Head(size)[..4] == [0x23, 0x08, 0x99, 0x19]
    ensures var d := Digits(Head(size)[4..]);
      size == d[0] + 0x100 * d[1] + 0x1_0000 * d[2] + 0x100_0000 * d[3] + 0x1_0000_0000 * d[4]
              + 0x100_0000_0000 * d[5] + 0x1_0000_0000_0000 * d[6] + 0x100_0000_0000_0000 * d[7]
  {
    HeadSays(size);
    EightDigits(Digits(Head(size)[4..]));
    MagicBytes(size);
  }

  lemma {:induction false} MagicBytes(size: nat)
    ensures Head(size)[..4] == [0x23, 0x08, 0x99, 0x19]
  {
    MagicDigits();
    assert Head(size)[..4] == Bytes(LittleEndian(MAGIC, 4));
  }

  lemma {:induction false} EightDigits(d: seq<nat>)
    requires |d| == 8
    ensures LittleValue(d) ==
      d[0] + 0x100 * d[1] + 0x1_0000 * d[2] + 0x100_0000 * d[3] + 0x1_0000_0000 * d[4]
      + 0x100_0000_0000 * d[5] + 0x1_0000_0000_0000 * d[6] + 0x100_0000_0000_0000 * d[7]
  {
    assert LittleValue(d[1..]) == d[1] + 256 * LittleValue(d[1..][1..]) && d[1..][1..] == d[2..];
    assert LittleValue(d[2..]) == d[2] + 256 * LittleValue(d[2..][1..]) && d[2..][1..] == d[3..];
    assert LittleValue(d[3..]) == d[3] + 256 * LittleValue(d[3..][1..]) && d[3..][1..] == d[4..];
    assert LittleValue(d[4..]) == d[4] + 256 * LittleValue(d[4..][1..]) && d[4..][1..] == d[5..];
    assert LittleValue(d[5..]) == d[5] + 256 * LittleValue(d[5..][1..]) && d[5..][1..] == d[6..];
    assert LittleValue(d[6..]) == d[6] + 256 * LittleValue(d[6..][1..]) && d[6..][1..] == d[7..];
    assert LittleValue(d[7..]) == d[7] + 256 * LittleValue(d[7..][1..]) && d[7..][1..] == [];
  }

  lemma {:induction false} MagicDigits()
    ensures LittleEndian(MAGIC, 4) == [0x23, 0x08, 0x99, 0x19]
  {
    assert LittleEndian(0x19, 1) == [0x19];
    assert LittleEndian(0x1999, 2) == [0x99, 0x19];
    assert LittleEndian(0x19_9908, 3) == [0x08, 0x99, 0x19];
  }

  /** A head is determined by what it says. */
  lemma {:induction false} HeadIs(head: seq<byte>)
    requires |head| == HEAD && Magic(head) == MAGIC
    ensures head == Head(Length(head))
  {
    LittleEndianOfValue(Digits(head[..4]));
    LittleEndianOfValue(Digits(head[4..]));
    BytesOfDigits(head[..4]);
    BytesOfDigits(head[4..]);
    assert head == head[..4] + head[4..];
  }

  // ---- the stream --------------------------------------------------------------------------

  datatype Outcome = Moved(n: nat) | Interrupted | Failed

  /** One end of a stream socket.  `incoming` is what the peer has sent and will send, not read yet,
      `outgoing` what has been sent so far.  Calls move any positive number of bytes, may be
      interrupted `signals` times more, and fail only if the socket is not healthy. */
  class Socket {
    var incoming: seq<byte>
    var outgoing: seq<byte>
    var signals: nat
    const healthy: bool

    /** recv: 0 bytes only at the end of the stream */
    method Recv(buffer: array<byte>, at: nat, n: nat) returns (r: Outcome)
      requires 0 < n && at + n <= buffer.Length
      modifies `incoming, `signals, buffer
      ensures r.Interrupted? ==> signals < old(signals) && incoming == old(incoming) && buffer[..] == old(buffer[..])
      ensures r.Failed? ==> !healthy && incoming == old(incoming)
      ensures r.Moved? ==>
        && r.n <= n && r.n <= |old(incoming)| && signals == old(signals)
        && (r.n == 0 ==> old(incoming) == [] || !healthy)
        && incoming == old(incoming)[r.n..] && buffer[..] == Overwritten(old(buffer[..]), at, old(incoming)[..r.n])
    {
      var interrupted: bool, failed: bool := *, *;
      if interrupted && signals > 0 {
        signals := signals - 1;
        return Interrupted;
      }
      if failed && !healthy {
        return Failed;
      }
      var most := if n < |incoming| then n else |incoming|;
      var k: nat :| k <= most && (k == 0 ==> incoming == []);
      CopyTo(incoming[..k], buffer, at);
      incoming := incoming[k..];
      r := Moved(k);
    }

    /** send: 0 or fewer bytes is an error */
    method Send(data: seq<byte>) returns (r: Outcome)
      requires data != []
      modifies `outgoing, `signals
      ensures r.Interrupted? ==> signals < old(signals) && outgoing == old(outgoing)
      ensures r.Failed? ==> !healthy && outgoing == old(outgoing)
      ensures r.Moved? ==> 0 < r.n <= |data| && signals == old(signals) && outgoing == old(outgoing) + data[..r.n]
    {
      var interrupted: bool, failed: bool := *, *;
      if interrupted && signals > 0 {
        signals := signals - 1;
        return Interrupted;
      }
      if failed && !healthy {
        return Failed;
      }
      var k: nat :| 0 < k <= |data|;
      outgoing := outgoing + data[..k];
      r := Moved(k);
    }
  }

  // ---- recvn, sendn ------------------------------------------------------------------------

  /** Reads exactly n bytes, or fails at an error or the end of the stream. */
  method Recvn(s: Socket, buffer: array<byte>, n: nat) returns (ok: bool)
    requires n <= buffer.Length
    modifies s`incoming, s`signals, buffer
    ensures ok ==> n <= |old(s.incoming)| && s.incoming == old(s.incoming)[n..]
    ensures ok ==> buffer[..n] == old(s.incoming)[..n] && buffer[n..] == old(buffer[n..])
    ensures !ok ==> !s.healthy || |old(s.incoming)| < n
  {
    ghost var before, stream := buffer[..], s.incoming;
    var nleft: nat := n;
    while nleft > 0
      invariant nleft <= n && ReadSoFar(before, stream, n - nleft, buffer[..], s.incoming)
      decreases nleft, s.signals
    {
      ghost var done, now, rest := n - nleft, buffer[..], s.incoming;
      var r := s.Recv(buffer, n - nleft, nleft);
      var nread := 0;
      if r.Failed? {
        return false;
      } else if r.Moved? {
        if r.n == 0 {
          return false;
        }
        nread := r.n;
        MoreRead(before, stream, done, now, rest, nread);
      }
      nleft := nleft - nread;
    }
    assert buffer[..n] == buffer[..][..n] && buffer[n..] == buffer[..][n..];
    ok := true;
  }

  /** `done` bytes of the stream are in the buffer, the rest is still to be read. */
  ghost predicate ReadSoFar(before: seq<byte>, stream: seq<byte>, done: nat, now: seq<byte>, rest: seq<byte>) {
    && done <= |stream| && done <= |before|
    && now == Overwritten(before, 0, stream[..done]) && rest == stream[done..]
  }

  lemma {:induction false} MoreRead(before: seq<byte>, stream: seq<byte>, done: nat, now: seq<byte>, rest: seq<byte>,
                                    k: nat)
    requires ReadSoFar(before, stream, done, now, rest) && k <= |rest| && done + k <= |before|
    ensures ReadSoFar(before, stream, done + k, Overwritten(now, done, rest[..k]), rest[k..])
  {
    OverwriteNext(before, 0, stream[..done], rest[..k]);
    assert stream[..done] + rest[..k] == stream[..done + k];
  }

  /** Writes all of data, or fails after some of it; writes nothing if there is nothing to write. */
  method Sendn(s: Socket, data: seq<byte>) returns (ok: bool)
    modifies s`outgoing, s`signals
    ensures ok ==> s.outgoing == old(s.outgoing) + data
    ensures !ok ==> exists k: nat :: k < |data| && s.outgoing == old(s.outgoing) + data[..k]
    ensures s.healthy ==> ok
  {
    var nleft: nat := |data|;
    while nleft > 0
      invariant nleft <= |data| && s.outgoing == old(s.outgoing) + data[..|data| - nleft]
      decreases nleft, s.signals
    {
      var done := |data| - nleft;
      var r := s.Send(data[done..]);
      if r.Failed? {
        return false;
      }
      var nwritten := if r.Moved? then r.n else 0;
      assert data[..done] + data[done..][..nwritten] == data[..done + nwritten];
      nleft := nleft - nwritten;
    }
    ok := true;
  }

  // ---- send_msg, recv_msg ------------------------------------------------------------------

  /** send_msg: false where the source throws; what has been sent is then a part of the frame. */
  method SendMsg(s: Socket, m: seq<byte>) returns (ok: bool)
    modifies s`outgoing, s`signals
    ensures ok ==> s.outgoing == old(s.outgoing) + Frame(m)
    ensures !ok ==> exists k :: 0 <= k < |Frame(m)| && s.outgoing == old(s.outgoing) + Frame(m)[..k]
    ensures s.healthy ==> ok
  {
    ghost var before := s.outgoing;
    ok := Sendn(s, Head(|m|));
    if !ok {
      ghost var k: nat :| k < HEAD && s.outgoing == before + Head(|m|)[..k];
      PartOfHead(m, k);
      return;
    }
    ok := Sendn(s, m);
    if !ok {
      ghost var k: nat :| k < |m| && s.outgoing == before + Head(|m|) + m[..k];
      PartOfBody(before, m, k);
    } else {
      PartOfBody(before, m, |m|);
      assert m[..|m|] == m && Frame(m)[..HEAD + |m|] == Frame(m);
    }
  }

  lemma {:induction false} PartOfHead(m: seq<byte>, k: nat)
    requires k <= HEAD
    ensures Frame(m)[..k] == Head(|m|)[..k]
  {
  }

  lemma {:induction false} PartOfBody(before: seq<byte>, m: seq<byte>, k: nat)
    requires k <= |m|
    ensures before + Head(|m|) + m[..k] == before + Frame(m)[..HEAD + k]
  {
    assert Frame(m)[..HEAD + k] == Head(|m|) + m[..k];
  }

  datatype Received = Message(m: seq<byte>) | BadMagic | TooLong | Broken

  /** What recv_msg makes of a stream; Broken if it ends too early. */
  function Next(stream: seq<byte>): Received {
    if |stream| < HEAD then Broken
    else
      var n := Length(stream[..HEAD]);
      if Magic(stream[..HEAD]) != MAGIC then BadMagic
      else if n > MAX_LENGTH then TooLong
      else if |stream| < HEAD + n then Broken
      else Message(stream[HEAD..HEAD + n])
  }

  /** A message is received exactly when the stream goes on with the frame of one of at most 2 GiB. */
  lemma {:induction false} NextIsFrame(stream: seq<byte>, m: seq<byte>)
    ensures Next(stream) == Message(m) <==> |m| <= MAX_LENGTH && Frame(m) <= stream
  {
    if |m| <= MAX_LENGTH && Frame(m) <= stream {
      HeadSays(|m|);
      assert stream[..HEAD] == Frame(m)[..HEAD] == Head(|m|);
      assert stream[HEAD..HEAD + |m|] == Frame(m)[HEAD..] == m;
    }
    if Next(stream) == Message(m) {
      HeadIs(stream[..HEAD]);
      assert stream[..HEAD] + m == stream[..HEAD + |m|];
    }
  }

  /** recv_msg */
  method RecvMsg(s: Socket) returns (r: Received)
    modifies s`incoming, s`signals
    ensures r == Next(old(s.incoming)) || (r == Broken && !s.healthy)
    ensures r.Message? ==> HEAD + |r.m| <= |old(s.incoming)| && s.incoming == old(s.incoming)[HEAD + |r.m|..]
  {
    var head := new byte[HEAD];
    var ok := Recvn(s, head, HEAD);
    if !ok {
      return Broken;
    }
    assert head[..] == head[..HEAD] == old(s.incoming)[..HEAD];
    if Magic(head[..]) != MAGIC {
      return BadMagic;
    }
    var n := Length(head[..]);
    if n > MAX_LENGTH {
      return TooLong;
    }
    var dat := new byte[n];
    ok := Recvn(s, dat, n);
    if !ok {
      return Broken;
    }
    assert dat[..] == dat[..n];
    r := Message(dat[..]);
  }
}
