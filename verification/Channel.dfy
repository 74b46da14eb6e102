/** One direction of the pipe between the two event loops: pairs of frames written and read in pieces
    of any size. */
module Channel {
  import opened Framing

  /** What forwardMessageToOutbound and forwardMessageToInbound send: a client id and a message. */
  datatype Pair = Pair(id: seq<byte>, msg: seq<byte>)

  predicate Fits(p: Pair) { |p.id| <= MAX_LENGTH && |p.msg| <= MAX_LENGTH }

  function Encode(p: Pair): seq<byte> { Frame(p.id) + Frame(p.msg) }

  function EncodeAll(ps: seq<Pair>): seq<byte> { if ps == [] then [] else Encode(ps[0]) + EncodeAll(ps[1..]) }

  lemma {:induction false} EncodeMore(ps: seq<Pair>, p: Pair)
    ensures EncodeAll(ps + [p]) == EncodeAll(ps) + Encode(p)
  {
    if ps == [] {
      assert ps + [p] == [p] && [p][1..] == [];
    } else {
      EncodeMore(ps[1..], p);
      assert (ps + [p])[1..] == ps[1..] + [p];
      Regrouped(Encode(ps[0]), EncodeAll(ps[1..]), Encode(p));
    }
  }

  // ---- the reader --------------------------------------------------------------------------

  /** Where a reader stands that has this part of a pair: it is in a call of recvn that needs so many
      bytes yet, it has given up, or it has the whole pair. */
  datatype Progress = Needs(n: nat) | Bad | Complete(p: Pair)

  predicate GoodHead(head: seq<byte>)
    requires |head| == HEAD
  {
    Magic(head) == MAGIC && Length(head) <= MAX_LENGTH
  }

  /** recv_msg twice */
  function Stage(part: seq<byte>): Progress {
    if |part| < HEAD then Needs(HEAD - |part|)
    else if !GoodHead(part[..HEAD]) then Bad
    else
      var a := HEAD + Length(part[..HEAD]);
      if |part| < a then Needs(a - |part|) else SecondStage(part, a)
  }

  function SecondStage(part: seq<byte>, a: nat): Progress
    requires HEAD <= a <= |part|
  {
    if |part| < a + HEAD then Needs(a + HEAD - |part|)
    else if !GoodHead(part[a..a + HEAD]) then Bad
    else
      var b := a + HEAD + Length(part[a..a + HEAD]);
      if |part| < b then Needs(b - |part|) else Complete(Pair(part[HEAD..a], part[a + HEAD..b]))
  }

  lemma {:induction false} HeadOfPart(p: Pair, part: seq<byte>)
    requires Fits(p) && part <= Encode(p) && |part| >= HEAD
    ensures GoodHead(part[..HEAD]) && Length(part[..HEAD]) == |p.id|
    ensures |part| >= HEAD + |p.id| ==> part[HEAD..HEAD + |p.id|] == p.id
  {
    HeadSays(|p.id|);
    assert part[..HEAD] == Encode(p)[..HEAD] == Head(|p.id|);
    if |part| >= HEAD + |p.id| {
      assert part[HEAD..HEAD + |p.id|] == Encode(p)[HEAD..HEAD + |p.id|] == p.id;
    }
  }

  lemma {:induction false} SecondHeadOfPart(p: Pair, part: seq<byte>, a: nat)
    requires Fits(p) && part <= Encode(p) && a == HEAD + |p.id| && |part| >= a + HEAD
    ensures GoodHead(part[a..a + HEAD]) && Length(part[a..a + HEAD]) == |p.msg|
    ensures |part| == a + HEAD + |p.msg| ==> part[a + HEAD..] == p.msg
  {
    HeadSays(|p.msg|);
    assert part[a..a + HEAD] == Encode(p)[a..a + HEAD] == Head(|p.msg|);
    if |part| == a + HEAD + |p.msg| {
      assert part[a + HEAD..] == Encode(p)[a + HEAD..] == p.msg;
    }
  }

  /** A reader that has a part of a pair needs some of what is missing, and nothing beyond the pair; one
      that has all of it has the pair. */
  lemma {:induction false} StageOfPart(p: Pair, part: seq<byte>)
    requires Fits(p) && part <= Encode(p)
    ensures if part == Encode(p) then Stage(part) == Complete(p)
            else Stage(part).Needs? && 0 < Stage(part).n <= |Encode(p)| - |part|
  {
    var a := HEAD + |p.id|;
    if |part| >= HEAD {
      HeadOfPart(p, part);
      if |part| >= a + HEAD {
        SecondHeadOfPart(p, part, a);
      }
    }
  }

  /** The stages are those of recv_msg called twice. */
  lemma {:induction false} CompleteIsTwoMessages(part: seq<byte>, p: Pair)
    requires Stage(part) == Complete(p)
    ensures Next(part) == Message(p.id) && Next(part[HEAD + |p.id|..]) == Message(p.msg)
  {
    var a := HEAD + |p.id|;
    var rest := part[a..];
    assert rest[..HEAD] == part[a..a + HEAD];
    assert rest[HEAD..HEAD + |p.msg|] == part[a + HEAD..a + HEAD + |p.msg|];
  }

  // ---- both ends ---------------------------------------------------------------------------

  /** `rest` is what the writer has still to write, `wire` what is in the pipe, `part` what the reader
      has of a pair; `sent` and `got` record the pairs given to the writer and those the reader has
      completed. */
  datatype Channel = Channel(sent: seq<Pair>, got: seq<Pair>, rest: seq<byte>, wire: seq<byte>, part: seq<byte>)

  const EMPTY: Channel := Channel([], [], [], [], [])

  function Post(c: Channel, p: Pair): Channel { c.(sent := c.sent + [p], rest := c.rest + Encode(p)) }

  function Write(c: Channel, k: nat): Channel
    requires k <= |c.rest|
  {
    c.(rest := c.rest[k..], wire := c.wire + c.rest[..k])
  }

  function Read(c: Channel, k: nat): Channel
    requires k <= |c.wire|
  {
    c.(wire := c.wire[k..], part := c.part + c.wire[..k])
  }

  function Take(c: Channel, p: Pair): Channel { c.(got := c.got + [p], part := []) }

  function Missing(c: Channel): seq<Pair>
    requires |c.got| <= |c.sent|
  {
    c.sent[|c.got|..]
  }

  /** The pairs got are the first of those sent, in order; the others are in the channel, and the
      reader is within the first of them. */
  ghost predicate ChannelOk(c: Channel) {
    && c.got <= c.sent && (forall i :: 0 <= i < |c.sent| ==> Fits(c.sent[i]))
    && c.part + c.wire + c.rest == EncodeAll(Missing(c))
    && (if Missing(c) == [] then c.part == [] else c.part <= Encode(Missing(c)[0]))
  }

  lemma {:induction false} PostKeeps(c: Channel, p: Pair)
    requires ChannelOk(c) && Fits(p)
    ensures ChannelOk(Post(c, p))
  {
    var d := Post(c, p);
    assert Missing(d) == Missing(c) + [p];
    EncodeMore(Missing(c), p);
    Regrouped(c.part + c.wire, c.rest, Encode(p));
  }

  lemma {:induction false} Pushed(part: seq<byte>, wire: seq<byte>, rest: seq<byte>, k: nat)
    requires k <= |rest|
    ensures part + (wire + rest[..k]) + rest[k..] == part + wire + rest
  {
    assert rest == rest[..k] + rest[k..];
  }

  lemma {:induction false} WriteKeeps(c: Channel, k: nat)
    requires ChannelOk(c) && k <= |c.rest|
    ensures ChannelOk(Write(c, k))
  {
    Pushed(c.part, c.wire, c.rest, k);
    assert Missing(Write(c, k)) == Missing(c);
  }

  lemma {:induction false} PrefixOf(a: seq<byte>, b: seq<byte>, all: seq<byte>)
    requires a <= all && b <= all && |a| <= |b|
    ensures a <= b
  {
    assert b[..|a|] == all[..|a|] == a;
  }

  /** If the reader is not done, it needs something, and something is on its way. */
  lemma {:induction false} ReaderNeeds(c: Channel)
    requires ChannelOk(c) && Missing(c) != []
    ensures Fits(Missing(c)[0])
    ensures if c.part == Encode(Missing(c)[0]) then Stage(c.part) == Complete(Missing(c)[0])
            else Stage(c.part).Needs? && 0 < Stage(c.part).n <= |Encode(Missing(c)[0])| - |c.part|
  {
    assert Missing(c)[0] == c.sent[|c.got|];
    StageOfPart(Missing(c)[0], c.part);
  }

  lemma {:induction false} Carried(part: seq<byte>, wire: seq<byte>, rest: seq<byte>, k: nat)
    requires k <= |wire|
    ensures part + wire[..k] + wire[k..] + rest == part + wire + rest
  {
    assert wire[..k] + wire[k..] == wire;
  }

  lemma {:induction false} FirstPart(part: seq<byte>, more: seq<byte>, first: seq<byte>, others: seq<byte>)
    requires part + more == first + others && |part| <= |first|
    ensures part <= first
    ensures |part| == |first| ==> part == first && more == others
  {
    PrefixOf(part, first, part + more);
    if |part| == |first| {
      assert more == (part + more)[|part|..];
      assert others == (first + others)[|first|..];
    }
  }

  lemma {:induction false} ReadKeeps(c: Channel, k: nat)
    requires ChannelOk(c) && k <= |c.wire| && Stage(c.part).Needs? && k <= Stage(c.part).n
    ensures ChannelOk(Read(c, k))
  {
    var d, missing := Read(c, k), Missing(c);
    Carried(c.part, c.wire, c.rest, k);
    if missing != [] {
      ReaderNeeds(c);
      assert d.part + d.wire + d.rest == d.part + (d.wire + d.rest);
      FirstPart(d.part, d.wire + d.rest, Encode(missing[0]), EncodeAll(missing[1..]));
    } else {
      assert c.wire == [];
    }
  }

  /** A reader that has a complete pair has the next one that was sent. */
  lemma {:induction false} TakeKeeps(c: Channel, p: Pair)
    requires ChannelOk(c) && Stage(c.part) == Complete(p)
    ensures Missing(c) != [] && p == Missing(c)[0] && ChannelOk(Take(c, p))
  {
    assert Missing(c) != [];
    ReaderNeeds(c);
    FirstTaken(c, p);
  }

  lemma {:induction false} FirstTaken(c: Channel, p: Pair)
    requires ChannelOk(c) && Missing(c) != [] && p == Missing(c)[0] && c.part == Encode(p)
    ensures ChannelOk(Take(c, p))
  {
    var d, missing := Take(c, p), Missing(c);
    TakeMissing(c, p);
    Regrouped(c.part, c.wire, c.rest);
    FirstPart(c.part, c.wire + c.rest, Encode(p), EncodeAll(missing[1..]));
    Regrouped([], c.wire, c.rest);
  }

  lemma {:induction false} Regrouped(a: seq<byte>, b: seq<byte>, c: seq<byte>)
    ensures a + b + c == a + (b + c) && [] + (b + c) == b + c
  {
  }

  lemma {:induction false} TakeMissing(c: Channel, p: Pair)
    requires c.got < c.sent && p == Missing(c)[0]
    ensures Take(c, p).got <= c.sent && Missing(Take(c, p)) == Missing(c)[1..]
  {
    assert c.sent[..|c.got| + 1] == c.got + [p];
  }

  /** The reader never meets a head it does not accept. */
  lemma {:induction false} NeverBad(c: Channel)
    requires ChannelOk(c)
    ensures !Stage(c.part).Bad?
  {
    if Missing(c) != [] {
      ReaderNeeds(c);
    }
  }
}
