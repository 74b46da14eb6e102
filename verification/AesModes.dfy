/** The modes of src/lib/plusaes.hpp for any block cipher e with inverse d: padding as in section 6.3
    of RFC 5652, ECB, CBC and CTR as in sections 6.1, 6.2 and 6.5 of NIST SP 800-38A. */
module AesModes {
  import opened AesTables
  import opened AesBlock
  import opened Numbers

  type Cipher = Block -> Block

  ghost predicate Inverts(d: Cipher, e: Cipher) { forall b: Block :: d(e(b)) == b }

  const ZEROS: Block := [0, 0, 0, 0, 0, 0, 0, 0, 0, 0, 0, 0, 0, 0, 0, 0]

  // ---- bytes -------------------------------------------------------------------------------

  function Xored(a: seq<byte>, b: seq<byte>): (r: seq<byte>)
    requires |a| == |b|
    ensures |r| == |a|
  {
    seq(|a|, i requires 0 <= i < |a| => a[i] ^ b[i])
  }

  lemma {:induction false} XoredTwice(a: seq<byte>, b: seq<byte>)
    requires |a| == |b|
    ensures Xored(Xored(a, b), b) == a
  {
  }

  lemma {:induction false} XoredZeros(b: Block)
    ensures Xored(b, ZEROS) == b
  {
  }

  function Front(x: seq<byte>): seq<byte>
    requires |x| >= 16
  {
    x[..|x| - 16]
  }

  /** The last block; a single one is all there is. */
  function Last(x: seq<byte>): Block
    requires |x| >= 16
  {
    if |x| == 16 then x else x[|x| - 16..]
  }

  lemma {:induction false} FrontAndLast(x: seq<byte>)
    requires |x| >= 16
    ensures x == Front(x) + Last(x)
  {
  }

  lemma {:induction false} FrontLast(x: seq<byte>, b: Block)
    ensures Front(x + b) == x && Last(x + b) == b
  {
  }

  // ---- padding -----------------------------------------------------------------------------

  /** A full block when the data ends on a block boundary. */
  function PadLength(size: nat): (n: nat)
    ensures 1 <= n <= 16
  {
    16 - size % 16
  }

  /** get_padded_encrypted_size */
  function PaddedSize(size: nat): nat { size + 16 - size % 16 }

  function PadByte(n: nat): byte
    requires n <= 16
  {
    n as byte
  }

  function Padding(n: nat): (r: seq<byte>)
    requires n <= 16
    ensures |r| == n
  {
    seq(n, i => PadByte(n))
  }

  function Padded(x: seq<byte>): (r: seq<byte>)
    ensures |r| == PaddedSize(|x|) && |r| % 16 == 0
  {
    x + Padding(PadLength(|x|))
  }

  /** The padding a decrypted text claims to have. */
  function Claimed(y: seq<byte>): (n: nat)
    requires |y| >= 16
    ensures n < 256
  {
    y[|y| - 1] as nat
  }

  /** check_padding on the last block */
  predicate Accepted(y: seq<byte>)
    requires |y| >= 16
  {
    Claimed(y) <= 16 && forall i :: |y| - Claimed(y) <= i < |y| ==> y[i] as nat == Claimed(y)
  }

  lemma {:induction false} PadByteValue(n: nat)
    requires n <= 16
    ensures PadByte(n) as nat == n
  {
    assert n % 256 == n;
  }

  lemma {:induction false} PadByteOf(b: byte)
    requires b as nat <= 16
    ensures PadByte(b as nat) == b
  {
  }

  /** Padding is accepted and says how long it is. */
  lemma {:induction false} PaddedAccepted(x: seq<byte>)
    ensures var y := Padded(x); Accepted(y) && Claimed(y) == PadLength(|x|) && y[..|y| - Claimed(y)] == x
  {
    PadByteValue(PadLength(|x|));
  }

  /** Section 6.3 of RFC 5652: the data, and then one to sixteen bytes that say how many they are. */
  lemma {:induction false} PaddedBytes(x: seq<byte>)
    ensures var y := Padded(x);
      && y[..|x|] == x && |y| % 16 == 0 && 1 <= |y| - |x| <= 16
      && forall i :: |x| <= i < |y| ==> y[i] as nat == |y| - |x|
  {
    PadByteValue(PadLength(|x|));
  }

  lemma {:induction false} AcceptedIsPadding(y: seq<byte>)
    requires |y| >= 16 && Accepted(y)
    ensures y[|y| - Claimed(y)..] == Padding(Claimed(y))
  {
    var n := Claimed(y);
    forall i | |y| - n <= i < |y|
      ensures y[i] == PadByte(n)
    {
      PadByteOf(y[i]);
    }
  }

  /** Padding again after accepted padding is taken off gives the same text exactly when the
      padding claimed was not 0. */
  lemma {:induction false} PaddedAgain(y: seq<byte>)
    requires |y| >= 16 && |y| % 16 == 0 && Accepted(y)
    ensures Claimed(y) >= 1 ==> Padded(y[..|y| - Claimed(y)]) == y
    ensures Claimed(y) == 0 ==> |Padded(y[..|y| - Claimed(y)])| == |y| + 16
  {
    var x := y[..|y| - Claimed(y)];
    AcceptedIsPadding(y);
    if Claimed(y) >= 1 {
      assert PadLength(|x|) == Claimed(y);
      assert y == x + y[|y| - Claimed(y)..];
    }
  }

  // ---- ECB ---------------------------------------------------------------------------------

  function Each(e: Cipher, x: seq<byte>): (y: seq<byte>)
    requires |x| % 16 == 0
    ensures |y| == |x|
  {
    if x == [] then [] else Each(e, Front(x)) + e(Last(x))
  }

  lemma {:induction false} EachStep(e: Cipher, x: seq<byte>, b: Block)
    requires |x| % 16 == 0
    ensures Each(e, x + b) == Each(e, x) + e(b)
  {
    FrontLast(x, b);
  }

  lemma {:induction false} EachUndone(e: Cipher, d: Cipher, x: seq<byte>)
    requires Inverts(d, e) && |x| % 16 == 0
    ensures Each(d, Each(e, x)) == x
  {
    if x != [] {
      EachUndone(e, d, Front(x));
      EachStep(d, Each(e, Front(x)), e(Last(x)));
      FrontAndLast(x);
    }
  }

  // ---- CBC ---------------------------------------------------------------------------------

  /** The ciphertext block before the next one. */
  function Previous(iv: Block, y: seq<byte>): Block
    requires |y| % 16 == 0
  {
    if y == [] then iv else Last(y)
  }

  function Chain(e: Cipher, iv: Block, x: seq<byte>): (y: seq<byte>)
    requires |x| % 16 == 0
    ensures |y| == |x|
  {
    if x == [] then []
    else
      var y := Chain(e, iv, Front(x));
      y + e(Xored(Last(x), Previous(iv, y)))
  }

  function Unchain(d: Cipher, iv: Block, y: seq<byte>): (x: seq<byte>)
    requires |y| % 16 == 0
    ensures |x| == |y|
  {
    if y == [] then [] else Unchain(d, iv, Front(y)) + Xored(d(Last(y)), Previous(iv, Front(y)))
  }

  lemma {:induction false} ChainStep(e: Cipher, iv: Block, x: seq<byte>, b: Block)
    requires |x| % 16 == 0
    ensures Chain(e, iv, x + b) == Chain(e, iv, x) + e(Xored(b, Previous(iv, Chain(e, iv, x))))
  {
    FrontLast(x, b);
  }

  lemma {:induction false} UnchainStep(d: Cipher, iv: Block, y: seq<byte>, b: Block)
    requires |y| % 16 == 0
    ensures Unchain(d, iv, y + b) == Unchain(d, iv, y) + Xored(d(b), Previous(iv, y))
  {
    FrontLast(y, b);
  }

  /** Unchaining undoes chaining, block by block. */
  lemma {:induction false} UnchainChain(e: Cipher, d: Cipher, iv: Block, x: seq<byte>)
    requires Inverts(d, e) && |x| % 16 == 0
    ensures Unchain(d, iv, Chain(e, iv, x)) == x
  {
    if x != [] {
      var y := Chain(e, iv, Front(x));
      var b := Xored(Last(x), Previous(iv, y));
      UnchainChain(e, d, iv, Front(x));
      UnchainStep(d, iv, y, e(b));
      XoredTwice(Last(x), Previous(iv, y));
      FrontAndLast(x);
    }
  }

  lemma {:induction false} ChainUnchain(e: Cipher, d: Cipher, iv: Block, y: seq<byte>)
    requires Inverts(e, d) && |y| % 16 == 0
    ensures Chain(e, iv, Unchain(d, iv, y)) == y
  {
    if y != [] {
      var f, l: Block := Front(y), Last(y);
      var p := Previous(iv, f);
      var b := Xored(d(l), p);
      ChainUnchain(e, d, iv, f);
      ChainStep(e, iv, Unchain(d, iv, f), b);
      XoredTwice(d(l), p);
      assert e(Xored(b, p)) == l;
      FrontAndLast(y);
    }
  }

  // Block by block: sections 6.1 and 6.2 of NIST SP 800-38A

  function BlockOf(x: seq<byte>, k: nat): Block
    requires 16 * k + 16 <= |x|
  {
    x[16 * k..16 * k + 16]
  }

  /** The block before block k, the initialization vector before the first one */
  function BlockBefore(iv: Block, y: seq<byte>, k: nat): Block
    requires 16 * k <= |y|
  {
    if k == 0 then iv else BlockOf(y, k - 1)
  }

  lemma {:induction false} BlocksOfFront(x: seq<byte>, k: nat)
    requires |x| % 16 == 0 && 16 * k + 16 <= |x|
    ensures if 16 * k + 16 == |x| then BlockOf(x, k) == Last(x)
            else 16 * k + 16 <= |Front(x)| && BlockOf(x, k) == BlockOf(Front(x), k)
  {
  }

  lemma {:induction false} BlocksOfSum(y: seq<byte>, b: Block, k: nat)
    requires |y| % 16 == 0 && 16 * k + 16 <= |y + b|
    ensures BlockOf(y + b, k) == if 16 * k == |y| then b else BlockOf(y, k)
  {
  }

  lemma {:induction false} PreviousIs(iv: Block, y: seq<byte>)
    requires |y| % 16 == 0
    ensures Previous(iv, y) == BlockBefore(iv, y, |y| / 16)
  {
    if y != [] {
      BlocksOfFront(y, |y| / 16 - 1);
    }
  }

  /** Block k of x and p, byte by byte */
  function AddedTo(x: seq<byte>, k: nat, p: Block): Block
    requires 16 * k + 16 <= |x|
  {
    seq(16, (j: nat) requires j < 16 => x[16 * k + j] ^ p[j])
  }

  lemma {:induction false} AddedToBlock(x: seq<byte>, k: nat, p: Block)
    requires 16 * k + 16 <= |x|
    ensures AddedTo(x, k, p) == Xored(BlockOf(x, k), p)
  {
  }

  lemma {:induction false} BeforeInSum(iv: Block, y: seq<byte>, b: Block, k: nat)
    requires |y| % 16 == 0 && 16 * k <= |y|
    ensures BlockBefore(iv, y + b, k) == BlockBefore(iv, y, k)
  {
    if k > 0 {
      BlocksOfSum(y, b, k - 1);
    }
  }

  /** Each ciphertext block is the encryption of the plaintext block added to the ciphertext block
      before it. */
  lemma {:induction false} ChainBlock(e: Cipher, iv: Block, x: seq<byte>, k: nat)
    requires |x| % 16 == 0 && 16 * k + 16 <= |x|
    ensures BlockOf(Chain(e, iv, x), k) == e(AddedTo(x, k, BlockBefore(iv, Chain(e, iv, x), k)))
  {
    var u := Chain(e, iv, Front(x));
    var b := e(Xored(Last(x), Previous(iv, u)));
    assert Chain(e, iv, x) == u + b;
    BlocksOfFront(x, k);
    BlocksOfSum(u, b, k);
    BeforeInSum(iv, u, b, k);
    var p := BlockBefore(iv, u, k);
    AddedToBlock(x, k, p);
    if 16 * k + 16 < |x| {
      ChainBlock(e, iv, Front(x), k);
      AddedToBlock(Front(x), k, p);
    } else {
      PreviousIs(iv, u);
    }
  }

  /** Decrypting a ciphertext block gives, byte by byte, the plaintext and the block before it added up. */
  lemma {:induction false} ChainByte(e: Cipher, d: Cipher, iv: Block, x: seq<byte>, k: nat, j: nat)
    requires Inverts(d, e) && |x| % 16 == 0 && 16 * k + 16 <= |x| && j < 16
    ensures var y := Chain(e, iv, x);
      d(y[16 * k..16 * k + 16])[j] == x[16 * k + j] ^ (if k == 0 then iv[j] else y[16 * (k - 1) + j])
  {
    ChainBlock(e, iv, x, k);
    AddedByte(x, iv, Chain(e, iv, x), k, j);
  }

  lemma {:induction false} AddedByte(x: seq<byte>, iv: Block, y: seq<byte>, k: nat, j: nat)
    requires 16 * k + 16 <= |x| == |y| && j < 16
    ensures AddedTo(x, k, BlockBefore(iv, y, k))[j] == x[16 * k + j] ^ (if k == 0 then iv[j] else y[16 * (k - 1) + j])
  {
  }

  lemma {:induction false} EachBlock(e: Cipher, x: seq<byte>, k: nat)
    requires |x| % 16 == 0 && 16 * k + 16 <= |x|
    ensures |Each(e, x)| == |x| && BlockOf(Each(e, x), k) == e(BlockOf(x, k))
  {
    var u, b := Each(e, Front(x)), e(Last(x));
    assert Each(e, x) == u + b;
    BlocksOfFront(x, k);
    BlocksOfSum(u, b, k);
    if 16 * k + 16 < |x| {
      EachBlock(e, Front(x), k);
    }
  }

  /** Decrypting what was padded and chained is accepted, and gives the data back. */
  lemma {:induction false} CbcRoundTrip(e: Cipher, d: Cipher, iv: Block, x: seq<byte>)
    requires Inverts(d, e)
    ensures var y := Unchain(d, iv, Chain(e, iv, Padded(x)));
      Accepted(y) && Claimed(y) == PadLength(|x|) && y[..|y| - Claimed(y)] == x
  {
    UnchainChain(e, d, iv, Padded(x));
    PaddedAccepted(x);
  }

  lemma {:induction false} ChainAgain(e: Cipher, iv: Block, y: seq<byte>, c: seq<byte>)
    requires |y| >= 16 && |y| % 16 == 0 && Accepted(y) && Chain(e, iv, y) == c
    ensures Chain(e, iv, Padded(y[..|y| - Claimed(y)])) == c <==> Claimed(y) >= 1
  {
    PaddedAgain(y);
    assert |Chain(e, iv, Padded(y[..|y| - Claimed(y)]))| == |Padded(y[..|y| - Claimed(y)])|;
  }

  /** The converse: encrypting the result of an accepted decryption gives the ciphertext back exactly
      when the padding was not 0. */
  lemma {:induction false} CbcConverse(e: Cipher, d: Cipher, iv: Block, c: seq<byte>, y: seq<byte>)
    requires Inverts(e, d) && |c| >= 16 && |c| % 16 == 0 && y == Unchain(d, iv, c) && Accepted(y)
    ensures Chain(e, iv, Padded(y[..|y| - Claimed(y)])) == c <==> Claimed(y) >= 1
  {
    ChainUnchain(e, d, iv, c);
    ChainAgain(e, iv, y, c);
  }

  lemma {:induction false} EcbRoundTrip(e: Cipher, d: Cipher, x: seq<byte>)
    requires Inverts(d, e)
    ensures var y := Each(d, Each(e, Padded(x)));
      Accepted(y) && Claimed(y) == PadLength(|x|) && y[..|y| - Claimed(y)] == x
  {
    EachUndone(e, d, Padded(x));
    PaddedAccepted(x);
  }

  lemma {:induction false} EcbConverse(e: Cipher, d: Cipher, c: seq<byte>)
    requires Inverts(e, d) && |c| >= 16 && |c| % 16 == 0 && Accepted(Each(d, c))
    ensures var y := Each(d, c);
      Each(e, Padded(y[..|y| - Claimed(y)])) == c <==> Claimed(y) >= 1
  {
    EachUndone(d, e, c);
    PaddedAgain(Each(d, c));
  }

  /** Some ciphertext is accepted with padding 0, which no encryption produces: the encryption of a
      block of zeros. */
  lemma {:induction false} ZeroPaddingAccepted(e: Cipher, d: Cipher, iv: Block)
    requires Inverts(d, e)
    ensures var c := Chain(e, iv, ZEROS); Accepted(Unchain(d, iv, c)) && Claimed(Unchain(d, iv, c)) == 0
    ensures forall x :: Chain(e, iv, Padded(x)) != Chain(e, iv, ZEROS)
  {
    UnchainChain(e, d, iv, ZEROS);
    forall x
      ensures Chain(e, iv, Padded(x)) != Chain(e, iv, ZEROS)
    {
      CbcRoundTrip(e, d, iv, x);
    }
  }

  // ---- CTR ---------------------------------------------------------------------------------

  /** Counting k blocks on from a counter of |c| digits */
  function Counted(c: seq<nat>, k: nat): seq<nat> { BigEndian((Value(c) + k) % Pow256(|c|), |c|) }

  lemma {:induction false} CountedNothing(c: seq<nat>)
    requires AreDigits(c)
    ensures Counted(c, 0) == c
  {
    ValueBound(c);
    BigEndianOfValue(c);
    ModuloIs(Value(c), Pow256(|c|), 0, Value(c));
  }

  lemma {:induction false} CountedOn(c: seq<nat>, k: nat)
    ensures Counted(Counted(c, k), 1) == Counted(c, k + 1)
  {
    var m := Pow256(|c|);
    ModuloBound(Value(c) + k, m);
    ValueOfBigEndian((Value(c) + k) % m, |c|);
    ModuloNext(Value(c) + k, m);
  }

  /** The counter for block k: the first one plus k, modulo 2^128 */
  function CounterAt(start: Block, k: nat): Block { Bytes(Counted(Digits(start), k)) }

  lemma {:induction false} CounterStart(start: Block)
    ensures CounterAt(start, 0) == start
  {
    CountedNothing(Digits(start));
    BytesOfDigits(start);
  }

  lemma {:induction false} CounterNext(start: Block, k: nat)
    ensures CounterAt(CounterAt(start, k), 1) == CounterAt(start, k + 1)
  {
    DigitsOfBytes(Counted(Digits(start), k));
    CountedOn(Digits(start), k);
  }

  /** As a number of 128 bits the counter goes up by one for each block. */
  lemma {:induction false} CounterValue(start: Block, k: nat)
    ensures Value(Digits(CounterAt(start, k))) == (Value(Digits(start)) + k) % Pow256(16)
  {
    DigitsOfBytes(Counted(Digits(start), k));
    CountedValue(Digits(start), k);
  }

  lemma {:induction false} CountedValue(c: seq<nat>, k: nat)
    ensures Value(Counted(c, k)) == (Value(c) + k) % Pow256(|c|)
  {
    ModuloBound(Value(c) + k, Pow256(|c|));
    ValueOfBigEndian((Value(c) + k) % Pow256(|c|), |c|);
  }

  function Counter(start: Block): nat -> Block { k => CounterAt(start, k) }

  /** Byte j of the key stream that comes from the counters c(0), c(1), ... */
  function KeyStream(e: Cipher, c: nat -> Block, j: nat): byte { e(c(j / 16))[j % 16] }

  function CryptedByte(e: Cipher, c: nat -> Block, b: byte, j: nat): byte { b ^ KeyStream(e, c, j) }

  function Ctr(e: Cipher, c: nat -> Block, x: seq<byte>): seq<byte> {
    seq(|x|, j requires 0 <= j < |x| => CryptedByte(e, c, x[j], j))
  }

  /** Section 6.5 of NIST SP 800-38A: byte j is added to byte j mod 16 of the encryption of counter
      j / 16. */
  lemma {:induction false} CtrByte(e: Cipher, start: Block, x: seq<byte>, j: nat) returns (counter: Block)
    requires j < |x|
    ensures |Ctr(e, Counter(start), x)| == |x| && Ctr(e, Counter(start), x)[j] == x[j] ^ e(counter)[j % 16]
    ensures Value(Digits(counter)) == (Value(Digits(start)) + j / 16) % Pow256(16)
  {
    counter := CounterAt(start, j / 16);
    CounterValue(start, j / 16);
  }

  /** Applying counter mode twice is the identity, for every length and all counters. */
  lemma {:induction false} CtrTwice(e: Cipher, c: nat -> Block, x: seq<byte>)
    ensures Ctr(e, c, Ctr(e, c, x)) == x
  {
    forall j | 0 <= j < |x|
      ensures Ctr(e, c, Ctr(e, c, x))[j] == x[j]
    {
      XorTwice(x[j], KeyStream(e, c, j));
    }
  }

  lemma {:induction false} XorTwice(a: byte, b: byte)
    ensures (a ^ b) ^ b == a
  {
  }
}
