/** The compression function of src/lib/picosha2.h.  The source computes in words of 32 or 64 bits, as
    wide as the platform's unsigned long, and masks late; sections 4.1.2 and 6.2.2 of FIPS 180-4
    compute modulo 2^32 throughout. */
module Sha256Block {
  import opened Numbers

  type byte = bv8

  /** A word of the standard */
  type Word = bv32

  /** How wide word_t is */
  datatype Width = W32 | W64

  /** word_t if it is 64 bits wide; if it is 32 bits wide it is a Word. */
  type Wide = bv64

  // ---- section 4.1.2, in words of 32 bits --------------------------------------------------

  function Ch(x: Word, y: Word, z: Word): Word { (x & y) ^ (!x & z) }

  function Maj(x: Word, y: Word, z: Word): Word { ((x & y) ^ (x & z)) ^ (y & z) }

  function Rotr(x: Word, n: bv6): Word
    requires 0 < n < 32
  {
    (x >> n) | (x << (32 - n))
  }

  function Shr(x: Word, n: bv6): Word
    requires n < 32
  {
    x >> n
  }

  function Xor3(x: Word, y: Word, z: Word): Word { (x ^ y) ^ z }

  function BigSigma0(x: Word): Word { Xor3(Rotr(x, 2), Rotr(x, 13), Rotr(x, 22)) }
  function BigSigma1(x: Word): Word { Xor3(Rotr(x, 6), Rotr(x, 11), Rotr(x, 25)) }
  function SmallSigma0(x: Word): Word { Xor3(Rotr(x, 7), Rotr(x, 18), Shr(x, 3)) }
  function SmallSigma1(x: Word): Word { Xor3(Rotr(x, 17), Rotr(x, 19), Shr(x, 10)) }

  function Sum2(a: Word, b: Word): Word { a + b }
  function Sum4(a: Word, b: Word, c: Word, d: Word): Word { a + b + c + d }
  function Sum6(d: Word, h: Word, s: Word, c: Word, k: Word, w: Word): Word { d + (h + s + c + k + w) }
  function Sum7(h: Word, s: Word, c: Word, k: Word, w: Word, t: Word, m: Word): Word { (h + s + c + k + w) + (t + m) }

  // ---- as the source computes it -----------------------------------------------------------

  // In words of 32 bits every mask is there, although it changes nothing.  In words of 64 bits every
  // word the source stores is below 2^32, which is why it has type Word here too: each result below
  // is converted back, and that it fits has to be proved.  What lies between is computed in wide
  // words, and a sum is masked once, at its end.

  function NarrowRotr(x: Word, n: bv6): Word
    requires 0 < n < 32
  {
    ((x >> n) | (x << (32 - n))) & 0xffff_ffff
  }

  function NarrowSum2(a: Word, b: Word): Word { (a + b) & 0xffff_ffff }

  function NarrowSum4(a: Word, b: Word, c: Word, d: Word): Word { (a + b + c + d) & 0xffff_ffff }

  function NarrowSum6(d: Word, h: Word, s: Word, c: Word, k: Word, w: Word): Word {
    (d + (h + s + c + k + w)) & 0xffff_ffff
  }

  function NarrowSum7(h: Word, s: Word, c: Word, k: Word, w: Word, t: Word, m: Word): Word {
    ((h + s + c + k + w) + (t + m)) & 0xffff_ffff
  }

  function WideCh(x: Word, y: Word, z: Word): Word {
    (((x as Wide) & (y as Wide)) ^ (!(x as Wide) & (z as Wide))) as Word
  }

  function WideMaj(x: Word, y: Word, z: Word): Word {
    ((((x as Wide) & (y as Wide)) ^ ((x as Wide) & (z as Wide))) ^ ((y as Wide) & (z as Wide))) as Word
  }

  function WideRotr(x: Word, n: bv6): Word
    requires 0 < n < 32
  {
    ((((x as Wide) >> n) | ((x as Wide) << (32 - n))) & 0xffff_ffff) as Word
  }

  function WideShr(x: Word, n: bv6): Word
    requires n < 32
  {
    ((x as Wide) >> n) as Word
  }

  function WideXor3(x: Word, y: Word, z: Word): Word { (((x as Wide) ^ (y as Wide)) ^ (z as Wide)) as Word }

  function WideSum2(a: Word, b: Word): Word { (((a as Wide) + (b as Wide)) & 0xffff_ffff) as Word }

  function WideSum4(a: Word, b: Word, c: Word, d: Word): Word {
    (((a as Wide) + (b as Wide) + (c as Wide) + (d as Wide)) & 0xffff_ffff) as Word
  }

  /** mask_32bit(d + temp1), with temp1 written out */
  function WideSum6(d: Word, h: Word, s: Word, c: Word, k: Word, w: Word): Word {
    (((d as Wide) + ((h as Wide) + (s as Wide) + (c as Wide) + (k as Wide) + (w as Wide))) & 0xffff_ffff) as Word
  }

  /** mask_32bit(temp1 + temp2), with both written out */
  function WideSum7(h: Word, s: Word, c: Word, k: Word, w: Word, t: Word, m: Word): Word {
    ((((h as Wide) + (s as Wide) + (c as Wide) + (k as Wide) + (w as Wide)) + ((t as Wide) + (m as Wide)))
     & 0xffff_ffff) as Word
  }

  function ChIn(width: Width, x: Word, y: Word, z: Word): Word {
    if width.W32? then Ch(x, y, z) else WideCh(x, y, z)
  }

  function MajIn(width: Width, x: Word, y: Word, z: Word): Word {
    if width.W32? then Maj(x, y, z) else WideMaj(x, y, z)
  }

  function RotrIn(width: Width, x: Word, n: bv6): Word
    requires 0 < n < 32
  {
    if width.W32? then NarrowRotr(x, n) else WideRotr(x, n)
  }

  function ShrIn(width: Width, x: Word, n: bv6): Word
    requires n < 32
  {
    if width.W32? then Shr(x, n) else WideShr(x, n)
  }

  function Xor3In(width: Width, x: Word, y: Word, z: Word): Word {
    if width.W32? then Xor3(x, y, z) else WideXor3(x, y, z)
  }

  function BigSigma0In(width: Width, x: Word): Word {
    Xor3In(width, RotrIn(width, x, 2), RotrIn(width, x, 13), RotrIn(width, x, 22))
  }

  function BigSigma1In(width: Width, x: Word): Word {
    Xor3In(width, RotrIn(width, x, 6), RotrIn(width, x, 11), RotrIn(width, x, 25))
  }

  function SmallSigma0In(width: Width, x: Word): Word {
    Xor3In(width, RotrIn(width, x, 7), RotrIn(width, x, 18), ShrIn(width, x, 3))
  }

  function SmallSigma1In(width: Width, x: Word): Word {
    Xor3In(width, RotrIn(width, x, 17), RotrIn(width, x, 19), ShrIn(width, x, 10))
  }

  function Sum2In(width: Width, a: Word, b: Word): Word {
    if width.W32? then NarrowSum2(a, b) else WideSum2(a, b)
  }

  function Sum4In(width: Width, a: Word, b: Word, c: Word, d: Word): Word {
    if width.W32? then NarrowSum4(a, b, c, d) else WideSum4(a, b, c, d)
  }

  function Sum6In(width: Width, d: Word, h: Word, s: Word, c: Word, k: Word, w: Word): Word {
    if width.W32? then NarrowSum6(d, h, s, c, k, w) else WideSum6(d, h, s, c, k, w)
  }

  function Sum7In(width: Width, h: Word, s: Word, c: Word, k: Word, w: Word, t: Word, m: Word): Word {
    if width.W32? then NarrowSum7(h, s, c, k, w, t, m) else WideSum7(h, s, c, k, w, t, m)
  }

  lemma {:induction false} MaskIsIdentity(x: Word)
    ensures x & 0xffff_ffff == x
  {
  }

  lemma {:induction false} ChAgrees(width: Width, x: Word, y: Word, z: Word)
    ensures ChIn(width, x, y, z) == Ch(x, y, z)
  {
    WideChAgrees(x, y, z);
  }

  lemma {:induction false} WideChAgrees(x: Word, y: Word, z: Word)
    ensures WideCh(x, y, z) == Ch(x, y, z)
  {
  }

  lemma {:induction false} MajAgrees(width: Width, x: Word, y: Word, z: Word)
    ensures MajIn(width, x, y, z) == Maj(x, y, z)
  {
    WideMajAgrees(x, y, z);
  }

  lemma {:induction false} WideMajAgrees(x: Word, y: Word, z: Word)
    ensures WideMaj(x, y, z) == Maj(x, y, z)
  {
  }

  lemma {:induction false} Xor3Agrees(width: Width, x: Word, y: Word, z: Word)
    ensures Xor3In(width, x, y, z) == Xor3(x, y, z)
  {
    WideXor3Agrees(x, y, z);
  }

  lemma {:induction false} WideXor3Agrees(x: Word, y: Word, z: Word)
    ensures WideXor3(x, y, z) == Xor3(x, y, z)
  {
  }

  lemma {:induction false} Sum2Agrees(width: Width, a: Word, b: Word)
    ensures Sum2In(width, a, b) == Sum2(a, b)
  {
    if width.W32? { MaskIsIdentity(Sum2(a, b)); } else { WideSum2Agrees(a, b); }
  }

  lemma {:induction false} WideSum2Agrees(a: Word, b: Word)
    ensures WideSum2(a, b) == Sum2(a, b)
  {
  }

  lemma {:induction false} Sum4Agrees(width: Width, a: Word, b: Word, c: Word, d: Word)
    ensures Sum4In(width, a, b, c, d) == Sum4(a, b, c, d)
  {
    if width.W32? { MaskIsIdentity(Sum4(a, b, c, d)); } else { WideSum4Agrees(a, b, c, d); }
  }

  lemma {:induction false} WideSum4Agrees(a: Word, b: Word, c: Word, d: Word)
    ensures WideSum4(a, b, c, d) == Sum4(a, b, c, d)
  {
  }

  lemma {:induction false} Sum6Agrees(width: Width, d: Word, h: Word, s: Word, c: Word, k: Word, w: Word)
    ensures Sum6In(width, d, h, s, c, k, w) == Sum6(d, h, s, c, k, w)
  {
    if width.W32? { MaskIsIdentity(Sum6(d, h, s, c, k, w)); } else { WideSum6Agrees(d, h, s, c, k, w); }
  }

  lemma {:induction false} WideSum6Agrees(d: Word, h: Word, s: Word, c: Word, k: Word, w: Word)
    ensures WideSum6(d, h, s, c, k, w) == Sum6(d, h, s, c, k, w)
  {
  }

  lemma {:induction false} Sum7Agrees(width: Width, h: Word, s: Word, c: Word, k: Word, w: Word, t: Word, m: Word)
    ensures Sum7In(width, h, s, c, k, w, t, m) == Sum7(h, s, c, k, w, t, m)
  {
    if width.W32? { MaskIsIdentity(Sum7(h, s, c, k, w, t, m)); } else { WideSum7Agrees(h, s, c, k, w, t, m); }
  }

  lemma {:induction false} WideSum7Agrees(h: Word, s: Word, c: Word, k: Word, w: Word, t: Word, m: Word)
    ensures WideSum7(h, s, c, k, w, t, m) == Sum7(h, s, c, k, w, t, m)
  {
  }

  lemma {:induction false} RotrAgrees(width: Width, x: Word, n: bv6)
    requires n in {2, 6, 7, 11, 13, 17, 18, 19, 22, 25}
    ensures RotrIn(width, x, n) == Rotr(x, n)
  {
    if width.W32? { MaskIsIdentity(Rotr(x, n)); } else { WideRotrAgrees(x); }
  }

  lemma {:induction false} WideRotrAgrees(x: Word)
    ensures WideRotr(x, 2) == Rotr(x, 2)
    ensures WideRotr(x, 6) == Rotr(x, 6)
    ensures WideRotr(x, 7) == Rotr(x, 7)
    ensures WideRotr(x, 11) == Rotr(x, 11)
    ensures WideRotr(x, 13) == Rotr(x, 13)
    ensures WideRotr(x, 17) == Rotr(x, 17)
    ensures WideRotr(x, 18) == Rotr(x, 18)
    ensures WideRotr(x, 19) == Rotr(x, 19)
    ensures WideRotr(x, 22) == Rotr(x, 22)
    ensures WideRotr(x, 25) == Rotr(x, 25)
  {
  }

  lemma {:induction false} RotrsAgree(width: Width, x: Word)
    ensures RotrIn(width, x, 2) == Rotr(x, 2) && RotrIn(width, x, 13) == Rotr(x, 13)
    ensures RotrIn(width, x, 22) == Rotr(x, 22)
    ensures RotrIn(width, x, 6) == Rotr(x, 6) && RotrIn(width, x, 11) == Rotr(x, 11)
    ensures RotrIn(width, x, 25) == Rotr(x, 25)
    ensures RotrIn(width, x, 7) == Rotr(x, 7) && RotrIn(width, x, 18) == Rotr(x, 18)
    ensures RotrIn(width, x, 17) == Rotr(x, 17) && RotrIn(width, x, 19) == Rotr(x, 19)
  {
    RotrAgrees(width, x, 2); RotrAgrees(width, x, 13); RotrAgrees(width, x, 22);
    RotrAgrees(width, x, 6); RotrAgrees(width, x, 11); RotrAgrees(width, x, 25);
    RotrAgrees(width, x, 7); RotrAgrees(width, x, 18);
    RotrAgrees(width, x, 17); RotrAgrees(width, x, 19);
  }

  lemma {:induction false} SigmasAgree(width: Width, x: Word)
    ensures BigSigma0In(width, x) == BigSigma0(x) && BigSigma1In(width, x) == BigSigma1(x)
    ensures SmallSigma0In(width, x) == SmallSigma0(x) && SmallSigma1In(width, x) == SmallSigma1(x)
  {
    RotrsAgree(width, x);
    ShrAgrees(width, x);
    Xor3Agrees(width, Rotr(x, 2), Rotr(x, 13), Rotr(x, 22));
    Xor3Agrees(width, Rotr(x, 6), Rotr(x, 11), Rotr(x, 25));
    Xor3Agrees(width, Rotr(x, 7), Rotr(x, 18), Shr(x, 3));
    Xor3Agrees(width, Rotr(x, 17), Rotr(x, 19), Shr(x, 10));
  }

  lemma {:induction false} ShrAgrees(width: Width, x: Word)
    ensures ShrIn(width, x, 3) == Shr(x, 3) && ShrIn(width, x, 10) == Shr(x, 10)
  {
    WideShrAgrees(x);
  }

  lemma {:induction false} WideShrAgrees(x: Word)
    ensures WideShr(x, 3) == Shr(x, 3) && WideShr(x, 10) == Shr(x, 10)
  {
  }

  // ---- section 6.2.2 -----------------------------------------------------------------------

  /** add_constant, in rows of eight */
  function AddConstant(t: nat): Word
    requires t < 64
  {
    var i := t % 8;
    match t / 8
    case 0 => [0x428a2f98, 0x71374491, 0xb5c0fbcf, 0xe9b5dba5, 0x3956c25b, 0x59f111f1, 0x923f82a4, 0xab1c5ed5][i]
    case 1 => [0xd807aa98, 0x12835b01, 0x243185be, 0x550c7dc3, 0x72be5d74, 0x80deb1fe, 0x9bdc06a7, 0xc19bf174][i]
    case 2 => [0xe49b69c1, 0xefbe4786, 0x0fc19dc6, 0x240ca1cc, 0x2de92c6f, 0x4a7484aa, 0x5cb0a9dc, 0x76f988da][i]
    case 3 => [0x983e5152, 0xa831c66d, 0xb00327c8, 0xbf597fc7, 0xc6e00bf3, 0xd5a79147, 0x06ca6351, 0x14292967][i]
    case 4 => [0x27b70a85, 0x2e1b2138, 0x4d2c6dfc, 0x53380d13, 0x650a7354, 0x766a0abb, 0x81c2c92e, 0x92722c85][i]
    case 5 => [0xa2bfe8a1, 0xa81a664b, 0xc24b8b70, 0xc76c51a3, 0xd192e819, 0xd6990624, 0xf40e3585, 0x106aa070][i]
    case 6 => [0x19a4c116, 0x1e376c08, 0x2748774c, 0x34b0bcb5, 0x391c0cb3, 0x4ed8aa4a, 0x5b9cca4f, 0x682e6ff3][i]
    case _ => [0x748f82ee, 0x78a5636f, 0x84c87814, 0x8cc70208, 0x90befffa, 0xa4506ceb, 0xbef9a3f7, 0xc67178f2][i]
  }

  function BigEndianWord(b: seq<byte>): Word
    requires |b| == 4
  {
    ((b[0] as Word) << 24) | ((b[1] as Word) << 16) | ((b[2] as Word) << 8) | (b[3] as Word)
  }

  /** A word is the number its four bytes spell, the highest first. */
  lemma {:induction false} WordValue(b: seq<byte>)
    requires |b| == 4
    ensures BigEndianWord(b) as nat == Value(Digits(b))
  {
    FourDigits(Digits(b));
    JoinValue(BigEndianWord(b), b[0], b[1], b[2], b[3]);
  }

  lemma {:induction false} JoinValue(w: Word, a: byte, b: byte, c: byte, d: byte)
    requires w == ((a as Word) << 24) | ((b as Word) << 16) | ((c as Word) << 8) | (d as Word)
    ensures w as nat == 0x100_0000 * (a as nat) + 0x1_0000 * (b as nat) + 0x100 * (c as nat) + (d as nat)
  {
  }

  lemma {:induction false} FourDigits(c: seq<nat>)
    requires |c| == 4
    ensures Value(c) == 0x100_0000 * c[0] + 0x1_0000 * c[1] + 0x100 * c[2] + c[3]
  {
    assert c[..3][..2] == c[..2] && c[..2][..1] == c[..1] && c[..1][..0] == [];
    assert Value(c[..1]) == c[0];
    assert Value(c[..2]) == Value(c[..1]) * 256 + c[1];
    assert Value(c[..3]) == Value(c[..2]) * 256 + c[2];
  }

  function WordBytes(w: Word): (r: seq<byte>)
    ensures |r| == 4
  {
    [((w >> 24) & 0xff) as byte, ((w >> 16) & 0xff) as byte, ((w >> 8) & 0xff) as byte, (w & 0xff) as byte]
  }

  lemma {:induction false} WordBytesBack(w: Word)
    ensures BigEndianWord(WordBytes(w)) == w
  {
  }

  /** The bytes of a word spell it, the highest first. */
  lemma {:induction false} WordBytesValue(w: Word)
    ensures Value(Digits(WordBytes(w))) == w as nat
  {
    WordBytesBack(w);
    WordValue(WordBytes(w));
  }

  type Block = b: seq<byte> | |b| == 64 witness seq(64, i => 0)

  /** The message schedule, step 1 */
  function Schedule(block: Block, t: nat): Word {
    if t < 16 then BigEndianWord(block[4 * t..4 * t + 4])
    else
      Sum4(SmallSigma1(Schedule(block, t - 2)), Schedule(block, t - 7), SmallSigma0(Schedule(block, t - 15)),
           Schedule(block, t - 16))
  }

  /** The first sixteen words are the numbers in the block. */
  lemma {:induction false} ScheduleStarts(block: Block)
    ensures forall t: nat :: t < 16 ==> Schedule(block, t) as nat == Value(Digits(block[4 * t..4 * t + 4]))
  {
    forall t: nat | t < 16
      ensures Schedule(block, t) as nat == Value(Digits(block[4 * t..4 * t + 4]))
    {
      WordValue(block[4 * t..4 * t + 4]);
    }
  }

  datatype Vars = Vars(a: Word, b: Word, c: Word, d: Word, e: Word, f: Word, g: Word, h: Word)

  /** One turn of step 3: T1 goes into a and e, T2 into a. */
  function Round(v: Vars, k: Word, w: Word): Vars {
    var s1, ch := BigSigma1(v.e), Ch(v.e, v.f, v.g);
    Vars(Sum7(v.h, s1, ch, k, w, BigSigma0(v.a), Maj(v.a, v.b, v.c)), v.a, v.b, v.c,
         Sum6(v.d, v.h, s1, ch, k, w), v.e, v.f, v.g)
  }

  function Rounds(v: Vars, block: Block, t: nat): Vars
    requires t <= 64
  {
    if t == 0 then v else Round(Rounds(v, block, t - 1), AddConstant(t - 1), Schedule(block, t - 1))
  }

  /** Steps 2 to 4 */
  function Compress(v: Vars, block: Block): Vars {
    var r := Rounds(v, block, 64);
    Vars(Sum2(v.a, r.a), Sum2(v.b, r.b), Sum2(v.c, r.c), Sum2(v.d, r.d), Sum2(v.e, r.e), Sum2(v.f, r.f),
         Sum2(v.g, r.g), Sum2(v.h, r.h))
  }

  // ---- hash256_block -----------------------------------------------------------------------

  function RoundIn(width: Width, v: Vars, k: Word, w: Word): Vars {
    var s1, ch := BigSigma1In(width, v.e), ChIn(width, v.e, v.f, v.g);
    Vars(Sum7In(width, v.h, s1, ch, k, w, BigSigma0In(width, v.a), MajIn(width, v.a, v.b, v.c)), v.a, v.b, v.c,
         Sum6In(width, v.d, v.h, s1, ch, k, w), v.e, v.f, v.g)
  }

  lemma {:induction false} RoundAgrees(width: Width, v: Vars, k: Word, w: Word)
    ensures RoundIn(width, v, k, w) == Round(v, k, w)
  {
    SigmasAgree(width, v.e);
    SigmasAgree(width, v.a);
    ChAgrees(width, v.e, v.f, v.g);
    MajAgrees(width, v.a, v.b, v.c);
    Sum6Agrees(width, v.d, v.h, BigSigma1(v.e), Ch(v.e, v.f, v.g), k, w);
    Sum7Agrees(width, v.h, BigSigma1(v.e), Ch(v.e, v.f, v.g), k, w, BigSigma0(v.a), Maj(v.a, v.b, v.c));
  }

  function NextIn(width: Width, w2: Word, w7: Word, w15: Word, w16: Word): Word {
    Sum4In(width, SmallSigma1In(width, w2), w7, SmallSigma0In(width, w15), w16)
  }

  lemma {:induction false} NextAgrees(width: Width, w2: Word, w7: Word, w15: Word, w16: Word)
    ensures NextIn(width, w2, w7, w15, w16) == Sum4(SmallSigma1(w2), w7, SmallSigma0(w15), w16)
  {
    SigmasAgree(width, w2);
    SigmasAgree(width, w15);
    Sum4Agrees(width, SmallSigma1(w2), w7, SmallSigma0(w15), w16);
  }

  /** The first loop */
  method FirstWords(block: Block, w: array<Word>)
    requires w.Length == 64
    modifies w
    ensures forall t :: 0 <= t < 16 ==> w[t] == Schedule(block, t)
    ensures forall t :: 0 <= t < 16 ==> w[t] as nat == Value(Digits(block[4 * t..4 * t + 4]))
  {
    ScheduleStarts(block);
    for i := 0 to 16
      invariant forall t :: 0 <= t < i ==> w[t] == Schedule(block, t)
    {
      w[i] := BigEndianWord(block[4 * i..4 * i + 4]);
    }
  }

  /** The body of the second loop */
  method NextWord(width: Width, ghost block: Block, w: array<Word>, i: nat)
    requires w.Length == 64 && 16 <= i < 64 && forall t :: 0 <= t < i ==> w[t] == Schedule(block, t)
    modifies w
    ensures forall t :: 0 <= t <= i ==> w[t] == Schedule(block, t)
  {
    NextAgrees(width, w[i - 2], w[i - 7], w[i - 15], w[i - 16]);
    w[i] := NextIn(width, w[i - 2], w[i - 7], w[i - 15], w[i - 16]);
  }

  method FillSchedule(width: Width, block: Block) returns (w: array<Word>)
    ensures w.Length == 64 && fresh(w) && forall t :: 0 <= t < 64 ==> w[t] == Schedule(block, t)
  {
    w := new Word[64];
    FirstWords(block, w);
    for i := 16 to 64
      invariant forall t :: 0 <= t < i ==> w[t] == Schedule(block, t)
    {
      NextWord(width, block, w, i);
    }
  }

  function Digest(h: seq<Word>): Vars
    requires |h| == 8
  {
    Vars(h[0], h[1], h[2], h[3], h[4], h[5], h[6], h[7])
  }

  /** The third loop */
  method RunRounds(width: Width, start: Vars, w: array<Word>, ghost block: Block) returns (v: Vars)
    requires w.Length == 64 && forall t :: 0 <= t < 64 ==> w[t] == Schedule(block, t)
    ensures v == Rounds(start, block, 64)
  {
    v := start;
    for i := 0 to 64
      invariant v == Rounds(start, block, i)
    {
      RoundAgrees(width, v, AddConstant(i), w[i]);
      v := RoundIn(width, v, AddConstant(i), w[i]);
    }
  }

  method HashBlock(width: Width, digest: array<Word>, block: Block)
    requires digest.Length == 8
    modifies digest
    ensures Digest(digest[..]) == Compress(old(Digest(digest[..])), block)
  {
    var w := FillSchedule(width, block);
    var v := RunRounds(width, Digest(digest[..]), w, block);
    AddTo(width, digest, 0, v.a); AddTo(width, digest, 1, v.b); AddTo(width, digest, 2, v.c);
    AddTo(width, digest, 3, v.d);
    AddTo(width, digest, 4, v.e); AddTo(width, digest, 5, v.f); AddTo(width, digest, 6, v.g);
    AddTo(width, digest, 7, v.h);
  }

  method AddTo(width: Width, digest: array<Word>, i: nat, x: Word)
    requires i < digest.Length
    modifies digest
    ensures digest[i] == Sum2(old(digest[i]), x)
    ensures forall j :: 0 <= j < digest.Length && j != i ==> digest[j] == old(digest[j])
  {
    digest[i] := Sum2In(width, digest[i], x);
    Sum2Agrees(width, old(digest[i]), x);
  }
}
