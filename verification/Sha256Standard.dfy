/** FIPS 180-4 beyond its formulas: where the constants come from. */
module Sha256Standard {
  import opened Numbers
  import opened Sha256Block
  import opened Sha256

  // ---- sections 4.2.2 and 5.3.3: the constants ---------------------------------------------

  /** The first 64 primes */
  function Prime(t: nat): nat
    requires t < 64
  {
    var i := t % 8;
    match t / 8
    case 0 => [2, 3, 5, 7, 11, 13, 17, 19][i]
    case 1 => [23, 29, 31, 37, 41, 43, 47, 53][i]
    case 2 => [59, 61, 67, 71, 73, 79, 83, 89][i]
    case 3 => [97, 101, 103, 107, 109, 113, 127, 131][i]
    case 4 => [137, 139, 149, 151, 157, 163, 167, 173][i]
    case 5 => [179, 181, 191, 193, 197, 199, 211, 223][i]
    case 6 => [227, 229, 233, 239, 241, 251, 257, 263][i]
    case _ => [269, 271, 277, 281, 283, 293, 307, 311][i]
  }

  /** The whole part of a cube root below 7 */
  function WholeCubeRoot(p: nat): nat {
    if p < 8 then 1 else if p < 27 then 2 else if p < 64 then 3 else if p < 125 then 4 else if p < 216 then 5 else 6
  }

  /** k is the first 32 bits of the fractional part of the cube root of p: with them the root is x / 2^32,
      rounded down. */
  ghost predicate CubeRootBits(p: nat, k: nat) {
    var x := WholeCubeRoot(p) * 0x1_0000_0000 + k;
    x * x * x <= p * 0x1_0000_0000_0000_0000_0000_0000 < (x + 1) * (x + 1) * (x + 1)
  }

  lemma {:induction false} Roots0(t: nat)
    requires 0 <= t < 8
    ensures CubeRootBits(Prime(t), AddConstant(t) as nat)
  {
  }

  lemma {:induction false} Roots1(t: nat)
    requires 8 <= t < 16
    ensures CubeRootBits(Prime(t), AddConstant(t) as nat)
  {
  }

  lemma {:induction false} Roots2(t: nat)
    requires 16 <= t < 24
    ensures CubeRootBits(Prime(t), AddConstant(t) as nat)
  {
  }

  lemma {:induction false} Roots3(t: nat)
    requires 24 <= t < 32
    ensures CubeRootBits(Prime(t), AddConstant(t) as nat)
  {
  }

  lemma {:induction false} Roots4(t: nat)
    requires 32 <= t < 40
    ensures CubeRootBits(Prime(t), AddConstant(t) as nat)
  {
  }

  lemma {:induction false} Roots5(t: nat)
    requires 40 <= t < 48
    ensures CubeRootBits(Prime(t), AddConstant(t) as nat)
  {
  }

  lemma {:induction false} Roots6(t: nat)
    requires 48 <= t < 56
    ensures CubeRootBits(Prime(t), AddConstant(t) as nat)
  {
  }

  lemma {:induction false} Roots7(t: nat)
    requires 56 <= t < 64
    ensures CubeRootBits(Prime(t), AddConstant(t) as nat)
  {
  }

  /** The 64 constants */
  lemma {:induction false} ConstantsAreCubeRoots(t: nat)
    requires t < 64
    ensures CubeRootBits(Prime(t), AddConstant(t) as nat)
  {
    match t / 8 {
      case 0 => Roots0(t);
      case 1 => Roots1(t);
      case 2 => Roots2(t);
      case 3 => Roots3(t);
      case 4 => Roots4(t);
      case 5 => Roots5(t);
      case 6 => Roots6(t);
      case _ => Roots7(t);
    }
  }

  /** The same for the square root of a prime below 25 */
  ghost predicate SquareRootBits(p: nat, k: nat) {
    var whole := if p < 4 then 1 else if p < 9 then 2 else if p < 16 then 3 else 4;
    var x := whole * 0x1_0000_0000 + k;
    x * x <= p * 0x1_0000_0000_0000_0000 < (x + 1) * (x + 1)
  }

  /** The initial digest */
  lemma {:induction false} DigestIsSquareRoots()
    ensures var v := INITIAL_DIGEST;
      && SquareRootBits(2, v.a as nat) && SquareRootBits(3, v.b as nat) && SquareRootBits(5, v.c as nat)
      && SquareRootBits(7, v.d as nat) && SquareRootBits(11, v.e as nat) && SquareRootBits(13, v.f as nat)
      && SquareRootBits(17, v.g as nat) && SquareRootBits(19, v.h as nat)
  {
  }

  // ---- section 4.1.2: the functions --------------------------------------------------------

  lemma {:induction false} RotationsAre(x: Word)
    ensures Rotr(x, 2) == x.RotateRight(2) && Rotr(x, 6) == x.RotateRight(6) && Rotr(x, 7) == x.RotateRight(7)
    ensures Rotr(x, 11) == x.RotateRight(11) && Rotr(x, 13) == x.RotateRight(13) && Rotr(x, 17) == x.RotateRight(17)
    ensures Rotr(x, 18) == x.RotateRight(18) && Rotr(x, 19) == x.RotateRight(19) && Rotr(x, 22) == x.RotateRight(22)
    ensures Rotr(x, 25) == x.RotateRight(25)
  {
  }

  lemma {:induction false} ShiftsAre(x: Word)
    ensures Shr(x, 3) == x / 0x8 && Shr(x, 10) == x / 0x400
  {
  }

  lemma {:induction false} Xor3Is(x: Word, y: Word, z: Word)
    ensures Xor3(x, y, z) == x ^ y ^ z
  {
  }

  lemma {:induction false} SigmasAre(x: Word)
    ensures BigSigma0(x) == Xor3(x.RotateRight(2), x.RotateRight(13), x.RotateRight(22))
    ensures BigSigma1(x) == Xor3(x.RotateRight(6), x.RotateRight(11), x.RotateRight(25))
    ensures SmallSigma0(x) == Xor3(x.RotateRight(7), x.RotateRight(18), x / 0x8)
    ensures SmallSigma1(x) == Xor3(x.RotateRight(17), x.RotateRight(19), x / 0x400)
  {
    RotationsAre(x);
    ShiftsAre(x);
  }

  /** Ch chooses bit by bit, Maj is the majority. */
  lemma {:induction false} ChMajAre(x: Word, y: Word, z: Word)
    ensures Ch(x, y, z) == (x & y) | (!x & z)
    ensures Maj(x, y, z) == (x & y) | (x & z) | (y & z)
  {
  }

  // ---- section 6.2.2 -----------------------------------------------------------------------

  function Sum5(h: Word, s: Word, c: Word, k: Word, w: Word): Word { h + s + c + k + w }

  lemma {:induction false} SumsAre(d: Word, h: Word, s: Word, c: Word, k: Word, w: Word, t: Word, m: Word)
    ensures Sum7(h, s, c, k, w, t, m) == Sum2(Sum5(h, s, c, k, w), Sum2(t, m))
    ensures Sum6(d, h, s, c, k, w) == Sum2(d, Sum5(h, s, c, k, w))
  {
  }

  function T1(v: Vars, k: Word, w: Word): Word { Sum5(v.h, BigSigma1(v.e), Ch(v.e, v.f, v.g), k, w) }

  function T2(v: Vars): Word { Sum2(BigSigma0(v.a), Maj(v.a, v.b, v.c)) }

  /** Step 3 for one t */
  lemma {:induction false} RoundIs(v: Vars, k: Word, w: Word)
    ensures Round(v, k, w) ==
      Vars(Sum2(T1(v, k, w), T2(v)), v.a, v.b, v.c, Sum2(v.d, T1(v, k, w)), v.e, v.f, v.g)
  {
    SumsAre(v.d, v.h, BigSigma1(v.e), Ch(v.e, v.f, v.g), k, w, BigSigma0(v.a), Maj(v.a, v.b, v.c));
  }

  /** Step 1 for t >= 16 */
  lemma {:induction false} ScheduleIs(block: Block, t: nat)
    requires 16 <= t
    ensures Schedule(block, t) ==
      Sum4(SmallSigma1(Schedule(block, t - 2)), Schedule(block, t - 7), SmallSigma0(Schedule(block, t - 15)),
           Schedule(block, t - 16))
  {
  }

  /** Steps 2 to 4: 64 turns, and their result is added to what was there. */
  lemma {:induction false} CompressIs(v: Vars, block: Block)
    ensures Rounds(v, block, 0) == v
    ensures forall t: nat :: t < 64 ==>
      Rounds(v, block, t + 1) == Round(Rounds(v, block, t), AddConstant(t), Schedule(block, t))
    ensures var r, z := Rounds(v, block, 64), Compress(v, block);
      && z.a == Sum2(v.a, r.a) && z.b == Sum2(v.b, r.b) && z.c == Sum2(v.c, r.c) && z.d == Sum2(v.d, r.d)
      && z.e == Sum2(v.e, r.e) && z.f == Sum2(v.f, r.f) && z.g == Sum2(v.g, r.g) && z.h == Sum2(v.h, r.h)
  {
    forall t: nat | t < 64
      ensures Rounds(v, block, t + 1) == Round(Rounds(v, block, t), AddConstant(t), Schedule(block, t))
    {
      RoundsNext(v, block, t);
    }
  }

  lemma {:induction false} RoundsNext(v: Vars, block: Block, t: nat)
    requires t < 64
    ensures Rounds(v, block, t + 1) == Round(Rounds(v, block, t), AddConstant(t), Schedule(block, t))
  {
  }
}
