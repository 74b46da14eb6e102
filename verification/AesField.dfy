/** The arithmetic under the AES block cipher of src/lib/plusaes.hpp: words of four bytes, with byte
    0 of a column in the low byte of its word, GF(2^8) and the two column matrices. */
module AesField {
  import opened AesTables

  type Word = bv32

  // ---- the bytes of a word -----------------------------------------------------------------

  function B0(w: Word): byte { (w & 0xFF) as byte }
  function B1(w: Word): byte { ((w >> 8) & 0xFF) as byte }
  function B2(w: Word): byte { ((w >> 16) & 0xFF) as byte }
  function B3(w: Word): byte { ((w >> 24) & 0xFF) as byte }

  function Pack(a: byte, b: byte, c: byte, d: byte): Word {
    (a as Word) | ((b as Word) << 8) | ((c as Word) << 16) | ((d as Word) << 24)
  }

  lemma {:induction false} BytesOfPack(a: byte, b: byte, c: byte, d: byte)
    ensures var w := Pack(a, b, c, d); B0(w) == a && B1(w) == b && B2(w) == c && B3(w) == d
  {
  }

  lemma {:induction false} PackOfBytes(w: Word)
    ensures Pack(B0(w), B1(w), B2(w), B3(w)) == w
  {
  }

  // ---- GF(2^8) -----------------------------------------------------------------------------

  function Plus(a: byte, b: byte): byte { a ^ b }

  function Mul2(b: byte): byte { if b & 0x80 != 0 then (b << 1) ^ 0x1B else b << 1 }

  /** 1 << i */
  function Mask(i: nat): byte
    requires i < 8
  {
    match i
    case 0 => 0x01
    case 1 => 0x02
    case 2 => 0x04
    case 3 => 0x08
    case 4 => 0x10
    case 5 => 0x20
    case 6 => 0x40
    case _ => 0x80
  }

  /** (m >> i) & 1 */
  function Bit(m: byte, i: nat): bool
    requires i < 8
  {
    m & Mask(i) != 0
  }

  /** b times x^k */
  function Times(b: byte, k: nat): byte { if k == 0 then b else Mul2(Times(b, k - 1)) }

  /** The product of b and the polynomial whose coefficients are the low `n` bits of m. */
  function Partial(b: byte, m: byte, n: nat): byte
    requires n <= 8
  {
    if n == 0 then 0
    else if Bit(m, n - 1) then Plus(Partial(b, m, n - 1), Times(b, n - 1))
    else Partial(b, m, n - 1)
  }

  function Product(b: byte, m: byte): byte { Partial(b, m, 8) }

  method Mul(b: byte, m: byte) returns (v: byte)
    ensures v == Product(b, m)
  {
    v := 0;
    var t := b;
    for i := 0 to 8
      invariant v == Partial(b, m, i) && t == Times(b, i)
    {
      if Bit(m, i) {
        v := v ^ t;
      }
      t := Mul2(t);
    }
  }

  // Addition

  lemma {:induction false} Commute(a: byte, b: byte)
    ensures Plus(a, b) == Plus(b, a)
  {
  }

  lemma {:induction false} Regroup(a: byte, b: byte, c: byte)
    ensures Plus(Plus(a, b), c) == Plus(a, Plus(b, c))
  {
  }

  lemma {:induction false} Cancel(a: byte, b: byte)
    ensures Plus(Plus(a, b), b) == a && Plus(0, b) == b && Plus(a, 0) == a && Plus(a, a) == 0
  {
  }

  lemma {:induction false} Swap(a: byte, b: byte, c: byte, d: byte)
    ensures Plus(Plus(a, b), Plus(c, d)) == Plus(Plus(a, c), Plus(b, d))
  {
    Regroup(a, b, Plus(c, d));
    Regroup(b, c, d);
    Regroup(c, b, d);
    Regroup(a, c, Plus(b, d));
    Commute(b, c);
  }

  // Multiplication

  lemma {:induction false} Branchless(b: byte)
    ensures Mul2(b) == (b << 1) ^ ((b >> 7) * 0x1B)
  {
  }

  lemma {:induction false} Mul2Adds(a: byte, b: byte)
    ensures Mul2(Plus(a, b)) == Plus(Mul2(a), Mul2(b))
  {
    Branchless(a);
    Branchless(b);
    Branchless(a ^ b);
  }

  lemma {:induction false} TimesAdds(a: byte, b: byte, k: nat)
    ensures Times(Plus(a, b), k) == Plus(Times(a, k), Times(b, k))
  {
    if k > 0 {
      TimesAdds(a, b, k - 1);
      Mul2Adds(Times(a, k - 1), Times(b, k - 1));
    }
  }

  /** (a + b) m == a m + b m */
  lemma {:induction false} PartialOfSum(a: byte, b: byte, m: byte, n: nat)
    requires n <= 8
    ensures Partial(Plus(a, b), m, n) == Plus(Partial(a, m, n), Partial(b, m, n))
  {
    if n == 0 {
      Cancel(0, 0);
    } else {
      PartialOfSum(a, b, m, n - 1);
      TimesAdds(a, b, n - 1);
      Swap(Partial(a, m, n - 1), Partial(b, m, n - 1), Times(a, n - 1), Times(b, n - 1));
    }
  }

  lemma {:induction false} BitOfSum(l: byte, m: byte, i: nat)
    requires i < 8
    ensures Bit(Plus(l, m), i) <==> Bit(l, i) != Bit(m, i)
  {
    MaskIsOneBit(i);
    BitMasked(l, m, Mask(i));
  }

  lemma {:induction false} MaskIsOneBit(i: nat)
    requires i < 8
    ensures Mask(i) & (Mask(i) - 1) == 0
  {
  }

  lemma {:induction false} BitMasked(l: byte, m: byte, k: byte)
    requires k & (k - 1) == 0
    ensures Plus(l, m) & k != 0 <==> (l & k != 0) != (m & k != 0)
  {
  }

  /** a (l + m) == a l + a m */
  lemma {:induction false} PartialBySum(a: byte, l: byte, m: byte, n: nat)
    requires n <= 8
    ensures Partial(a, Plus(l, m), n) == Plus(Partial(a, l, n), Partial(a, m, n))
  {
    if n == 0 {
      Cancel(0, 0);
    } else {
      PartialBySum(a, l, m, n - 1);
      BitOfSum(l, m, n - 1);
      var p, q, t := Partial(a, l, n - 1), Partial(a, m, n - 1), Times(a, n - 1);
      Regroup(p, q, t);
      Regroup(p, t, q);
      Commute(t, q);
      Cancel(Plus(p, q), t);
      Swap(p, t, q, t);
      Cancel(t, t);
    }
  }

  lemma {:induction false} BitOfShifted(m: byte, i: nat)
    requires i < 7
    ensures Bit(m << 1, i + 1) == Bit(m, i) && !Bit(m << 1, 0)
  {
  }

  lemma {:induction false} TimesDoubled(a: byte, k: nat)
    ensures Times(Mul2(a), k) == Times(a, k + 1)
  {
    if k > 0 {
      TimesDoubled(a, k - 1);
    }
  }

  /** (2 a) m == a (2 m) */
  lemma {:induction false} PartialOfDoubled(a: byte, m: byte, n: nat)
    requires n <= 7
    ensures Partial(Mul2(a), m, n) == Partial(a, m << 1, n + 1)
  {
    if n == 0 {
      BitOfShifted(m, 0);
      assert Partial(a, m << 1, 0) == 0;
    } else {
      PartialOfDoubled(a, m, n - 1);
      BitOfShifted(m, n - 1);
      TimesDoubled(a, n - 1);
    }
  }

  // ---- one column --------------------------------------------------------------------------

  function Mul3(b: byte): byte { Plus(Mul2(b), b) }

  lemma {:induction false} ProductOfDoubled(a: byte, m: byte)
    requires !Bit(m, 7)
    ensures Product(Mul2(a), m) == Product(a, m << 1)
    ensures Product(Mul3(a), m) == Product(a, Plus(m << 1, m))
  {
    PartialOfDoubled(a, m, 7);
    assert Partial(Mul2(a), m, 8) == Partial(Mul2(a), m, 7);
    PartialOfSum(Mul2(a), a, m, 8);
    PartialBySum(a, m << 1, m, 8);
  }

  function Sum(a: byte, b: byte, c: byte, d: byte): byte { Plus(Plus(Plus(a, b), c), d) }

  /** A row of the matrix of section 5.1.3 of FIPS 197 times a column. */
  function MixRow(a: byte, b: byte, c: byte, d: byte): byte { Sum(Mul2(a), Mul3(b), c, d) }

  /** A row of the matrix of section 5.3.3. */
  function UnmixRow(a: byte, b: byte, c: byte, d: byte): byte {
    Sum(Product(a, 0x0E), Product(b, 0x0B), Product(c, 0x0D), Product(d, 0x09))
  }

  lemma {:induction false} SumOfSums(a: byte, a': byte, b: byte, b': byte, c: byte, c': byte, d: byte, d': byte)
    ensures Sum(Plus(a, a'), Plus(b, b'), Plus(c, c'), Plus(d, d')) == Plus(Sum(a, b, c, d), Sum(a', b', c', d'))
  {
    Swap(a, a', b, b');
    Swap(Plus(a, b), Plus(a', b'), c, c');
    Swap(Plus(Plus(a, b), c), Plus(Plus(a', b'), c'), d, d');
  }

  lemma {:induction false} UnmixRowAdds(a: byte, a': byte, b: byte, b': byte, c: byte, c': byte, d: byte, d': byte)
    ensures UnmixRow(Plus(a, a'), Plus(b, b'), Plus(c, c'), Plus(d, d'))
         == Plus(UnmixRow(a, b, c, d), UnmixRow(a', b', c', d'))
  {
    PartialOfSum(a, a', 0x0E, 8);
    PartialOfSum(b, b', 0x0B, 8);
    PartialOfSum(c, c', 0x0D, 8);
    PartialOfSum(d, d', 0x09, 8);
    SumOfSums(Product(a, 0x0E), Product(a', 0x0E), Product(b, 0x0B), Product(b', 0x0B),
              Product(c, 0x0D), Product(c', 0x0D), Product(d, 0x09), Product(d', 0x09));
  }

  /** Multiples of one byte add up by their factors. */
  lemma {:induction false} SumOfProducts(a: byte, k: byte, l: byte, m: byte, n: byte)
    ensures Sum(Product(a, k), Product(a, l), Product(a, m), Product(a, n)) == Product(a, Sum(k, l, m, n))
  {
    PartialBySum(a, k, l, 8);
    PartialBySum(a, Plus(k, l), m, 8);
    PartialBySum(a, Plus(Plus(k, l), m), n, 8);
  }

  lemma {:induction false} ProductByOne(a: byte)
    ensures Product(a, 1) == a && Product(a, 0) == 0
  {
    NoBits(a, 0, 0, 8);
    NoBits(a, 1, 1, 8);
    Cancel(0, a);
    assert Partial(a, 1, 0) == 0 && Times(a, 0) == a;
  }

  lemma {:induction false} NoBits(a: byte, m: byte, k: nat, n: nat)
    requires k <= n <= 8 && forall i: nat :: k <= i < n ==> !Bit(m, i)
    ensures Partial(a, m, n) == Partial(a, m, k)
  {
    if k < n {
      NoBits(a, m, k, n - 1);
    }
  }

  /** What one byte of a column contributes, mixed and then unmixed, to each of its rows. */
  lemma {:induction false} Contributions(a: byte)
    ensures UnmixRow(Mul2(a), a, a, Mul3(a)) == a
    ensures UnmixRow(Mul3(a), Mul2(a), a, a) == 0
    ensures UnmixRow(a, Mul3(a), Mul2(a), a) == 0
    ensures UnmixRow(a, a, Mul3(a), Mul2(a)) == 0
  {
    ProductOfDoubled(a, 0x0E);
    ProductOfDoubled(a, 0x0B);
    ProductOfDoubled(a, 0x0D);
    ProductOfDoubled(a, 0x09);
    SumOfProducts(a, 0x1C, 0x0B, 0x0D, 0x1B);
    SumOfProducts(a, 0x12, 0x16, 0x0D, 0x09);
    SumOfProducts(a, 0x0E, 0x1D, 0x1A, 0x09);
    SumOfProducts(a, 0x0E, 0x0B, 0x17, 0x12);
    ProductByOne(a);
  }

  /** Unmixing the rows of a mixed column gives its first byte back; the other bytes follow by
      rotating the column. */
  lemma {:induction false} UnmixOfMix(a: byte, b: byte, c: byte, d: byte)
    ensures UnmixRow(MixRow(a, b, c, d), MixRow(b, c, d, a), MixRow(c, d, a, b), MixRow(d, a, b, c)) == a
  {
    SumRotates(Mul2(b), Mul3(c), d, a);
    SumRotates(Mul2(c), Mul3(d), a, b);
    SumRotates(b, Mul2(c), Mul3(d), a);
    SumRotates(Mul2(d), Mul3(a), b, c);
    SumRotates(c, Mul2(d), Mul3(a), b);
    SumRotates(b, c, Mul2(d), Mul3(a));
    var p1, q1, r1, t1 := Plus(Mul2(a), Mul3(b)), Plus(a, Mul2(b)), Plus(a, b), Plus(Mul3(a), b);
    UnmixRowAdds(Plus(p1, c), d, Plus(q1, Mul3(c)), d, Plus(r1, Mul2(c)), Mul3(d), Plus(t1, c), Mul2(d));
    UnmixRowAdds(p1, c, q1, Mul3(c), r1, Mul2(c), t1, c);
    UnmixRowAdds(Mul2(a), Mul3(b), a, Mul2(b), a, b, Mul3(a), b);
    Contributions(a);
    Contributions(b);
    Contributions(c);
    Contributions(d);
    Cancel(a, 0);
  }

  lemma {:induction false} SumRotates(a: byte, b: byte, c: byte, d: byte)
    ensures Sum(a, b, c, d) == Sum(d, a, b, c)
  {
    Commute(Plus(Plus(a, b), c), d);
    Regroup(d, Plus(a, b), c);
    Regroup(d, a, b);
  }

  lemma {:induction false} DoubledUnmixRow(a: byte, b: byte, c: byte, d: byte)
    ensures Mul2(UnmixRow(a, b, c, d)) == UnmixRow(Mul2(a), Mul2(b), Mul2(c), Mul2(d))
  {
    var k, l, m, n := Product(a, 0x0E), Product(b, 0x0B), Product(c, 0x0D), Product(d, 0x09);
    Mul2Adds(Plus(Plus(k, l), m), n);
    Mul2Adds(Plus(k, l), m);
    Mul2Adds(k, l);
    DoubledPartial(a, 0x0E, 8);
    DoubledPartial(b, 0x0B, 8);
    DoubledPartial(c, 0x0D, 8);
    DoubledPartial(d, 0x09, 8);
  }

  lemma {:induction false} DoubledPartial(a: byte, m: byte, n: nat)
    requires n <= 8
    ensures Mul2(Partial(a, m, n)) == Partial(Mul2(a), m, n)
  {
    if n > 0 {
      DoubledPartial(a, m, n - 1);
      Mul2Adds(Partial(a, m, n - 1), Times(a, n - 1));
      TimesDoubled(a, n - 1);
    }
  }

  /** The two matrices commute, so mixing undoes unmixing as well. */
  lemma {:induction false} MixOfUnmix(a: byte, b: byte, c: byte, d: byte)
    ensures MixRow(UnmixRow(a, b, c, d), UnmixRow(b, c, d, a), UnmixRow(c, d, a, b), UnmixRow(d, a, b, c)) == a
  {
    DoubledUnmixRow(a, b, c, d);
    DoubledUnmixRow(b, c, d, a);
    UnmixRowAdds(Mul2(b), b, Mul2(c), c, Mul2(d), d, Mul2(a), a);
    UnmixRowAdds(Mul2(a), Mul3(b), Mul2(b), Mul3(c), Mul2(c), Mul3(d), Mul2(d), Mul3(a));
    UnmixRowAdds(Plus(Mul2(a), Mul3(b)), c, Plus(Mul2(b), Mul3(c)), d, Plus(Mul2(c), Mul3(d)), a,
                 Plus(Mul2(d), Mul3(a)), b);
    UnmixRowAdds(Plus(Plus(Mul2(a), Mul3(b)), c), d, Plus(Plus(Mul2(b), Mul3(c)), d), a,
                 Plus(Plus(Mul2(c), Mul3(d)), a), b, Plus(Plus(Mul2(d), Mul3(a)), b), c);
    UnmixOfMix(a, b, c, d);
  }

  // ---- words -------------------------------------------------------------------------------

  function SubWord(w: Word): Word { Pack(Sbox(B0(w)), Sbox(B1(w)), Sbox(B2(w)), Sbox(B3(w))) }

  function InvSubWord(w: Word): Word { Pack(InvSbox(B0(w)), InvSbox(B1(w)), InvSbox(B2(w)), InvSbox(B3(w))) }

  function MixWord(w: Word): Word {
    var a, b, c, d := B0(w), B1(w), B2(w), B3(w);
    Pack(MixRow(a, b, c, d), MixRow(b, c, d, a), MixRow(c, d, a, b), MixRow(d, a, b, c))
  }

  function UnmixWord(w: Word): Word {
    var a, b, c, d := B0(w), B1(w), B2(w), B3(w);
    Pack(UnmixRow(a, b, c, d), UnmixRow(b, c, d, a), UnmixRow(c, d, a, b), UnmixRow(d, a, b, c))
  }

  lemma {:induction false} SubWordUndone(w: Word)
    ensures InvSubWord(SubWord(w)) == w && SubWord(InvSubWord(w)) == w
  {
    var a, b, c, d := B0(w), B1(w), B2(w), B3(w);
    PackOfBytes(w);
    BytesOfPack(Sbox(a), Sbox(b), Sbox(c), Sbox(d));
    BytesOfPack(InvSbox(a), InvSbox(b), InvSbox(c), InvSbox(d));
    SboxUndone(a); SboxUndone(b); SboxUndone(c); SboxUndone(d);
    InvSboxUndone(a); InvSboxUndone(b); InvSboxUndone(c); InvSboxUndone(d);
  }

  lemma {:induction false} MixWordUndone(w: Word)
    ensures UnmixWord(MixWord(w)) == w
  {
    var a, b, c, d := B0(w), B1(w), B2(w), B3(w);
    PackOfBytes(w);
    BytesOfPack(MixRow(a, b, c, d), MixRow(b, c, d, a), MixRow(c, d, a, b), MixRow(d, a, b, c));
    UnmixOfMix(a, b, c, d); UnmixOfMix(b, c, d, a); UnmixOfMix(c, d, a, b); UnmixOfMix(d, a, b, c);
  }

  lemma {:induction false} UnmixWordUndone(w: Word)
    ensures MixWord(UnmixWord(w)) == w
  {
    var a, b, c, d := B0(w), B1(w), B2(w), B3(w);
    PackOfBytes(w);
    BytesOfPack(UnmixRow(a, b, c, d), UnmixRow(b, c, d, a), UnmixRow(c, d, a, b), UnmixRow(d, a, b, c));
    MixOfUnmix(a, b, c, d); MixOfUnmix(b, c, d, a); MixOfUnmix(c, d, a, b); MixOfUnmix(d, a, b, c);
  }
}
