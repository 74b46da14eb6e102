/** FIPS 197 on bytes: what the tables, the rounds and the key schedule of AesBlock compute, in the
    standard's own terms. */
module AesStandard {
  import opened AesTables
  import opened AesField
  import opened AesBlock

  // ---- section 5.1.1: the substitution -----------------------------------------------------

  function Xor(a: bool, b: bool): bool { a != b }

  function RotateLeft(b: byte, n: bv4): byte
    requires n <= 8
  {
    (b << n) | (b >> (8 - n))
  }

  /** The affine transformation and its inverse, as sums of rotations */
  function Affine(i: byte): byte {
    i ^ RotateLeft(i, 1) ^ RotateLeft(i, 2) ^ RotateLeft(i, 3) ^ RotateLeft(i, 4) ^ 0x63
  }

  function Unaffine(s: byte): byte { RotateLeft(s, 1) ^ RotateLeft(s, 3) ^ RotateLeft(s, 6) ^ 0x05 }

  lemma {:induction false} AffineUnaffine(s: byte)
    ensures Affine(Unaffine(s)) == s
  {
  }

  /** The bits of a byte, the lowest first */
  function Bits(b: byte): (r: seq<bool>)
    ensures |r| == 8
  {
    [b & 0x01 != 0, b & 0x02 != 0, b & 0x04 != 0, b & 0x08 != 0,
     b & 0x10 != 0, b & 0x20 != 0, b & 0x40 != 0, b & 0x80 != 0]
  }

  /** Equation 5.1 for bit k, with the constant 0x63 */
  ghost predicate AffineAt(x: seq<bool>, y: seq<bool>, k: nat)
    requires |x| == |y| == 8 && k < 8
  {
    var c := [true, true, false, false, false, true, true, false];
    x[k] == Xor(Xor(Xor(y[k], y[(k + 4) % 8]), Xor(y[(k + 5) % 8], y[(k + 6) % 8])), Xor(y[(k + 7) % 8], c[k]))
  }

  ghost predicate IsAffine(x: seq<bool>, y: seq<bool>)
    requires |x| == |y| == 8
  {
    forall k: nat :: k < 8 ==> AffineAt(x, y, k)
  }

  lemma {:induction false} AffineBits(i: byte)
    ensures IsAffine(Bits(Affine(i)), Bits(i))
  {
    LowAffineBits(i);
    HighAffineBits(i);
    EightBits(Bits(Affine(i)), Bits(i));
  }

  ghost predicate LowBits(x: seq<bool>, y: seq<bool>)
    requires |x| == |y| == 8
  {
    && x[0] == Xor(Xor(Xor(y[0], y[4]), Xor(y[5], y[6])), Xor(y[7], true))
    && x[1] == Xor(Xor(Xor(y[1], y[5]), Xor(y[6], y[7])), Xor(y[0], true))
    && x[2] == Xor(Xor(Xor(y[2], y[6]), Xor(y[7], y[0])), Xor(y[1], false))
    && x[3] == Xor(Xor(Xor(y[3], y[7]), Xor(y[0], y[1])), Xor(y[2], false))
  }

  ghost predicate HighBits(x: seq<bool>, y: seq<bool>)
    requires |x| == |y| == 8
  {
    && x[4] == Xor(Xor(Xor(y[4], y[0]), Xor(y[1], y[2])), Xor(y[3], false))
    && x[5] == Xor(Xor(Xor(y[5], y[1]), Xor(y[2], y[3])), Xor(y[4], true))
    && x[6] == Xor(Xor(Xor(y[6], y[2]), Xor(y[3], y[4])), Xor(y[5], true))
    && x[7] == Xor(Xor(Xor(y[7], y[3]), Xor(y[4], y[5])), Xor(y[6], false))
  }

  lemma {:induction false} EightBits(x: seq<bool>, y: seq<bool>)
    requires |x| == |y| == 8 && LowBits(x, y) && HighBits(x, y)
    ensures IsAffine(x, y)
  {
    forall k: nat | k < 8
      ensures AffineAt(x, y, k)
    {
      if k < 4 { LowBit(x, y, k); } else { HighBit(x, y, k); }
    }
  }

  lemma {:induction false} LowBit(x: seq<bool>, y: seq<bool>, k: nat)
    requires |x| == |y| == 8 && LowBits(x, y) && k < 4
    ensures AffineAt(x, y, k)
  {
  }

  lemma {:induction false} HighBit(x: seq<bool>, y: seq<bool>, k: nat)
    requires |x| == |y| == 8 && HighBits(x, y) && 4 <= k < 8
    ensures AffineAt(x, y, k)
  {
  }

  lemma {:induction false} LowAffineBits(i: byte)
    ensures LowBits(Bits(Affine(i)), Bits(i))
  {
  }

  lemma {:induction false} HighAffineBits(i: byte)
    ensures HighBits(Bits(Affine(i)), Bits(i))
  {
  }

  /** One step of a product, for the coefficient under `mask` */
  function Add(sum: byte, m: byte, mask: byte, t: byte): byte { if m & mask != 0 then sum ^ t else sum }

  /** The product written out */
  function Flat(b: byte, m: byte): byte {
    var t1 := Mul2(b); var t2 := Mul2(t1); var t3 := Mul2(t2); var t4 := Mul2(t3);
    var t5 := Mul2(t4); var t6 := Mul2(t5); var t7 := Mul2(t6);
    var low := Add(Add(Add(Add(0, m, 0x01, b), m, 0x02, t1), m, 0x04, t2), m, 0x08, t3);
    Add(Add(Add(Add(low, m, 0x10, t4), m, 0x20, t5), m, 0x40, t6), m, 0x80, t7)
  }

  lemma {:induction false} ProductIsFlat(b: byte, m: byte)
    ensures Product(b, m) == Flat(b, m)
  {
    var p: nat -> byte := (n: nat) => if n <= 8 then Partial(b, m, n) else 0;
    var t: nat -> byte := (n: nat) => Times(b, n);
    forall n: nat | n < 8
      ensures p(n + 1) == Add(p(n), m, Mask(n), t(n)) && t(n + 1) == Mul2(t(n))
    {
      PartialNext(b, m, n);
    }
    assert p(0) == 0 && t(0) == b;
    Unrolled(Add, Mul2, p, t, m);
  }

  lemma {:induction false} PartialNext(b: byte, m: byte, n: nat)
    requires n < 8
    ensures Partial(b, m, n + 1) == Add(Partial(b, m, n), m, Mask(n), Times(b, n))
    ensures Times(b, n + 1) == Mul2(Times(b, n))
  {
  }

  lemma {:induction false} Unrolled(add: (byte, byte, byte, byte) -> byte, double: byte -> byte, p: nat -> byte,
                                    t: nat -> byte, m: byte)
    requires forall n: nat :: n < 8 ==> p(n + 1) == add(p(n), m, Mask(n), t(n)) && t(n + 1) == double(t(n))
    ensures var t1 := double(t(0)); var t2 := double(t1); var t3 := double(t2); var t4 := double(t3);
      var t5 := double(t4); var t6 := double(t5); var t7 := double(t6);
      var low := add(add(add(add(p(0), m, 0x01, t(0)), m, 0x02, t1), m, 0x04, t2), m, 0x08, t3);
      p(8) == add(add(add(add(low, m, 0x10, t4), m, 0x20, t5), m, 0x40, t6), m, 0x80, t7)
  {
    assert p(1) == add(p(0), m, Mask(0), t(0)) && p(2) == add(p(1), m, Mask(1), t(1));
    assert p(3) == add(p(2), m, Mask(2), t(2)) && p(4) == add(p(3), m, Mask(3), t(3));
    assert p(5) == add(p(4), m, Mask(4), t(4)) && p(6) == add(p(5), m, Mask(5), t(5));
    assert p(7) == add(p(6), m, Mask(6), t(6)) && p(8) == add(p(7), m, Mask(7), t(7));
  }

  lemma {:induction false} Inverse0(b: byte)
    requires 0 < b < 0x40
    ensures Flat(b, Unaffine(Sbox(b))) == 1
  {
  }

  lemma {:induction false} Inverse1(b: byte)
    requires 0x40 <= b < 0x80
    ensures Flat(b, Unaffine(Sbox(b))) == 1
  {
  }

  lemma {:induction false} Inverse2(b: byte)
    requires 0x80 <= b < 0xc0
    ensures Flat(b, Unaffine(Sbox(b))) == 1
  {
  }

  lemma {:induction false} Inverse3(b: byte)
    requires 0xc0 <= b
    ensures Flat(b, Unaffine(Sbox(b))) == 1
  {
  }

  lemma {:induction false} UnaffineInverts(b: byte)
    requires b != 0
    ensures Product(b, Unaffine(Sbox(b))) == 1
  {
    ProductIsFlat(b, Unaffine(Sbox(b)));
    if b < 0x40 {
      Inverse0(b);
    } else if b < 0x80 {
      Inverse1(b);
    } else if b < 0xc0 {
      Inverse2(b);
    } else {
      Inverse3(b);
    }
  }

  /** Every entry of kSbox is the affine transform of the multiplicative inverse, of 0 for 0. */
  lemma {:induction false} SboxIsStandard(b: byte) returns (i: byte)
    ensures if b == 0 then i == 0 else Product(b, i) == 1
    ensures IsAffine(Bits(Sbox(b)), Bits(i))
  {
    i := Unaffine(Sbox(b));
    AffineBits(i);
    AffineUnaffine(Sbox(b));
    if b != 0 {
      UnaffineInverts(b);
    } else {
      assert Sbox(0) == 0x63;
    }
  }

  // ---- section 5.1: the rounds -------------------------------------------------------------

  // A state is sixteen bytes, row r of column c at r + 4 c.

  function EachByte(f: byte -> byte, b: Block): Block { seq(16, (i: nat) requires i < 16 => f(b[i])) }

  function SubBytes(b: Block): Block { EachByte(Sbox, b) }

  function ShiftRows(b: Block): Block {
    seq(16, (i: nat) requires i < 16 => b[i % 4 + 4 * ((i / 4 + i % 4) % 4)])
  }

  /** Row r of the matrix of section 5.1.3, column k */
  function Coefficient(r: nat, k: nat): byte
    requires r < 4 && k < 4
  {
    if k == r then 2 else if k == (r + 1) % 4 then 3 else 1
  }

  /** Row r of the matrix times a column */
  function RowTimes(column: seq<byte>, r: nat): byte
    requires |column| == 4 && r < 4
  {
    Sum(Product(column[0], Coefficient(r, 0)), Product(column[1], Coefficient(r, 1)),
        Product(column[2], Coefficient(r, 2)), Product(column[3], Coefficient(r, 3)))
  }

  function MixColumns(b: Block): Block {
    seq(16, (i: nat) requires i < 16 => RowTimes(b[i / 4 * 4..i / 4 * 4 + 4], i % 4))
  }

  function Pairwise(f: (byte, byte) -> byte, a: seq<byte>, b: seq<byte>): (r: seq<byte>)
    requires |a| == |b|
    ensures |r| == |a|
  {
    seq(|a|, (i: nat) requires i < |a| => f(a[i], b[i]))
  }

  function AddRoundKey(b: Block, k: Block): Block { Pairwise(Plus, b, k) }

  function CipherRound(b: Block, k: Block): Block { AddRoundKey(MixColumns(ShiftRows(SubBytes(b))), k) }

  function CipherLast(b: Block, k: Block): Block { AddRoundKey(ShiftRows(SubBytes(b)), k) }

  /** The loop of figure 5, up to round i */
  function CipherRounds(round: (Block, Block) -> Block, keys: seq<Block>, b: Block, i: nat): Block
    requires i < |keys|
  {
    if i == 0 then b else round(CipherRounds(round, keys, b, i - 1), keys[i])
  }

  /** Figure 5, for round keys as bytes */
  function Cipher(keys: seq<Block>, b: Block): Block
    requires |keys| >= 2
  {
    var n := |keys| - 1;
    CipherLast(CipherRounds(CipherRound, keys, AddRoundKey(b, keys[0]), n - 1), keys[n])
  }

  lemma {:induction false} FourFours(w: seq<seq<byte>>, i: nat)
    requires |w| == 4 && (forall k :: 0 <= k < 4 ==> |w[k]| == 4) && i < 16
    ensures (w[0] + w[1] + w[2] + w[3])[i] == w[i / 4][i % 4]
  {
  }

  /** Byte i of a stored state is in word i / 4. */
  lemma {:induction false} StoreAt(s: State, i: nat)
    requires i < 16
    ensures Store(s)[i] == StoreWord(s[i / 4])[i % 4]
  {
    FourFours([StoreWord(s[0]), StoreWord(s[1]), StoreWord(s[2]), StoreWord(s[3])], i);
  }

  lemma {:induction false} PackStored(a: byte, b: byte, c: byte, d: byte)
    ensures StoreWord(Pack(a, b, c, d)) == [a, b, c, d]
  {
    BytesOfPack(a, b, c, d);
  }

  ghost predicate WorksOnBytes(g: Word -> Word, f: byte -> byte) {
    forall w: Word {:trigger g(w)} :: StoreWord(g(w)) == [f(B0(w)), f(B1(w)), f(B2(w)), f(B3(w))]
  }

  lemma {:induction false} EachStored(g: Word -> Word, f: byte -> byte, s: State)
    requires WorksOnBytes(g, f)
    ensures Store(EachWord(g, s)) == EachByte(f, Store(s))
  {
    forall i: nat | i < 16
      ensures Store(EachWord(g, s))[i] == f(Store(s)[i])
    {
      StoreAt(s, i);
      StoreAt(EachWord(g, s), i);
      assert EachWord(g, s)[i / 4] == g(s[i / 4]);
    }
  }

  lemma {:induction false} SubStored(s: State)
    ensures Store(Subbed(s)) == SubBytes(Store(s))
  {
    SubWorksOnBytes();
    EachStored(SubWord, Sbox, s);
  }

  lemma {:induction false} SubWorksOnBytes()
    ensures WorksOnBytes(SubWord, Sbox)
  {
    forall w: Word
      ensures StoreWord(SubWord(w)) == [Sbox(B0(w)), Sbox(B1(w)), Sbox(B2(w)), Sbox(B3(w))]
    {
      PackStored(Sbox(B0(w)), Sbox(B1(w)), Sbox(B2(w)), Sbox(B3(w)));
    }
  }

  lemma {:induction false} ShiftStored(s: State)
    ensures Store(Shifted(s)) == ShiftRows(Store(s))
  {
    var b := Store(s);
    StoredWords(s);
    ShiftedWordBytes(s, 0); ShiftedWordBytes(s, 1); ShiftedWordBytes(s, 2); ShiftedWordBytes(s, 3);
    ShiftRowsAre(b);
  }

  lemma {:induction false} ShiftRowsAre(b: Block)
    ensures ShiftRows(b) ==
      [b[0], b[5], b[10], b[15]] + [b[4], b[9], b[14], b[3]] + [b[8], b[13], b[2], b[7]] + [b[12], b[1], b[6], b[11]]
  {
  }

  lemma {:induction false} StoredWords(s: State)
    ensures var b := Store(s);
      && StoreWord(s[0]) == [b[0], b[1], b[2], b[3]] == b[0..4]
      && StoreWord(s[1]) == [b[4], b[5], b[6], b[7]] == b[4..8]
      && StoreWord(s[2]) == [b[8], b[9], b[10], b[11]] == b[8..12]
      && StoreWord(s[3]) == [b[12], b[13], b[14], b[15]] == b[12..16]
  {
    Fours(StoreWord(s[0]), StoreWord(s[1]), StoreWord(s[2]), StoreWord(s[3]));
  }

  lemma {:induction false} Fours(x: seq<byte>, y: seq<byte>, z: seq<byte>, w: seq<byte>)
    requires |x| == |y| == |z| == |w| == 4
    ensures var b := x + y + z + w;
      && x == [b[0], b[1], b[2], b[3]] == b[0..4] && y == [b[4], b[5], b[6], b[7]] == b[4..8]
      && z == [b[8], b[9], b[10], b[11]] == b[8..12] && w == [b[12], b[13], b[14], b[15]] == b[12..16]
  {
  }

  lemma {:induction false} ShiftedWordBytes(s: State, c: nat)
    requires c < 4
    ensures StoreWord(ShiftedWord(s, c)) ==
      [StoreWord(s[c])[0], StoreWord(s[(c + 1) % 4])[1], StoreWord(s[(c + 2) % 4])[2], StoreWord(s[(c + 3) % 4])[3]]
  {
    PackStored(B0(s[c % 4]), B1(s[(c + 1) % 4]), B2(s[(c + 2) % 4]), B3(s[(c + 3) % 4]));
  }

  lemma {:induction false} MixStored(s: State)
    ensures Store(Mixed(s)) == MixColumns(Store(s))
  {
    StoredWords(s);
    MixedWordBytes(s[0]); MixedWordBytes(s[1]); MixedWordBytes(s[2]); MixedWordBytes(s[3]);
    ColumnsAre(RowTimes, Store(s));
  }

  /** The columns one after the other */
  lemma {:induction false} ColumnsAre(row: (seq<byte>, nat) --> byte, b: Block)
    requires forall column: seq<byte>, r: nat :: |column| == 4 && r < 4 ==> row.requires(column, r)
    ensures seq(16, (i: nat) requires i < 16 => row(b[i / 4 * 4..i / 4 * 4 + 4], i % 4)) ==
      Rows(row, b[0..4]) + Rows(row, b[4..8]) + Rows(row, b[8..12]) + Rows(row, b[12..16])
  {
  }

  function Rows(row: (seq<byte>, nat) --> byte, column: seq<byte>): (r: seq<byte>)
    requires row.requires(column, 0) && row.requires(column, 1) && row.requires(column, 2) && row.requires(column, 3)
    ensures |r| == 4
  {
    [row(column, 0), row(column, 1), row(column, 2), row(column, 3)]
  }

  lemma {:induction false} MixedWordBytes(w: Word)
    ensures StoreWord(MixWord(w)) == Rows(RowTimes, StoreWord(w))
  {
    var a, b, c, d := B0(w), B1(w), B2(w), B3(w);
    PackStored(MixRow(a, b, c, d), MixRow(b, c, d, a), MixRow(c, d, a, b), MixRow(d, a, b, c));
    SmallProducts(a); SmallProducts(b); SmallProducts(c); SmallProducts(d);
    SumRotates(Mul2(b), Mul3(c), d, a);
    SumRotates(Mul2(c), Mul3(d), a, b);
    SumRotates(b, Mul2(c), Mul3(d), a);
    SumRotates(Mul3(a), b, c, Mul2(d));
  }

  lemma {:induction false} SmallProducts(a: byte)
    ensures Product(a, 1) == a && Product(a, 2) == Mul2(a) && Product(a, 3) == Mul3(a)
  {
    ProductByOne(a);
    ProductByOne(Mul2(a));
    ProductByOne(Mul3(a));
    ProductOfDoubled(a, 1);
  }

  function Both(x: (Word, Word) -> Word, s: State, k: State): State {
    [x(s[0], k[0]), x(s[1], k[1]), x(s[2], k[2]), x(s[3], k[3])]
  }

  lemma {:induction false} AddedKeyIs(s: State, k: State)
    ensures AddedKey(s, k) == Both(XorWord, s, k)
  {
  }

  lemma {:induction false} KeyStored(s: State, k: State)
    ensures Store(AddedKey(s, k)) == AddRoundKey(Store(s), Store(k))
  {
    AddedKeyIs(s, k);
    XorsPaired();
    WordsPaired(XorWord, Plus, s, k);
  }

  ghost predicate PairsBytes(x: (Word, Word) -> Word, f: (byte, byte) -> byte) {
    forall v: Word, w: Word {:trigger x(v, w)} :: StoreWord(x(v, w)) == Pairwise(f, StoreWord(v), StoreWord(w))
  }

  lemma {:induction false} XorsPaired()
    ensures PairsBytes(XorWord, Plus)
  {
    forall v: Word, w: Word
      ensures StoreWord(XorWord(v, w)) == Pairwise(Plus, StoreWord(v), StoreWord(w))
    {
      XorBytes(v, w);
    }
  }

  lemma {:induction false} WordsPaired(x: (Word, Word) -> Word, f: (byte, byte) -> byte, s: State, k: State)
    requires PairsBytes(x, f)
    ensures Store(Both(x, s, k)) == Pairwise(f, Store(s), Store(k))
  {
    PairwiseFours(f, StoreWord(s[0]), StoreWord(s[1]), StoreWord(s[2]), StoreWord(s[3]),
                  StoreWord(k[0]), StoreWord(k[1]), StoreWord(k[2]), StoreWord(k[3]));
  }

  lemma {:induction false} PairwiseFours(f: (byte, byte) -> byte, a: seq<byte>, b: seq<byte>, c: seq<byte>,
                                         d: seq<byte>, x: seq<byte>, y: seq<byte>, z: seq<byte>, w: seq<byte>)
    requires |a| == |b| == |c| == |d| == |x| == |y| == |z| == |w| == 4
    ensures Pairwise(f, a + b + c + d, x + y + z + w) ==
      Pairwise(f, a, x) + Pairwise(f, b, y) + Pairwise(f, c, z) + Pairwise(f, d, w)
  {
  }

  lemma {:induction false} XorBytes(v: Word, w: Word)
    ensures StoreWord(v ^ w) == Pairwise(Plus, StoreWord(v), StoreWord(w))
  {
    XorByte0(v, w); XorByte1(v, w); XorByte2(v, w); XorByte3(v, w);
  }

  lemma {:induction false} XorByte0(v: Word, w: Word)
    ensures B0(v ^ w) == Plus(B0(v), B0(w))
  {
  }

  lemma {:induction false} XorByte1(v: Word, w: Word)
    ensures B1(v ^ w) == Plus(B1(v), B1(w))
  {
  }

  lemma {:induction false} XorByte2(v: Word, w: Word)
    ensures B2(v ^ w) == Plus(B2(v), B2(w))
  {
  }

  lemma {:induction false} XorByte3(v: Word, w: Word)
    ensures B3(v ^ w) == Plus(B3(v), B3(w))
  {
  }

  /** The round keys as bytes */
  function Stored(keys: seq<State>): (r: seq<Block>)
    ensures |r| == |keys|
  {
    seq(|keys|, (i: nat) requires i < |keys| => Store(keys[i]))
  }

  ghost predicate Agree(f: Step, round: (Block, Block) -> Block) {
    forall s: State, k: State {:trigger f(s, k)} :: Store(f(s, k)) == round(Store(s), Store(k))
  }

  lemma {:induction false} RoundsStored(f: Step, round: (Block, Block) -> Block, keys: seq<State>, t: State, i: nat)
    requires Agree(f, round) && i < |keys|
    ensures Store(Rounds(f, t, keys, i)) == CipherRounds(round, Stored(keys), Store(t), i)
  {
    if i > 0 {
      RoundsStored(f, round, keys, t, i - 1);
    }
  }

  lemma {:induction false} EveryRoundStored()
    ensures Agree(AddedKey, AddRoundKey) && Agree(Round, CipherRound) && Agree(LastRound, CipherLast)
  {
    forall s: State, k: State ensures Store(AddedKey(s, k)) == AddRoundKey(Store(s), Store(k)) { KeyStored(s, k); }
    forall s: State, k: State ensures Store(LastRound(s, k)) == CipherLast(Store(s), Store(k)) {
      LastRoundStored(s, k);
    }
    forall s: State, k: State ensures Store(Round(s, k)) == CipherRound(Store(s), Store(k)) { RoundStored(s, k); }
  }

  lemma {:induction false} RoundStored(s: State, k: State)
    ensures Store(Round(s, k)) == CipherRound(Store(s), Store(k))
  {
    SubStored(s);
    ShiftStored(Subbed(s));
    MixStored(Shifted(Subbed(s)));
    KeyStored(Mixed(Shifted(Subbed(s))), k);
  }

  lemma {:induction false} LastRoundStored(s: State, k: State)
    ensures Store(LastRound(s, k)) == CipherLast(Store(s), Store(k))
  {
    SubStored(s);
    ShiftStored(Subbed(s));
    KeyStored(Shifted(Subbed(s)), k);
  }

  lemma {:induction false} EncipheredStored(keys: seq<State>, s: State)
    requires |keys| >= 2
    ensures Store(Enciphered(keys, s)) == Cipher(Stored(keys), Store(s))
  {
    EncipheredIs(keys, s);
    CipherIs(Stored(keys), Store(s));
    EveryRoundStored();
    ComposedStored(AddedKey, Round, LastRound, AddRoundKey, CipherRound, CipherLast, keys, s);
  }

  // First key, rounds and last round, for whatever functions they are

  function Composed(first: Step, round: Step, last: Step, keys: seq<State>, s: State): State
    requires |keys| >= 2
  {
    last(Rounds(round, first(s, keys[0]), keys, |keys| - 2), keys[|keys| - 1])
  }

  function ComposedBytes(first: (Block, Block) -> Block, round: (Block, Block) -> Block,
                         last: (Block, Block) -> Block, keys: seq<Block>, b: Block): Block
    requires |keys| >= 2
  {
    last(CipherRounds(round, keys, first(b, keys[0]), |keys| - 2), keys[|keys| - 1])
  }

  lemma {:induction false} EncipheredIs(keys: seq<State>, s: State)
    requires |keys| >= 2
    ensures Enciphered(keys, s) == Composed(AddedKey, Round, LastRound, keys, s)
  {
  }

  lemma {:induction false} CipherIs(keys: seq<Block>, b: Block)
    requires |keys| >= 2
    ensures Cipher(keys, b) == ComposedBytes(AddRoundKey, CipherRound, CipherLast, keys, b)
  {
  }

  lemma {:induction false} ComposedStored(first: Step, round: Step, last: Step, First: (Block, Block) -> Block,
                                          Middle: (Block, Block) -> Block, Last: (Block, Block) -> Block,
                                          keys: seq<State>, s: State)
    requires Agree(first, First) && Agree(round, Middle) && Agree(last, Last) && |keys| >= 2
    ensures Store(Composed(first, round, last, keys, s)) == ComposedBytes(First, Middle, Last, Stored(keys), Store(s))
  {
    RoundsStored(round, Middle, keys, first(s, keys[0]), |keys| - 2);
  }

  /** The block cipher is that of figure 5, for every list of round keys. */
  lemma {:induction false} EncryptIsCipher(keys: seq<State>, b: Block)
    requires |keys| >= 2
    ensures Encrypt(keys, b) == Cipher(Stored(keys), b)
  {
    StoreLoad(b);
    EncipheredStored(keys, Load(b));
  }

  // ---- section 5.2: the key schedule -------------------------------------------------------

  /** Word i of a list of round keys, as bytes */
  function KeyBytes(keys: seq<State>, i: nat): (r: seq<byte>)
    requires i < 4 * |keys|
    ensures |r| == 4
  {
    StoreWord(keys[i / 4][i % 4])
  }

  /** What word i of the schedule adds to the word nk places before it, byte by byte: t is the word before
      it.  The round constants are the powers of x. */
  function Added(sub: byte -> byte, add: (byte, byte) -> byte, t: seq<byte>, nk: nat, i: nat): (r: seq<byte>)
    requires |t| == 4 && nk > 0 && i / nk >= 1
    ensures |r| == 4
  {
    if i % nk == 0 then [add(sub(t[1]), Times(1, i / nk - 1)), sub(t[2]), sub(t[3]), sub(t[0])]
    else if nk == 8 && i % 8 == 4 then [sub(t[0]), sub(t[1]), sub(t[2]), sub(t[3])]
    else t
  }

  /** The first words are the key; */
  ghost predicate StartsWith(key: seq<byte>, keys: seq<State>) {
    forall i: nat :: 4 * i + 4 <= |key| && i < 4 * |keys| ==> KeyBytes(keys, i) == key[4 * i..4 * i + 4]
  }

  /** each other one is the word nk places before it and what section 5.2 adds. */
  ghost predicate GoesOn(sub: byte -> byte, add: (byte, byte) -> byte, keys: seq<State>, nk: nat) {
    nk > 0 && forall i: nat :: nk <= i < 4 * |keys| && i / nk >= 1 ==>
      Pairwise(add, KeyBytes(keys, i), KeyBytes(keys, i - nk)) == Added(sub, add, KeyBytes(keys, i - 1), nk, i)
  }

  /** The list of round keys that section 5.2 makes of a key */
  ghost predicate IsSchedule(sub: byte -> byte, add: (byte, byte) -> byte, key: seq<byte>, keys: seq<State>)
    requires ValidKeySize(|key|)
  {
    |keys| == |key| / 4 + 7 && StartsWith(key, keys) && GoesOn(sub, add, keys, |key| / 4)
  }

  lemma {:induction false} RotBytes(w: Word)
    ensures StoreWord(RotWord(w)) == [B1(w), B2(w), B3(w), B0(w)]
  {
  }

  lemma {:induction false} RconBytes(k: nat)
    requires 1 <= k <= 10
    ensures StoreWord(Rcon(k)) == [Times(1, k - 1), 0, 0, 0]
  {
    PowersOfX();
  }

  lemma {:induction false} PowersOfX()
    ensures Times(1, 0) == 0x01 && Times(1, 1) == 0x02 && Times(1, 2) == 0x04 && Times(1, 3) == 0x08
    ensures Times(1, 4) == 0x10 && Times(1, 5) == 0x20 && Times(1, 6) == 0x40 && Times(1, 7) == 0x80
    ensures Times(1, 8) == 0x1b && Times(1, 9) == 0x36
  {
  }

  /** Adding twice is adding nothing, and 0 is nothing. */
  ghost predicate Cancels(add: (byte, byte) -> byte) {
    (forall a: byte, b: byte {:trigger add(a, b)} :: add(add(a, b), b) == a) && forall a: byte :: add(a, 0) == a
  }

  lemma {:induction false} PlusCancels()
    ensures Cancels(Plus)
  {
    forall a: byte, b: byte ensures Plus(Plus(a, b), b) == a { Cancel(a, b); }
    forall a: byte ensures Plus(a, 0) == a { Cancel(a, 0); }
  }

  lemma {:induction false} AddedTwice(x: (Word, Word) -> Word, add: (byte, byte) -> byte, v: Word, u: Word)
    requires PairsBytes(x, add) && Cancels(add)
    ensures Pairwise(add, StoreWord(x(v, u)), StoreWord(u)) == StoreWord(v)
  {
    var a, b := StoreWord(v), StoreWord(u);
    assert forall j :: 0 <= j < 4 ==> add(add(a[j], b[j]), b[j]) == a[j];
  }

  /** NextWord, for whatever exclusive or */
  function Next(x: (Word, Word) -> Word, g: Word -> Word, t: Word, u: Word, nk: nat, i: nat): Word
    requires nk > 0
  {
    if i % nk == 0 then x(x(g(RotWord(t)), Rcon(i / nk)), u)
    else if nk > 6 && i % nk == 4 then x(g(t), u)
    else x(t, u)
  }

  lemma {:induction false} NextWordIs(g: Word -> Word, t: Word, u: Word, nk: nat, i: nat)
    requires nk > 0
    ensures NextWord(g, t, u, nk, i) == Next(XorWord, g, t, u, nk, i)
  {
  }

  /** One word of the schedule */
  lemma {:induction false} NextBytes(x: (Word, Word) -> Word, add: (byte, byte) -> byte, g: Word -> Word,
                                     f: byte -> byte, t: Word, u: Word, nk: nat, i: nat)
    requires PairsBytes(x, add) && Cancels(add) && WorksOnBytes(g, f)
    requires nk == 4 || nk == 6 || nk == 8
    requires nk <= i < 4 * (nk + 7)
    ensures i / nk >= 1
    ensures Pairwise(add, StoreWord(Next(x, g, t, u, nk, i)), StoreWord(u)) == Added(f, add, StoreWord(t), nk, i)
  {
    if i % nk == 0 {
      AddedTwice(x, add, x(g(RotWord(t)), Rcon(i / nk)), u);
      FirstBytes(x, add, g, f, t, i / nk);
    } else if nk > 6 && i % nk == 4 {
      AddedTwice(x, add, g(t), u);
    } else {
      AddedTwice(x, add, t, u);
    }
  }

  lemma {:induction false} FirstBytes(x: (Word, Word) -> Word, add: (byte, byte) -> byte, g: Word -> Word,
                                      f: byte -> byte, t: Word, k: nat)
    requires PairsBytes(x, add) && Cancels(add) && WorksOnBytes(g, f) && 1 <= k <= 10
    ensures StoreWord(x(g(RotWord(t)), Rcon(k))) ==
      [add(f(B1(t)), Times(1, k - 1)), f(B2(t)), f(B3(t)), f(B0(t))]
  {
    RotBytes(t);
    RconBytes(k);
    var a, b := StoreWord(g(RotWord(t))), StoreWord(Rcon(k));
    assert a == [f(B1(t)), f(B2(t)), f(B3(t)), f(B0(t))];
    assert add(a[1], b[1]) == a[1] && add(a[2], b[2]) == a[2] && add(a[3], b[3]) == a[3];
  }

  lemma {:induction false} RoundKeysAt(w: seq<Word>, i: nat)
    requires |w| % 4 == 0 && i < |w|
    ensures RoundKeys(w)[i / 4][i % 4] == w[i]
  {
    if i >= 4 {
      RoundKeysAt(w[4..], i - 4);
    }
  }

  /** Each word follows from those before it. */
  ghost predicate Follows(x: (Word, Word) -> Word, g: Word -> Word, w: nat -> Word, nk: nat) {
    nk > 0 && forall i: nat :: nk <= i ==> w(i) == Next(x, g, w(i - 1), w(i - nk), nk, i)
  }

  lemma {:induction false} WordsNext(x: (Word, Word) -> Word, add: (byte, byte) -> byte, g: Word -> Word,
                                     f: byte -> byte, w: nat -> Word, nk: nat, i: nat)
    requires nk == 4 || nk == 6 || nk == 8
    requires nk <= i < 4 * (nk + 7)
    requires PairsBytes(x, add) && Cancels(add) && WorksOnBytes(g, f) && Follows(x, g, w, nk)
    ensures i / nk >= 1
    ensures Pairwise(add, StoreWord(w(i)), StoreWord(w(i - nk))) == Added(f, add, StoreWord(w(i - 1)), nk, i)
  {
    NextBytes(x, add, g, f, w(i - 1), w(i - nk), nk, i);
  }

  /** The round keys are made of these words. */
  ghost predicate Spells(keys: seq<State>, w: nat -> Word) {
    forall i: nat :: i < 4 * |keys| ==> keys[i / 4][i % 4] == w(i)
  }

  lemma {:induction false} KeyBytesNext(x: (Word, Word) -> Word, add: (byte, byte) -> byte, g: Word -> Word,
                                        f: byte -> byte, keys: seq<State>, w: nat -> Word, nk: nat, i: nat)
    requires nk == 4 || nk == 6 || nk == 8
    requires nk <= i < 4 * |keys| && |keys| == nk + 7 && Spells(keys, w)
    requires PairsBytes(x, add) && Cancels(add) && WorksOnBytes(g, f) && Follows(x, g, w, nk)
    ensures i / nk >= 1
    ensures Pairwise(add, KeyBytes(keys, i), KeyBytes(keys, i - nk)) == Added(f, add, KeyBytes(keys, i - 1), nk, i)
  {
    WordsNext(x, add, g, f, w, nk, i);
    KeyBytesAre(keys, w, i);
    KeyBytesAre(keys, w, i - 1);
    KeyBytesAre(keys, w, i - nk);
  }

  lemma {:induction false} KeyBytesAre(keys: seq<State>, w: nat -> Word, i: nat)
    requires i < 4 * |keys| && Spells(keys, w)
    ensures KeyBytes(keys, i) == StoreWord(w(i))
  {
  }

  lemma {:induction false} WordsStart(key: seq<byte>, keys: seq<State>, w: nat -> Word)
    requires |key| % 4 == 0 && Spells(keys, w)
    requires forall i: nat :: i < |key| / 4 ==> StoreWord(w(i)) == key[4 * i..4 * i + 4]
    ensures StartsWith(key, keys)
  {
    forall i: nat | 4 * i + 4 <= |key| && i < 4 * |keys|
      ensures KeyBytes(keys, i) == key[4 * i..4 * i + 4]
    {
      KeyBytesAre(keys, w, i);
    }
  }

  lemma {:induction false} WordsGoOn(x: (Word, Word) -> Word, add: (byte, byte) -> byte, g: Word -> Word,
                                     f: byte -> byte, keys: seq<State>, w: nat -> Word, nk: nat)
    requires (nk == 4 || nk == 6 || nk == 8) && |keys| == nk + 7 && Spells(keys, w)
    requires PairsBytes(x, add) && Cancels(add) && WorksOnBytes(g, f) && Follows(x, g, w, nk)
    ensures GoesOn(f, add, keys, nk)
  {
    forall i: nat | nk <= i < 4 * |keys| && i / nk >= 1
      ensures Pairwise(add, KeyBytes(keys, i), KeyBytes(keys, i - nk)) == Added(f, add, KeyBytes(keys, i - 1), nk, i)
    {
      KeyBytesNext(x, add, g, f, keys, w, nk, i);
    }
  }

  // The words of the expanded key

  function WordOf(g: Word -> Word, key: seq<byte>): nat -> Word
    requires ValidKeySize(|key|)
  {
    (i: nat) => KeyWord(g, key, i)
  }

  lemma {:induction false} KeyWordsFollow(g: Word -> Word, key: seq<byte>)
    requires ValidKeySize(|key|)
    ensures Follows(XorWord, g, WordOf(g, key), |key| / 4)
  {
    var nk := |key| / 4;
    forall i: nat | nk <= i
      ensures KeyWord(g, key, i) == Next(XorWord, g, KeyWord(g, key, i - 1), KeyWord(g, key, i - nk), nk, i)
    {
      NextWordIs(g, KeyWord(g, key, i - 1), KeyWord(g, key, i - nk), nk, i);
    }
  }

  lemma {:induction false} RoundKeysSpell(g: Word -> Word, key: seq<byte>)
    requires ValidKeySize(|key|)
    ensures Spells(RoundKeys(KeyWords(g, key)), WordOf(g, key))
  {
    var keys := RoundKeys(KeyWords(g, key));
    forall i: nat | i < 4 * |keys|
      ensures keys[i / 4][i % 4] == WordOf(g, key)(i)
    {
      RoundKeysAt(KeyWords(g, key), i);
    }
  }

  lemma {:induction false} FirstWords(g: Word -> Word, key: seq<byte>, i: nat)
    requires ValidKeySize(|key|) && i < |key| / 4
    ensures StoreWord(WordOf(g, key)(i)) == key[4 * i..4 * i + 4]
  {
    StoreLoadWord(key[4 * i..4 * i + 4]);
  }

  lemma {:induction false} ExpandedFor(g: Word -> Word, f: byte -> byte, key: seq<byte>)
    requires ValidKeySize(|key|) && WorksOnBytes(g, f)
    ensures IsSchedule(f, Plus, key, RoundKeys(KeyWords(g, key)))
  {
    XorsPaired();
    PlusCancels();
    KeyWordsFollow(g, key);
    RoundKeysSpell(g, key);
    forall i: nat | i < |key| / 4 ensures StoreWord(WordOf(g, key)(i)) == key[4 * i..4 * i + 4] {
      FirstWords(g, key, i);
    }
    var keys, w := RoundKeys(KeyWords(g, key)), WordOf(g, key);
    WordsStart(key, keys, w);
    WordsGoOn(XorWord, Plus, g, f, keys, w, |key| / 4);
  }

  /** The expanded key is the schedule of section 5.2. */
  lemma {:induction false} ExpandedIsSchedule(key: seq<byte>)
    requires ValidKeySize(|key|)
    ensures IsSchedule(Sbox, Plus, key, Expanded(key))
  {
    SubWorksOnBytes();
    ExpandedFor(SubWord, Sbox, key);
  }
}
