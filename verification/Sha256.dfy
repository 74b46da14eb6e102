/** The streaming hash of src/lib/picosha2.h: hash256_one_by_one and hash256_impl.  Its methods are
    proved for any function `f` that agrees with the compression function. */
module Sha256 {
  import opened Buffers
  import opened Numbers
  import opened Sha256Block

  const INITIAL_DIGEST: Vars := Vars(0x6a09e667, 0xbb67ae85, 0x3c6ef372, 0xa54ff53a, 0x510e527f, 0x9b05688c,
                                     0x1f83d9ab, 0x5be0cd19)

  type Step = (Vars, Block) -> Vars

  // ---- sections 5.1.1 and 6.2.2 of FIPS 180-4 ----------------------------------------------

  /** The digest after the blocks of x */
  function Blocks(f: Step, v: Vars, x: seq<byte>): Vars
    requires |x| % 64 == 0
  {
    if x == [] then v else f(Blocks(f, v, x[..|x| - 64]), x[|x| - 64..])
  }

  lemma {:induction false} BlocksStep(f: Step, v: Vars, x: seq<byte>, b: Block)
    requires |x| % 64 == 0
    ensures Blocks(f, v, x + b) == f(Blocks(f, v, x), b)
  {
    assert (x + b)[..|x|] == x && (x + b)[|x|..] == b;
  }

  const LENGTH_MODULUS: nat := 0x1_0000_0000_0000_0000

  /** A 1 bit, zeros up to the last eight bytes of a block, and the length in bits there. */
  function Padded(m: seq<byte>): seq<byte> { PaddedAs(m, |m|) }

  /** The same when the length has been counted as n */
  function PaddedAs(m: seq<byte>, n: nat): (r: seq<byte>)
    ensures |r| % 64 == 0
  {
    m + [0x80] + Repeated(0, ZeroCount(|m|)) + LengthBytes(n)
  }

  function ZeroCount(size: nat): (k: nat)
    ensures k < 64 && (size + 9 + k) % 64 == 0
  {
    (55 - size) % 64
  }

  /** The length of a message in bits, which the standard limits to 64 bits */
  function LengthBytes(size: nat): (r: seq<byte>)
    ensures |r| == 8
  {
    Bytes(BigEndian(8 * size % LENGTH_MODULUS, 8))
  }

  /** Section 5.1.1 for a message whose length in bits fits: the message, a 1 bit, the fewest zeros
      that fill a block, and the length at the end. */
  lemma {:induction false} PaddedAsRequired(m: seq<byte>)
    requires 8 * |m| < LENGTH_MODULUS
    ensures var r := Padded(m);
      && r[..|m|] == m && r[|m|] == 0x80 && (forall i :: |m| < i < |r| - 8 ==> r[i] == 0)
      && Value(Digits(r[|r| - 8..])) == 8 * |m|
      && |m| + 9 <= |r| < |m| + 9 + 64 && |r| % 64 == 0
  {
    ModuloIs(8 * |m|, LENGTH_MODULUS, 0, 8 * |m|);
    var c := BigEndian(8 * |m|, 8);
    assert Padded(m)[|Padded(m)| - 8..] == LengthBytes(|m|);
    DigitsOfBytes(c);
    assert Pow256(8) == LENGTH_MODULUS;
    ValueOfBigEndian(8 * |m|, 8);
  }

  function DigestBytes(h: seq<Word>): (r: seq<byte>)
    ensures |r| == 4 * |h|
  {
    if h == [] then [] else DigestBytes(h[..|h| - 1]) + WordBytes(h[|h| - 1])
  }

  // ---- the length counter ------------------------------------------------------------------

  /** Digits in base 65536, the lowest first */
  function Counted(d: seq<nat>): nat { if d == [] then 0 else d[0] + 65536 * Counted(d[1..]) }

  predicate AreDigits16(d: seq<nat>) { forall i :: 0 <= i < |d| ==> d[i] < 65536 }

  function Pow65536(n: nat): (p: nat)
    ensures p >= 1
  {
    if n == 0 then 1 else 65536 * Pow65536(n - 1)
  }

  lemma {:induction false} CountedBound(d: seq<nat>)
    requires AreDigits16(d)
    ensures Counted(d) < Pow65536(|d|)
  {
    if d != [] {
      CountedBound(d[1..]);
    }
  }

  lemma {:induction false} Regroup(a: nat, b: nat, c: nat)
    ensures a * (b * c) == (a * b) * c && a * (c * b) == c * (a * b)
  {
  }

  lemma {:induction false} CountedConcat(d: seq<nat>, e: seq<nat>)
    ensures Counted(d + e) == Counted(d) + Pow65536(|d|) * Counted(e)
  {
    if d == [] {
      assert d + e == e;
    } else {
      CountedConcat(d[1..], e);
      assert (d + e)[1..] == d[1..] + e;
      Regroup(65536, Pow65536(|d| - 1), Counted(e));
    }
  }

  /** What remains to be added above the first n digits when the digits are d */
  ghost predicate Carries(d: seq<nat>, n: nat, carry: nat, total: nat)
    requires n <= |d|
  {
    && (forall i :: 0 <= i < n ==> d[i] < 65536)
    && Counted(d) + carry * Pow65536(n) == total
  }

  lemma {:induction false} CountedUpdate(d: seq<nat>, i: nat, x: nat)
    requires i < |d|
    ensures Counted(d[i := x]) + d[i] * Pow65536(i) == Counted(d) + x * Pow65536(i)
  {
    if i > 0 {
      CountedUpdate(d[1..], i - 1, x);
      assert d[i := x][1..] == d[1..][i - 1 := x];
      var p := Pow65536(i - 1);
      Regroup(65536, p, d[i]);
      Regroup(65536, p, x);
    } else {
      assert d[i := x][1..] == d[1..];
    }
  }

  /** Digit n takes the carry and passes its own on. */
  lemma {:induction false} CarryOn(d: seq<nat>, n: nat, carry: nat, total: nat)
    requires n < |d| && Carries(d, n, carry, total)
    ensures var x := d[n] + carry; Carries(d[n := x % 65536], n + 1, x / 65536, total)
  {
    var x := d[n] + carry;
    CountedUpdate(d, n, x % 65536);
    Distribute(d[n], carry, x / 65536, x % 65536, Pow65536(n));
  }

  lemma {:induction false} Distribute(a: nat, b: nat, q: nat, r: nat, p: nat)
    requires q * 65536 + r == a + b
    ensures q * (65536 * p) + r * p == a * p + b * p
  {
    assert (q * 65536 + r) * p == (a + b) * p;
  }

  /** One turn of the loop of add_to_data_length: false if it stops here */
  method CarryDigit(d: array<nat>, i: nat, carry: nat, ghost total: nat) returns (on: bool, next: nat)
    requires i < d.Length && Carries(d[..], i, carry, total)
    modifies d
    ensures Carries(d[..], i + 1, next, total) && (!on ==> next == 0)
    ensures forall j :: i < j < d.Length ==> d[j] == old(d[j])
  {
    ghost var before := d[..];
    CarryOn(before, i, carry, total);
    on, next := true, 0;
    d[i] := d[i] + carry;
    if d[i] >= 65536 {
      next := d[i] / 65536;
      d[i] := d[i] % 65536;
    } else {
      on := false;
    }
    assert d[..] == before[i := (before[i] + carry) % 65536];
  }

  method CarryDigits(d: array<nat>, ghost total: nat) returns (ghost rest: nat)
    requires Carries(d[..], 0, 0, total) && forall j :: 1 <= j < d.Length ==> d[j] < 65536
    modifies d
    ensures AreDigits16(d[..]) && Counted(d[..]) + rest * Pow65536(d.Length) == total
  {
    var carry := 0;
    for i := 0 to d.Length
      invariant Carries(d[..], i, carry, total) && forall j :: i < j < d.Length ==> d[j] < 65536
    {
      var on;
      on, carry := CarryDigit(d, i, carry, total);
      if !on {
        return 0;
      }
    }
    rest := carry;
  }

  /** One more than the largest word */
  function Size(width: Width): nat { if width.W32? then 0x1_0000_0000 else 0x1_0000_0000_0000_0000 }

  /** What has been counted after n more bytes when it was c before: the lowest digit and n are added
      in one word, which may wrap around. */
  function Counts(width: Width, c: nat, n: nat): nat { c - c % 65536 + (c % 65536 + n) % Size(width) }

  /** The count is right modulo 2^64 exactly if the word is 64 bits wide or what is lost, a multiple of
      2^32, is one of 2^64: for one piece of data of less than 2^64 bytes, if nothing is lost. */
  lemma {:induction false} CountsRight(width: Width, c: nat, n: nat)
    ensures Counts(width, c, n) % LENGTH_MODULUS == (c + n) % LENGTH_MODULUS <==>
            width.W64? || (c % 65536 + n) / 0x1_0000_0000 % 0x1_0000_0000 == 0
  {
    var x, m := c % 65536 + n, Size(width);
    var kept, lost := Counts(width, c, n), x / m * m;
    assert c + n == kept + lost;
    SameModulo(kept, lost, LENGTH_MODULUS);
    Lost(width, x / m);
  }

  lemma {:induction false} Lost(width: Width, q: nat)
    ensures q * Size(width) % LENGTH_MODULUS == 0 <==> width.W64? || q % 0x1_0000_0000 == 0
  {
    if width.W32? {
      MultipleOf(q, 0x1_0000_0000, 0x1_0000_0000);
    } else {
      ModuloIs(q * LENGTH_MODULUS, LENGTH_MODULUS, q, 0);
    }
  }

  lemma {:induction false} CountsAll(width: Width, c: nat, n: nat)
    requires n < 0x8000_0000
    ensures Counts(width, c, n) == c + n
  {
  }

  lemma {:induction false} SameModulo(a: nat, b: nat, m: nat)
    requires m > 0
    ensures (a + b) % m == a % m <==> b % m == 0
  {
    var q, r := a / m + b / m, a % m + b % m;
    SumOf(a / m, a % m, b / m, b % m, m);
    if r < m {
      ModuloIs(a + b, m, q, r);
    } else {
      SumOf(q, r - m, 1, 0, m);
      ModuloIs(a + b, m, q + 1, r - m);
    }
  }

  lemma {:induction false} SumOf(q: nat, r: nat, p: nat, t: nat, m: nat)
    ensures (q * m + r) + (p * m + t) == (q + p) * m + (r + t)
  {
  }

  /** A multiple of k is one of m * k if the other factor is one of m. */
  lemma {:induction false} MultipleOf(q: nat, m: nat, k: nat)
    requires m > 0 && k > 0
    ensures m * k > 0
    ensures (q * k) % (m * k) == 0 <==> q % m == 0
  {
    var a, b := q / m, q % m;
    ScaledModulo(a, b, m, k);
    ModuloIs(q * k, m * k, a, b * k);
  }

  lemma {:induction false} ScaledModulo(a: nat, b: nat, m: nat, k: nat)
    requires b < m && k > 0
    ensures (a * m + b) * k == a * (m * k) + b * k && b * k < m * k
    ensures b * k == 0 <==> b == 0
  {
    Regroup(a, m, k);
    Below(b, m, k);
  }

  lemma {:induction false} Below(b: nat, m: nat, k: nat)
    requires b < m && k > 0
    ensures b * k < m * k
  {
    assert (m - b) * k > 0;
  }

  /** add_to_data_length, when c bytes have been counted */
  method AddToLength(width: Width, d: array<nat>, n: nat, ghost c: nat)
    requires d.Length == 4 && AreDigits16(d[..]) && Counted(d[..]) == c % LENGTH_MODULUS
    modifies d
    ensures AreDigits16(d[..]) && Counted(d[..]) == Counts(width, c, n) % LENGTH_MODULUS
  {
    ghost var before := d[..];
    ghost var x := (d[0] + n) % Size(width);
    CountedUpdate(before, 0, x);
    LowestDigit(before, c);
    d[0] := (d[0] + n) % Size(width);
    assert d[..] == before[0 := x];
    ghost var total := Counted(before) - before[0] + x;
    ghost var rest := CarryDigits(d, total);
    CountedBound(d[..]);
    ModuloIs(total, LENGTH_MODULUS, rest, Counted(d[..]));
    CountsModulo(width, c, n);
  }

  lemma {:induction false} CountsModulo(width: Width, c: nat, n: nat)
    ensures c % LENGTH_MODULUS >= c % 65536
    ensures Counts(width, c, n) % LENGTH_MODULUS ==
            (c % LENGTH_MODULUS - c % 65536 + (c % 65536 + n) % Size(width)) % LENGTH_MODULUS
  {
    var q, r, x := c / LENGTH_MODULUS, c % LENGTH_MODULUS, (c % 65536 + n) % Size(width);
    ModuloIs(c, 65536, q * 0x1_0000_0000_0000 + r / 65536, r % 65536);
    ModuloIs(q * LENGTH_MODULUS, LENGTH_MODULUS, q, 0);
    SameModulo(r - c % 65536 + x, q * LENGTH_MODULUS, LENGTH_MODULUS);
  }

  lemma {:induction false} LowestDigit(d: seq<nat>, c: nat)
    requires d != [] && d[0] < 65536 && Counted(d) == c % LENGTH_MODULUS
    ensures c % 65536 == d[0] && Counted(d) >= d[0]
  {
    ModuloIs(c, 65536, c / LENGTH_MODULUS * 0x1_0000_0000_0000 + Counted(d[1..]), d[0]);
  }

  // ---- the length in bits ------------------------------------------------------------------

  /** The digits in pairs of bytes, the highest first */
  function DigitBytes(d: seq<nat>): (r: seq<nat>)
    requires AreDigits16(d)
    ensures |r| == 2 * |d| && AreDigits(r)
  {
    if d == [] then [] else DigitBytes(d[1..]) + [d[0] / 256, d[0] % 256]
  }

  lemma {:induction false} ValueOfDigitBytes(d: seq<nat>)
    requires AreDigits16(d)
    ensures Value(DigitBytes(d)) == Counted(d)
  {
    if d != [] {
      var s, x, y := DigitBytes(d[1..]), d[0] / 256, d[0] % 256;
      ValueOfDigitBytes(d[1..]);
      assert (s + [x, y])[..|s| + 1] == s + [x];
      assert (s + [x])[..|s|] == s;
    }
  }

  /** The first loop of write_data_bit_length: three places to the left.  The carry is below 8, so
      putting it into the places that have become free is adding it. */
  method TimesEight(d: array<nat>) returns (bits: array<nat>)
    requires d.Length == 4 && AreDigits16(d[..])
    ensures fresh(bits) && bits.Length == 4 && AreDigits16(bits[..])
    ensures Counted(bits[..]) == 8 * Counted(d[..]) % LENGTH_MODULUS
  {
    bits := new nat[4];
    var carry: nat := 0;
    for i := 0 to 4
      invariant carry < 8 && AreDigits16(bits[..i])
      invariant Counted(bits[..i]) + carry * Pow65536(i) == 8 * Counted(d[..i])
    {
      ShiftDigit(bits[..i], d[..i], d[i], carry);
      assert d[..i + 1] == d[..i] + [d[i]];
      ghost var done := bits[..i];
      bits[i] := (d[i] * 8 + carry) % 65536;
      assert bits[..i + 1] == done + [bits[i]];
      carry := d[i] / 8192;
    }
    assert bits[..4] == bits[..] && d[..4] == d[..];
    CountedBound(bits[..]);
    ModuloIs(8 * Counted(d[..]), LENGTH_MODULUS, carry, Counted(bits[..]));
  }

  lemma {:induction false} ShiftDigit(b: seq<nat>, d: seq<nat>, x: nat, carry: nat)
    requires |b| == |d| && x < 65536 && carry < 8 && Counted(b) + carry * Pow65536(|b|) == 8 * Counted(d)
    ensures x / 8192 < 8
    ensures Counted(b + [(x * 8 + carry) % 65536]) + x / 8192 * Pow65536(|b| + 1) == 8 * Counted(d + [x])
  {
    var y := (x * 8 + carry) % 65536;
    CountedConcat(b, [y]);
    CountedConcat(d, [x]);
    CountedOne(x);
    CountedOne(y);
    ShiftSum(x, y, carry, Pow65536(|b|), Counted(b), Counted(d));
  }

  lemma {:induction false} CountedOne(x: nat)
    ensures Counted([x]) == x
  {
    assert [x][1..] == [];
  }

  lemma {:induction false} ShiftSum(x: nat, y: nat, carry: nat, p: nat, b: nat, d: nat)
    requires x < 65536 && carry < 8 && y == (x * 8 + carry) % 65536 && b + carry * p == 8 * d
    ensures b + p * y + x / 8192 * (65536 * p) == 8 * (d + p * x)
  {
    var q := x / 8192;
    assert q * 65536 + y == x * 8 + carry;
    assert (q * 65536 + y) * p == (x * 8 + carry) * p;
  }

  /** write_data_bit_length */
  method WriteBitLength(d: array<nat>, out: array<byte>, at: nat)
    requires d.Length == 4 && AreDigits16(d[..]) && at + 8 <= out.Length
    modifies out
    ensures out[..] == Overwritten(old(out[..]), at, LengthBytes(Counted(d[..])))
  {
    var bits := TimesEight(d);
    BitLengthBytes(bits[..], Counted(d[..]));
    WritePairs(bits, out, at);
  }

  /** The second loop, from the highest digit to the lowest */
  method WritePairs(bits: array<nat>, out: array<byte>, at: nat)
    requires bits.Length == 4 && AreDigits16(bits[..]) && at + 8 <= out.Length
    modifies out
    ensures out[..] == Overwritten(old(out[..]), at, Bytes(DigitBytes(bits[..])))
  {
    ghost var before, b := out[..], bits[..];
    for i := 4 downto 0
      invariant bits[..] == b && out[..] == Overwritten(before, at, Bytes(DigitBytes(b[i..])))
    {
      WritePair(bits[i], out, at + 6 - 2 * i);
      NextPair(before, at, b, i);
    }
    assert b[0..] == b;
  }

  lemma {:induction false} BitLengthBytes(b: seq<nat>, n: nat)
    requires |b| == 4 && AreDigits16(b) && Counted(b) == 8 * n % LENGTH_MODULUS
    ensures Bytes(DigitBytes(b)) == LengthBytes(n)
  {
    ValueOfDigitBytes(b);
    BigEndianOfValue(DigitBytes(b));
  }

  lemma {:induction false} NextPair(before: seq<byte>, at: nat, b: seq<nat>, i: nat)
    requires AreDigits16(b) && i < |b| && at + 2 * |b| <= |before|
    ensures Overwritten(Overwritten(before, at, Bytes(DigitBytes(b[i + 1..]))), at + 2 * (|b| - i - 1),
                        Bytes([b[i] / 256, b[i] % 256]))
         == Overwritten(before, at, Bytes(DigitBytes(b[i..])))
  {
    var s, p := DigitBytes(b[i + 1..]), [b[i] / 256, b[i] % 256];
    assert b[i..][0] == b[i] && b[i..][1..] == b[i + 1..];
    assert DigitBytes(b[i..]) == s + p;
    BytesConcat(s, p);
    OverwriteNext(before, at, Bytes(s), Bytes(p));
  }

  lemma {:induction false} BytesConcat(s: seq<nat>, p: seq<nat>)
    requires AreDigits(s) && AreDigits(p)
    ensures AreDigits(s + p) && Bytes(s + p) == Bytes(s) + Bytes(p)
  {
  }

  /** Two bytes of it */
  method WritePair(x: nat, out: array<byte>, at: nat)
    requires x < 65536 && at + 2 <= out.Length
    modifies out
    ensures out[..] == Overwritten(old(out[..]), at, Bytes([x / 256, x % 256]))
  {
    out[at] := (x / 256) as byte;
    out[at + 1] := (x % 256) as byte;
  }

  // ---- hash256_one_by_one ------------------------------------------------------------------

  ghost predicate IsCompress(f: Step) {
    forall v: Vars, b: Block {:trigger Compress(v, b)} :: f(v, b) == Compress(v, b)
  }

  method HashWith(width: Width, ghost f: Step, digest: array<Word>, block: Block)
    requires digest.Length == 8 && IsCompress(f)
    modifies digest
    ensures Digest(digest[..]) == f(old(Digest(digest[..])), block)
  {
    HashBlock(width, digest, block);
    assert Digest(digest[..]) == Compress(old(Digest(digest[..])), block);
  }

  /** The blocks of `front` are in the digest. */
  ghost predicate Hashed(f: Step, front: seq<byte>, digest: seq<Word>) {
    |digest| == 8 && |front| % 64 == 0 && Digest(digest) == Blocks(f, INITIAL_DIGEST, front)
  }

  /** One more block is in the digest. */
  lemma {:induction false} HashesOn(f: Step, front: seq<byte>, digest: seq<Word>, b: Block, after: seq<Word>)
    requires Hashed(f, front, digest) && |after| == 8 && Digest(after) == f(Digest(digest), b)
    ensures Hashed(f, front + b, after)
  {
    BlocksStep(f, INITIAL_DIGEST, front, b);
  }

  lemma {:induction false} PieceOn(message: seq<byte>, first: nat, size: nat)
    requires first + size <= |message|
    ensures message[..first] + message[first..first + size] == message[..first + size]
  {
  }

  lemma {:induction false} ZeroCounted(d: seq<nat>)
    requires forall i :: 0 <= i < |d| ==> d[i] == 0
    ensures Counted(d) == 0 && AreDigits16(d)
  {
    if d != [] {
      ZeroCounted(d[1..]);
    }
  }

  /** The loop of process: hashes what is there in whole blocks, and says how much it was. */
  method HashWhole(width: Width, ghost f: Step, h: array<Word>, buffer: seq<byte>, ghost front: seq<byte>)
    returns (i: nat)
    requires IsCompress(f) && Hashed(f, front, h[..])
    modifies h
    ensures |buffer| - 64 < i <= |buffer| && Hashed(f, front + buffer[..i], h[..])
  {
    i := 0;
    assert front + buffer[..0] == front;
    while i + 64 <= |buffer|
      invariant 0 <= i <= |buffer| && Hashed(f, front + buffer[..i], h[..])
    {
      ghost var done, digest, b: Block := front + buffer[..i], h[..], buffer[i..i + 64];
      HashWith(width, f, h, buffer[i..i + 64]);
      HashesOn(f, done, digest, b, h[..]);
      BufferOn(front, buffer, i);
      i := i + 64;
    }
  }

  lemma {:induction false} BufferOn(front: seq<byte>, buffer: seq<byte>, i: nat)
    requires i + 64 <= |buffer|
    ensures front + buffer[..i] + buffer[i..i + 64] == front + buffer[..i + 64]
  {
  }

  lemma {:induction false} MessageOn(front: seq<byte>, rest: seq<byte>, data: seq<byte>, i: nat)
    requires i <= |rest + data|
    ensures front + rest + data == front + (rest + data)[..i] + (rest + data)[i..]
  {
  }

  class Hasher {
    const width: Width
    var buffer: seq<byte>
    const digits: array<nat>
    const h: array<Word>
    ghost const f: Step
    ghost var message: seq<byte>
    ghost var hashed: seq<byte>
    ghost var counted: nat

    ghost predicate Valid()
      reads this, digits, h
    {
      && digits.Length == 4 && h.Length == 8 && (digits as object) != (h as object) && IsCompress(f)
      && |buffer| < 64 && message == hashed + buffer && Hashed(f, hashed, h[..])
      && AreDigits16(digits[..]) && Counted(digits[..]) == counted % LENGTH_MODULUS
    }

    constructor (width: Width, ghost f: Step)
      requires IsCompress(f)
      ensures Valid() && message == [] && counted == 0 && this.width == width && this.f == f
      ensures fresh(digits) && fresh(h)
    {
      this.width, this.f, buffer, message, hashed, counted := width, f, [], [], [], 0;
      digits := new nat[4](i => 0);
      var v := INITIAL_DIGEST;
      var start := [v.a, v.b, v.c, v.d, v.e, v.f, v.g, v.h];
      h := new Word[8](i requires 0 <= i < 8 => start[i]);
      new;
      ZeroCounted(digits[..]);
      assert Digest(h[..]) == INITIAL_DIGEST;
    }

    /** process: the digest depends on what has come so far only, not on how it was split. */
    method Process(data: seq<byte>)
      requires Valid()
      modifies this, digits, h
      ensures Valid() && message == old(message) + data && counted == Counts(width, old(counted), |data|)
    {
      AddToLength(width, digits, |data|, counted);
      counted := Counts(width, counted, |data|);
      message := message + data;
      buffer := buffer + data;
      var i := HashWhole(width, f, h, buffer, hashed);
      MessageOn(hashed, old(buffer), data, i);
      hashed := hashed + buffer[..i];
      buffer := buffer[i..];
    }

    /** finish: hashes the last bytes with the padding, in one block or two. */
    method Finish()
      requires Valid()
      modifies h
      ensures h.Length == 8 && Digest(h[..]) == Blocks(f, INITIAL_DIGEST, PaddedAs(message, counted))
    {
      ghost var front := hashed;
      var temp := LastBytes(buffer);
      if |buffer| > 55 {
        HashFull(width, f, h, temp, front);
      }
      PutLength(digits, temp, LastStart(buffer), counted);
      HashWith(width, f, h, temp[..]);
      PaddedInTwo(front, buffer, counted);
      BlocksStep(f, INITIAL_DIGEST, LastFront(front, buffer), temp[..]);
    }
  }

  /** What is hashed before the last block, and what is in that block before the length */
  function LastFront(front: seq<byte>, rest: seq<byte>): (r: seq<byte>)
    requires |front| % 64 == 0 && |rest| < 64
    ensures |r| % 64 == 0
  {
    if |rest| > 55 then front + Ended(rest, 64) else front
  }

  function LastStart(rest: seq<byte>): (r: seq<byte>)
    requires |rest| < 64
    ensures |r| == 56
  {
    if |rest| > 55 then Repeated(0, 56) else Ended(rest, 56)
  }

  lemma {:induction false} PaddedInTwo(front: seq<byte>, rest: seq<byte>, n: nat)
    requires |front| % 64 == 0 && |rest| < 64
    ensures PaddedAs(front + rest, n) == LastFront(front, rest) + (LastStart(rest) + LengthBytes(n))
  {
    if |rest| > 55 {
      PaddedLong(front, rest, n);
    } else {
      PaddedShort(front, rest, n);
    }
  }

  /** Hashes a block that has no room for the length, and clears it. */
  method HashFull(width: Width, ghost f: Step, h: array<Word>, temp: array<byte>, ghost before: seq<byte>)
    requires h.Length == 8 && IsCompress(f) && temp.Length == 64 && (temp as object) != (h as object)
    requires |before| % 64 == 0 && Digest(h[..]) == Blocks(f, INITIAL_DIGEST, before)
    modifies h, temp
    ensures Digest(h[..]) == Blocks(f, INITIAL_DIGEST, before + old(temp[..]))
    ensures temp[..56] == Repeated(0, 56)
  {
    BlocksStep(f, INITIAL_DIGEST, before, temp[..]);
    HashWith(width, f, h, temp[..]);
    Fill(temp, 0, 60, 0);
  }

  lemma {:induction false} LengthAtEnd(temp: seq<byte>, start: seq<byte>, length: seq<byte>)
    requires |temp| == 64 && |length| == 8 && |start| == 56 && temp[..56] == start
    ensures Overwritten(temp, 56, length) == start + length
  {
  }

  method PutLength(digits: array<nat>, temp: array<byte>, ghost start: seq<byte>, ghost n: nat)
    requires digits.Length == 4 && AreDigits16(digits[..]) && Counted(digits[..]) == n % LENGTH_MODULUS
    requires temp.Length == 64 && |start| == 56 && temp[..56] == start
    modifies temp
    ensures temp[..] == start + LengthBytes(n)
  {
    LengthAtEnd(temp[..], start, LengthBytes(n));
    LengthModulo(n);
    WriteBitLength(digits, temp, 56);
  }

  /** `rest`, a 1 bit and zeros up to n bytes */
  function Ended(rest: seq<byte>, n: nat): (r: seq<byte>)
    requires |rest| < n
    ensures |r| == n
  {
    rest + [0x80] + Repeated(0, n - |rest| - 1)
  }

  method LastBytes(buffer: seq<byte>) returns (temp: array<byte>)
    requires |buffer| < 64
    ensures fresh(temp) && temp.Length == 64 && temp[..] == Ended(buffer, 64)
  {
    temp := new byte[64](i => 0);
    CopyTo(buffer, temp, 0);
    temp[|buffer|] := 0x80;
    assert temp[..] == Ended(buffer, 64);
  }

  lemma {:induction false} LengthModulo(v: nat)
    ensures LengthBytes(v % LENGTH_MODULUS) == LengthBytes(v)
  {
    var m := LENGTH_MODULUS;
    assert 8 * v == 8 * (v / m) * m + 8 * (v % m);
    var w := 8 * (v % m);
    assert (8 * (v / m) + w / m) * m == 8 * (v / m) * m + w / m * m;
    ModuloIs(8 * v, m, 8 * (v / m) + w / m, w % m);
  }

  /** The last block if the length still fits into it */
  lemma {:induction false} PaddedShort(front: seq<byte>, rest: seq<byte>, n: nat)
    requires |rest| <= 55 && |front| % 64 == 0
    ensures PaddedAs(front + rest, n) == front + (Ended(rest, 56) + LengthBytes(n))
  {
    assert ZeroCount(|front + rest|) == 55 - |rest|;
  }

  /** The last two blocks if it does not */
  lemma {:induction false} PaddedLong(front: seq<byte>, rest: seq<byte>, n: nat)
    requires 55 < |rest| < 64 && |front| % 64 == 0
    ensures PaddedAs(front + rest, n) == front + Ended(rest, 64) + (Repeated(0, 56) + LengthBytes(n))
  {
    assert ZeroCount(|front + rest|) == 119 - |rest|;
    assert Repeated<byte>(0, 119 - |rest|) == Repeated(0, 63 - |rest|) + Repeated(0, 56);
  }

  // ---- get_hash_bytes, hash256_impl --------------------------------------------------------

  function Least(a: nat, b: nat): nat { if a < b then a else b }

  lemma {:induction false} BytesOfWord(h: seq<Word>, i: nat)
    requires i < |h|
    ensures DigestBytes(h)[4 * i..4 * i + 4] == WordBytes(h[i])
  {
    var n := |h| - 1;
    var front, last := DigestBytes(h[..n]), WordBytes(h[n]);
    if i < n {
      BytesOfWord(h[..n], i);
      assert (front + last)[4 * i..4 * i + 4] == front[4 * i..4 * i + 4];
    } else {
      assert (front + last)[4 * n..4 * n + 4] == last;
    }
  }

  /** The inner loop of get_hash_bytes: stops at the end of the output. */
  method PutWord(word: seq<byte>, out: array<byte>, from: nat) returns (to: nat)
    requires |word| == 4 && from <= out.Length
    modifies out
    ensures to == Least(from + 4, out.Length) && out[..] == Overwritten(old(out[..]), from, word[..to - from])
  {
    to := Least(from + 4, out.Length);
    CopyTo(word[..to - from], out, from);
  }

  /** get_hash_bytes: as much of the digest as there is room for */
  method GetHashBytes(h: array<Word>, out: array<byte>)
    requires h.Length == 8
    modifies out
    ensures out[..] == Overwritten(old(out[..]), 0, DigestBytes(h[..])[..Least(32, out.Length)])
    ensures forall i :: 0 <= i < 8 && 4 * i + 4 <= out.Length ==> Value(Digits(out[4 * i..4 * i + 4])) == h[i] as nat
  {
    ghost var before, words, bytes := out[..], h[..], DigestBytes(h[..]);
    var p := 0;
    for i := 0 to 8
      invariant p == Least(4 * i, out.Length) && h[..] == words && out[..] == Overwritten(before, 0, bytes[..p])
    {
      BytesOfWord(words, i);
      ghost var from := p;
      p := PutWord(WordBytes(h[i]), out, p);
      PutNext(before, bytes, WordBytes(words[i]), i, from, p);
    }
    DigestSpells(words);
    PartSpells(bytes, words, before, out[..]);
    forall i | 0 <= i < 8 && 4 * i + 4 <= out.Length
      ensures Value(Digits(out[4 * i..4 * i + 4])) == h[i] as nat
    {
      assert out[4 * i..4 * i + 4] == out[..][4 * i..4 * i + 4] && h[i] == words[i];
    }
  }

  /** The numbers that a list of bytes spells, the highest byte first */
  ghost predicate SpellsWords(b: seq<byte>, h: seq<Word>) {
    |b| == 4 * |h| && forall i :: 0 <= i < |h| ==> Value(Digits(b[4 * i..4 * i + 4])) == h[i] as nat
  }

  lemma {:induction false} DigestSpells(h: seq<Word>)
    ensures SpellsWords(DigestBytes(h), h)
  {
    forall i | 0 <= i < |h|
      ensures Value(Digits(DigestBytes(h)[4 * i..4 * i + 4])) == h[i] as nat
    {
      BytesOfWord(h, i);
      WordBytesValue(h[i]);
    }
  }

  /** What there was room for */
  lemma {:induction false} PartSpells(b: seq<byte>, h: seq<Word>, before: seq<byte>, now: seq<byte>)
    requires SpellsWords(b, h) && |h| == 8 && now == Overwritten(before, 0, b[..Least(32, |before|)])
    ensures forall i :: 0 <= i < 8 && 4 * i + 4 <= |before| ==> Value(Digits(now[4 * i..4 * i + 4])) == h[i] as nat
  {
    forall i | 0 <= i < 8 && 4 * i + 4 <= |before|
      ensures Value(Digits(now[4 * i..4 * i + 4])) == h[i] as nat
    {
      assert now[4 * i..4 * i + 4] == b[4 * i..4 * i + 4];
    }
  }

  lemma {:induction false} PutNext(before: seq<byte>, bytes: seq<byte>, word: seq<byte>, i: nat, from: nat, to: nat)
    requires |bytes| == 32 && i < 8 && |word| == 4 && bytes[4 * i..4 * i + 4] == word
    requires from == Least(4 * i, |before|) && to == Least(from + 4, |before|)
    ensures to == Least(4 * i + 4, |before|)
    ensures Overwritten(Overwritten(before, 0, bytes[..from]), from, word[..to - from])
         == Overwritten(before, 0, bytes[..to])
  {
    OverwriteNext(before, 0, bytes[..from], word[..to - from]);
    if from == 4 * i {
      assert bytes[..to] == bytes[..from] + word[..to - from];
    } else {
      assert word[..to - from] == [];
      assert bytes[..to] == bytes[..from] + word[..to - from];
    }
  }

  /** SHA-256 of a message */
  function Hash(f: Step, message: seq<byte>): seq<byte> { HashAs(f, message, |message|) }

  /** The same when the length has been counted as n */
  function HashAs(f: Step, message: seq<byte>, n: nat): seq<byte> {
    var v := Blocks(f, INITIAL_DIGEST, PaddedAs(message, n));
    DigestBytes([v.a, v.b, v.c, v.d, v.e, v.f, v.g, v.h])
  }

  /** The hash spells the digest of the padded message. */
  lemma {:induction false} HashSpells(f: Step, message: seq<byte>, n: nat)
    ensures var v := Blocks(f, INITIAL_DIGEST, PaddedAs(message, n));
      SpellsWords(HashAs(f, message, n), [v.a, v.b, v.c, v.d, v.e, v.f, v.g, v.h])
  {
    var v := Blocks(f, INITIAL_DIGEST, PaddedAs(message, n));
    DigestSpells([v.a, v.b, v.c, v.d, v.e, v.f, v.g, v.h]);
  }

  /** The length bytes of a message hashed in one call are those of the standard exactly if words are
      64 bits wide or the length is below 2^32, give or take multiples of 2^61. */
  lemma {:induction false} LengthRight(width: Width, n: nat)
    ensures LengthBytes(Counts(width, 0, n)) == LengthBytes(n) <==>
            width.W64? || n / 0x1_0000_0000 % 0x2000_0000 == 0
  {
    if width.W64? {
      LengthModulo(n);
    } else {
      NarrowLength(n % 0x1_0000_0000, n / 0x1_0000_0000, n);
    }
  }

  lemma {:induction false} NarrowLength(c: nat, q: nat, n: nat)
    requires n == q * 0x1_0000_0000 + c
    ensures LengthBytes(c) == LengthBytes(n) <==> q % 0x2000_0000 == 0
  {
    SameLength(c, n);
    assert 8 * n == 8 * c + q * 0x8_0000_0000;
    SameModulo(8 * c, q * 0x8_0000_0000, LENGTH_MODULUS);
    MultipleOf(q, 0x2000_0000, 0x8_0000_0000);
  }

  lemma {:induction false} SameLength(m: nat, n: nat)
    ensures LengthBytes(m) == LengthBytes(n) <==> 8 * m % LENGTH_MODULUS == 8 * n % LENGTH_MODULUS
  {
    LengthValue(m);
    LengthValue(n);
  }

  lemma {:induction false} LengthValue(n: nat)
    ensures Value(Digits(LengthBytes(n))) == 8 * n % LENGTH_MODULUS
  {
    var c := BigEndian(8 * n % LENGTH_MODULUS, 8);
    DigitsOfBytes(c);
    assert Pow256(8) == LENGTH_MODULUS;
    ValueOfBigEndian(8 * n % LENGTH_MODULUS, 8);
  }

  /** Hashing in one call gives the standard's hash unless the length does not fit in 32-bit words. */
  lemma {:induction false} HashedAtOnce(width: Width, f: Step, message: seq<byte>)
    requires width.W64? || |message| < 0x1_0000_0000
    ensures HashAs(f, message, Counts(width, 0, |message|)) == Hash(f, message)
  {
    LengthRight(width, |message|);
    SameLengthBytes(f, message, Counts(width, 0, |message|), |message|);
  }

  lemma {:induction false} SameLengthBytes(f: Step, message: seq<byte>, m: nat, n: nat)
    requires LengthBytes(m) == LengthBytes(n)
    ensures HashAs(f, message, m) == HashAs(f, message, n)
  {
  }

  /** The digest of a finished hasher */
  method Result(ghost v: Vars, h: array<Word>) returns (out: array<byte>)
    requires h.Length == 8 && Digest(h[..]) == v
    ensures fresh(out) && out[..] == DigestBytes([v.a, v.b, v.c, v.d, v.e, v.f, v.g, v.h])
  {
    assert h[..] == [v.a, v.b, v.c, v.d, v.e, v.f, v.g, v.h];
    out := new byte[32];
    GetHashBytes(h, out);
  }

  /** finish and get_hash_bytes, with which hash256_impl ends */
  method FinishAndGet(hasher: Hasher) returns (out: array<byte>)
    requires hasher.Valid()
    modifies hasher.h
    ensures out[..] == HashAs(hasher.f, hasher.message, hasher.counted)
  {
    hasher.Finish();
    out := Result(Blocks(hasher.f, INITIAL_DIGEST, PaddedAs(hasher.message, hasher.counted)), hasher.h);
  }

  /** hash256_impl for random access: the message in one call */
  method Hash256(width: Width, ghost f: Step, message: seq<byte>) returns (out: array<byte>)
    requires IsCompress(f)
    ensures out[..] == HashAs(f, message, Counts(width, 0, |message|))
  {
    var hasher := new Hasher(width, f);
    hasher.Process(message);
    assert hasher.message == message;
    assert hasher.counted == Counts(width, 0, |message|);
    out := FinishAndGet(hasher);
  }

  /** One turn of the loop below */
  method ProcessPiece(hasher: Hasher, message: seq<byte>, first: nat, size: nat)
    requires hasher.Valid() && first + size <= |message| && size < 0x8000_0000
    requires hasher.message == message[..first] && hasher.counted == first
    modifies hasher, hasher.digits, hasher.h
    ensures hasher.Valid() && hasher.message == message[..first + size] && hasher.counted == first + size
  {
    PieceOn(message, first, size);
    CountsAll(hasher.width, first, size);
    hasher.Process(message[first..first + size]);
  }

  /** hash256_impl for input iterators: the message in pieces of at most bufferSize bytes, an int */
  method Hash256InPieces(width: Width, ghost f: Step, message: seq<byte>, bufferSize: nat) returns (out: array<byte>)
    requires IsCompress(f) && 1 <= bufferSize < 0x8000_0000
    ensures out[..] == Hash(f, message)
  {
    var hasher := new Hasher(width, f);
    var first := 0;
    assert hasher.message == message[..first];
    while first != |message|
      invariant 0 <= first <= |message| && fresh(hasher) && fresh(hasher.digits) && fresh(hasher.h)
      invariant hasher.Valid() && hasher.f == f && hasher.message == message[..first]
      invariant hasher.counted == first
      decreases |message| - first
    {
      var size := if |message| - first < bufferSize then |message| - first else bufferSize;
      ProcessPiece(hasher, message, first, size);
      first := first + size;
    }
    assert hasher.message == message && hasher.counted == |message|;
    out := FinishAndGet(hasher);
  }
}
