/** Numbers in base 256, big-endian and little-endian, and remainders. */
module Numbers {
  function Pow256(n: nat): (p: nat)
    ensures p >= 1
  {
    if n == 0 then 1 else 256 * Pow256(n - 1)
  }

  /** A big-endian number, by its digits */
  function Value(c: seq<nat>): nat { if c == [] then 0 else Value(c[..|c| - 1]) * 256 + c[|c| - 1] }

  function BigEndian(v: nat, n: nat): (c: seq<nat>)
    ensures |c| == n && AreDigits(c)
  {
    if n == 0 then [] else BigEndian(v / 256, n - 1) + [v % 256]
  }

  predicate AreDigits(c: seq<nat>) { forall i :: 0 <= i < |c| ==> c[i] < 256 }

  lemma {:induction false} BigEndianOfValue(c: seq<nat>)
    requires AreDigits(c)
    ensures BigEndian(Value(c), |c|) == c
  {
    if c != [] {
      BigEndianOfValue(c[..|c| - 1]);
      LastDigit(Value(c[..|c| - 1]), c[|c| - 1]);
    }
  }

  lemma {:induction false} LastDigit(v: nat, b: nat)
    requires b < 256
    ensures (v * 256 + b) / 256 == v && (v * 256 + b) % 256 == b
  {
  }

  lemma {:induction false} ValueOfBigEndian(v: nat, n: nat)
    requires v < Pow256(n)
    ensures Value(BigEndian(v, n)) == v
  {
    if n > 0 {
      ValueOfBigEndian(v / 256, n - 1);
    }
  }

  lemma {:induction false} ValueBound(c: seq<nat>)
    requires AreDigits(c)
    ensures Value(c) < Pow256(|c|)
  {
    if c != [] {
      ValueBound(c[..|c| - 1]);
    }
  }

  /** The first digit weighs most. */
  lemma {:induction false} ValueFromFront(b: nat, c: seq<nat>)
    ensures Value([b] + c) == b * Pow256(|c|) + Value(c)
  {
    if c == [] {
      assert ([b] + c)[..0] == [];
    } else {
      var n := |c| - 1;
      ValueFromFront(b, c[..n]);
      assert ([b] + c)[..|c|] == [b] + c[..n];
      assert b * Pow256(n) * 256 == b * Pow256(|c|);
    }
  }

  // ---- little-endian -----------------------------------------------------------------------

  function LittleValue(c: seq<nat>): nat { if c == [] then 0 else c[0] + 256 * LittleValue(c[1..]) }

  function LittleEndian(v: nat, n: nat): (c: seq<nat>)
    ensures |c| == n && AreDigits(c)
  {
    if n == 0 then [] else [v % 256] + LittleEndian(v / 256, n - 1)
  }

  lemma {:induction false} ValueOfLittleEndian(v: nat, n: nat)
    requires v < Pow256(n)
    ensures LittleValue(LittleEndian(v, n)) == v
  {
    if n > 0 {
      ValueOfLittleEndian(v / 256, n - 1);
    }
  }

  lemma {:induction false} LittleEndianOfValue(c: seq<nat>)
    requires AreDigits(c)
    ensures LittleEndian(LittleValue(c), |c|) == c
  {
    if c != [] {
      LittleEndianOfValue(c[1..]);
      LastDigit(LittleValue(c[1..]), c[0]);
    }
  }

  // ---- remainders --------------------------------------------------------------------------

  lemma {:induction false} ModuloBound(v: nat, m: nat)
    requires m > 0
    ensures 0 <= v % m < m
  {
  }

  lemma {:induction false} ModuloNext(v: nat, m: nat)
    requires m > 0
    ensures (v % m + 1) % m == (v + 1) % m
  {
    var q, r := v / m, v % m;
    if r + 1 < m {
      ModuloIs(v + 1, m, q, r + 1);
      ModuloIs(r + 1, m, 0, r + 1);
    } else {
      assert (q + 1) * m == q * m + m;
      ModuloIs(v + 1, m, q + 1, 0);
      ModuloIs(m, m, 1, 0);
    }
  }

  lemma {:induction false} ModuloIs(v: nat, m: nat, q: nat, r: nat)
    requires v == q * m + r && r < m
    ensures v % m == r
  {
    var d: int := v / m - q;
    assert d * m == r - v % m by {
      assert v / m * m + v % m == v;
      var a: int, b: int := v / m * m, q * m;
      assert d * m == a - b;
    }
    AtLeast(d, m);
  }

  lemma {:induction false} AtLeast(d: int, m: nat)
    ensures d >= 1 ==> d * m >= m
    ensures d <= -1 ==> d * m + m <= 0
  {
    if d >= 1 {
      assert (d - 1) * m >= 0;
    } else if d <= -1 {
      assert (-d - 1) * m >= 0;
    }
  }

  function Digits(c: seq<bv8>): (r: seq<nat>)
    ensures |r| == |c| && AreDigits(r)
  {
    seq(|c|, i requires 0 <= i < |c| => c[i] as nat)
  }

  function Bytes(c: seq<nat>): (r: seq<bv8>)
    requires AreDigits(c)
    ensures |r| == |c|
  {
    seq(|c|, i requires 0 <= i < |c| => c[i] as bv8)
  }

  lemma {:induction false} DigitsOfBytes(c: seq<nat>)
    requires AreDigits(c)
    ensures Digits(Bytes(c)) == c
  {
    forall i | 0 <= i < |c| ensures (c[i] as bv8) as nat == c[i] { DigitOfByte(c[i]); }
  }

  lemma {:induction false} DigitOfByte(v: nat)
    requires v < 256
    ensures (v as bv8) as nat == v
  {
    assert v % 256 == v;
  }

  lemma {:induction false} BytesOfDigits(c: seq<bv8>)
    ensures Bytes(Digits(c)) == c
  {
  }
}
