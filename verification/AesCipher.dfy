/** The block cipher of src/lib/plusaes.hpp as it works in place, proved against AesBlock. */
module AesCipher {
  import opened AesTables
  import opened AesField
  import opened AesBlock
  import AesStandard
  import opened Buffers

  method AddRoundKey(key: State, s: array<Word>)
    requires s.Length == 4
    modifies s
    ensures s[..] == AddedKey(old(s[..]), key)
  {
    for i := 0 to 4
      invariant forall j :: 0 <= j < i ==> s[j] == old(s[j]) ^ key[j]
      invariant forall j :: i <= j < 4 ==> s[j] == old(s[j])
    {
      s[i] := s[i] ^ key[i];
    }
  }

  /** The loop of sub_bytes and inv_sub_bytes. */
  method ReplaceWords(f: Word -> Word, s: array<Word>)
    requires s.Length == 4
    modifies s
    ensures s[..] == EachWord(f, old(s[..]))
  {
    for i := 0 to 4
      invariant forall j :: 0 <= j < i ==> s[j] == f(old(s[j]))
      invariant forall j :: i <= j < 4 ==> s[j] == old(s[j])
    {
      s[i] := f(s[i]);
    }
  }

  method SubBytes(s: array<Word>)
    requires s.Length == 4
    modifies s
    ensures s[..] == Subbed(old(s[..]))
  {
    ReplaceWords(SubWord, s);
  }

  method InvSubBytes(s: array<Word>)
    requires s.Length == 4
    modifies s
    ensures s[..] == Unsubbed(old(s[..]))
  {
    ReplaceWords(InvSubWord, s);
  }

  /** 0xFF << (r * 8) */
  function RowMask(r: nat): Word { if r == 1 then 0x0000_FF00 else if r == 2 then 0x00FF_0000 else 0xFF00_0000 }

  /** Row `r` of a column replaced by that row of another one. */
  function Merge(into: Word, source: Word, r: nat): Word { (into & !RowMask(r)) | (source & RowMask(r)) }

  /** The column that row r of column c comes from. */
  function Source(c: nat, step: nat, r: nat): (i: nat)
    ensures i < 4
  {
    (c + r * step) % 4
  }

  /** Column c once rows 1 .. r have been replaced. */
  function Merged(s: State, c: nat, step: nat, r: nat): Word {
    if r == 0 then s[c % 4] else Merge(Merged(s, c, step, r - 1), s[Source(c, step, r)], r)
  }

  lemma {:induction false} MergedBytes(s: State, c: nat, step: nat)
    ensures Merged(s, c, step, 3) ==
      Pack(B0(s[c % 4]), B1(s[(c + step) % 4]), B2(s[(c + 2 * step) % 4]), B3(s[(c + 3 * step) % 4]))
  {
    var w, x, y, z := s[c % 4], s[(c + step) % 4], s[(c + 2 * step) % 4], s[(c + 3 * step) % 4];
    assert Merged(s, c, step, 0) == w;
    assert Merged(s, c, step, 1) == Merge(w, x, 1);
    assert Merged(s, c, step, 2) == Merge(Merge(w, x, 1), y, 2);
    MergeBytes(w, x, y, z);
  }

  lemma {:induction false} MergeBytes(w: Word, x: Word, y: Word, z: Word)
    ensures Merge(Merge(Merge(w, x, 1), y, 2), z, 3) == Pack(B0(w), B1(x), B2(y), B3(z))
  {
  }

  /** The inner loop of shift_rows (step 1) and inv_shift_rows (step 3, since c + 4 - r and c + 3 r
      agree modulo 4). */
  method MergeRow(s: array<Word>, ori: State, step: nat, r: nat)
    requires s.Length == 4 && r >= 1 && forall c :: 0 <= c < 4 ==> s[c] == Merged(ori, c, step, r - 1)
    modifies s
    ensures forall c :: 0 <= c < 4 ==> s[c] == Merged(ori, c, step, r)
  {
    for c := 0 to 4
      invariant forall d :: 0 <= d < c ==> s[d] == Merged(ori, d, step, r)
      invariant forall d :: c <= d < 4 ==> s[d] == Merged(ori, d, step, r - 1)
    {
      s[c] := Merge(s[c], ori[Source(c, step, r)], r);
    }
  }

  method ShiftBy(s: array<Word>, step: nat)
    requires s.Length == 4
    modifies s
    ensures s[..] == AllMerged(old(s[..]), step)
  {
    var ori := s[..];
    for r := 1 to 4
      invariant forall c :: 0 <= c < 4 ==> s[c] == Merged(ori, c, step, r - 1)
    {
      MergeRow(s, ori, step, r);
    }
    MergedIsAll(s[..], ori, step);
  }

  lemma {:induction false} MergedIsAll(words: seq<Word>, ori: State, step: nat)
    requires |words| == 4 && forall c :: 0 <= c < 4 ==> words[c] == Merged(ori, c, step, 3)
    ensures words == AllMerged(ori, step)
  {
  }

  function AllMerged(s: State, step: nat): State {
    [Merged(s, 0, step, 3), Merged(s, 1, step, 3), Merged(s, 2, step, 3), Merged(s, 3, step, 3)]
  }

  lemma {:induction false} MergedIsShifted(s: State)
    ensures AllMerged(s, 1) == Shifted(s)
  {
    MergedBytes(s, 0, 1); MergedBytes(s, 1, 1); MergedBytes(s, 2, 1); MergedBytes(s, 3, 1);
  }

  lemma {:induction false} MergedIsUnshifted(s: State)
    ensures AllMerged(s, 3) == Unshifted(s)
  {
    MergedBytes(s, 0, 3); MergedBytes(s, 1, 3); MergedBytes(s, 2, 3); MergedBytes(s, 3, 3);
  }

  method ShiftRows(s: array<Word>)
    requires s.Length == 4
    modifies s
    ensures s[..] == Shifted(old(s[..]))
  {
    MergedIsShifted(s[..]);
    ShiftBy(s, 1);
  }

  method InvShiftRows(s: array<Word>)
    requires s.Length == 4
    modifies s
    ensures s[..] == Unshifted(old(s[..]))
  {
    MergedIsUnshifted(s[..]);
    ShiftBy(s, 3);
  }

  /** The body of mix_columns for one column. */
  method MixColumn(w: Word) returns (mixed: Word)
    ensures mixed == MixWord(w)
  {
    var a1, b1, c1, d1 := B0(w), B1(w), B2(w), B3(w);
    var a2, b2, c2, d2 := Mul2(a1), Mul2(b1), Mul2(c1), Mul2(d1);
    var a3, b3, c3, d3 := Plus(a2, a1), Plus(b2, b1), Plus(c2, c1), Plus(d2, d1);
    mixed := Pack(Sum(a2, b3, c1, d1), Sum(a1, b2, c3, d1), Sum(a1, b1, c2, d3), Sum(a3, b1, c1, d2));
    SumRotates(b2, c3, d1, a1);
    SumRotates(c2, d3, a1, b1);
    SumRotates(b1, c2, d3, a1);
    SumRotates(a3, b1, c1, d2);
  }

  method MixColumns(s: array<Word>)
    requires s.Length == 4
    modifies s
    ensures s[..] == Mixed(old(s[..]))
  {
    for i := 0 to 4
      invariant forall j :: 0 <= j < i ==> s[j] == MixWord(old(s[j]))
      invariant forall j :: i <= j < 4 ==> s[j] == old(s[j])
    {
      var mixed := MixColumn(s[i]);
      s[i] := mixed;
    }
  }

  method InvMixColumns(s: array<Word>)
    requires s.Length == 4
    modifies s
    ensures s[..] == Unmixed(old(s[..]))
  {
    for i := 0 to 4
      invariant forall j :: 0 <= j < i ==> s[j] == UnmixWord(old(s[j]))
      invariant forall j :: i <= j < 4 ==> s[j] == old(s[j])
    {
      var unmixed := InvMixColumn(s[i]);
      s[i] := unmixed;
    }
  }

  /** One row of inv_mix_columns */
  method InvMixRow(v0: byte, m0: byte, v1: byte, m1: byte, v2: byte, m2: byte, v3: byte, m3: byte) returns (r: byte)
    ensures r == Sum(Product(v0, m0), Product(v1, m1), Product(v2, m2), Product(v3, m3))
  {
    var p0 := Mul(v0, m0);
    var p1 := Mul(v1, m1);
    var p2 := Mul(v2, m2);
    var p3 := Mul(v3, m3);
    r := Sum(p0, p1, p2, p3);
  }

  /** The body of inv_mix_columns for one column. */
  method InvMixColumn(w: Word) returns (unmixed: Word)
    ensures unmixed == UnmixWord(w)
  {
    var v0, v1, v2, v3 := B0(w), B1(w), B2(w), B3(w);
    var r0 := InvMixRow(v0, 0x0E, v1, 0x0B, v2, 0x0D, v3, 0x09);
    var r1 := InvMixRow(v0, 0x09, v1, 0x0E, v2, 0x0B, v3, 0x0D);
    var r2 := InvMixRow(v0, 0x0D, v1, 0x09, v2, 0x0E, v3, 0x0B);
    var r3 := InvMixRow(v0, 0x0B, v1, 0x0D, v2, 0x09, v3, 0x0E);
    unmixed := Pack(r0, r1, r2, r3);
    RotatedRows(v0, v1, v2, v3);
  }

  lemma {:induction false} RotatedRows(a: byte, b: byte, c: byte, d: byte)
    ensures UnmixRow(b, c, d, a) == Sum(Product(a, 0x09), Product(b, 0x0E), Product(c, 0x0B), Product(d, 0x0D))
    ensures UnmixRow(c, d, a, b) == Sum(Product(a, 0x0D), Product(b, 0x09), Product(c, 0x0E), Product(d, 0x0B))
    ensures UnmixRow(d, a, b, c) == Sum(Product(a, 0x0B), Product(b, 0x0D), Product(c, 0x09), Product(d, 0x0E))
  {
    SumRotates(Product(b, 0x0E), Product(c, 0x0B), Product(d, 0x0D), Product(a, 0x09));
    SumRotates(Product(c, 0x0E), Product(d, 0x0B), Product(a, 0x0D), Product(b, 0x09));
    SumRotates(Product(b, 0x09), Product(c, 0x0E), Product(d, 0x0B), Product(a, 0x0D));
    SumRotates(Product(a, 0x0B), Product(b, 0x0D), Product(c, 0x09), Product(d, 0x0E));
  }

  // ---- one block ---------------------------------------------------------------------------

  method CopyBytesToState(data: array<byte>, from: nat, s: array<Word>)
    requires from + 16 <= data.Length && s.Length == 4
    modifies s
    ensures s[..] == Load(data[from..from + 16])
  {
    ghost var b := data[from..from + 16];
    s[0] := LoadWord(data[from..from + 4]);
    s[1] := LoadWord(data[from + 4..from + 8]);
    s[2] := LoadWord(data[from + 8..from + 12]);
    s[3] := LoadWord(data[from + 12..from + 16]);
    assert b[..4] == data[from..from + 4] && b[4..8] == data[from + 4..from + 8];
    assert b[8..12] == data[from + 8..from + 12] && b[12..] == data[from + 12..from + 16];
    assert s[..] == [s[0], s[1], s[2], s[3]];
  }

  /** copy_state_to_bytes */
  method CopyStateToBytes(s: array<Word>, out: array<byte>, to: nat)
    requires s.Length == 4 && to + 16 <= out.Length
    modifies out
    ensures out[..] == Overwritten(old(out[..]), to, Store(s[..]))
  {
    CopyTo(Store(s[..]), out, to);
  }

  // The loops over the rounds are proved for whatever function agrees with the round; this keeps
  // the tables out of their proofs.

  ghost predicate IsRound(f: Step) { forall s: State, k: State {:trigger Round(s, k)} :: f(s, k) == Round(s, k) }

  ghost predicate IsInvRound(f: Step) {
    forall s: State, k: State {:trigger InvRound(s, k)} :: f(s, k) == InvRound(s, k)
  }

  /** One turn of the loop of encrypt_state */
  method EncryptRound(ghost f: Step, key: State, s: array<Word>)
    requires s.Length == 4 && IsRound(f)
    modifies s
    ensures s[..] == f(old(s[..]), key)
  {
    SubBytes(s);
    ShiftRows(s);
    MixColumns(s);
    AddRoundKey(key, s);
    assert s[..] == Round(old(s[..]), key);
  }

  method EncryptLastRound(key: State, s: array<Word>)
    requires s.Length == 4
    modifies s
    ensures s[..] == LastRound(old(s[..]), key)
  {
    SubBytes(s);
    ShiftRows(s);
    AddRoundKey(key, s);
  }

  method EncryptRounds(ghost f: Step, keys: seq<State>, s: array<Word>)
    requires |keys| >= 2 && s.Length == 4 && IsRound(f)
    modifies s
    ensures s[..] == Rounds(f, old(s[..]), keys, |keys| - 2)
  {
    for i := 1 to |keys| - 1
      invariant s[..] == Rounds(f, old(s[..]), keys, i - 1)
    {
      EncryptRound(f, keys[i], s);
    }
  }

  ghost predicate IsEncrypt(e: Block -> Block, keys: seq<State>)
    requires |keys| >= 2
  {
    forall b: Block {:trigger Encrypt(keys, b)} :: e(b) == Encrypt(keys, b)
  }

  ghost predicate IsDecrypt(d: Block -> Block, keys: seq<State>)
    requires |keys| >= 2
  {
    forall b: Block {:trigger Decrypt(keys, b)} :: d(b) == Decrypt(keys, b)
  }

  method EncryptBlock(ghost e: Block -> Block, keys: seq<State>, s: array<Word>, ghost b: Block)
    requires |keys| >= 2 && s.Length == 4 && IsEncrypt(e, keys) && s[..] == Load(b)
    modifies s
    ensures Store(s[..]) == e(b)
  {
    Encipher(keys, s);
    assert Store(s[..]) == Encrypt(keys, b);
  }

  method DecryptBlock(ghost d: Block -> Block, keys: seq<State>, s: array<Word>, ghost b: Block)
    requires |keys| >= 2 && s.Length == 4 && IsDecrypt(d, keys) && s[..] == Load(b)
    modifies s
    ensures Store(s[..]) == d(b)
  {
    Decipher(keys, s);
    assert Store(s[..]) == Decrypt(keys, b);
  }

  /** encrypt_state */
  method EncryptState(ghost e: Block -> Block, keys: seq<State>, data: array<byte>, from: nat, out: array<byte>,
                      to: nat)
    requires |keys| >= 2 && from + 16 <= data.Length && to + 16 <= out.Length && IsEncrypt(e, keys)
    modifies out
    ensures out[..] == Overwritten(old(out[..]), to, e(old(data[from..from + 16])))
  {
    var s := new Word[4];
    CopyBytesToState(data, from, s);
    EncryptBlock(e, keys, s, data[from..from + 16]);
    CopyStateToBytes(s, out, to);
  }

  /** decrypt_state */
  method DecryptState(ghost d: Block -> Block, keys: seq<State>, data: array<byte>, from: nat, out: array<byte>,
                      to: nat)
    requires |keys| >= 2 && from + 16 <= data.Length && to + 16 <= out.Length && IsDecrypt(d, keys)
    modifies out
    ensures out[..] == Overwritten(old(out[..]), to, d(old(data[from..from + 16])))
  {
    var s := new Word[4];
    CopyBytesToState(data, from, s);
    DecryptBlock(d, keys, s, data[from..from + 16]);
    CopyStateToBytes(s, out, to);
  }

  method Encipher(keys: seq<State>, s: array<Word>)
    requires |keys| >= 2 && s.Length == 4
    modifies s
    ensures s[..] == Enciphered(keys, old(s[..]))
  {
    AddRoundKey(keys[0], s);
    EncryptRounds(Round, keys, s);
    EncryptLastRound(keys[|keys| - 1], s);
  }

  /** One turn of the loop of decrypt_state */
  method DecryptRound(ghost f: Step, key: State, s: array<Word>)
    requires s.Length == 4 && IsInvRound(f)
    modifies s
    ensures s[..] == f(old(s[..]), key)
  {
    AddRoundKey(key, s);
    InvMixColumns(s);
    InvShiftRows(s);
    InvSubBytes(s);
    assert s[..] == InvRound(old(s[..]), key);
  }

  method DecryptLastRound(key: State, s: array<Word>)
    requires s.Length == 4
    modifies s
    ensures s[..] == InvLastRound(old(s[..]), key)
  {
    AddRoundKey(key, s);
    InvShiftRows(s);
    InvSubBytes(s);
  }

  method DecryptRounds(ghost f: Step, keys: seq<State>, s: array<Word>)
    requires |keys| >= 2 && s.Length == 4 && IsInvRound(f)
    modifies s
    ensures s[..] == InvRounds(f, old(s[..]), keys, 0)
  {
    var i := |keys| - 2;
    while i > 0
      invariant 0 <= i <= |keys| - 2
      invariant s[..] == InvRounds(f, old(s[..]), keys, i)
    {
      DecryptRound(f, keys[i], s);
      i := i - 1;
    }
  }

  method Decipher(keys: seq<State>, s: array<Word>)
    requires |keys| >= 2 && s.Length == 4
    modifies s
    ensures s[..] == Deciphered(keys, old(s[..]))
  {
    DecryptLastRound(keys[|keys| - 1], s);
    DecryptRounds(InvRound, keys, s);
    AddRoundKey(keys[0], s);
  }

  // ---- expand_key --------------------------------------------------------------------------

  /** The first loop */
  method KeyIntoWords(key: array<byte>, w: array<Word>, ghost sub: Word -> Word)
    requires ValidKeySize(key.Length) && w.Length >= key.Length / 4
    modifies w
    ensures forall j :: 0 <= j < key.Length / 4 ==> w[j] == KeyWord(sub, key[..], j)
  {
    for i := 0 to key.Length / 4
      invariant forall j :: 0 <= j < i ==> w[j] == KeyWord(sub, key[..], j)
    {
      w[i] := LoadWord(key[4 * i..4 * i + 4]);
      assert key[4 * i..4 * i + 4] == key[..][4 * i..4 * i + 4];
    }
  }

  /** The second loop, for the substitution `sub` */
  method ExpandWords(sub: Word -> Word, ghost key: seq<byte>, nk: nat, w: array<Word>)
    requires ValidKeySize(|key|) && nk == |key| / 4 <= w.Length
    requires forall j :: 0 <= j < nk ==> w[j] == KeyWord(sub, key, j)
    modifies w
    ensures forall j :: 0 <= j < w.Length ==> w[j] == KeyWord(sub, key, j)
  {
    for i := nk to w.Length
      invariant forall j :: 0 <= j < i ==> w[j] == KeyWord(sub, key, j)
    {
      ExpandWord(sub, key, nk, w, i);
    }
  }

  /** Its body */
  method ExpandWord(sub: Word -> Word, ghost key: seq<byte>, nk: nat, w: array<Word>, i: nat)
    requires ValidKeySize(|key|) && nk == |key| / 4 <= i < w.Length
    requires forall j :: 0 <= j < i ==> w[j] == KeyWord(sub, key, j)
    modifies w
    ensures forall j :: 0 <= j <= i ==> w[j] == KeyWord(sub, key, j)
  {
    w[i] := NextWord(sub, w[i - 1], w[i - nk], nk, i);
  }

  method ExpandKey(key: array<byte>) returns (keys: seq<State>)
    requires ValidKeySize(key.Length)
    ensures keys == Expanded(key[..]) && AesStandard.IsSchedule(Sbox, Plus, key[..], keys)
  {
    AesStandard.ExpandedIsSchedule(key[..]);
    var w := new Word[4 * (RoundCount(key.Length) + 1)];
    KeyIntoWords(key, w, SubWord);
    ExpandWords(SubWord, key[..], key.Length / 4, w);
    assert w[..] == KeyWords(SubWord, key[..]);
    keys := RoundKeys(w[..]);
  }
}
