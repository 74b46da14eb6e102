/** The AES block cipher of src/lib/plusaes.hpp: key schedule, rounds and their inverses. */
module AesBlock {
  import opened AesTables
  import opened AesField

  type State = s: seq<Word> | |s| == 4 witness [0, 0, 0, 0]

  type Block = b: seq<byte> | |b| == 16 witness [0, 0, 0, 0, 0, 0, 0, 0, 0, 0, 0, 0, 0, 0, 0, 0]

  // ---- the steps of a round as functions ---------------------------------------------------

  function AddedKey(s: State, k: State): State { [s[0] ^ k[0], s[1] ^ k[1], s[2] ^ k[2], s[3] ^ k[3]] }

  function EachWord(f: Word -> Word, s: State): State { [f(s[0]), f(s[1]), f(s[2]), f(s[3])] }

  function Subbed(s: State): State { EachWord(SubWord, s) }

  function Unsubbed(s: State): State { EachWord(InvSubWord, s) }

  /** Row r of column c comes from column c + r: section 5.1.2 of FIPS 197. */
  function ShiftedWord(s: State, c: nat): Word {
    Pack(B0(s[c % 4]), B1(s[(c + 1) % 4]), B2(s[(c + 2) % 4]), B3(s[(c + 3) % 4]))
  }

  function UnshiftedWord(s: State, c: nat): Word {
    Pack(B0(s[c % 4]), B1(s[(c + 3) % 4]), B2(s[(c + 2) % 4]), B3(s[(c + 1) % 4]))
  }

  function Shifted(s: State): State { [ShiftedWord(s, 0), ShiftedWord(s, 1), ShiftedWord(s, 2), ShiftedWord(s, 3)] }

  function Unshifted(s: State): State {
    [UnshiftedWord(s, 0), UnshiftedWord(s, 1), UnshiftedWord(s, 2), UnshiftedWord(s, 3)]
  }

  function Mixed(s: State): State { EachWord(MixWord, s) }

  function Unmixed(s: State): State { EachWord(UnmixWord, s) }

  lemma {:induction false} AddedKeyTwice(s: State, k: State)
    ensures AddedKey(AddedKey(s, k), k) == s
  {
  }

  lemma {:induction false} EachUndone(f: Word -> Word, g: Word -> Word, s: State)
    requires forall w: Word :: g(f(w)) == w
    ensures EachWord(g, EachWord(f, s)) == s
  {
    assert forall i :: 0 <= i < 4 ==> EachWord(g, EachWord(f, s))[i] == g(f(s[i])) == s[i];
  }

  lemma {:induction false} SubbedUndone(s: State)
    ensures Unsubbed(Subbed(s)) == s
  {
    forall w: Word ensures InvSubWord(SubWord(w)) == w { SubWordUndone(w); }
    EachUndone(SubWord, InvSubWord, s);
  }

  lemma {:induction false} UnsubbedUndone(s: State)
    ensures Subbed(Unsubbed(s)) == s
  {
    forall w: Word ensures SubWord(InvSubWord(w)) == w { SubWordUndone(w); }
    EachUndone(InvSubWord, SubWord, s);
  }

  lemma {:induction false} MixedUndone(s: State)
    ensures Unmixed(Mixed(s)) == s && Mixed(Unmixed(s)) == s
  {
    forall w: Word ensures UnmixWord(MixWord(w)) == w { MixWordUndone(w); }
    forall w: Word ensures MixWord(UnmixWord(w)) == w { UnmixWordUndone(w); }
    EachUndone(MixWord, UnmixWord, s);
    EachUndone(UnmixWord, MixWord, s);
  }

  lemma {:induction false} ShiftedUndone(s: State)
    ensures Unshifted(Shifted(s)) == s
  {
    BytesOfPack(B0(s[0]), B1(s[1]), B2(s[2]), B3(s[3]));
    BytesOfPack(B0(s[1]), B1(s[2]), B2(s[3]), B3(s[0]));
    BytesOfPack(B0(s[2]), B1(s[3]), B2(s[0]), B3(s[1]));
    BytesOfPack(B0(s[3]), B1(s[0]), B2(s[1]), B3(s[2]));
    PackOfBytes(s[0]); PackOfBytes(s[1]); PackOfBytes(s[2]); PackOfBytes(s[3]);
  }

  lemma {:induction false} UnshiftedUndone(s: State)
    ensures Shifted(Unshifted(s)) == s
  {
    BytesOfPack(B0(s[0]), B1(s[3]), B2(s[2]), B3(s[1]));
    BytesOfPack(B0(s[1]), B1(s[0]), B2(s[3]), B3(s[2]));
    BytesOfPack(B0(s[2]), B1(s[1]), B2(s[0]), B3(s[3]));
    BytesOfPack(B0(s[3]), B1(s[2]), B2(s[1]), B3(s[0]));
    PackOfBytes(s[0]); PackOfBytes(s[1]); PackOfBytes(s[2]); PackOfBytes(s[3]);
  }

  // ---- the cipher --------------------------------------------------------------------------

  function Round(s: State, k: State): State { AddedKey(Mixed(Shifted(Subbed(s))), k) }

  function InvRound(s: State, k: State): State { Unsubbed(Unshifted(Unmixed(AddedKey(s, k)))) }

  function LastRound(s: State, k: State): State { AddedKey(Shifted(Subbed(s)), k) }

  function InvLastRound(s: State, k: State): State { Unsubbed(Unshifted(AddedKey(s, k))) }

  type Step = (State, State) -> State

  /** The state after rounds 1 .. i, from t before them. */
  function Rounds(round: Step, t: State, keys: seq<State>, i: nat): State
    requires i < |keys|
  {
    if i == 0 then t else round(Rounds(round, t, keys, i - 1), keys[i])
  }

  /** The state after the inverse rounds from the last but one down to i + 1, from t before them. */
  function InvRounds(round: Step, t: State, keys: seq<State>, i: nat): State
    requires i <= |keys| - 2
    decreases |keys| - i
  {
    if i == |keys| - 2 then t else round(InvRounds(round, t, keys, i + 1), keys[i + 1])
  }

  function Enciphered(keys: seq<State>, s: State): State
    requires |keys| >= 2
  {
    var n := |keys|;
    LastRound(Rounds(Round, AddedKey(s, keys[0]), keys, n - 2), keys[n - 1])
  }

  function Deciphered(keys: seq<State>, s: State): State
    requires |keys| >= 2
  {
    AddedKey(InvRounds(InvRound, InvLastRound(s, keys[|keys| - 1]), keys, 0), keys[0])
  }

  ghost predicate Undoes(g: Step, f: Step) { forall s: State, k: State :: g(f(s, k), k) == s }

  lemma {:induction false} RoundsUndone(f: Step, g: Step, t: State, keys: seq<State>, i: nat)
    requires Undoes(g, f) && i <= |keys| - 2
    ensures InvRounds(g, Rounds(f, t, keys, |keys| - 2), keys, i) == Rounds(f, t, keys, i)
    decreases |keys| - i
  {
    if i < |keys| - 2 {
      RoundsUndone(f, g, t, keys, i + 1);
    }
  }

  lemma {:induction false} InvRoundsUndone(f: Step, g: Step, t: State, keys: seq<State>, i: nat)
    requires Undoes(f, g) && i <= |keys| - 2
    ensures Rounds(f, InvRounds(g, t, keys, 0), keys, i) == InvRounds(g, t, keys, i)
  {
    if i > 0 {
      InvRoundsUndone(f, g, t, keys, i - 1);
    }
  }

  lemma {:induction false} RoundUndone(s: State, k: State)
    ensures InvRound(Round(s, k), k) == s
  {
    AddedKeyTwice(Mixed(Shifted(Subbed(s))), k);
    MixedUndone(Shifted(Subbed(s)));
    ShiftedUndone(Subbed(s));
    SubbedUndone(s);
  }

  lemma {:induction false} InvRoundUndone(s: State, k: State)
    ensures Round(InvRound(s, k), k) == s
  {
    var t := Unmixed(AddedKey(s, k));
    UnsubbedUndone(Unshifted(t));
    UnshiftedUndone(t);
    MixedUndone(AddedKey(s, k));
    AddedKeyTwice(s, k);
  }

  lemma {:induction false} LastRoundUndone(s: State, k: State)
    ensures InvLastRound(LastRound(s, k), k) == s
  {
    AddedKeyTwice(Shifted(Subbed(s)), k);
    ShiftedUndone(Subbed(s));
    SubbedUndone(s);
  }

  lemma {:induction false} InvLastRoundUndone(s: State, k: State)
    ensures LastRound(InvLastRound(s, k), k) == s
  {
    var t := AddedKey(s, k);
    UnsubbedUndone(Unshifted(t));
    UnshiftedUndone(t);
    AddedKeyTwice(s, k);
  }

  /** Decryption undoes encryption, for every list of at least two round keys. */
  lemma {:induction false} DecipherEncipher(keys: seq<State>, s: State)
    requires |keys| >= 2
    ensures Deciphered(keys, Enciphered(keys, s)) == s
  {
    var t := AddedKey(s, keys[0]);
    LastRoundUndone(Rounds(Round, t, keys, |keys| - 2), keys[|keys| - 1]);
    EveryRoundUndone();
    RoundsUndone(Round, InvRound, t, keys, 0);
    AddedKeyTwice(s, keys[0]);
  }

  /** Encryption undoes decryption. */
  lemma {:induction false} EncipherDecipher(keys: seq<State>, s: State)
    requires |keys| >= 2
    ensures Enciphered(keys, Deciphered(keys, s)) == s
  {
    var t := InvLastRound(s, keys[|keys| - 1]);
    AddedKeyTwice(InvRounds(InvRound, t, keys, 0), keys[0]);
    EveryRoundUndone();
    InvRoundsUndone(Round, InvRound, t, keys, |keys| - 2);
    InvLastRoundUndone(s, keys[|keys| - 1]);
  }

  lemma {:induction false} EveryRoundUndone()
    ensures Undoes(InvRound, Round) && Undoes(Round, InvRound)
  {
    forall s: State, k: State ensures InvRound(Round(s, k), k) == s { RoundUndone(s, k); }
    forall s: State, k: State ensures Round(InvRound(s, k), k) == s { InvRoundUndone(s, k); }
  }

  // ---- bytes -------------------------------------------------------------------------------

  /** A word as memcpy reads it on a little-endian machine. */
  function LoadWord(b: seq<byte>): Word
    requires |b| == 4
  {
    Pack(b[0], b[1], b[2], b[3])
  }

  function StoreWord(w: Word): seq<byte> { [B0(w), B1(w), B2(w), B3(w)] }

  function Load(b: Block): State { [LoadWord(b[..4]), LoadWord(b[4..8]), LoadWord(b[8..12]), LoadWord(b[12..])] }

  function Store(s: State): Block { StoreWord(s[0]) + StoreWord(s[1]) + StoreWord(s[2]) + StoreWord(s[3]) }

  lemma {:induction false} StoreLoadWord(b: seq<byte>)
    requires |b| == 4
    ensures StoreWord(LoadWord(b)) == b
  {
    BytesOfPack(b[0], b[1], b[2], b[3]);
    assert b == [b[0], b[1], b[2], b[3]];
  }

  lemma {:induction false} StoreLoad(b: Block)
    ensures Store(Load(b)) == b
  {
    StoreLoadWord(b[..4]);
    StoreLoadWord(b[4..8]);
    StoreLoadWord(b[8..12]);
    StoreLoadWord(b[12..]);
    assert b == b[..4] + b[4..8] + b[8..12] + b[12..];
  }

  lemma {:induction false} LoadStoreWord(w: Word)
    ensures LoadWord(StoreWord(w)) == w
  {
    PackOfBytes(w);
  }

  lemma {:induction false} LoadStore(s: State)
    ensures Load(Store(s)) == s
  {
    var b := Store(s);
    assert b[..4] == StoreWord(s[0]) && b[4..8] == StoreWord(s[1]);
    assert b[8..12] == StoreWord(s[2]) && b[12..] == StoreWord(s[3]);
    LoadStoreWord(s[0]); LoadStoreWord(s[1]); LoadStoreWord(s[2]); LoadStoreWord(s[3]);
    assert Load(b) == [s[0], s[1], s[2], s[3]];
  }

  function Encrypt(keys: seq<State>, b: Block): Block
    requires |keys| >= 2
  {
    Store(Enciphered(keys, Load(b)))
  }

  function Decrypt(keys: seq<State>, b: Block): Block
    requires |keys| >= 2
  {
    Store(Deciphered(keys, Load(b)))
  }

  lemma {:induction false} DecryptEncrypt(keys: seq<State>, b: Block)
    requires |keys| >= 2
    ensures Decrypt(keys, Encrypt(keys, b)) == b
  {
    LoadStore(Enciphered(keys, Load(b)));
    DecipherEncipher(keys, Load(b));
    StoreLoad(b);
  }

  lemma {:induction false} EncryptDecrypt(keys: seq<State>, b: Block)
    requires |keys| >= 2
    ensures Encrypt(keys, Decrypt(keys, b)) == b
  {
    LoadStore(Deciphered(keys, Load(b)));
    EncipherDecipher(keys, Load(b));
    StoreLoad(b);
  }

  // ---- the key schedule --------------------------------------------------------------------

  predicate ValidKeySize(size: nat) { size == 16 || size == 24 || size == 32 }

  function XorWord(v: Word, w: Word): Word { v ^ w }

  function RotWord(w: Word): Word { ((w >> 8) & 0x00FF_FFFF) | ((w & 0xFF) << 24) }

  function Rcon(i: nat): Word {
    match i
    case 1 => 0x01 case 2 => 0x02 case 3 => 0x04 case 4 => 0x08 case 5 => 0x10
    case 6 => 0x20 case 7 => 0x40 case 8 => 0x80 case 9 => 0x1b case 10 => 0x36
    case _ => 0x00
  }

  /** Word i of the expanded key, for the substitution `sub`: section 5.2 of FIPS 197. */
  function KeyWord(sub: Word -> Word, key: seq<byte>, i: nat): Word
    requires ValidKeySize(|key|)
  {
    var nk := |key| / 4;
    if i < nk then LoadWord(key[4 * i..4 * i + 4])
    else NextWord(sub, KeyWord(sub, key, i - 1), KeyWord(sub, key, i - nk), nk, i)
  }

  /** The word after t, if u is the one nk places before. */
  function NextWord(sub: Word -> Word, t: Word, u: Word, nk: nat, i: nat): Word
    requires nk > 0
  {
    if i % nk == 0 then XorWord(XorWord(sub(RotWord(t)), Rcon(i / nk)), u)
    else if nk > 6 && i % nk == 4 then XorWord(sub(t), u)
    else XorWord(t, u)
  }

  function RoundCount(size: nat): nat { if size == 16 then 10 else if size == 24 then 12 else 14 }

  function KeyWords(sub: Word -> Word, key: seq<byte>): (w: seq<Word>)
    requires ValidKeySize(|key|)
    ensures |w| == 4 * (RoundCount(|key|) + 1)
  {
    seq(4 * (RoundCount(|key|) + 1), (i: nat) => KeyWord(sub, key, i))
  }

  /** The words in groups of four */
  function RoundKeys(w: seq<Word>): (keys: seq<State>)
    requires |w| % 4 == 0
    ensures |keys| == |w| / 4
  {
    if w == [] then [] else [w[..4]] + RoundKeys(w[4..])
  }

  function Expanded(key: seq<byte>): (keys: seq<State>)
    requires ValidKeySize(|key|)
    ensures |keys| == RoundCount(|key|) + 1
  {
    RoundKeys(KeyWords(SubWord, key))
  }
}
