/** The mode functions of src/lib/plusaes.hpp on buffers, proved against AesModes.  Their loops are
    proved for any functions e and d that agree with the block cipher under the expanded key. */
module AesInPlace {
  import opened Options
  import opened AesTables
  import opened AesField
  import AesStandard
  import opened AesBlock
  import opened AesCipher
  import opened AesModes
  import opened Buffers
  import opened Numbers

  /** The last one is no value of the source: it would go on beyond one of its buffers, and the model stops. */
  datatype Error =
    Fine | InvalidDataSize | InvalidKeySize | InvalidBufferSize | InvalidKey | InvalidNonceSize | OutOfBounds

  /** check_encrypt_cond */
  function CheckEncrypt(dataSize: nat, keySize: nat, bufferSize: nat, pads: bool): Error {
    if !pads && dataSize % 16 != 0 then InvalidDataSize
    else if !ValidKeySize(keySize) then InvalidKeySize
    else if bufferSize < (if pads then PaddedSize(dataSize) else dataSize) then InvalidBufferSize
    else Fine
  }

  /** unsigned long wraps around */
  const ULONG: nat := 0x1_0000_0000_0000_0000

  /** check_decrypt_cond; with empty data the size of the last block is subtracted below 0. */
  function CheckDecrypt(dataSize: nat, keySize: nat, bufferSize: nat, unpads: bool): Error {
    if dataSize % 16 != 0 then InvalidDataSize
    else if !ValidKeySize(keySize) then InvalidKeySize
    else if bufferSize < (if unpads then (dataSize - 16) % ULONG else dataSize) then InvalidBufferSize
    else Fine
  }

  /** What encryption is asked for is possible: a whole number of blocks, a key of one of the three sizes,
      and room for the data with its padding. */
  lemma {:induction false} EncryptPasses(x: seq<byte>, keySize: nat, bufferSize: nat, pads: bool)
    ensures CheckEncrypt(|x|, keySize, bufferSize, pads) == Fine <==>
      && (pads || |x| % 16 == 0) && (keySize == 16 || keySize == 24 || keySize == 32)
      && |if pads then Padded(x) else x| <= bufferSize
    ensures CheckEncrypt(|x|, keySize, bufferSize, pads) == InvalidDataSize <==> !pads && |x| % 16 != 0
    ensures CheckEncrypt(|x|, keySize, bufferSize, pads) == InvalidKeySize ==>
      keySize != 16 && keySize != 24 && keySize != 32
  {
  }

  /** Decryption with padding removed may do with one block less than the data. */
  lemma {:induction false} DecryptPasses(dataSize: nat, keySize: nat, bufferSize: nat, unpads: bool)
    requires 0 < dataSize < ULONG
    ensures CheckDecrypt(dataSize, keySize, bufferSize, unpads) == Fine <==>
      && dataSize % 16 == 0 && (keySize == 16 || keySize == 24 || keySize == 32)
      && dataSize <= (if unpads then bufferSize + 16 else bufferSize)
    ensures CheckDecrypt(dataSize, keySize, bufferSize, unpads) == InvalidDataSize <==> dataSize % 16 != 0
    ensures CheckDecrypt(dataSize, keySize, bufferSize, unpads) == InvalidKeySize ==>
      keySize != 16 && keySize != 24 && keySize != 32
  {
    LargeData(dataSize);
  }

  // ---- what is read and written ------------------------------------------------------------

  function Max(a: nat, b: nat): nat { if a > b then a else b }

  /** How many bytes of the data are read and of the buffer written */
  datatype Extent = Extent(read: nat, written: nat)
  {
    predicate Within(dataSize: nat, bufferSize: nat) { read <= dataSize && written <= bufferSize }
  }

  /** encrypt_cbc: the first block, the middle blocks and the padded block */
  function EncryptCbcExtent(dataSize: nat, pads: bool): Extent {
    Extent(dataSize,
           Max(16, if pads && dataSize >= 16 then dataSize - dataSize % 16 + 16 else dataSize / 16 * 16))
  }

  /** The number of blocks decrypted to the buffer, also counted down below 0 for empty data */
  function BlocksBefore(dataSize: nat): nat { (dataSize / 16 - 1) % ULONG }

  /** decrypt_cbc: the first block, the middle blocks and the last one, whose end is written without
      looking at the buffer only if no padding is to be removed */
  function DecryptCbcExtent(dataSize: nat, unpads: bool): Extent {
    var n := BlocksBefore(dataSize);
    Extent(Max(16, if dataSize > 16 then 16 * n + 16 else 0), Max(16, if unpads then 16 * n else 16 * n + 16))
  }

  /** decrypt_ecb */
  function DecryptEcbExtent(dataSize: nat, unpads: bool): Extent {
    var n := BlocksBefore(dataSize);
    Extent(16 * n + 16, if unpads then 16 * n else 16 * n + 16)
  }

  /** Once its arguments have passed the checks encrypt_cbc stays within its buffers except for empty
      data, no padding and a buffer shorter than a block. */
  lemma {:induction false} EncryptCbcWithin(x: seq<byte>, keySize: nat, bufferSize: nat, pads: bool)
    requires CheckEncrypt(|x|, keySize, bufferSize, pads) == Fine
    ensures EncryptCbcExtent(|x|, pads).written == |Plain(x, pads)|
    ensures EncryptCbcExtent(|x|, pads).Within(|x|, bufferSize) <==> !(x == [] && !pads && bufferSize < 16)
  {
  }

  lemma {:induction false} BlocksBeforeIs(dataSize: nat)
    requires dataSize < ULONG && dataSize % 16 == 0
    ensures BlocksBefore(dataSize) == if dataSize == 0 then ULONG - 1 else dataSize / 16 - 1
  {
    if dataSize > 0 {
      ModuloIs(dataSize / 16 - 1, ULONG, 0, dataSize / 16 - 1);
    }
  }

  /** decrypt_cbc does except for empty data, and for a block of data with a buffer shorter than a block. */
  lemma {:induction false} DecryptCbcWithin(dataSize: nat, keySize: nat, bufferSize: nat, unpads: bool)
    requires CheckDecrypt(dataSize, keySize, bufferSize, unpads) == Fine && dataSize < ULONG
    ensures DecryptCbcExtent(dataSize, unpads).Within(dataSize, bufferSize) <==>
            !(dataSize == 0 || (dataSize == 16 && bufferSize < 16))
  {
    BlocksBeforeIs(dataSize);
    LargeData(dataSize);
  }

  /** decrypt_ecb does except for empty data. */
  lemma {:induction false} DecryptEcbWithin(dataSize: nat, keySize: nat, bufferSize: nat, unpads: bool)
    requires CheckDecrypt(dataSize, keySize, bufferSize, unpads) == Fine && dataSize < ULONG
    ensures DecryptEcbExtent(dataSize, unpads).Within(dataSize, bufferSize) <==> dataSize != 0
  {
    BlocksBeforeIs(dataSize);
    LargeData(dataSize);
  }

  lemma {:induction false} LargeData(dataSize: nat)
    requires dataSize < ULONG
    ensures dataSize >= 16 ==> (dataSize - 16) % ULONG == dataSize - 16
  {
    if dataSize >= 16 { ModuloIs(dataSize - 16, ULONG, 0, dataSize - 16); }
  }

  /** Arguments that pass the checks and make each of them leave its buffers */
  lemma {:induction false} BeyondBuffers(keySize: nat, bufferSize: nat)
    requires ValidKeySize(keySize) && bufferSize < 16
    ensures CheckEncrypt(0, keySize, bufferSize, false) == Fine && !EncryptCbcExtent(0, false).Within(0, bufferSize)
    ensures CheckDecrypt(16, keySize, bufferSize, true) == Fine && !DecryptCbcExtent(16, true).Within(16, bufferSize)
    ensures CheckDecrypt(0, keySize, bufferSize, false) == Fine && !DecryptEcbExtent(0, false).Within(0, bufferSize)
  {
    DecryptCbcWithin(16, keySize, bufferSize, true);
    DecryptEcbWithin(0, keySize, bufferSize, false);
  }

  // ---- CBC encryption ----------------------------------------------------------------------

  function Start(iv: Option<Block>): Block { if iv.Some? then iv.value else ZEROS }

  /** xor_data */
  method XorData(a: array<byte>, at: nat, v: Block)
    requires at + 16 <= a.Length
    modifies a
    ensures a[..] == Overwritten(old(a[..]), at, Xored(old(a[at..at + 16]), v))
  {
    for i := 0 to 16
      invariant forall j :: 0 <= j < i ==> a[at + j] == old(a[at + j]) ^ v[j]
      invariant forall j :: 0 <= j < a.Length && (j < at || j >= at + i) ==> a[j] == old(a[j])
    {
      a[at + i] := a[at + i] ^ v[i];
    }
  }

  /** Block i of some data */
  function BlockAt(x: seq<byte>, i: nat): Block
    requires 16 * i + 16 <= |x|
  {
    x[16 * i..16 * i + 16]
  }

  lemma {:induction false} NextBlock(x: seq<byte>, i: nat)
    requires 16 * i + 16 <= |x|
    ensures x[..16 * i + 16] == x[..16 * i] + BlockAt(x, i)
  {
  }

  /** What is encrypted: data shorter than a block, that is, empty data too, is padded even if the
      caller did not ask for padding. */
  function Plain(x: seq<byte>, pads: bool): (r: seq<byte>)
    requires !pads ==> |x| % 16 == 0
    ensures |r| % 16 == 0 && |r| >= 16
  {
    if pads || x == [] then Padded(x) else x
  }

  /** The first block, before the initialization vector is added. */
  method FirstBlock(data: array<byte>) returns (s: array<byte>)
    ensures s.Length == 16 && fresh(s)
    ensures s[..] == if data.Length >= 16 then data[..16] else Padded(data[..])
  {
    s := new byte[16];
    if data.Length >= 16 {
      CopyTo(data[..16], s, 0);
    } else {
      CopyTo(seq(16, i => PadByte(16 - data.Length % 16)), s, 0);
      CopyTo(data[..], s, 0);
    }
  }

  /** One block of the chain: copy, add the block before, encrypt. */
  method ChainBlock(ghost e: Cipher, keys: seq<State>, b: Block, previous: Block, out: array<byte>, to: nat)
    requires |keys| >= 2 && IsEncrypt(e, keys) && to + 16 <= out.Length
    modifies out
    ensures out[..] == Overwritten(old(out[..]), to, e(Xored(b, previous)))
  {
    var s := new byte[16];
    CopyTo(b, s, 0);
    OverwriteAll(s[..], b);
    assert s[0..0 + 16] == b;
    XorData(s, 0, previous);
    assert s[0..0 + 16] == Xored(b, previous);
    EncryptState(e, keys, s, 0, out, to);
  }

  method ChainFirst(ghost e: Cipher, keys: seq<State>, data: array<byte>, iv: Option<Block>, out: array<byte>)
    requires |keys| >= 2 && IsEncrypt(e, keys) && out.Length >= 16
    modifies out
    ensures var b := if data.Length >= 16 then old(data[..16]) else Padded(old(data[..]));
      out[..] == Overwritten(old(out[..]), 0, Chain(e, Start(iv), b))
  {
    var s := FirstBlock(data);
    ChainOfOne(e, Start(iv), s[..]);
    AddStart(s, iv);
    assert s[0..0 + 16] == s[..];
    EncryptState(e, keys, s, 0, out, 0);
  }

  /** The initialization vector, if there is one */
  method AddStart(s: array<byte>, iv: Option<Block>)
    requires s.Length == 16
    modifies s
    ensures s[..] == Xored(old(s[..]), Start(iv))
  {
    ghost var b: Block := s[..];
    assert s[0..0 + 16] == b;
    if iv.Some? {
      XorData(s, 0, iv.value);
      OverwriteAll(b, Xored(b, iv.value));
    } else {
      XoredZeros(b);
    }
  }

  lemma {:induction false} ChainOfOne(e: Cipher, iv: Block, b: Block)
    ensures Chain(e, iv, b) == e(Xored(b, iv))
  {
    ChainStep(e, iv, [], b);
    assert [] + b == b;
  }

  lemma {:induction false} UnchainOfOne(d: Cipher, iv: Block, b: Block)
    ensures Unchain(d, iv, b) == Xored(d(b), iv)
  {
    UnchainStep(d, iv, [], b);
    assert [] + b == b;
  }

  /** The buffer holds x, chained, over what was there before. */
  ghost predicate Chained(e: Cipher, iv: Block, x: seq<byte>, before: seq<byte>, now: seq<byte>) {
    |x| % 16 == 0 && |x| <= |before| && now == Overwritten(before, 0, Chain(e, iv, x))
  }

  /** The loop over the middle blocks of n */
  method ChainMiddle(ghost e: Cipher, keys: seq<State>, data: array<byte>, n: nat, ghost iv: Block, out: array<byte>,
                     ghost before: seq<byte>)
    requires |keys| >= 2 && IsEncrypt(e, keys) && data != out && 1 <= n
    requires 16 * n <= data.Length <= out.Length == |before|
    requires Chained(e, iv, data[..16], before, out[..])
    modifies out
    ensures Chained(e, iv, data[..16 * n], before, out[..])
  {
    var at := 16;
    for i := 1 to n
      invariant at == 16 * i && Chained(e, iv, data[..at], before, out[..])
    {
      ChainNext(e, keys, data, at, iv, out, before);
      at := at + 16;
    }
  }

  method ChainNext(ghost e: Cipher, keys: seq<State>, data: array<byte>, at: nat, ghost iv: Block, out: array<byte>,
                   ghost before: seq<byte>)
    requires |keys| >= 2 && IsEncrypt(e, keys) && data != out && 16 <= at
    requires at + 16 <= data.Length && at + 16 <= out.Length == |before|
    requires Chained(e, iv, data[..at], before, out[..])
    modifies out
    ensures Chained(e, iv, data[..at + 16], before, out[..])
  {
    assert data[..at + 16] == data[..at] + data[at..at + 16];
    ChainOne(e, keys, data[..at], data[at..at + 16], iv, out, at, before);
  }

  /** The padded block after the data, if the data filled at least one block. */
  method ChainLast(ghost e: Cipher, keys: seq<State>, data: array<byte>, ghost iv: Block, out: array<byte>,
                   ghost before: seq<byte>)
    requires |keys| >= 2 && IsEncrypt(e, keys) && data != out && 16 <= data.Length
    requires PaddedSize(data.Length) <= out.Length == |before|
    requires Chained(e, iv, data[..data.Length / 16 * 16], before, out[..])
    modifies out
    ensures Chained(e, iv, Padded(data[..]), before, out[..])
  {
    var ib := PaddedBlock(data);
    ChainOne(e, keys, data[..data.Length / 16 * 16], ib[..], iv, out, data.Length / 16 * 16, before);
  }

  /** One more block, when x is chained already */
  method ChainOne(ghost e: Cipher, keys: seq<State>, ghost x: seq<byte>, b: Block, ghost iv: Block, out: array<byte>,
                  at: nat, ghost before: seq<byte>)
    requires |keys| >= 2 && IsEncrypt(e, keys) && 16 <= |x| == at && at + 16 <= out.Length == |before|
    requires Chained(e, iv, x, before, out[..])
    modifies out
    ensures Chained(e, iv, x + b, before, out[..])
  {
    ChainedNext(e, iv, x, b, before, out[..]);
    assert out[at - 16..at] == out[..][at - 16..at];
    ChainBlock(e, keys, b, out[at - 16..at], out, at);
  }

  lemma {:induction false} ChainedNext(e: Cipher, iv: Block, x: seq<byte>, b: Block, before: seq<byte>, now: seq<byte>)
    requires 16 <= |x| && |x| + 16 <= |before| && Chained(e, iv, x, before, now)
    ensures Chained(e, iv, x + b, before, Overwritten(now, |x|, e(Xored(b, now[|x| - 16..|x|]))))
  {
    var y := Chain(e, iv, x);
    assert now[|x| - 16..|x|] == Last(y);
    OverwriteNext(before, 0, y, e(Xored(b, Last(y))));
    ChainStep(e, iv, x, b);
  }

  /** What is left of the data after its whole blocks, padded */
  method PaddedBlock(data: array<byte>) returns (ib: array<byte>)
    ensures ib.Length == 16 && fresh(ib)
    ensures Padded(data[..]) == data[..data.Length / 16 * 16] + ib[..]
  {
    var rem := data.Length % 16;
    ib := new byte[16];
    ghost var blank, filled, x := ib[..], Repeated(PadByte(16 - rem), 16), data[..];
    CopyTo(Repeated(PadByte(16 - rem), 16), ib, 0);
    OverwriteAll(blank, filled);
    assert data[data.Length - rem..] == x[|x| - rem..] && data[..data.Length / 16 * 16] == x[..|x| / 16 * 16];
    CopyTo(data[data.Length - rem..], ib, 0);
    PaddedRest(x, rem, filled);
  }

  lemma {:induction false} PaddedRest(x: seq<byte>, rem: nat, filled: seq<byte>)
    requires rem == |x| % 16 && filled == Repeated(PadByte(16 - rem), 16)
    ensures Padded(x) == x[..|x| / 16 * 16] + Overwritten(filled, 0, x[|x| - rem..])
  {
    assert |x| - rem == |x| / 16 * 16;
    assert x == x[..|x| - rem] + x[|x| - rem..];
    assert filled[rem..] == Padding(16 - rem);
  }

  method ChainAll(ghost e: Cipher, keys: seq<State>, data: array<byte>, iv: Option<Block>, out: array<byte>, pads: bool)
    requires |keys| >= 2 && IsEncrypt(e, keys) && data != out && (!pads ==> data.Length % 16 == 0)
    requires out.Length >= |Plain(data[..], pads)|
    modifies out
    ensures out[..] == Overwritten(old(out[..]), 0, Chain(e, Start(iv), Plain(old(data[..]), pads)))
  {
    ghost var before := out[..];
    ChainFirst(e, keys, data, iv, out);
    if data.Length >= 16 {
      var n := data.Length / 16;
      ChainMiddle(e, keys, data, n, Start(iv), out, before);
      assert data[..16 * n] == data[..data.Length / 16 * 16];
      if pads {
        ChainLast(e, keys, data, Start(iv), out, before);
      } else {
        assert data[..16 * n] == data[..];
      }
    }
  }

  // ---- CBC decryption ----------------------------------------------------------------------

  /** check_padding */
  method CheckPadding(padding: nat, last: array<byte>) returns (ok: bool)
    requires last.Length == 16 && padding == Claimed(last[..])
    ensures ok == Accepted(last[..])
  {
    if padding > 16 {
      return false;
    }
    for i := 0 to padding
      invariant forall j :: 16 - i <= j < 16 ==> last[j] as nat == padding
    {
      if last[15 - i] as nat != padding {
        assert last[..][15 - i] as nat != padding;
        return false;
      }
    }
    ok := true;
  }

  /** What becomes of the last block of the decrypted text y. */
  function Outcome(y: seq<byte>, bufferSize: nat, unpads: bool): Error
    requires |y| >= 16
  {
    if !unpads then Fine
    else if !Accepted(y) then InvalidKey
    else if bufferSize < |y| - Claimed(y) then InvalidBufferSize
    else Fine
  }

  /** The buffer, the return value and *padded_size (None if it is not written) */
  datatype Decryption = Decryption(buffer: seq<byte>, result: Error, padded: Option<nat>)

  /** The end of decrypt_cbc and decrypt_ecb, when y was decrypted and all but its last block is in
      the buffer */
  function Finished(base: seq<byte>, y: seq<byte>, unpads: bool): Decryption
    requires 16 <= |y| <= |base| + 16 && (!unpads ==> |y| <= |base|)
  {
    var r := Outcome(y, |base|, unpads);
    var kept := if unpads && r == Fine then Last(y)[..16 - Claimed(y)] else Last(y);
    Decryption(if r == Fine then Overwritten(base, |y| - 16, kept) else base, r,
               if unpads then Some(Claimed(y)) else None)
  }

  method Finish(last: array<byte>, out: array<byte>, unpads: bool, ghost y: seq<byte>, at: nat)
    returns (r: Error, padded: Option<nat>)
    requires last.Length == 16 && last != out && |y| == at + 16 && last[..] == Last(y)
    requires at <= out.Length && (!unpads ==> at + 16 <= out.Length)
    modifies out
    ensures Decryption(out[..], r, padded) == Finished(old(out[..]), y, unpads)
  {
    LastDecides(y);
    r, padded := Fine, None;
    if unpads {
      var n := last[15] as nat;
      padded := Some(n);
      var ok := CheckPadding(n, last);
      if !ok {
        r := InvalidKey;
      } else if out.Length >= at + 16 - n {
        CopyTo(last[..16 - n], out, at);
      } else {
        r := InvalidBufferSize;
      }
    } else {
      CopyTo(last[..], out, at);
    }
  }

  lemma {:induction false} LastDecides(y: seq<byte>)
    requires |y| >= 16
    ensures Claimed(y) == Claimed(Last(y)) && (Accepted(y) <==> Accepted(Last(y)))
  {
    var n, m := Claimed(y), |y| - 16;
    assert forall i :: 16 - n <= i < 16 && n <= 16 ==> Last(y)[i] == y[m + i];
    if Accepted(Last(y)) {
      forall i | |y| - n <= i < |y| ensures y[i] as nat == n { assert y[i] == Last(y)[i - m]; }
    }
  }

  /** Decrypts block `i` to the same place and takes the block before off it. */
  method UnchainBlock(ghost d: Cipher, keys: seq<State>, data: array<byte>, from: nat, previous: Block,
                      out: array<byte>, to: nat)
    requires |keys| >= 2 && IsDecrypt(d, keys) && data != out && from + 16 <= data.Length && to + 16 <= out.Length
    modifies out
    ensures out[..] == Overwritten(old(out[..]), to, Xored(d(data[from..from + 16]), previous))
  {
    ghost var before, b := out[..], data[from..from + 16];
    DecryptState(d, keys, data, from, out, to);
    assert out[to..to + 16] == d(b);
    XorData(out, to, previous);
    assert out[..] == Overwritten(Overwritten(before, to, d(b)), to, Xored(d(b), previous));
  }

  method UnchainFirst(ghost d: Cipher, keys: seq<State>, data: array<byte>, iv: Option<Block>, out: array<byte>)
    requires |keys| >= 2 && IsDecrypt(d, keys) && data != out && data.Length >= 16 && out.Length >= 16
    modifies out
    ensures out[..] == Overwritten(old(out[..]), 0, Unchain(d, Start(iv), data[..16]))
  {
    ghost var b: Block := data[..16];
    assert data[0..0 + 16] == b;
    if iv.Some? {
      UnchainBlock(d, keys, data, 0, iv.value, out, 0);
    } else {
      DecryptState(d, keys, data, 0, out, 0);
      XoredZeros(d(b));
    }
    UnchainOfOne(d, Start(iv), b);
  }

  /** The buffer holds y, unchained, over what was there before. */
  ghost predicate Unchained(d: Cipher, iv: Block, y: seq<byte>, before: seq<byte>, now: seq<byte>) {
    |y| % 16 == 0 && |y| <= |before| && now == Overwritten(before, 0, Unchain(d, iv, y))
  }

  /** The loop over the middle blocks up to block n */
  method UnchainMiddle(ghost d: Cipher, keys: seq<State>, data: array<byte>, n: nat, ghost iv: Block, out: array<byte>,
                       ghost before: seq<byte>)
    requires |keys| >= 2 && IsDecrypt(d, keys) && data != out && 1 <= n && 16 * n <= data.Length
    requires 16 * n <= out.Length == |before|
    requires Unchained(d, iv, data[..16], before, out[..])
    modifies out
    ensures Unchained(d, iv, data[..16 * n], before, out[..])
  {
    var at := 16;
    for i := 1 to n
      invariant at == 16 * i && Unchained(d, iv, data[..at], before, out[..])
    {
      UnchainNext(d, keys, data, at, iv, out, before);
      at := at + 16;
    }
  }

  method UnchainNext(ghost d: Cipher, keys: seq<State>, data: array<byte>, at: nat, ghost iv: Block, out: array<byte>,
                     ghost before: seq<byte>)
    requires |keys| >= 2 && IsDecrypt(d, keys) && data != out && 16 <= at
    requires at + 16 <= data.Length && at + 16 <= out.Length == |before|
    requires Unchained(d, iv, data[..at], before, out[..])
    modifies out
    ensures Unchained(d, iv, data[..at + 16], before, out[..])
  {
    UnchainedNext(d, iv, data[..at], data[at..at + 16], before, out[..]);
    assert data[..at + 16] == data[..at] + data[at..at + 16];
    assert data[at - 16..at] == Last(data[..at]);
    UnchainBlock(d, keys, data, at, data[at - 16..at], out, at);
  }

  lemma {:induction false} UnchainedNext(d: Cipher, iv: Block, y: seq<byte>, b: Block, before: seq<byte>,
                                         now: seq<byte>)
    requires 16 <= |y| && |y| + 16 <= |before| && Unchained(d, iv, y, before, now)
    ensures Unchained(d, iv, y + b, before, Overwritten(now, |y|, Xored(d(b), Last(y))))
  {
    UnchainStep(d, iv, y, b);
    OverwrittenOn(before, Unchain(d, iv, y), Xored(d(b), Last(y)), now, Unchain(d, iv, y + b));
  }

  /** The buffer before the last block is put into it; a single block has gone through it, and it
      has been cleared afterwards. */
  function Cleared(before: seq<byte>, y: seq<byte>): (r: seq<byte>)
    requires 16 <= |y| <= |before| + 16
    ensures |r| == |before|
  {
    if |y| == 16 then Repeated(0, |before|) else Overwritten(before, 0, Front(y))
  }

  /** The last block, if there is one before it */
  method UnchainLast(ghost d: Cipher, keys: seq<State>, data: array<byte>, ghost iv: Block, last: array<byte>)
    requires |keys| >= 2 && IsDecrypt(d, keys) && data != last && data.Length >= 32 && data.Length % 16 == 0
    requires last.Length == 16
    modifies last
    ensures last[..] == Last(Unchain(d, iv, data[..]))
    ensures Front(Unchain(d, iv, data[..])) == Unchain(d, iv, data[..data.Length - 16])
  {
    var n := data.Length - 16;
    ghost var front, b := data[..n], data[n..n + 16];
    assert data[..] == front + b;
    assert data[n - 16..n] == Last(front);
    UnchainStep(d, iv, front, b);
    FrontLast(Unchain(d, iv, front), Xored(d(b), Last(front)));
    UnchainBlock(d, keys, data, n, data[n - 16..n], last, 0);
    OverwriteAll(old(last[..]), Xored(d(b), Last(front)));
  }

  /** The whole text in two parts: all but its last block in the buffer, the last one apart. */
  method UnchainAll(ghost d: Cipher, keys: seq<State>, data: array<byte>, iv: Option<Block>, out: array<byte>)
    returns (last: array<byte>)
    requires |keys| >= 2 && IsDecrypt(d, keys) && data != out && data.Length >= 16 && data.Length % 16 == 0
    requires out.Length >= 16 && out.Length >= data.Length - 16
    modifies out
    ensures last.Length == 16 && fresh(last)
    ensures last[..] == Last(Unchain(d, Start(iv), data[..]))
    ensures out[..] == Cleared(old(out[..]), Unchain(d, Start(iv), data[..]))
  {
    ghost var before := out[..];
    last := new byte[16];
    UnchainFirst(d, keys, data, iv, out);
    assert Unchained(d, Start(iv), data[..16], before, out[..]);
    if data.Length > 16 {
      var n := data.Length / 16 - 1;
      assert 16 * n == data.Length - 16;
      UnchainMiddle(d, keys, data, n, Start(iv), out, before);
      UnchainLast(d, keys, data, Start(iv), last);
    } else {
      assert data[..16] == data[..];
      MoveOut(out, last, Unchain(d, Start(iv), data[..]));
    }
  }

  /** A single block is copied from the buffer, which is cleared. */
  method MoveOut(out: array<byte>, last: array<byte>, ghost b: Block)
    requires out != last && last.Length == 16 && out.Length >= 16 && out[..16] == b
    modifies out, last
    ensures last[..] == b && out[..] == Repeated(0, out.Length)
  {
    CopyTo(out[..16], last, 0);
    OverwriteAll(old(last[..]), b);
    Fill(out, 0, out.Length, 0);
  }

  // ---- the functions callers see -----------------------------------------------------------

  /** The block cipher under a key, of no meaning for a key of the wrong size */
  function EncryptWith(key: seq<byte>): Cipher {
    if ValidKeySize(|key|) then
      var keys := Expanded(key);
      b => Encrypt(keys, b)
    else b => b
  }

  function DecryptWith(key: seq<byte>): Cipher {
    if ValidKeySize(|key|) then
      var keys := Expanded(key);
      b => Decrypt(keys, b)
    else b => b
  }

  lemma {:induction false} CipherAgrees(key: seq<byte>)
    requires ValidKeySize(|key|)
    ensures IsEncrypt(EncryptWith(key), Expanded(key)) && IsDecrypt(DecryptWith(key), Expanded(key))
  {
  }

  /** The block cipher under a key is AES: figure 5 of FIPS 197 with the key schedule of section 5.2. */
  lemma {:induction false} CipherIsStandard(key: seq<byte>, b: Block)
    requires ValidKeySize(|key|)
    ensures AesStandard.IsSchedule(Sbox, Plus, key, Expanded(key))
    ensures EncryptWith(key)(b) == AesStandard.Cipher(AesStandard.Stored(Expanded(key)), b)
  {
    AesStandard.ExpandedIsSchedule(key);
    AesStandard.EncryptIsCipher(Expanded(key), b);
  }

  lemma {:induction false} CipherInverts(key: seq<byte>)
    requires ValidKeySize(|key|)
    ensures Inverts(DecryptWith(key), EncryptWith(key)) && Inverts(EncryptWith(key), DecryptWith(key))
  {
    var keys := Expanded(key);
    forall b: Block ensures DecryptWith(key)(EncryptWith(key)(b)) == b { DecryptEncrypt(keys, b); }
    forall b: Block ensures EncryptWith(key)(DecryptWith(key)(b)) == b { EncryptDecrypt(keys, b); }
  }

  /** What encrypt_cbc returns */
  function EncryptCbcResult(dataSize: nat, keySize: nat, bufferSize: nat, pads: bool): Error {
    var e := CheckEncrypt(dataSize, keySize, bufferSize, pads);
    if e == Fine && dataSize == 0 && !pads && bufferSize < 16 then OutOfBounds else e
  }

  method EncryptCbc(data: array<byte>, key: array<byte>, iv: Option<Block>, out: array<byte>, pads: bool)
    returns (r: Error)
    requires data != out && key != out
    modifies out
    ensures r == EncryptCbcResult(data.Length, key.Length, out.Length, pads)
    ensures out[..] == if r != Fine then old(out[..])
      else Overwritten(old(out[..]), 0, Chain(EncryptWith(key[..]), Start(iv), Plain(data[..], pads)))
  {
    r := CheckEncrypt(data.Length, key.Length, out.Length, pads);
    if r != Fine {
      return;
    }
    EncryptCbcWithin(data[..], key.Length, out.Length, pads);
    if !EncryptCbcExtent(data.Length, pads).Within(data.Length, out.Length) {
      return OutOfBounds;
    }
    var keys := ExpandKey(key);
    CipherAgrees(key[..]);
    ChainAll(EncryptWith(key[..]), keys, data, iv, out, pads);
  }

  lemma {:induction false} CheckedSizes(dataSize: nat, keySize: nat, bufferSize: nat, unpads: bool)
    requires CheckDecrypt(dataSize, keySize, bufferSize, unpads) == Fine && 0 < dataSize < ULONG
    ensures ValidKeySize(keySize) && dataSize % 16 == 0 && 16 <= dataSize <= bufferSize + 16
    ensures !unpads ==> dataSize <= bufferSize
  {
    LargeData(dataSize);
  }

  /** Everything decrypt_cbc does with the block cipher d, when the buffer had the content `before`.
      One block of data needs a buffer of one block, even if all of it is padding. */
  function CbcDecryption(d: Cipher, keySize: nat, before: seq<byte>, iv: Block, c: seq<byte>, unpads: bool): Decryption
    requires |c| < ULONG
  {
    var e := CheckDecrypt(|c|, keySize, |before|, unpads);
    if e != Fine then Decryption(before, e, None)
    else if c == [] || (|c| == 16 && |before| < 16) then Decryption(before, OutOfBounds, None)
    else
      CheckedSizes(|c|, keySize, |before|, unpads);
      var y := Unchain(d, iv, c);
      Finished(Cleared(before, y), y, unpads)
  }

  method DecryptCbc(data: array<byte>, key: array<byte>, iv: Option<Block>, out: array<byte>, unpads: bool)
    returns (r: Error, padded: Option<nat>)
    requires data != out && key != out && data.Length < ULONG
    modifies out
    ensures Decryption(out[..], r, padded) ==
      CbcDecryption(DecryptWith(key[..]), key.Length, old(out[..]), Start(iv), data[..], unpads)
  {
    r, padded := CheckDecrypt(data.Length, key.Length, out.Length, unpads), None;
    if r != Fine {
      return;
    }
    DecryptCbcWithin(data.Length, key.Length, out.Length, unpads);
    if !DecryptCbcExtent(data.Length, unpads).Within(data.Length, out.Length) {
      return OutOfBounds, None;
    }
    CheckedSizes(data.Length, key.Length, out.Length, unpads);
    var keys := ExpandKey(key);
    CipherAgrees(key[..]);
    r, padded := UnchainToBuffer(DecryptWith(key[..]), keys, data, iv, out, unpads);
  }

  method UnchainToBuffer(ghost d: Cipher, keys: seq<State>, data: array<byte>, iv: Option<Block>, out: array<byte>,
                         unpads: bool)
    returns (r: Error, padded: Option<nat>)
    requires |keys| >= 2 && IsDecrypt(d, keys) && data != out && data.Length >= 16 && data.Length % 16 == 0
    requires out.Length >= 16 && out.Length >= data.Length - 16 && (!unpads ==> data.Length <= out.Length)
    modifies out
    ensures var y := Unchain(d, Start(iv), data[..]);
      Decryption(out[..], r, padded) == Finished(Cleared(old(out[..]), y), y, unpads)
  {
    var last := UnchainAll(d, keys, data, iv, out);
    r, padded := Finish(last, out, unpads, Unchain(d, Start(iv), data[..]), data.Length - 16);
  }

  // ---- ECB ---------------------------------------------------------------------------------

  // The loops over whole blocks

  method EncryptBlockAt(ghost e: Cipher, keys: seq<State>, data: array<byte>, out: array<byte>, i: nat,
                        ghost before: seq<byte>)
    requires |keys| >= 2 && IsEncrypt(e, keys) && data != out && 16 * i + 16 <= data.Length
    requires 16 * i + 16 <= out.Length == |before|
    requires out[..] == Overwritten(before, 0, Each(e, data[..16 * i]))
    modifies out
    ensures out[..] == Overwritten(before, 0, Each(e, data[..16 * i + 16]))
  {
    ghost var x, y := data[..], Each(e, data[..16 * i]);
    assert data[16 * i..16 * i + 16] == BlockAt(x, i);
    EncryptState(e, keys, data, 16 * i, out, 16 * i);
    OverwriteNext(before, 0, y, e(BlockAt(x, i)));
    EachStep(e, x[..16 * i], BlockAt(x, i));
    NextBlock(x, i);
  }

  method EachEncrypted(ghost e: Cipher, keys: seq<State>, data: array<byte>, out: array<byte>, n: nat)
    requires |keys| >= 2 && IsEncrypt(e, keys) && data != out && 16 * n <= data.Length && 16 * n <= out.Length
    modifies out
    ensures out[..] == Overwritten(old(out[..]), 0, Each(e, data[..16 * n]))
  {
    ghost var before := out[..];
    for i := 0 to n
      invariant out[..] == Overwritten(before, 0, Each(e, data[..16 * i]))
    {
      EncryptBlockAt(e, keys, data, out, i, before);
    }
  }

  method DecryptBlockAt(ghost e: Cipher, keys: seq<State>, data: array<byte>, out: array<byte>, i: nat,
                        ghost before: seq<byte>)
    requires |keys| >= 2 && IsDecrypt(e, keys) && data != out && 16 * i + 16 <= data.Length
    requires 16 * i + 16 <= out.Length == |before|
    requires out[..] == Overwritten(before, 0, Each(e, data[..16 * i]))
    modifies out
    ensures out[..] == Overwritten(before, 0, Each(e, data[..16 * i + 16]))
  {
    ghost var x, y := data[..], Each(e, data[..16 * i]);
    assert data[16 * i..16 * i + 16] == BlockAt(x, i);
    DecryptState(e, keys, data, 16 * i, out, 16 * i);
    OverwriteNext(before, 0, y, e(BlockAt(x, i)));
    EachStep(e, x[..16 * i], BlockAt(x, i));
    NextBlock(x, i);
  }

  method EachDecrypted(ghost e: Cipher, keys: seq<State>, data: array<byte>, out: array<byte>, n: nat)
    requires |keys| >= 2 && IsDecrypt(e, keys) && data != out && 16 * n <= data.Length && 16 * n <= out.Length
    modifies out
    ensures out[..] == Overwritten(old(out[..]), 0, Each(e, data[..16 * n]))
  {
    ghost var before := out[..];
    for i := 0 to n
      invariant out[..] == Overwritten(before, 0, Each(e, data[..16 * i]))
    {
      DecryptBlockAt(e, keys, data, out, i, before);
    }
  }

  /** The padded block at the end */
  method EachLast(ghost e: Cipher, keys: seq<State>, data: array<byte>, out: array<byte>, ghost before: seq<byte>)
    requires |keys| >= 2 && IsEncrypt(e, keys) && data != out && PaddedSize(data.Length) <= out.Length == |before|
    requires out[..] == Overwritten(before, 0, Each(e, data[..data.Length / 16 * 16]))
    modifies out
    ensures out[..] == Overwritten(before, 0, Each(e, Padded(data[..])))
  {
    var n := data.Length / 16 * 16;
    var ib := PaddedBlock(data);
    ghost var x, b: Block, y := data[..n], ib[..], Each(e, data[..n]);
    EncryptApart(e, keys, ib, out, n);
    EachStep(e, x, b);
    OverwriteNext(before, 0, y, e(b));
    assert Padded(data[..]) == x + b;
  }

  /** Encrypts a block to a buffer of its own and copies the result. */
  method EncryptApart(ghost e: Cipher, keys: seq<State>, ib: array<byte>, out: array<byte>, at: nat)
    requires |keys| >= 2 && IsEncrypt(e, keys) && ib.Length == 16 && at + 16 <= out.Length
    modifies out
    ensures out[..] == Overwritten(old(out[..]), at, e(old(ib[..])))
  {
    ghost var b: Block := ib[..];
    var ob := new byte[16];
    ghost var blank := ob[..];
    assert ib[0..0 + 16] == b;
    EncryptState(e, keys, ib, 0, ob, 0);
    OverwriteAll(blank, e(b));
    CopyTo(ob[..], out, at);
  }

  method EncryptEcb(data: array<byte>, key: array<byte>, out: array<byte>, pads: bool) returns (r: Error)
    requires data != out && key != out
    modifies out
    ensures r == CheckEncrypt(data.Length, key.Length, out.Length, pads)
    ensures out[..] == if r != Fine then old(out[..])
      else Overwritten(old(out[..]), 0, Each(EncryptWith(key[..]), if pads then Padded(data[..]) else data[..]))
  {
    r := CheckEncrypt(data.Length, key.Length, out.Length, pads);
    if r != Fine {
      return;
    }
    var keys := ExpandKey(key);
    CipherAgrees(key[..]);
    EachToBuffer(EncryptWith(key[..]), keys, data, out, pads);
  }

  method EachToBuffer(ghost e: Cipher, keys: seq<State>, data: array<byte>, out: array<byte>, pads: bool)
    requires |keys| >= 2 && IsEncrypt(e, keys) && data != out
    requires if pads then PaddedSize(data.Length) <= out.Length else data.Length % 16 == 0 && data.Length <= out.Length
    modifies out
    ensures out[..] == Overwritten(old(out[..]), 0, Each(e, if pads then Padded(data[..]) else data[..]))
  {
    ghost var before := out[..];
    EachEncrypted(e, keys, data, out, data.Length / 16);
    if pads {
      EachLast(e, keys, data, out, before);
    } else {
      assert data[..16 * (data.Length / 16)] == data[..];
    }
  }

  /** Everything decrypt_ecb does with the block cipher d */
  function EcbDecryption(d: Cipher, keySize: nat, before: seq<byte>, c: seq<byte>, unpads: bool): Decryption
    requires |c| < ULONG
  {
    var e := CheckDecrypt(|c|, keySize, |before|, unpads);
    if e != Fine then Decryption(before, e, None)
    else if c == [] then Decryption(before, OutOfBounds, None)
    else
      CheckedSizes(|c|, keySize, |before|, unpads);
      var y := Each(d, c);
      Finished(Overwritten(before, 0, Front(y)), y, unpads)
  }

  method DecryptEcb(data: array<byte>, key: array<byte>, out: array<byte>, unpads: bool)
    returns (r: Error, padded: Option<nat>)
    requires data != out && key != out && data.Length < ULONG
    modifies out
    ensures Decryption(out[..], r, padded) ==
      EcbDecryption(DecryptWith(key[..]), key.Length, old(out[..]), data[..], unpads)
  {
    r, padded := CheckDecrypt(data.Length, key.Length, out.Length, unpads), None;
    if r != Fine {
      return;
    }
    DecryptEcbWithin(data.Length, key.Length, out.Length, unpads);
    if !DecryptEcbExtent(data.Length, unpads).Within(data.Length, out.Length) {
      return OutOfBounds, None;
    }
    CheckedSizes(data.Length, key.Length, out.Length, unpads);
    var keys := ExpandKey(key);
    CipherAgrees(key[..]);
    r, padded := EachFromBuffer(DecryptWith(key[..]), keys, data, out, unpads);
  }

  method EachFromBuffer(ghost d: Cipher, keys: seq<State>, data: array<byte>, out: array<byte>, unpads: bool)
    returns (r: Error, padded: Option<nat>)
    requires |keys| >= 2 && IsDecrypt(d, keys) && data != out && data.Length >= 16 && data.Length % 16 == 0
    requires out.Length >= data.Length - 16 && (!unpads ==> data.Length <= out.Length)
    modifies out
    ensures var y := Each(d, data[..]);
      Decryption(out[..], r, padded) == Finished(Overwritten(old(out[..]), 0, Front(y)), y, unpads)
  {
    var n := data.Length / 16 - 1;
    EachDecrypted(d, keys, data, out, n);
    var last := EachLastDecrypted(d, keys, data);
    r, padded := Finish(last, out, unpads, Each(d, data[..]), n * 16);
  }

  method EachLastDecrypted(ghost d: Cipher, keys: seq<State>, data: array<byte>) returns (last: array<byte>)
    requires |keys| >= 2 && IsDecrypt(d, keys) && data.Length >= 16 && data.Length % 16 == 0
    ensures last.Length == 16 && fresh(last) && last[..] == Last(Each(d, data[..]))
    ensures Front(Each(d, data[..])) == Each(d, data[..16 * (data.Length / 16 - 1)])
  {
    var n := data.Length - 16;
    ghost var front, b := data[..n], data[n..n + 16];
    last := new byte[16];
    DecryptState(d, keys, data, n, last, 0);
    OverwriteAll(seq(16, i => 0), d(b));
    assert last[..] == d(b);
    assert data[..] == front + b;
    EachStep(d, front, b);
    FrontLast(Each(d, front), d(b));
  }

  // ---- CTR ---------------------------------------------------------------------------------

  /** One byte of the increment: what was carried into it, its new value and what it carries on. */
  lemma {:induction false} CarryOn(b: nat, rest: seq<nat>, old_rest: seq<nat>, c: nat)
    requires |rest| == |old_rest| && Value(rest) + c * Pow256(|rest|) == Value(old_rest) + 1
    ensures Value([(c + b) % 256] + rest) + (c + b) / 256 * Pow256(|rest| + 1) == Value([b] + old_rest) + 1
  {
    var sum := c + b;
    ValueFromFront(sum % 256, rest);
    ValueFromFront(b, old_rest);
    CarrySum(b, c, sum / 256, sum % 256, Pow256(|rest|), Value(rest), Value(old_rest));
  }

  lemma {:induction false} CarrySum(b: nat, c: nat, q: nat, r: nat, p: nat, v: nat, w: nat)
    requires v + c * p == w + 1 && q * 256 + r == c + b
    ensures r * p + v + q * (256 * p) == b * p + w + 1
  {
    assert (q * 256 + r) * p == (c + b) * p;
  }

  lemma {:induction false} CarryOut(after: seq<nat>, before: seq<nat>, c: nat)
    requires |after| == |before| && AreDigits(after) && Value(after) + c * Pow256(|after|) == Value(before) + 1
    ensures after == Counted(before, 1)
  {
    ValueBound(after);
    BigEndianOfValue(after);
    ModuloIs(Value(before) + 1, Pow256(|after|), c, Value(after));
  }

  /** incr_counter: the carry runs from the last byte to the first. */
  method IncrCounter(counter: array<byte>)
    requires counter.Length == 16
    modifies counter
    ensures counter[..] == CounterAt(old(counter[..]), 1)
  {
    Increment(counter);
    BytesOfDigits(counter[..]);
  }

  method Increment(counter: array<byte>)
    modifies counter
    ensures Digits(counter[..]) == Counted(Digits(old(counter[..])), 1)
  {
    ghost var before := Digits(counter[..]);
    var n: nat, c: nat := counter.Length, 1;
    while n > 0
      invariant Carrying(before, Digits(counter[..]), n, c)
    {
      n := n - 1;
      c := CarryAt(counter, n, c, before);
    }
    CarryOut(Digits(counter[..]), before, c);
  }

  /** The bytes from n on have been incremented, and c is carried into the others. */
  ghost predicate Carrying(before: seq<nat>, now: seq<nat>, n: nat, c: nat) {
    && n <= |now| == |before| && c <= 1 && now[..n] == before[..n]
    && Value(now[n..]) + c * Pow256(|now| - n) == Value(before[n..]) + 1
  }

  lemma {:induction false} CarryFrom(before: seq<nat>, now: seq<nat>, n: nat, c: nat)
    requires n < |now| && Carrying(before, now, n + 1, c)
    ensures now[n] == before[n] && now[..n] == before[..n]
    ensures Value([(c + before[n]) % 256] + now[n + 1..]) + (c + before[n]) / 256 * Pow256(|now| - n)
         == Value(before[n..]) + 1
  {
    assert now[n] == now[..n + 1][n] == before[..n + 1][n] == before[n];
    assert now[..n] == now[..n + 1][..n] == before[..n + 1][..n] == before[..n];
    assert before[n..] == [before[n]] + before[n + 1..];
    CarryOn(before[n], now[n + 1..], before[n + 1..], c);
  }

  /** The body of its loop */
  method CarryAt(counter: array<byte>, n: nat, c: nat, ghost before: seq<nat>) returns (carry: nat)
    requires n < counter.Length && Carrying(before, Digits(counter[..]), n + 1, c)
    modifies counter
    ensures Carrying(before, Digits(counter[..]), n, carry)
  {
    CarryFrom(before, Digits(counter[..]), n, c);
    carry := CarryByte(counter, n, c, Digits(counter[..])[n + 1..]);
  }

  method CarryByte(counter: array<byte>, n: nat, c: nat, ghost rest: seq<nat>) returns (carry: nat)
    requires n < counter.Length && c <= 1 && rest == Digits(counter[..])[n + 1..]
    modifies counter
    ensures carry == (c + old(counter[n]) as nat) / 256 && carry <= 1
    ensures Digits(counter[..])[..n] == old(Digits(counter[..])[..n])
    ensures Digits(counter[..])[n..] == [(c + old(counter[n]) as nat) % 256] + rest
  {
    ghost var before := counter[..];
    var sum := c + counter[n] as nat;
    counter[n] := (sum % 256) as byte;
    carry := sum / 256;
    assert counter[..] == before[n := (sum % 256) as byte];
    DigitChanged(before, n, sum % 256);
  }

  lemma {:induction false} DigitChanged(before: seq<byte>, n: nat, v: nat)
    requires n < |before| && v < 256
    ensures Digits(before[n := v as byte])[..n] == Digits(before)[..n]
    ensures Digits(before[n := v as byte])[n..] == [v] + Digits(before)[n + 1..]
  {
    DigitOfByte(v);
    var after := Digits(before[n := v as byte]);
    assert after == Digits(before)[n := v];
  }

  function FirstCounter(nonce: seq<byte>): Block
    requires |nonce| <= 16
  {
    Overwritten(ZEROS, 0, nonce)
  }

  /** The nonce and then zeros */
  lemma {:induction false} FirstCounterIs(nonce: seq<byte>)
    requires |nonce| <= 16
    ensures var c := FirstCounter(nonce); c[..|nonce|] == nonce && forall i :: |nonce| <= i < 16 ==> c[i] == 0
  {
  }

  function CtrCrypted(key: seq<byte>, nonce: seq<byte>, x: seq<byte>): seq<byte>
    requires ValidKeySize(|key|) && |nonce| <= 16
  {
    Ctr(EncryptWith(key), Counter(FirstCounter(nonce)), x)
  }

  /** crypt_ctr: in place, each byte with its byte of the key stream */
  method CryptCtr(data: array<byte>, key: array<byte>, nonce: seq<byte>) returns (r: Error)
    requires data != key
    modifies data
    ensures r == if |nonce| > 16 then InvalidNonceSize else if !ValidKeySize(key.Length) then InvalidKeySize else Fine
    ensures data[..] == if r == Fine then CtrCrypted(key[..], nonce, old(data[..])) else old(data[..])
  {
    if |nonce| > 16 {
      return InvalidNonceSize;
    }
    if !ValidKeySize(key.Length) {
      return InvalidKeySize;
    }
    r := Fine;
    var keys := ExpandKey(key);
    CipherAgrees(key[..]);
    CtrFrom(EncryptWith(key[..]), keys, data, nonce);
  }

  method CtrFrom(ghost e: Cipher, keys: seq<State>, data: array<byte>, nonce: seq<byte>)
    requires |keys| >= 2 && IsEncrypt(e, keys) && |nonce| <= 16
    modifies data
    ensures data[..] == Ctr(e, Counter(FirstCounter(nonce)), old(data[..]))
  {
    var counter := new byte[16](i => 0);
    assert counter[..] == ZEROS;
    CopyTo(nonce, counter, 0);
    CounterStart(FirstCounter(nonce));
    CtrLoop(e, Counter(FirstCounter(nonce)), FirstCounter(nonce), keys, data, counter);
  }

  ghost predicate IsCounter(c: nat -> Block, start: Block) {
    forall k: nat {:trigger CounterAt(start, k)} :: c(k) == CounterAt(start, k)
  }

  /** Its loop: `position` bytes are done, the next one takes byte `used` of the current block of the
      key stream, and the counter is that of the block after it. */
  method CtrLoop(ghost e: Cipher, ghost c: nat -> Block, ghost start: Block, keys: seq<State>, data: array<byte>,
                 counter: array<byte>)
    requires |keys| >= 2 && IsEncrypt(e, keys) && IsCounter(c, start)
    requires data != counter && counter.Length == 16 && counter[..] == c(0)
    modifies data, counter
    ensures data[..] == Ctr(e, c, old(data[..]))
  {
    ghost var x := data[..];
    var position: nat, used: nat := 0, 16;
    ghost var k: nat := 0;
    var block := new byte[16];
    while position < data.Length
      invariant 0 <= position <= data.Length && used <= 16 && position + 16 == 16 * k + used
      invariant Streams(e, c, counter[..], block[..], used, k)
      invariant Crypted(e, c, x, data[..], position)
    {
      var b;
      b, used, k := NextKeyStreamByte(e, c, start, keys, counter, block, used, k);
      CryptByte(e, c, x, data, position, b, k - 1, used - 1);
      position := position + 1;
    }
  }

  /** Byte `used` of the current block is the next one, and the counter is that of the block after. */
  ghost predicate Streams(e: Cipher, c: nat -> Block, counter: seq<byte>, block: seq<byte>, used: nat, k: nat) {
    counter == c(k) && (used < 16 ==> k >= 1 && block == e(c(k - 1)))
  }

  /** Takes the next byte of the current block, making a new one if it is used up. */
  method NextKeyStreamByte(ghost e: Cipher, ghost c: nat -> Block, ghost start: Block, keys: seq<State>,
                           counter: array<byte>, block: array<byte>, used: nat, ghost k: nat)
    returns (b: byte, newUsed: nat, ghost newK: nat)
    requires |keys| >= 2 && IsEncrypt(e, keys) && IsCounter(c, start) && used <= 16
    requires counter != block && counter.Length == 16 && block.Length == 16
    requires Streams(e, c, counter[..], block[..], used, k)
    modifies counter, block
    ensures 1 <= newUsed <= 16 && newK >= 1 && 16 * newK + newUsed == 16 * k + used + 1
    ensures Streams(e, c, counter[..], block[..], newUsed, newK) && b == e(c(newK - 1))[newUsed - 1]
  {
    newUsed, newK := used, k;
    if newUsed == 16 {
      NextKeyStreamBlock(e, c, start, keys, counter, block, newK);
      newUsed, newK := 0, newK + 1;
    }
    b := block[newUsed];
    newUsed := newUsed + 1;
  }

  /** The first n bytes are done, the others as before. */
  ghost predicate Crypted(e: Cipher, c: nat -> Block, before: seq<byte>, now: seq<byte>, n: nat) {
    && |now| == |before|
    && (forall j :: 0 <= j < |now| && j < n ==> now[j] == CryptedByte(e, c, before[j], j))
    && (forall j :: n <= j < |now| ==> now[j] == before[j])
  }

  method CryptByte(ghost e: Cipher, ghost c: nat -> Block, ghost before: seq<byte>, data: array<byte>, position: nat,
                   b: byte, ghost k: nat, ghost used: nat)
    requires position < data.Length && Crypted(e, c, before, data[..], position)
    requires used < 16 && position == 16 * k + used && b == e(c(k))[used]
    modifies data
    ensures Crypted(e, c, before, data[..], position + 1)
  {
    KeyStreamByte(e, c, k, used);
    data[position] := data[position] ^ b;
  }

  lemma {:induction false} KeyStreamByte(e: Cipher, c: nat -> Block, k: nat, used: nat)
    requires used < 16
    ensures KeyStream(e, c, 16 * k + used) == e(c(k))[used]
  {
    assert (16 * k + used) / 16 == k && (16 * k + used) % 16 == used;
  }

  method NextKeyStreamBlock(ghost e: Cipher, ghost c: nat -> Block, ghost start: Block, keys: seq<State>,
                            counter: array<byte>, block: array<byte>, ghost k: nat)
    requires |keys| >= 2 && IsEncrypt(e, keys) && IsCounter(c, start)
    requires counter != block && counter.Length == 16 && block.Length == 16 && counter[..] == c(k)
    modifies counter, block
    ensures block[..] == e(c(k)) && counter[..] == c(k + 1)
  {
    assert counter[0..0 + 16] == c(k);
    EncryptState(e, keys, counter, 0, block, 0);
    OverwriteAll(old(block[..]), e(c(k)));
    IncrCounter(counter);
    CounterNext(start, k);
  }

  /** Crypting twice gives the data back, for every key, nonce and length. */
  lemma {:induction false} CtrCryptedTwice(key: seq<byte>, nonce: seq<byte>, x: seq<byte>)
    requires ValidKeySize(|key|) && |nonce| <= 16
    ensures CtrCrypted(key, nonce, CtrCrypted(key, nonce, x)) == x
  {
    CtrTwice(EncryptWith(key), Counter(FirstCounter(nonce)), x);
  }
}
