/** AESFilter of src/filters/aes_encryption.hpp: CBC or ECB with padding around whole datagrams. */
module AesFilter {
  import opened Options
  import opened AesTables
  import opened AesBlock
  import opened AesCipher
  import opened AesModes
  import opened AesInPlace
  import opened Buffers
  import opened Numbers

  datatype Mode = CBC | ECB

  const IV: Block := [0, 1, 2, 3, 4, 5, 6, 7, 8, 9, 10, 11, 12, 13, 14, 15]

  /** No datagram comes near the largest value of its size type. */
  const MAX_DATAGRAM: nat := ULONG - 32

  function ZeroBytes(n: nat): (r: seq<byte>)
    ensures |r| == n
  {
    seq(n, i => 0)
  }

  /** convertForward with the block cipher e; with a key of the wrong size nothing is encrypted, and
      the result is zeros. */
  function Forward(mode: Mode, e: Cipher, keySize: nat, x: seq<byte>): (r: seq<byte>)
    ensures |r| == PaddedSize(|x|)
  {
    if !ValidKeySize(keySize) then ZeroBytes(PaddedSize(|x|))
    else if mode == CBC then Chain(e, IV, Padded(x))
    else Each(e, Padded(x))
  }

  function Decrypted(mode: Mode, d: Cipher, keySize: nat, c: seq<byte>): Decryption
    requires |c| < ULONG - 16
  {
    if mode == CBC then CbcDecryption(d, keySize, ZeroBytes(|c|), IV, c, true)
    else EcbDecryption(d, keySize, ZeroBytes(|c|), c, true)
  }

  /** convertBackward.  The error is ignored: only the padding found is cut off, if the text is that
      long. */
  function Backward(mode: Mode, d: Cipher, keySize: nat, c: seq<byte>): seq<byte>
    requires |c| < ULONG - 16
  {
    var r := Decrypted(mode, d, keySize, c);
    CutOff(r.buffer, if r.padded.Some? then r.padded.value else 0)
  }

  /** result.substr(0, size - n): when n is larger the difference wraps around and all is kept. */
  function CutOff(buffer: seq<byte>, n: nat): seq<byte> {
    if n <= |buffer| then buffer[..|buffer| - n] else buffer
  }

  lemma {:induction false} FinishedOk(base: seq<byte>, y: seq<byte>)
    requires |y| >= 16 && |base| == |y| && Accepted(y) && base[..|y| - 16] == Front(y)
    ensures var d := Finished(base, y, true);
      d.padded == Some(Claimed(y)) && CutOff(d.buffer, Claimed(y)) == y[..|y| - Claimed(y)]
  {
    var n := Claimed(y);
    var kept := Last(y)[..16 - n];
    var d := Finished(base, y, true);
    assert d.buffer == Overwritten(base, |y| - 16, kept);
    assert d.buffer[..|y| - n] == Front(y) + kept;
    assert y[..|y| - n] == Front(y) + kept;
  }

  /** The result buffer before the last block is put into it */
  function Base(mode: Mode, y: seq<byte>): (r: seq<byte>)
    requires |y| >= 16
    ensures |r| == |y|
  {
    if mode == CBC then Cleared(ZeroBytes(|y|), y) else Overwritten(ZeroBytes(|y|), 0, Front(y))
  }

  lemma {:induction false} FinishedAccepted(mode: Mode, y: seq<byte>)
    requires |y| >= 16 && Accepted(y)
    ensures var r := Finished(Base(mode, y), y, true);
      r.padded == Some(Claimed(y)) && CutOff(r.buffer, Claimed(y)) == y[..|y| - Claimed(y)]
  {
    assert Base(mode, y)[..|y| - 16] == Front(y);
    FinishedOk(Base(mode, y), y);
  }

  lemma {:induction false} LargeEnough(dataSize: nat, keySize: nat)
    requires ValidKeySize(keySize) && 16 <= dataSize < ULONG - 16 && dataSize % 16 == 0
    ensures CheckDecrypt(dataSize, keySize, dataSize, true) == Fine
  {
    ModuloIs(dataSize - 16, ULONG, 0, dataSize - 16);
  }

  /** The decrypted text, padding and all */
  function Text(mode: Mode, d: Cipher, c: seq<byte>): (y: seq<byte>)
    requires |c| % 16 == 0
    ensures |y| == |c|
  {
    if mode == CBC then Unchain(d, IV, c) else Each(d, c)
  }

  lemma {:induction false} DecryptedText(mode: Mode, d: Cipher, keySize: nat, c: seq<byte>)
    requires ValidKeySize(keySize) && 16 <= |c| < ULONG - 16 && |c| % 16 == 0
    ensures Decrypted(mode, d, keySize, c) == Finished(Base(mode, Text(mode, d, c)), Text(mode, d, c), true)
  {
    LargeEnough(|c|, keySize);
  }

  /** What the filter gives back for an accepted text. */
  lemma {:induction false} BackwardAccepted(mode: Mode, d: Cipher, keySize: nat, c: seq<byte>)
    requires ValidKeySize(keySize) && 16 <= |c| < ULONG - 16 && |c| % 16 == 0 && Accepted(Text(mode, d, c))
    ensures var y := Text(mode, d, c); Backward(mode, d, keySize, c) == y[..|y| - Claimed(y)]
  {
    DecryptedText(mode, d, keySize, c);
    FinishedAccepted(mode, Text(mode, d, c));
  }

  /** What the filter gives back, in the terms of the modes */
  lemma {:induction false} DecryptsAccepted(mode: Mode, d: Cipher, keySize: nat, c: seq<byte>)
    requires |c| < ULONG - 16
    ensures ValidKeySize(keySize) && |c| >= 16 && |c| % 16 == 0 ==>
      var y := if mode == CBC then Unchain(d, IV, c) else Each(d, c);
      Accepted(y) ==> Backward(mode, d, keySize, c) == y[..|y| - Claimed(y)]
  {
    if ValidKeySize(keySize) && |c| >= 16 && |c| % 16 == 0 && Accepted(Text(mode, d, c)) {
      BackwardAccepted(mode, d, keySize, c);
    }
  }

  /** A rejected text loses its last block, and as many bytes as its padding claims, if there are that many. */
  lemma {:induction false} DecryptsRejected(mode: Mode, d: Cipher, keySize: nat, c: seq<byte>)
    requires ValidKeySize(keySize) && 16 <= |c| < ULONG - 16 && |c| % 16 == 0
    ensures var y := if mode == CBC then Unchain(d, IV, c) else Each(d, c);
      !Accepted(y) ==>
        var b := y[..|y| - 16] + ZeroBytes(16);
        Backward(mode, d, keySize, c) == if Claimed(y) <= |b| then b[..|b| - Claimed(y)] else b
  {
    var y := Text(mode, d, c);
    if !Accepted(y) {
      BackwardRejected(mode, d, keySize, c);
      BaseIs(mode, y);
    }
  }

  lemma {:induction false} BackwardRejected(mode: Mode, d: Cipher, keySize: nat, c: seq<byte>)
    requires ValidKeySize(keySize) && 16 <= |c| < ULONG - 16 && |c| % 16 == 0 && !Accepted(Text(mode, d, c))
    ensures var y := Text(mode, d, c); Backward(mode, d, keySize, c) == CutOff(Base(mode, y), Claimed(y))
  {
    var y := Text(mode, d, c);
    DecryptedText(mode, d, keySize, c);
    FinishedRejected(Base(mode, y), y);
  }

  lemma {:induction false} FinishedRejected(base: seq<byte>, y: seq<byte>)
    requires |y| >= 16 && |base| == |y| && !Accepted(y)
    ensures var r := Finished(base, y, true); r.buffer == base && r.padded == Some(Claimed(y))
  {
  }

  lemma {:induction false} BaseIs(mode: Mode, y: seq<byte>)
    requires |y| >= 16
    ensures Base(mode, y) == y[..|y| - 16] + ZeroBytes(16)
  {
  }

  /** What cannot be decrypted becomes zeros. */
  lemma {:induction false} DecryptsRefused(mode: Mode, d: Cipher, keySize: nat, c: seq<byte>)
    requires |c| < ULONG - 16 && (!ValidKeySize(keySize) || |c| % 16 != 0 || c == [])
    ensures Backward(mode, d, keySize, c) == ZeroBytes(|c|)
  {
  }

  /** The initialization vector counts up. */
  lemma {:induction false} IvIs()
    ensures forall i: nat :: i < 16 ==> IV[i] as nat == i
  {
  }

  /** Backward undoes forward, for every mode, valid key size and datagram. */
  lemma {:induction false} BackwardForward(mode: Mode, e: Cipher, d: Cipher, keySize: nat, x: seq<byte>)
    requires Inverts(d, e) && ValidKeySize(keySize) && |x| < MAX_DATAGRAM
    ensures Backward(mode, d, keySize, Forward(mode, e, keySize, x)) == x
  {
    TextOfForward(mode, e, d, keySize, x);
    BackwardAccepted(mode, d, keySize, Forward(mode, e, keySize, x));
  }

  lemma {:induction false} TextOfForward(mode: Mode, e: Cipher, d: Cipher, keySize: nat, x: seq<byte>)
    requires Inverts(d, e) && ValidKeySize(keySize)
    ensures |Forward(mode, e, keySize, x)| % 16 == 0
    ensures var y := Text(mode, d, Forward(mode, e, keySize, x)); Accepted(y) && y[..|y| - Claimed(y)] == x
  {
    if mode == CBC {
      CbcRoundTrip(e, d, IV, x);
    } else {
      EcbRoundTrip(e, d, x);
    }
  }

  /** The other way round: an accepted datagram is what its result encrypts to exactly when its
      padding is not 0. */
  lemma {:induction false} ForwardBackward(mode: Mode, e: Cipher, d: Cipher, keySize: nat, c: seq<byte>)
    requires Inverts(e, d) && ValidKeySize(keySize) && 16 <= |c| < ULONG - 16 && |c| % 16 == 0
    requires Accepted(Text(mode, d, c))
    ensures Forward(mode, e, keySize, Backward(mode, d, keySize, c)) == c <==> Claimed(Text(mode, d, c)) >= 1
  {
    BackwardAccepted(mode, d, keySize, c);
    if mode == CBC {
      CbcConverse(e, d, IV, c, Text(mode, d, c));
    } else {
      EcbConverse(e, d, c);
    }
  }

  /** The filter with a key, as other filters see it */
  function Encrypt(mode: Mode, key: seq<byte>, x: seq<byte>): seq<byte> { Forward(mode, EncryptWith(key), |key|, x) }

  function Decrypt(mode: Mode, key: seq<byte>, c: seq<byte>): seq<byte>
    requires |c| < ULONG - 16
  {
    Backward(mode, DecryptWith(key), |key|, c)
  }

  /** The filter is transparent for every valid key and every datagram. */
  lemma {:induction false} DecryptEncrypt(mode: Mode, key: seq<byte>, x: seq<byte>)
    requires ValidKeySize(|key|) && |x| < MAX_DATAGRAM
    ensures Decrypt(mode, key, Encrypt(mode, key, x)) == x
  {
    CipherInverts(key);
    BackwardForward(mode, EncryptWith(key), DecryptWith(key), |key|, x);
  }

  class Filter {
    const mode: Mode
    var key: array<byte>

    constructor (mode: Mode)
      ensures this.mode == mode && fresh(key) && key.Length == 0
    {
      this.mode := mode;
      key := new byte[0];
    }

    /** loadConfig, once the key has been derived from the password */
    method LoadKey(bytes: seq<byte>)
      modifies this
      ensures key[..] == bytes && fresh(key)
    {
      key := new byte[|bytes|];
      CopyTo(bytes, key, 0);
      assert key[..] == bytes;
    }

    method ConvertForward(datagram: seq<byte>) returns (r: seq<byte>)
      ensures r == Forward(mode, EncryptWith(key[..]), key.Length, datagram)
      ensures ValidKeySize(key.Length) ==>
        r == if mode == CBC then Chain(EncryptWith(key[..]), IV, Padded(datagram))
             else Each(EncryptWith(key[..]), Padded(datagram))
      ensures !ValidKeySize(key.Length) ==> forall i :: 0 <= i < |r| ==> r[i] == 0
    {
      var data := FromBytes(datagram);
      var result := new byte[PaddedSize(|datagram|)](i => 0);
      assert result[..] == ZeroBytes(PaddedSize(|datagram|));
      ghost var e := EncryptWith(key[..]);
      var error;
      if mode == CBC {
        error := EncryptCbc(data, key, Some(IV), result, true);
        OverwriteAll(ZeroBytes(result.Length), Chain(e, IV, Padded(datagram)));
      } else {
        error := EncryptEcb(data, key, result, true);
        OverwriteAll(ZeroBytes(result.Length), Each(e, Padded(datagram)));
      }
      r := result[..];
    }

    method ConvertBackward(datagram: seq<byte>) returns (r: seq<byte>)
      requires |datagram| < ULONG - 16
      ensures r == Backward(mode, DecryptWith(key[..]), key.Length, datagram)
    {
      var data := FromBytes(datagram);
      var result := new byte[|datagram|](i => 0);
      assert result[..] == ZeroBytes(|datagram|);
      var ignored, padded;
      if mode == CBC {
        ignored, padded := DecryptCbc(data, key, Some(IV), result, true);
      } else {
        ignored, padded := DecryptEcb(data, key, result, true);
      }
      r := CutOff(result[..], if padded.Some? then padded.value else 0);
    }
  }

  method FromBytes(bytes: seq<byte>) returns (a: array<byte>)
    ensures fresh(a) && a[..] == bytes
  {
    a := new byte[|bytes|];
    CopyTo(bytes, a, 0);
    assert a[..] == bytes;
  }
}
