/**
 * IV framing around the AES transform (EncryptionUtility.cs): encryption prepends the
 * freshly generated IV to the ciphertext, decryption splits the first block off again.
 * The IV that `Aes.GenerateIV` would draw is a parameter.
 */
module EncryptionUtility {
  import opened Wrappers
  import opened Platform

  /** What `Encrypt` returns: the key is checked, then the output is the IV followed by the ciphertext. */
  function EncryptSpec(env: Env, data: Bytes, key: Bytes, iv: Bytes): (r: Result<Bytes>)
    ensures r.Failure? <==> !ValidKey(key)
    ensures r.Failure? ==> r.error == CryptoError
    ensures r.Success? ==>
              |r.value| == |iv| + |env.aesEncrypt(key, iv, data)|
              && r.value[..|iv|] == iv
              && r.value[|iv|..] == env.aesEncrypt(key, iv, data)
  {
    if !ValidKey(key) then Failure(CryptoError) else Success(iv + env.aesEncrypt(key, iv, data))
  }

  /**
   * What `Decrypt` returns: the key is checked, an input shorter than one block fails on the
   * negative buffer size, and otherwise the first block is the IV and the rest the ciphertext.
   */
  function DecryptSpec(env: Env, framed: Bytes, key: Bytes): (r: Result<Bytes>)
    ensures !ValidKey(key) ==> r == Failure(CryptoError)
    ensures ValidKey(key) && |framed| < IvLength ==> r == Failure(OverflowError)
    ensures r.Success? ==>
              |framed| >= IvLength
              && env.aesDecrypt(key, framed[..IvLength], framed[IvLength..]) == Some(r.value)
  {
    if !ValidKey(key) then Failure(CryptoError)
    else if |framed| < IvLength then Failure(OverflowError)
    else match env.aesDecrypt(key, framed[..IvLength], framed[IvLength..])
      case None => Failure(CryptoError)
      case Some(plain) => Success(plain)
  }

  /** Decryption undoes encryption whenever the cipher does and the IV is one block long. */
  lemma DecryptEncrypt(env: Env, data: Bytes, key: Bytes, iv: Bytes)
    requires Lawful(env) && ValidKey(key) && |iv| == IvLength
    ensures EncryptSpec(env, data, key, iv).Success?
    ensures DecryptSpec(env, EncryptSpec(env, data, key, iv).value, key) == Success(data)
  {
    var framed := EncryptSpec(env, data, key, iv).value;
    assert framed[..IvLength] == iv && framed[IvLength..] == env.aesEncrypt(key, iv, data);
  }

  /** `Array.Copy(source, sourceIndex, destination, destinationIndex, length)`. */
  method ArrayCopy(source: seq<byte>, sourceIndex: nat, destination: array<byte>, destinationIndex: nat, length: nat)
    requires sourceIndex + length <= |source|
    requires destinationIndex + length <= destination.Length
    modifies destination
    ensures destination[..destinationIndex] == old(destination[..destinationIndex])
    ensures destination[destinationIndex..destinationIndex + length] == source[sourceIndex..sourceIndex + length]
    ensures destination[destinationIndex + length..] == old(destination[destinationIndex + length..])
  {
    var k := 0;
    while k < length
      invariant 0 <= k <= length
      invariant destination[..destinationIndex] == old(destination[..destinationIndex])
      invariant destination[destinationIndex..destinationIndex + k] == source[sourceIndex..sourceIndex + k]
      invariant destination[destinationIndex + length..] == old(destination[destinationIndex + length..])
    {
      destination[destinationIndex + k] := source[sourceIndex + k];
      k := k + 1;
    }
  }

  /** `Encrypt`: allocates the output and copies the IV and then the ciphertext into it. */
  method Encrypt(env: Env, data: Bytes, key: Bytes, iv: Bytes) returns (r: Result<Bytes>)
    ensures r == EncryptSpec(env, data, key, iv)
  {
    if !ValidKey(key) {
      return Failure(CryptoError);
    }
    var encrypted := env.aesEncrypt(key, iv, data);
    var result := new byte[|iv| + |encrypted|];
    ArrayCopy(iv, 0, result, 0, |iv|);
    assert result[..|iv|] == iv[0..|iv|] == iv;
    ArrayCopy(encrypted, 0, result, |iv|, |encrypted|);
    assert result[|iv|..] == encrypted[0..|encrypted|] == encrypted;
    assert result[..] == result[..|iv|] + result[|iv|..];
    r := Success(result[..]);
  }

  /** `Decrypt`: fills an IV buffer and a ciphertext buffer from the input, then decrypts. */
  method Decrypt(env: Env, encryptedDataWithIV: Bytes, key: Bytes) returns (r: Result<Bytes>)
    ensures r == DecryptSpec(env, encryptedDataWithIV, key)
  {
    if !ValidKey(key) {
      return Failure(CryptoError);
    }
    var ivLength := IvLength;
    if |encryptedDataWithIV| - ivLength < 0 {
      return Failure(OverflowError);
    }
    var iv := new byte[ivLength];
    var encryptedData := new byte[|encryptedDataWithIV| - ivLength];
    ArrayCopy(encryptedDataWithIV, 0, iv, 0, ivLength);
    ArrayCopy(encryptedDataWithIV, ivLength, encryptedData, 0, encryptedData.Length);
    assert iv[..] == encryptedDataWithIV[..IvLength];
    assert encryptedData[..] == encryptedDataWithIV[IvLength..];
    match env.aesDecrypt(key, iv[..], encryptedData[..]) {
      case None => r := Failure(CryptoError);
      case Some(plain) => r := Success(plain);
    }
  }
}
