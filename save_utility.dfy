/**
 * The encode/decode pipeline (SaveUtility.cs): on save, GZIP-compress (or UTF-8 encode)
 * and then AES-encrypt; on load, undo the steps that the metadata record says were applied.
 */
module SaveUtility {
  import opened Wrappers
  import opened Platform
  import EncryptionUtility

  /** `ProcessSaveData`: compression first, encryption second. */
  function ProcessSaveData(env: Env, json: string, key: Bytes, comp: Compression, enc: Encryption, iv: Bytes): (r: Result<Bytes>)
    ensures r.Failure? <==> enc == AES && !ValidKey(key)
    ensures enc == NoEncryption && comp == GZIP ==> r == Success(env.gzipCompress(json))
    ensures enc == AES && comp == GZIP ==> r == EncryptionUtility.EncryptSpec(env, env.gzipCompress(json), key, iv)
    ensures enc == AES && r.Success? ==> |r.value| >= |iv| && r.value[..|iv|] == iv
  {
    var data := if comp == GZIP then env.gzipCompress(json) else env.utf8Encode(json);
    if enc == AES then EncryptionUtility.EncryptSpec(env, data, key, iv) else Success(data)
  }

  /**
   * `ProcessLoadData`: decrypts iff the metadata records AES, then decompresses iff it
   * records GZIP, else decodes UTF-8. Only the metadata argument decides; the caller's
   * live settings play no part.
   */
  function ProcessLoadData(env: Env, data: Bytes, key: Bytes, metaData: SaveMetadata): (r: Result<string>)
    ensures metaData.encryption == AES && !ValidKey(key) ==> r == Failure(CryptoError)
    ensures metaData.encryption == AES && ValidKey(key) && |data| < IvLength ==> r == Failure(OverflowError)
    ensures metaData.encryption == NoEncryption && metaData.compression == GZIP ==>
              r == (if env.gzipDecompress(data).Some? then Success(env.gzipDecompress(data).value) else Failure(CompressionError))
    ensures metaData.encryption == AES && EncryptionUtility.DecryptSpec(env, data, key).Failure? ==>
              r == Failure(EncryptionUtility.DecryptSpec(env, data, key).error)
    ensures metaData.encryption == AES && EncryptionUtility.DecryptSpec(env, data, key).Success? ==>
              var plain := EncryptionUtility.DecryptSpec(env, data, key).value;
              && (metaData.compression == GZIP ==>
                    r == (if env.gzipDecompress(plain).Some? then Success(env.gzipDecompress(plain).value) else Failure(CompressionError)))
              && (metaData.compression == NoCompression ==> r == Success(env.utf8Decode(plain)))
  {
    var decrypted := if metaData.encryption == AES then EncryptionUtility.DecryptSpec(env, data, key) else Success(data);
    match decrypted
    case Failure(e) => Failure(e)
    case Success(plain) =>
      if metaData.compression == GZIP then
        match env.gzipDecompress(plain)
        case None => Failure(CompressionError)
        case Some(json) => Success(json)
      else
        Success(env.utf8Decode(plain))
  }

  /** With neither compression nor encryption, saving is UTF-8 encoding and loading is UTF-8 decoding. */
  lemma PlainPipeline(env: Env, json: string, data: Bytes, key: Bytes, iv: Bytes, saveTime: int)
    ensures ProcessSaveData(env, json, key, NoCompression, NoEncryption, iv) == Success(env.utf8Encode(json))
    ensures ProcessLoadData(env, data, key, Metadata(NoCompression, NoEncryption, saveTime)) == Success(env.utf8Decode(data))
  {
  }

  /**
   * Round trip: loading with a metadata record that names the settings used to save gives
   * back the text, for every combination of settings (an AES save needs a valid key and a
   * full-block IV, as `Aes.GenerateIV` produces).
   */
  lemma RoundTrip(env: Env, json: string, key: Bytes, comp: Compression, enc: Encryption, iv: Bytes, saveTime: int)
    requires Lawful(env)
    requires enc == AES ==> ValidKey(key) && |iv| == IvLength
    ensures ProcessSaveData(env, json, key, comp, enc, iv).Success?
    ensures ProcessLoadData(env, ProcessSaveData(env, json, key, comp, enc, iv).value, key, Metadata(comp, enc, saveTime)) == Success(json)
  {
    var data := if comp == GZIP then env.gzipCompress(json) else env.utf8Encode(json);
    if enc == AES {
      EncryptionUtility.DecryptEncrypt(env, data, key, iv);
    }
  }
}
