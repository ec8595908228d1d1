/**
 * The parts of the .NET and Unity runtime the save system links against, reduced to
 * what the model needs: bytes, the GZIP stream, the AES block transform, UTF-8, the
 * Newtonsoft JSON serializer, and a file system.
 *
 * The codecs are function-valued fields of `Env`. The model never assumes anything about
 * them except, where a theorem needs it, the round-trip laws collected in `Lawful`.
 */
module Platform {
  import opened Wrappers

  newtype byte = x: int | 0 <= x < 256

  type Bytes = seq<byte>

  /** A value stored in a slot's cache: a boxed .NET object, left uninterpreted. */
  type Value(==, !new)

  /** The cache's contents: string keys to values. */
  type Entries = map<string, Value>

  /** The `Compression` setting; the name `None` is `NoCompression` here. */
  datatype Compression = NoCompression | GZIP

  /** The `Encryption` setting; the name `None` is `NoEncryption` here. */
  datatype Encryption = NoEncryption | AES

  /** `Aes.BlockSize / 8`: AES always has a 128-bit block, so every IV is 16 bytes. */
  const IvLength: nat := 16

  /** The key sizes `Aes.Key` accepts (128, 192 and 256 bits); any other size throws. */
  predicate ValidKey(key: Bytes) {
    |key| == 16 || |key| == 24 || |key| == 32
  }

  /** The metadata record written beside each slot's blob; `saveTime` is in ticks. */
  datatype SaveMetadata = Metadata(compression: Compression, encryption: Encryption, saveTime: int)

  /** `DateTime.MinValue`, in ticks. */
  const MinValue: int := 0

  /**
   * The foreign codecs. `aesEncrypt(key, iv, plain)` and `aesDecrypt(key, iv, cipher)` are the
   * CBC transforms of `PerformCryptography`; decryption fails on bad padding. `valueText` is
   * `object.ToString()`.
   */
  datatype Env = Env(
    utf8Encode: string -> Bytes,
    utf8Decode: Bytes -> string,
    gzipCompress: string -> Bytes,
    gzipDecompress: Bytes -> Option<string>,
    aesEncrypt: (Bytes, Bytes, Bytes) -> Bytes,
    aesDecrypt: (Bytes, Bytes, Bytes) -> Option<Bytes>,
    cacheToJson: Entries -> string,
    cacheFromJson: string -> Option<Entries>,
    metadataToJson: SaveMetadata -> string,
    metadataFromJson: string -> Option<SaveMetadata>,
    valueText: Value -> string)

  /**
   * The round-trip laws the save system relies on: each decoder inverts its encoder,
   * the cipher inverts itself for a valid key and a full-block IV, and `"{}"` is the
   * empty dictionary.
   */
  ghost predicate Lawful(env: Env) {
    && (forall s :: env.utf8Decode(env.utf8Encode(s)) == s)
    && (forall s :: env.gzipDecompress(env.gzipCompress(s)) == Some(s))
    && (forall key, iv, plain | ValidKey(key) && |iv| == IvLength ::
          env.aesDecrypt(key, iv, env.aesEncrypt(key, iv, plain)) == Some(plain))
    && (forall m :: env.cacheFromJson(env.cacheToJson(m)) == Some(m))
    && env.cacheFromJson("{}") == Some(map[])
    && (forall md :: env.metadataFromJson(env.metadataToJson(md)) == Some(md))
  }

  /**
   * A cipher under which a ciphertext never decrypts under another key: the idealised
   * behaviour of AES-CBC with PKCS7 padding, whose padding check rejects a wrong key.
   */
  ghost predicate KeySensitive(env: Env) {
    forall k1, k2, iv, plain | k1 != k2 :: env.aesDecrypt(k2, iv, env.aesEncrypt(k1, iv, plain)).None?
  }

  /**
   * `Char.IsWhiteSpace`: the Unicode space, line and paragraph separators, the controls
   * U+0009 to U+000D, and U+0085.
   */
  predicate IsWhiteSpace(c: char) {
    || ('\U{0009}' <= c <= '\U{000D}') || c == ' ' || c == '\U{0085}' || c == '\U{00A0}' || c == '\U{1680}'
    || ('\U{2000}' <= c <= '\U{200A}') || c == '\U{2028}' || c == '\U{2029}' || c == '\U{202F}'
    || c == '\U{205F}' || c == '\U{3000}'
  }

  /** `string.IsNullOrWhiteSpace` on a non-null string: empty, or nothing but white space. */
  predicate IsNullOrWhiteSpace(s: string) {
    forall i | 0 <= i < |s| :: IsWhiteSpace(s[i])
  }

  /**
   * `File.Move(source, destination)` on a file map: a missing source or an existing
   * destination throws; otherwise the contents change path and nothing else changes.
   */
  function MoveFile(files: map<string, Bytes>, source: string, destination: string): (r: Result<map<string, Bytes>>)
    ensures source !in files ==> r == Failure(FileNotFound)
    ensures source in files && destination in files ==> r == Failure(IOError)
    ensures r.Success? ==>
              && source in files && destination !in files
              && source !in r.value && destination in r.value && r.value[destination] == files[source]
  {
    if source !in files then Failure(FileNotFound)
    else if destination in files then Failure(IOError)
    else Success((files - {source})[destination := files[source]])
  }

  /** A move touches only its source and destination paths. */
  lemma MoveFileFrame(files: map<string, Bytes>, source: string, destination: string, p: string)
    requires MoveFile(files, source, destination).Success? && p != source && p != destination
    ensures p in MoveFile(files, source, destination).value <==> p in files
    ensures p in files ==> MoveFile(files, source, destination).value[p] == files[p]
  {
  }

  /**
   * The file system, as one mutable map from full path to contents. Directories are
   * implicit: creating one is a no-op here.
   */
  class FileSystem {
    var files: map<string, Bytes>

    constructor (initial: map<string, Bytes>)
      ensures files == initial
    {
      files := initial;
    }

    /** `File.WriteAllBytes`: creates or overwrites. */
    method WriteAllBytes(path: string, data: Bytes)
      modifies this
      ensures files == old(files)[path := data]
    {
      files := files[path := data];
    }

    /** `File.Delete`: removing a missing file is not an error. */
    method Delete(path: string)
      modifies this
      ensures files == old(files) - {path}
    {
      files := files - {path};
    }

    /** `File.Move` without overwrite, as `MoveFile` describes it. */
    method Move(source: string, destination: string) returns (r: Outcome)
      modifies this
      ensures MoveFile(old(files), source, destination).Success? ==> r == Pass && files == MoveFile(old(files), source, destination).value
      ensures MoveFile(old(files), source, destination).Failure? ==>
                r == Fail(MoveFile(old(files), source, destination).error) && files == old(files)
    {
      if source !in files {
        return Fail(FileNotFound);
      }
      if destination in files {
        return Fail(IOError);
      }
      files := (files - {source})[destination := files[source]];
      r := Pass;
    }
  }
}
