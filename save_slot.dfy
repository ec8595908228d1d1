/**
 * One save slot (SaveSlot.cs): a named store made of three files in the slots directory
 * (the blob, the key and the metadata), an encryption key kept in memory, and a cache
 * that serves every read.
 *
 * The file system is the shared `FileSystem` object. The randomness the source draws
 * (`GenerateKey`, `GenerateIV`) and the clock (`DateTime.Now`) arrive as parameters.
 */
module Slots {
  import opened Wrappers
  import opened Platform
  import EncryptionUtility
  import SaveUtility
  import opened DataCache

  /** `<directory>/<name>.saveslot`: the encoded cache. */
  function BlobPath(directory: string, name: string): string {
    directory + "/" + name + ".saveslot"
  }

  /** `<directory>/<name>_KEY.key`: the raw key bytes. */
  function KeyPath(directory: string, name: string): string {
    directory + "/" + name + "_KEY.key"
  }

  /** `<directory>/<name>_METADATA.metadata`: the encoded metadata record. */
  function MetadataPath(directory: string, name: string): string {
    directory + "/" + name + "_METADATA.metadata"
  }

  lemma SuffixInjective(directory: string, a: string, b: string, suffix: string)
    requires directory + "/" + a + suffix == directory + "/" + b + suffix
    ensures a == b
  {
    var n := |directory| + 1;
    assert |a| == |b|;
    assert a == (directory + "/" + a + suffix)[n..n + |a|];
    assert b == (directory + "/" + b + suffix)[n..n + |b|];
  }

  /**
   * The three kinds of path never collide (they end in 't', 'y' and 'a'), and each kind
   * determines the slot name, so two slots' files are distinct whenever their names are.
   */
  lemma PathsDistinct(directory: string, a: string, b: string)
    ensures BlobPath(directory, a) != KeyPath(directory, b)
    ensures BlobPath(directory, a) != MetadataPath(directory, b)
    ensures KeyPath(directory, a) != MetadataPath(directory, b)
    ensures BlobPath(directory, a) == BlobPath(directory, b) ==> a == b
    ensures KeyPath(directory, a) == KeyPath(directory, b) ==> a == b
    ensures MetadataPath(directory, a) == MetadataPath(directory, b) ==> a == b
  {
    var blob, key, meta := BlobPath(directory, a), KeyPath(directory, b), MetadataPath(directory, b);
    assert blob[|blob| - 1] == 't';
    assert key[|key| - 1] == 'y';
    assert meta[|meta| - 1] == 'a';
    assert KeyPath(directory, a)[|KeyPath(directory, a)| - 1] == 'y';
    if BlobPath(directory, a) == BlobPath(directory, b) {
      SuffixInjective(directory, a, b, ".saveslot");
    }
    if KeyPath(directory, a) == KeyPath(directory, b) {
      SuffixInjective(directory, a, b, "_KEY.key");
    }
    if MetadataPath(directory, a) == MetadataPath(directory, b) {
      SuffixInjective(directory, a, b, "_METADATA.metadata");
    }
  }

  /** How `SaveMetadata` encodes a record: always GZIP and AES, whatever the slot's own settings. */
  function EncodeMetadata(env: Env, md: SaveMetadata, key: Bytes, iv: Bytes): Result<Bytes> {
    SaveUtility.ProcessSaveData(env, env.metadataToJson(md), key, GZIP, AES, iv)
  }

  /** How `LoadMetadata` decodes an existing metadata file: always decrypt, then always decompress. */
  function DecodeMetadata(env: Env, raw: Bytes, key: Bytes): Result<SaveMetadata> {
    match EncryptionUtility.DecryptSpec(env, raw, key)
    case Failure(e) => Failure(e)
    case Success(decrypted) =>
      match env.gzipDecompress(decrypted)
      case None => Failure(CompressionError)
      case Some(json) =>
        match env.metadataFromJson(json)
        case None => Failure(SerializationError)
        case Some(md) => Success(md)
  }

  /** The metadata file is decoded by the same pipeline as a blob saved with GZIP and AES. */
  lemma MetadataUsesFixedPolicy(env: Env, raw: Bytes, key: Bytes, saveTime: int)
    ensures DecodeMetadata(env, raw, key).Success? ==>
              SaveUtility.ProcessLoadData(env, raw, key, Metadata(GZIP, AES, saveTime)).Success?
              && env.metadataFromJson(SaveUtility.ProcessLoadData(env, raw, key, Metadata(GZIP, AES, saveTime)).value)
                 == Some(DecodeMetadata(env, raw, key).value)
  {
  }

  /** A metadata record written by `SaveMetadata` reads back unchanged. */
  lemma MetadataRoundTrip(env: Env, md: SaveMetadata, key: Bytes, iv: Bytes)
    requires Lawful(env) && ValidKey(key) && |iv| == IvLength
    ensures EncodeMetadata(env, md, key, iv).Success?
    ensures DecodeMetadata(env, EncodeMetadata(env, md, key, iv).value, key) == Success(md)
  {
    var compressed := env.gzipCompress(env.metadataToJson(md));
    EncryptionUtility.DecryptEncrypt(env, compressed, key, iv);
  }

  /** What `LoadMetadata` returns for a slot with the given key and live settings. */
  function ReadMetadata(env: Env, files: map<string, Bytes>, path: string, key: Bytes, comp: Compression, enc: Encryption): Result<SaveMetadata> {
    if path !in files then Success(Metadata(comp, enc, MinValue)) else DecodeMetadata(env, files[path], key)
  }

  /** A blob decoded with the given metadata record and deserialized into cache entries. */
  function LoadedEntries(env: Env, blob: Bytes, key: Bytes, meta: SaveMetadata): Result<Entries> {
    match SaveUtility.ProcessLoadData(env, blob, key, meta)
    case Failure(e) => Failure(e)
    case Success(json) =>
      match env.cacheFromJson(json)
      case None => Failure(SerializationError)
      case Some(entries) => Success(entries)
  }

  /** What `InitializeSaveFile` loads from an existing blob: decoded by the metadata's settings. */
  function StoredEntries(env: Env, files: map<string, Bytes>, directory: string, name: string, key: Bytes, comp: Compression, enc: Encryption): Result<Entries>
    requires BlobPath(directory, name) in files
  {
    match ReadMetadata(env, files, MetadataPath(directory, name), key, comp, enc)
    case Failure(e) => Failure(e)
    case Success(meta) => LoadedEntries(env, files[BlobPath(directory, name)], key, meta)
  }

  /**
   * The cache a fresh `new SaveSlot(name, comp, enc)` would load from the files as they
   * stand, when the blob exists: the key comes from the key file, or is `freshKey` when
   * there is none.
   */
  function Reopened(env: Env, files: map<string, Bytes>, directory: string, name: string, comp: Compression, enc: Encryption, freshKey: Bytes): Result<Entries>
    requires BlobPath(directory, name) in files
  {
    StoredEntries(env, files, directory, name, OpenKey(files, directory, name, freshKey), comp, enc)
  }

  /** The key `new SaveSlot(name, …)` settles on: the key file's bytes, or `freshKey` when there is no key file. */
  function OpenKey(files: map<string, Bytes>, directory: string, name: string, freshKey: Bytes): Bytes {
    if KeyPath(directory, name) in files then files[KeyPath(directory, name)] else freshKey
  }

  /**
   * When `new SaveSlot(name, comp, enc)` returns instead of throwing: an existing blob must
   * decode by its record; a missing one must encode `"{}"` with the live settings, and `"{}"`
   * must deserialize.
   */
  predicate Opens(env: Env, files: map<string, Bytes>, directory: string, name: string, comp: Compression, enc: Encryption,
                  freshKey: Bytes, iv: Bytes)
  {
    if BlobPath(directory, name) in files then Reopened(env, files, directory, name, comp, enc, freshKey).Success?
    else
      && SaveUtility.ProcessSaveData(env, "{}", OpenKey(files, directory, name, freshKey), comp, enc, iv).Success?
      && env.cacheFromJson("{}").Some?
  }

  /**
   * The files after `new SaveSlot(name, comp, enc)`, whether it returns or throws: the key
   * file holds the key, and a missing blob is written when `"{}"` encodes.
   */
  function FilesAfterOpen(env: Env, files: map<string, Bytes>, directory: string, name: string, comp: Compression, enc: Encryption,
                          freshKey: Bytes, iv: Bytes): map<string, Bytes>
  {
    var withKey := files[KeyPath(directory, name) := OpenKey(files, directory, name, freshKey)];
    if BlobPath(directory, name) in files then withKey
    else match SaveUtility.ProcessSaveData(env, "{}", OpenKey(files, directory, name, freshKey), comp, enc, iv)
      case Success(blob) => withKey[BlobPath(directory, name) := blob]
      case Failure(_) => withKey
  }

  /**
   * A new slot opens whenever its empty blob can be encoded: with a lawful serializer, a slot
   * with no blob on disk fails to open only on an AES key of the wrong size.
   */
  lemma NewSlotOpens(env: Env, files: map<string, Bytes>, directory: string, name: string, comp: Compression, enc: Encryption,
                     freshKey: Bytes, iv: Bytes)
    requires Lawful(env) && BlobPath(directory, name) !in files
    ensures Opens(env, files, directory, name, comp, enc, freshKey, iv) <==>
              enc == NoEncryption || ValidKey(OpenKey(files, directory, name, freshKey))
  {
  }

  /**
   * Writing the blob and then the metadata, as `Save` does, leaves files from which every
   * fresh instance reloads exactly the saved entries, whatever settings that instance has:
   * the metadata, not the live settings, decides how the blob is decoded.
   */
  lemma SavedStoreReopens(env: Env, files: map<string, Bytes>, directory: string, name: string, key: Bytes,
                          comp: Compression, enc: Encryption, entries: Entries, ivBlob: Bytes, ivMeta: Bytes, now: int,
                          after: map<string, Bytes>)
    requires Lawful(env) && ValidKey(key) && |ivBlob| == IvLength && |ivMeta| == IvLength
    requires KeyPath(directory, name) in files && files[KeyPath(directory, name)] == key
    requires SaveUtility.ProcessSaveData(env, env.cacheToJson(entries), key, comp, enc, ivBlob).Success?
    requires EncodeMetadata(env, Metadata(comp, enc, now), key, ivMeta).Success?
    requires after == files[BlobPath(directory, name) := SaveUtility.ProcessSaveData(env, env.cacheToJson(entries), key, comp, enc, ivBlob).value]
                           [MetadataPath(directory, name) := EncodeMetadata(env, Metadata(comp, enc, now), key, ivMeta).value]
    ensures BlobPath(directory, name) in after
    ensures forall c, e, freshKey :: Reopened(env, after, directory, name, c, e, freshKey) == Success(entries)
  {
    var md := Metadata(comp, enc, now);
    SaveUtility.RoundTrip(env, env.cacheToJson(entries), key, comp, enc, ivBlob, now);
    MetadataRoundTrip(env, md, key, ivMeta);
    PathsDistinct(directory, name, name);
    assert after[KeyPath(directory, name)] == key;
    forall c, e, freshKey
      ensures Reopened(env, after, directory, name, c, e, freshKey) == Success(entries)
    {
      assert ReadMetadata(env, after, MetadataPath(directory, name), key, c, e) == Success(md);
    }
  }

  /** What `Rename` reports and what it leaves on disk. */
  datatype RenameResult = RenameResult(ok: bool, files: map<string, Bytes>)

  /**
   * `Rename(newName)` for a slot called `name`: the checks and the three guarded moves in
   * order, the key being moved only when `moveKey` holds; a move that throws ends the rename
   * with false, keeping the moves already made.
   */
  function RenameEffect(files: map<string, Bytes>, directory: string, name: string, newName: string, moveKey: bool): RenameResult {
    if IsNullOrWhiteSpace(newName) then RenameResult(false, files)
    else if BlobPath(directory, newName) in files && newName != name then RenameResult(false, files)
    else
      var afterBlob := GuardedMove(files, true, BlobPath(directory, name), BlobPath(directory, newName));
      if afterBlob.Failure? then RenameResult(false, files)
      else
        var afterKey := GuardedMove(afterBlob.value, moveKey, KeyPath(directory, name), KeyPath(directory, newName));
        if afterKey.Failure? then RenameResult(false, afterBlob.value)
        else
          var afterMeta := GuardedMove(afterKey.value, true, MetadataPath(directory, name), MetadataPath(directory, newName));
          if afterMeta.Failure? then RenameResult(false, afterKey.value)
          else RenameResult(true, afterMeta.value)
  }

  /** One `if (guard && File.Exists(source) && destination != source) File.Move(source, destination)` step. */
  function GuardedMove(files: map<string, Bytes>, guard: bool, source: string, destination: string): Result<map<string, Bytes>> {
    if guard && source in files && destination != source then MoveFile(files, source, destination) else Success(files)
  }

  /** A blank name, or a name whose blob file exists and is not this slot's, is refused with no file touched; the same name succeeds with no file touched. */
  lemma RenameRefusals(files: map<string, Bytes>, directory: string, name: string, newName: string, moveKey: bool)
    ensures IsNullOrWhiteSpace(newName) ==> RenameEffect(files, directory, name, newName, moveKey) == RenameResult(false, files)
    ensures !IsNullOrWhiteSpace(newName) && newName != name && BlobPath(directory, newName) in files ==>
              RenameEffect(files, directory, name, newName, moveKey) == RenameResult(false, files)
    ensures !IsNullOrWhiteSpace(newName) && newName == name ==>
              RenameEffect(files, directory, name, newName, moveKey) == RenameResult(true, files)
  {
    PathsDistinct(directory, name, newName);
  }

  /**
   * A rename to a different, non-blank name succeeds exactly when the new blob path is free,
   * the key (moved only under encryption) has a free destination, and so has the metadata.
   */
  lemma RenameSucceedsIff(files: map<string, Bytes>, directory: string, name: string, newName: string, moveKey: bool)
    requires !IsNullOrWhiteSpace(newName) && newName != name
    ensures RenameEffect(files, directory, name, newName, moveKey).ok <==>
              && BlobPath(directory, newName) !in files
              && !(moveKey && KeyPath(directory, name) in files && KeyPath(directory, newName) in files)
              && !(MetadataPath(directory, name) in files && MetadataPath(directory, newName) in files)
  {
    PathsDistinct(directory, name, newName);
    PathsDistinct(directory, newName, name);
  }

  /**
   * A successful rename to a different name moves the blob and the metadata to the new
   * name, moves the key only when `moveKey` holds (otherwise the key file stays under the
   * old name), and leaves every other file alone.
   */
  lemma RenameMovesFiles(files: map<string, Bytes>, directory: string, name: string, newName: string, moveKey: bool)
    requires newName != name && RenameEffect(files, directory, name, newName, moveKey).ok
    ensures var after := RenameEffect(files, directory, name, newName, moveKey).files;
            var oldBlob, oldKey, oldMeta := BlobPath(directory, name), KeyPath(directory, name), MetadataPath(directory, name);
            var newBlob, newKey, newMeta := BlobPath(directory, newName), KeyPath(directory, newName), MetadataPath(directory, newName);
      && oldBlob !in after && (newBlob in after <==> oldBlob in files) && (oldBlob in files ==> after[newBlob] == files[oldBlob])
      && oldMeta !in after && (oldMeta in files ==> newMeta in after && after[newMeta] == files[oldMeta])
      && (oldMeta !in files ==> (newMeta in after <==> newMeta in files))
      && (moveKey ==> oldKey !in after && (oldKey in files ==> newKey in after && after[newKey] == files[oldKey])
                                  && (oldKey !in files ==> (newKey in after <==> newKey in files)))
      && (!moveKey ==> (oldKey in after <==> oldKey in files) && (oldKey in files ==> after[oldKey] == files[oldKey])
                                  && (newKey in after <==> newKey in files))
      && forall p :: p != oldBlob && p != oldKey && p != oldMeta && p != newBlob && p != newKey && p != newMeta ==>
                       (p in after <==> p in files) && (p in files ==> after[p] == files[p])
  {
    PathsDistinct(directory, name, newName);
    PathsDistinct(directory, newName, name);
    PathsDistinct(directory, name, name);
    PathsDistinct(directory, newName, newName);
    var afterBlob := GuardedMove(files, true, BlobPath(directory, name), BlobPath(directory, newName)).value;
    var afterKey := GuardedMove(afterBlob, moveKey, KeyPath(directory, name), KeyPath(directory, newName)).value;
    var after := GuardedMove(afterKey, true, MetadataPath(directory, name), MetadataPath(directory, newName)).value;
    forall p | p !in {BlobPath(directory, name), BlobPath(directory, newName)}
      ensures (p in afterBlob <==> p in files) && (p in files ==> afterBlob[p] == files[p])
    {
      if BlobPath(directory, name) in files {
        MoveFileFrame(files, BlobPath(directory, name), BlobPath(directory, newName), p);
      }
    }
    forall p | p !in {KeyPath(directory, name), KeyPath(directory, newName)}
      ensures (p in afterKey <==> p in afterBlob) && (p in afterBlob ==> afterKey[p] == afterBlob[p])
    {
      if moveKey && KeyPath(directory, name) in afterBlob {
        MoveFileFrame(afterBlob, KeyPath(directory, name), KeyPath(directory, newName), p);
      }
    }
    forall p | p !in {MetadataPath(directory, name), MetadataPath(directory, newName)}
      ensures (p in after <==> p in afterKey) && (p in afterKey ==> after[p] == afterKey[p])
    {
      if MetadataPath(directory, name) in afterKey {
        MoveFileFrame(afterKey, MetadataPath(directory, name), MetadataPath(directory, newName), p);
      }
    }
  }

  /** The guard on the key move as the source writes it: only an encrypted slot moves its key. */
  predicate KeyMovedAsWritten(enc: Encryption) {
    enc != NoEncryption
  }

  /**
   * With the guard as written, renaming an unencrypted slot leaves its key file under the old
   * name while its metadata, encrypted with that key, moves: a fresh instance under the new
   * name draws a new key, cannot decrypt the metadata, and so fails to open.
   */
  lemma UnencryptedRenameStrandsKey(env: Env, files: map<string, Bytes>, directory: string, name: string, newName: string,
                                    key: Bytes, md: SaveMetadata, iv: Bytes, freshKey: Bytes, comp: Compression, enc: Encryption)
    requires KeySensitive(env) && |iv| == IvLength && freshKey != key
    requires !IsNullOrWhiteSpace(newName) && newName != name
    requires BlobPath(directory, name) in files && KeyPath(directory, name) in files && files[KeyPath(directory, name)] == key
    requires EncodeMetadata(env, md, key, iv).Success?
    requires MetadataPath(directory, name) in files && files[MetadataPath(directory, name)] == EncodeMetadata(env, md, key, iv).value
    requires BlobPath(directory, newName) !in files && KeyPath(directory, newName) !in files && MetadataPath(directory, newName) !in files
    ensures var effect := RenameEffect(files, directory, name, newName, KeyMovedAsWritten(NoEncryption));
            && effect.ok && BlobPath(directory, newName) in effect.files
            && Reopened(env, effect.files, directory, newName, comp, enc, freshKey).Failure?
  {
    RenameSucceedsIff(files, directory, name, newName, false);
    RenameMovesFiles(files, directory, name, newName, false);
    var after := RenameEffect(files, directory, name, newName, false).files;
    var sealed := env.aesEncrypt(key, iv, env.gzipCompress(env.metadataToJson(md)));
    var raw := after[MetadataPath(directory, newName)];
    assert raw == iv + sealed;
    assert raw[..IvLength] == iv && raw[IvLength..] == sealed;
    assert DecodeMetadata(env, raw, freshKey).Failure?;
  }

  /**
   * Moving the key whatever the encryption, a successful rename keeps the store: a fresh
   * instance under the new name loads what one under the old name loaded before, whatever
   * its settings and whatever key it would draw.
   */
  lemma RenameKeepsStore(env: Env, files: map<string, Bytes>, directory: string, name: string, newName: string)
    requires newName != name && RenameEffect(files, directory, name, newName, true).ok
    requires BlobPath(directory, name) in files && KeyPath(directory, name) in files
    requires MetadataPath(directory, name) in files || MetadataPath(directory, newName) !in files
    ensures var after := RenameEffect(files, directory, name, newName, true).files;
            && BlobPath(directory, newName) in after
            && forall comp, enc, freshKey ::
                 Reopened(env, after, directory, newName, comp, enc, freshKey) == Reopened(env, files, directory, name, comp, enc, freshKey)
  {
    RenameMovesFiles(files, directory, name, newName, true);
    var after := RenameEffect(files, directory, name, newName, true).files;
    var key := files[KeyPath(directory, name)];
    assert after[KeyPath(directory, newName)] == key;
    forall comp, enc, freshKey
      ensures Reopened(env, after, directory, newName, comp, enc, freshKey) == Reopened(env, files, directory, name, comp, enc, freshKey)
    {
      assert ReadMetadata(env, after, MetadataPath(directory, newName), key, comp, enc)
             == ReadMetadata(env, files, MetadataPath(directory, name), key, comp, enc);
    }
  }

  /**
   * As written, `DeleteKey` rewrites the blob with the live settings and keeps the metadata
   * record: when the record names other settings, the next open still reads that record and
   * decodes the new blob with its settings, not with the ones the blob was written with.
   */
  lemma DeleteKeyKeepsStaleRecord(env: Env, files: map<string, Bytes>, directory: string, name: string, key: Bytes,
                                  comp: Compression, enc: Encryption, entries: Entries, iv: Bytes, md: SaveMetadata)
    requires MetadataPath(directory, name) in files && DecodeMetadata(env, files[MetadataPath(directory, name)], key) == Success(md)
    requires md.compression != comp || md.encryption != enc
    requires SaveUtility.ProcessSaveData(env, env.cacheToJson(entries), key, comp, enc, iv).Success?
    ensures var blob := SaveUtility.ProcessSaveData(env, env.cacheToJson(entries), key, comp, enc, iv).value;
            var after := files[BlobPath(directory, name) := blob];
            && ReadMetadata(env, after, MetadataPath(directory, name), key, comp, enc) == Success(md)
            && StoredEntries(env, after, directory, name, key, comp, enc) == LoadedEntries(env, blob, key, md)
  {
    PathsDistinct(directory, name, name);
  }

  class SaveSlot {
    var Name: string
    var SavePath: string
    var CompressionType: Compression
    var EncryptionType: Encryption

    var encryptionKey: Bytes
    var keyPath: string
    var metadataPath: string

    const dataCacheManager: DataCacheManager
    /** The file system, the slots directory and the codecs the slot runs against. */
    const fs: FileSystem
    const directory: string
    const env: Env

    /** The three paths are derived from the current name. */
    ghost predicate Valid()
      reads this
    {
      && SavePath == BlobPath(directory, Name)
      && keyPath == KeyPath(directory, Name)
      && metadataPath == MetadataPath(directory, Name)
    }

    /** The key file holds the key in memory, so a fresh instance would decrypt with the same key. */
    ghost predicate KeyOnDisk()
      reads this, fs
    {
      keyPath in fs.files && fs.files[keyPath] == encryptionKey
    }

    /** The field assignments and path derivation of the constructor, before any file is touched. */
    constructor (name: string, compressionType: Compression, encryptionType: Encryption,
                 fs: FileSystem, directory: string, env: Env)
      ensures Valid() && fresh(dataCacheManager)
      ensures Name == name && CompressionType == compressionType && EncryptionType == encryptionType
      ensures this.fs == fs && this.directory == directory && this.env == env
      ensures dataCacheManager.Cache == map[] && encryptionKey == []
    {
      Name := name;
      CompressionType := compressionType;
      EncryptionType := encryptionType;
      this.fs := fs;
      this.directory := directory;
      this.env := env;
      dataCacheManager := new DataCacheManager();
      encryptionKey := [];
      SavePath := BlobPath(directory, name);
      keyPath := KeyPath(directory, name);
      metadataPath := MetadataPath(directory, name);
    }

    /**
     * `new SaveSlot(name, compressionType, encryptionType)`: derive the paths, then set up
     * the key, then the blob and cache. A failure is the exception the constructor throws;
     * the key file it may already have written stays.
     */
    static method Open(name: string, compressionType: Compression, encryptionType: Encryption,
                       fs: FileSystem, directory: string, env: Env, freshKey: Bytes, iv: Bytes)
      returns (r: Result<SaveSlot>)
      modifies fs
      ensures r.Success? <==> Opens(env, old(fs.files), directory, name, compressionType, encryptionType, freshKey, iv)
      ensures fs.files == FilesAfterOpen(env, old(fs.files), directory, name, compressionType, encryptionType, freshKey, iv)
      ensures var key := OpenKey(old(fs.files), directory, name, freshKey);
        && KeyPath(directory, name) in fs.files && fs.files[KeyPath(directory, name)] == key
        && (r.Success? ==>
              && fresh(r.value) && fresh(r.value.dataCacheManager) && r.value.Valid() && r.value.KeyOnDisk()
              && r.value.Name == name && r.value.CompressionType == compressionType && r.value.EncryptionType == encryptionType
              && r.value.fs == fs && r.value.directory == directory && r.value.env == env && r.value.encryptionKey == key)
        && (r.Success? && BlobPath(directory, name) in old(fs.files) ==>
              r.value.dataCacheManager.Cache == Reopened(env, old(fs.files), directory, name, compressionType, encryptionType, freshKey).value)
        && (r.Success? && BlobPath(directory, name) !in old(fs.files) ==>
              Some(r.value.dataCacheManager.Cache) == env.cacheFromJson("{}"))
    {
      var slot := new SaveSlot(name, compressionType, encryptionType, fs, directory, env);
      PathsDistinct(directory, name, name);
      slot.InitializeEncryptionKey(freshKey);
      var loaded := slot.InitializeSaveFile(iv);
      if loaded.Fail? {
        return Failure(loaded.error);
      }
      r := Success(slot);
    }

    /** `InitializeEncryptionKey`: an existing key file is reused unchanged, otherwise `freshKey` is written. */
    method InitializeEncryptionKey(freshKey: Bytes)
      requires Valid()
      modifies this`encryptionKey, fs
      ensures keyPath in old(fs.files) ==> encryptionKey == old(fs.files)[keyPath] && fs.files == old(fs.files)
      ensures keyPath !in old(fs.files) ==> encryptionKey == freshKey && fs.files == old(fs.files)[keyPath := freshKey]
      ensures KeyOnDisk()
    {
      if keyPath in fs.files {
        encryptionKey := fs.files[keyPath];
      } else {
        encryptionKey := freshKey;
        fs.WriteAllBytes(keyPath, encryptionKey);
      }
    }

    /**
     * `InitializeSaveFile`: an existing blob is decoded with `LoadMetadata()`'s settings into
     * the cache; otherwise an empty dictionary is encoded with the live settings and written.
     */
    method InitializeSaveFile(iv: Bytes) returns (r: Outcome)
      requires Valid()
      modifies dataCacheManager, fs
      ensures SavePath in old(fs.files) ==>
                && fs.files == old(fs.files)
                && var stored := StoredEntries(env, fs.files, directory, Name, encryptionKey, CompressionType, EncryptionType);
                   (r.Pass? <==> stored.Success?) && (r.Pass? ==> dataCacheManager.Cache == stored.value)
      ensures SavePath !in old(fs.files) ==>
                var blob := SaveUtility.ProcessSaveData(env, "{}", encryptionKey, CompressionType, EncryptionType, iv);
                && (r.Pass? <==> blob.Success? && env.cacheFromJson("{}").Some?)
                && (blob.Failure? ==> fs.files == old(fs.files))
                && (blob.Success? ==> fs.files == old(fs.files)[SavePath := blob.value])
                && (r.Pass? ==> Some(dataCacheManager.Cache) == env.cacheFromJson("{}"))
    {
      if SavePath in fs.files {
        var metadata := LoadMetadata();
        if metadata.Failure? {
          return Fail(metadata.error);
        }
        var json := SaveUtility.ProcessLoadData(env, fs.files[SavePath], encryptionKey, metadata.value);
        if json.Failure? {
          return Fail(json.error);
        }
        r := dataCacheManager.FromJson(env, json.value);
        return;
      }
      var emptyJson := "{}";
      var data := SaveUtility.ProcessSaveData(env, emptyJson, encryptionKey, CompressionType, EncryptionType, iv);
      if data.Failure? {
        return Fail(data.error);
      }
      fs.WriteAllBytes(SavePath, data.value);
      r := dataCacheManager.FromJson(env, emptyJson);
    }

    /** `Load<T>`: reads the cache only; no file is read (the frame names no file). */
    function Load<T>(key: string, view: TypeView<T>): (r: Result<T>)
      reads this, dataCacheManager
      ensures key !in dataCacheManager.Cache ==> r == Success(view.default)
      ensures key in dataCacheManager.Cache && view.cast(dataCacheManager.Cache[key]).Some? ==>
                r == Success(view.cast(dataCacheManager.Cache[key]).value)
      ensures key in dataCacheManager.Cache && view.cast(dataCacheManager.Cache[key]).None?
              && view.parse(env.valueText(dataCacheManager.Cache[key])).Some? ==>
                r == Success(view.parse(env.valueText(dataCacheManager.Cache[key])).value)
      ensures r.Failure? ==> key in dataCacheManager.Cache && view.cast(dataCacheManager.Cache[key]).None?
                             && view.parse(env.valueText(dataCacheManager.Cache[key])).None?
    {
      dataCacheManager.GetValue(env, key, view)
    }

    /**
     * `Save` (and `SaveAsync`): set the cache entry, write the whole cache as the blob with the
     * live settings, then write a fresh metadata record. After a complete save, any fresh
     * instance reloads the same cache from disk.
     */
    method Save(key: string, value: Value, ivBlob: Bytes, ivMeta: Bytes, now: int) returns (r: Outcome)
      requires Valid()
      modifies dataCacheManager, fs
      ensures dataCacheManager.Cache == old(dataCacheManager.Cache)[key := value]
      ensures var blob := SaveUtility.ProcessSaveData(env, env.cacheToJson(dataCacheManager.Cache), encryptionKey, CompressionType, EncryptionType, ivBlob);
              var meta := EncodeMetadata(env, Metadata(CompressionType, EncryptionType, now), encryptionKey, ivMeta);
              && (blob.Failure? ==> r == Fail(blob.error) && fs.files == old(fs.files))
              && (blob.Success? && meta.Failure? ==> r == Fail(meta.error) && fs.files == old(fs.files)[SavePath := blob.value])
              && (blob.Success? && meta.Success? ==> r == Pass && fs.files == old(fs.files)[SavePath := blob.value][metadataPath := meta.value])
      ensures old(KeyOnDisk()) ==> KeyOnDisk()
      ensures r.Pass? && Lawful(env) && KeyOnDisk() && |ivBlob| == IvLength && |ivMeta| == IvLength ==>
                forall comp, enc, freshKey :: Reopened(env, fs.files, directory, Name, comp, enc, freshKey) == Success(dataCacheManager.Cache)
    {
      PathsDistinct(directory, Name, Name);
      dataCacheManager.SetValue(key, value);
      var newJson := dataCacheManager.ToJson(env);
      var finalData := SaveUtility.ProcessSaveData(env, newJson, encryptionKey, CompressionType, EncryptionType, ivBlob);
      if finalData.Failure? {
        return Fail(finalData.error);
      }
      ghost var before := fs.files;
      fs.WriteAllBytes(SavePath, finalData.value);
      var metaData := Metadata(CompressionType, EncryptionType, now);
      r := SaveMetadata(metaData, ivMeta);
      if r.Pass? && Lawful(env) && KeyOnDisk() && |ivBlob| == IvLength && |ivMeta| == IvLength {
        SavedStoreReopens(env, before, directory, Name, encryptionKey, CompressionType, EncryptionType,
                          dataCacheManager.Cache, ivBlob, ivMeta, now, fs.files);
      }
    }

    /** `SaveCacheToFile`: rewrites the blob from the whole cache with the live settings; nothing else. */
    method SaveCacheToFile(iv: Bytes) returns (r: Outcome)
      requires Valid()
      modifies fs
      ensures var blob := SaveUtility.ProcessSaveData(env, env.cacheToJson(dataCacheManager.Cache), encryptionKey, CompressionType, EncryptionType, iv);
              && (blob.Failure? ==> r == Fail(blob.error) && fs.files == old(fs.files))
              && (blob.Success? ==> r == Pass && fs.files == old(fs.files)[SavePath := blob.value])
    {
      var newJson := env.cacheToJson(dataCacheManager.Cache);
      var finalData := SaveUtility.ProcessSaveData(env, newJson, encryptionKey, CompressionType, EncryptionType, iv);
      if finalData.Failure? {
        return Fail(finalData.error);
      }
      fs.WriteAllBytes(SavePath, finalData.value);
      r := Pass;
    }

    /**
     * `DeleteKey` (and `DeleteKeyAsync`): remove the entry and rewrite the blob with the live
     * settings. The metadata file is not rewritten.
     */
    method DeleteKey(key: string, iv: Bytes) returns (r: Outcome)
      requires Valid()
      modifies dataCacheManager, fs
      ensures dataCacheManager.Cache == old(dataCacheManager.Cache) - {key}
      ensures var blob := SaveUtility.ProcessSaveData(env, env.cacheToJson(dataCacheManager.Cache), encryptionKey, CompressionType, EncryptionType, iv);
              && (blob.Failure? ==> r == Fail(blob.error) && fs.files == old(fs.files))
              && (blob.Success? ==> r == Pass && fs.files == old(fs.files)[SavePath := blob.value])
      ensures metadataPath in fs.files <==> metadataPath in old(fs.files)
      ensures metadataPath in old(fs.files) ==> fs.files[metadataPath] == old(fs.files)[metadataPath]
      ensures old(KeyOnDisk()) ==> KeyOnDisk()
    {
      PathsDistinct(directory, Name, Name);
      dataCacheManager.RemoveValue(key);
      r := SaveCacheToFile(iv);
    }

    /**
     * `DeleteKey` as evidently intended: remove the entry, rewrite the blob, and rewrite the
     * metadata record as `Save` does, so that the record describes the blob and a complete
     * delete can be reopened from disk.
     */
    method DeleteKeyAndRecord(key: string, ivBlob: Bytes, ivMeta: Bytes, now: int) returns (r: Outcome)
      requires Valid()
      modifies dataCacheManager, fs
      ensures dataCacheManager.Cache == old(dataCacheManager.Cache) - {key}
      ensures var blob := SaveUtility.ProcessSaveData(env, env.cacheToJson(dataCacheManager.Cache), encryptionKey, CompressionType, EncryptionType, ivBlob);
              var meta := EncodeMetadata(env, Metadata(CompressionType, EncryptionType, now), encryptionKey, ivMeta);
              && (blob.Failure? ==> r == Fail(blob.error) && fs.files == old(fs.files))
              && (blob.Success? && meta.Failure? ==> r == Fail(meta.error) && fs.files == old(fs.files)[SavePath := blob.value])
              && (blob.Success? && meta.Success? ==> r == Pass && fs.files == old(fs.files)[SavePath := blob.value][metadataPath := meta.value])
      ensures old(KeyOnDisk()) ==> KeyOnDisk()
      ensures r.Pass? && Lawful(env) && KeyOnDisk() && |ivBlob| == IvLength && |ivMeta| == IvLength ==>
                forall comp, enc, freshKey :: Reopened(env, fs.files, directory, Name, comp, enc, freshKey) == Success(dataCacheManager.Cache)
    {
      PathsDistinct(directory, Name, Name);
      ghost var before := fs.files;
      r := DeleteKey(key, ivBlob);
      if r.Fail? {
        return;
      }
      r := SaveMetadata(Metadata(CompressionType, EncryptionType, now), ivMeta);
      if r.Pass? && Lawful(env) && KeyOnDisk() && |ivBlob| == IvLength && |ivMeta| == IvLength {
        SavedStoreReopens(env, before, directory, Name, encryptionKey, CompressionType, EncryptionType,
                          dataCacheManager.Cache, ivBlob, ivMeta, now, fs.files);
      }
    }

    /** `ClearFiles`: deletes the blob, the key and the metadata file, whichever exist. */
    method ClearFiles()
      modifies fs
      ensures fs.files == old(fs.files) - {SavePath, keyPath, metadataPath}
    {
      if SavePath in fs.files {
        fs.Delete(SavePath);
      }
      if keyPath in fs.files {
        fs.Delete(keyPath);
      }
      if metadataPath in fs.files {
        fs.Delete(metadataPath);
      }
    }

    /** `SaveMetadata`: encodes the record with the fixed GZIP and AES policy and writes it. */
    method SaveMetadata(metadata: SaveMetadata, iv: Bytes) returns (r: Outcome)
      modifies fs
      ensures var meta := EncodeMetadata(env, metadata, encryptionKey, iv);
              && (meta.Failure? ==> r == Fail(meta.error) && fs.files == old(fs.files))
              && (meta.Success? ==> r == Pass && fs.files == old(fs.files)[metadataPath := meta.value])
      ensures r.Pass? && Lawful(env) && |iv| == IvLength ==> LoadMetadata() == Success(metadata)
    {
      var metadataJson := env.metadataToJson(metadata);
      var metadataData := SaveUtility.ProcessSaveData(env, metadataJson, encryptionKey, GZIP, AES, iv);
      if metadataData.Failure? {
        return Fail(metadataData.error);
      }
      fs.WriteAllBytes(metadataPath, metadataData.value);
      r := Pass;
      if Lawful(env) && |iv| == IvLength {
        MetadataRoundTrip(env, metadata, encryptionKey, iv);
      }
    }

    /**
     * `LoadMetadata`: with no metadata file, a record of the live settings at `DateTime.MinValue`;
     * otherwise the file decoded with the fixed policy, whatever the live settings.
     */
    function LoadMetadata(): (r: Result<SaveMetadata>)
      reads this, fs
      ensures metadataPath !in fs.files ==> r == Success(Metadata(CompressionType, EncryptionType, MinValue))
      ensures metadataPath in fs.files ==> r == DecodeMetadata(env, fs.files[metadataPath], encryptionKey)
    {
      ReadMetadata(env, fs.files, metadataPath, encryptionKey, CompressionType, EncryptionType)
    }

    /**
     * `Rename`, with the key file moved whatever the encryption (the source moves it only for
     * an encrypted slot; see `RenameAsWritten` and `UnencryptedRenameStrandsKey`): the outcome
     * and the file moves are those of `RenameEffect` with the key moved; on success the name
     * and the three paths follow the new name, on failure they stay.
     */
    method Rename(newName: string) returns (ok: bool)
      requires Valid()
      modifies this`Name, this`SavePath, this`keyPath, this`metadataPath, fs
      ensures Valid()
      ensures RenameResult(ok, fs.files) == RenameEffect(old(fs.files), directory, old(Name), newName, true)
      ensures ok ==> Name == newName
      ensures !ok ==> Name == old(Name)
    {
      ok := RenameMoving(newName, true);
    }

    /**
     * `Rename` as the source writes it: the key file moves only when `EncryptionType` is not
     * `Encryption.None`. For an unencrypted slot the key stays under the old name.
     */
    method RenameAsWritten(newName: string) returns (ok: bool)
      requires Valid()
      modifies this`Name, this`SavePath, this`keyPath, this`metadataPath, fs
      ensures Valid()
      ensures RenameResult(ok, fs.files)
              == RenameEffect(old(fs.files), directory, old(Name), newName, KeyMovedAsWritten(EncryptionType))
      ensures ok ==> Name == newName
      ensures !ok ==> Name == old(Name)
    {
      ok := RenameMoving(newName, KeyMovedAsWritten(EncryptionType));
    }

    /**
     * The steps of `Rename`, the key move guarded by `moveKey`: the blank-name and taken-name
     * checks, then the three guarded moves, a throwing move ending with false.
     */
    method RenameMoving(newName: string, moveKey: bool) returns (ok: bool)
      requires Valid()
      modifies this`Name, this`SavePath, this`keyPath, this`metadataPath, fs
      ensures Valid()
      ensures RenameResult(ok, fs.files) == RenameEffect(old(fs.files), directory, old(Name), newName, moveKey)
      ensures ok ==> Name == newName
      ensures !ok ==> Name == old(Name)
    {
      if IsNullOrWhiteSpace(newName) {
        return false;
      }
      PathsDistinct(directory, Name, newName);
      var newPath := BlobPath(directory, newName);
      var newKeyPath := KeyPath(directory, newName);
      var newMetadataPath := MetadataPath(directory, newName);

      if newPath in fs.files && newPath != SavePath {
        return false;
      }
      ok := MoveIfPresent(true, SavePath, newPath);
      if !ok {
        return;
      }
      ok := MoveIfPresent(moveKey, keyPath, newKeyPath);
      if !ok {
        return;
      }
      ok := MoveIfPresent(true, metadataPath, newMetadataPath);
      if !ok {
        return;
      }
      Name := newName;
      SavePath := newPath;
      keyPath := newKeyPath;
      metadataPath := newMetadataPath;
    }

    /** One guarded `File.Move` of `Rename`; a move that throws reports false and leaves the files as they were. */
    method MoveIfPresent(guard: bool, source: string, destination: string) returns (ok: bool)
      modifies fs
      ensures var step := GuardedMove(old(fs.files), guard, source, destination);
              ok == step.Success? && fs.files == (if ok then step.value else old(fs.files))
    {
      ok := true;
      if guard && source in fs.files && destination != source {
        var moved := fs.Move(source, destination);
        ok := moved.Pass?;
      }
    }
  }
}
