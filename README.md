# DataSaveSystem slot persistence engine, in Dafny

This project models the slot persistence engine of the DataSaveSystem Unity package and
proves properties of it. A *save slot* is a named key-value store made of three files in
the slots directory:

- `<name>.saveslot`: the encoded cache (the *blob*);
- `<name>_KEY.key`: the raw key bytes;
- `<name>_METADATA.metadata`: a record of the settings the blob was encoded with.

A slot also holds an in-memory cache that serves every read. The model covers these parts:

- the slot: `SaveSlot` is a class, and its methods update its fields and the shared file system;
- the registry of slots: `SaveSlotManager` holds an ordered list and an active-slot reference;
- the cache (`DataCacheManager`);
- the encode/decode pipeline (`SaveUtility`): compression first, then encryption;
- the IV framing around the cipher (`EncryptionUtility`), over arrays as in the source;
- the facade (`DataManager`);
- the log-level filter (`CustomLogger`);
- the slot rules of the example menu (`SaveSlotUI`).

The file system is one object holding a map from path to bytes. GZIP, AES, UTF-8 and the
JSON serializer are function-valued fields of `Platform.Env`, left uninterpreted. A theorem
that needs their round-trip laws takes `Lawful(env)` as a hypothesis. Exceptions are
`Result`/`Outcome` values. The randomness the source draws (keys, IVs, GUIDs) and the clock
are parameters.

Modules, one per source file: `Platform` (runtime stand-ins), `Wrappers`,
`EncryptionUtility`, `SaveUtility`, `DataCache`, `Slots` (SaveSlot.cs), `Registry`
(SaveSlotManager.cs), `Facade` (DataManager.cs), `Logging` (CustomLogging.cs) and `SlotUI`
(SaveSlotUI.cs).

The headline theorems:

- `SaveUtility.RoundTrip`: decoding with a record of the settings used to encode gives the
  text back, for all four combinations of settings.
- `Slots.SaveSlot.Save` (through `Slots.SavedStoreReopens`): after a complete save, a fresh
  `new SaveSlot(name, …)` reloads exactly the saved cache, whatever settings it is given.
- `Slots.RenameSucceedsIff` and `Slots.RenameMovesFiles`: when a rename succeeds, and which
  files it moves.
- `Registry.SaveSlotManager.CreateSaveSlot` and `DeleteSaveSlot` keep slot names unique.
  `RenameSaveSlot` keeps them unique while every listed slot's blob is on disk
  (`BlobsOnDisk`).
- `Registry.SaveSlotManager.CreateSaveSlot` and `Initialize`: a new name is listed exactly
  when its slot opens (`Slots.Opens`), and a slot that fails to open is skipped.
- `SlotUI.SaveSlotUI.GenerateUniqueSlotName`: returns the least free number from 1 to 999,
  and never `prefix_1000`.

Two behaviours of the code that the model keeps as written (the rename chain is the one
place where it runs the corrected rule instead; see the first finding and "## Left out"):

- `ChangeActiveSaveSlot` (SaveSlotManager.cs:53-54) sets the active reference to null when
  no listed slot has the name; the previous active slot is not kept.
- `InitializeEncryptionKey` (SaveSlot.cs:45-61) creates and writes a key for every slot,
  whatever its encryption setting, and the metadata file is always encrypted with it.

## Model

| member | source | states |
|---|---|---|
| Platform.MoveFile | Assets/DataSave/Data/SaveSlot.cs:397 | `File.Move` fails with FileNotFound on a missing source and IOError on an existing destination; on success the contents change path |
| Platform.MoveFileFrame | Assets/DataSave/Data/SaveSlot.cs:397 | a move leaves every path other than its source and destination as it was |
| Platform.FileSystem.WriteAllBytes | Assets/DataSave/Data/SaveSlot.cs:82 | `File.WriteAllBytes` creates or overwrites exactly one path |
| Platform.FileSystem.Delete | Assets/DataSave/Data/SaveSlot.cs:319 | `File.Delete` removes exactly one path |
| Platform.FileSystem.Move | Assets/DataSave/Data/SaveSlot.cs:397 | the in-place move does what `MoveFile` says, and a failed move changes nothing |
| EncryptionUtility.EncryptSpec | Assets/DataSave/Data/Utility/EncryptionUtility.cs:11-25 | encryption fails iff the key size is not 16, 24 or 32 bytes; otherwise the output is the IV followed by the ciphertext, as long as both together |
| EncryptionUtility.DecryptSpec | Assets/DataSave/Data/Utility/EncryptionUtility.cs:28-43 | a bad key fails; input shorter than one block fails on the negative buffer size; otherwise the first 16 bytes are the IV and the rest is the ciphertext |
| EncryptionUtility.DecryptEncrypt | Assets/DataSave/Data/Utility/EncryptionUtility.cs:11-43 | `Decrypt(Encrypt(d, k), k) == d` for a valid key and a one-block IV |
| EncryptionUtility.ArrayCopy | Assets/DataSave/Data/Utility/EncryptionUtility.cs:21-22 | `Array.Copy` fills exactly the destination range from the source range and leaves the rest of the array |
| EncryptionUtility.Encrypt | Assets/DataSave/Data/Utility/EncryptionUtility.cs:11-25 | the array-filling implementation returns exactly `EncryptSpec` |
| EncryptionUtility.Decrypt | Assets/DataSave/Data/Utility/EncryptionUtility.cs:28-43 | the buffer-splitting implementation returns exactly `DecryptSpec` |
| SaveUtility.ProcessSaveData | Assets/DataSave/Data/Utility/SaveUtility.cs:32-53 | fails iff AES is asked for with a bad key; GZIP output is encrypted when AES is set, and an AES result starts with its IV |
| SaveUtility.ProcessLoadData | Assets/DataSave/Data/Utility/SaveUtility.cs:16-30 | only the metadata argument decides: AES in the record means decrypt first (with its key and length failures), and GZIP means decompress, failing on a corrupt stream |
| SaveUtility.PlainPipeline | Assets/DataSave/Data/Utility/SaveUtility.cs:29-43 | with neither compression nor encryption, saving is UTF-8 encoding and loading is UTF-8 decoding |
| SaveUtility.RoundTrip | Assets/DataSave/Data/Utility/SaveUtility.cs:16-53 | for every combination of settings, loading with a record of the save settings gives back the saved text |
| DataCache.DataCacheManager.constructor | Assets/DataSave/Data/Utility/DataCacheManager.cs:11-14 | a new cache is empty |
| DataCache.DataCacheManager.SetValue | Assets/DataSave/Data/Utility/DataCacheManager.cs:18-24 | the key maps to the value (last write wins) and every other entry stays |
| DataCache.DataCacheManager.GetValue | Assets/DataSave/Data/Utility/DataCacheManager.cs:26-33 | an absent key gives the type's default without error; a value already of type T is returned itself; otherwise a successful JSON conversion is returned; failure happens only when both the cast and the conversion fail |
| DataCache.DataCacheManager.RemoveValue | Assets/DataSave/Data/Utility/DataCacheManager.cs:35-38 | only that key goes; an absent key changes nothing |
| DataCache.DataCacheManager.FromJson | Assets/DataSave/Data/Utility/DataCacheManager.cs:40-44 | the whole dictionary is replaced, not merged; a deserialization failure leaves it |
| DataCache.DataCacheManager.ToJson | Assets/DataSave/Data/Utility/DataCacheManager.cs:46-49 | `FromJson` of the result restores exactly the cache |
| Slots.PathsDistinct | Assets/DataSave/Data/SaveSlot.cs:37-39 | a slot's blob, key and metadata paths never collide, and each kind of path determines the slot name |
| Slots.MetadataUsesFixedPolicy | Assets/DataSave/Data/SaveSlot.cs:364-370 | the metadata file is decoded as a GZIP and AES blob, whatever the slot's settings |
| Slots.MetadataRoundTrip | Assets/DataSave/Data/SaveSlot.cs:326-370 | a record written by `SaveMetadata` is read back unchanged by `LoadMetadata` |
| Slots.SavedStoreReopens | Assets/DataSave/Data/SaveSlot.cs:121-155 | after the blob and then the metadata are written, any fresh instance reloads exactly the saved entries, whatever its live settings |
| Slots.RenameRefusals | Assets/DataSave/Data/SaveSlot.cs:373-393 | a blank name, or a different name whose blob file exists, gives false with no file touched; the same name gives true with no file touched |
| Slots.RenameSucceedsIff | Assets/DataSave/Data/SaveSlot.cs:389-408 | a rename to a different non-blank name succeeds iff the new blob path is free, and the key (when moved) and the metadata each have a free destination |
| Slots.RenameMovesFiles | Assets/DataSave/Data/SaveSlot.cs:395-408 | a successful rename moves the blob and the metadata, moves the key only when the key guard holds, and touches no other file |
| Slots.UnencryptedRenameStrandsKey | Assets/DataSave/Data/SaveSlot.cs:400-403 | with the key guard as written, renaming an unencrypted slot succeeds but leaves its key behind, so the slot under its new name fails to open |
| Slots.RenameKeepsStore | Assets/DataSave/Data/SaveSlot.cs:395-414 | when the key moves with the other files, a slot opened under the new name loads what it loaded under the old name |
| Slots.DeleteKeyKeepsStaleRecord | Assets/DataSave/Data/SaveSlot.cs:260-279 | after `DeleteKey` as written, the next open still reads the old record and decodes the new blob with that record's settings, not the ones it was written with |
| Slots.SaveSlot.constructor | Assets/DataSave/Data/SaveSlot.cs:30-39 | the name and settings are stored, the three paths are derived from the name, and the cache is new and empty |
| Slots.SaveSlot.Open | Assets/DataSave/Data/SaveSlot.cs:30-43 | opening succeeds iff `Opens` holds, and the files become `FilesAfterOpen`. A key file that exists is reused, otherwise the fresh key is written. An existing blob is decoded by its record into the cache. A missing blob is written as the encoded `"{}"`, and the open succeeds iff that encoding and the parse of `"{}"` both succeed |
| Slots.NewSlotOpens | Assets/DataSave/Data/SaveSlot.cs:45-84 | under the codec laws, a slot with no blob opens iff it is unencrypted or its key (the stored one, else the fresh one) has a valid AES size |
| Slots.SaveSlot.InitializeEncryptionKey | Assets/DataSave/Data/SaveSlot.cs:45-61 | an existing key file is read and never overwritten; otherwise the fresh key is written; afterwards the key file holds the key in memory |
| Slots.SaveSlot.InitializeSaveFile | Assets/DataSave/Data/SaveSlot.cs:63-84 | an existing blob is decoded with `LoadMetadata()`'s settings and no file changes. For a missing blob, success holds iff encoding `"{}"` with the live settings succeeds and `"{}"` parses; the encoded blob is written exactly when encoding succeeds, and the cache becomes the parsed `"{}"` |
| Slots.SaveSlot.Load | Assets/DataSave/Data/SaveSlot.cs:91-107 | reads only the cache (its frame names no file): the default for an absent key, otherwise the cached value itself or its JSON conversion, failing only when both fail |
| Slots.SaveSlot.Save | Assets/DataSave/Data/SaveSlot.cs:121-155 | the cache gets the entry; the blob is rewritten from the whole cache with the live settings; then the record of the live settings and the time is written; a failure stops the sequence; a complete save reopens to the saved cache |
| Slots.SaveSlot.SaveCacheToFile | Assets/DataSave/Data/SaveSlot.cs:229-247 | the blob is rewritten from the cache with the live settings, and nothing else changes |
| Slots.SaveSlot.DeleteKey | Assets/DataSave/Data/SaveSlot.cs:260-279 | only that key leaves the cache; the blob is rewritten; the metadata file is left exactly as it was |
| Slots.SaveSlot.DeleteKeyAndRecord | Assets/DataSave/Data/SaveSlot.cs:260-279 | deleting a key rewrites both the blob and the record, so a complete delete reopens to the remaining cache |
| Slots.SaveSlot.ClearFiles | Assets/DataSave/Data/SaveSlot.cs:317-322 | exactly the slot's three files are gone afterwards |
| Slots.SaveSlot.SaveMetadata | Assets/DataSave/Data/SaveSlot.cs:326-338 | the record is encoded with GZIP and AES whatever the slot's settings, and `LoadMetadata` then returns it |
| Slots.SaveSlot.LoadMetadata | Assets/DataSave/Data/SaveSlot.cs:354-371 | with no metadata file, the live settings at `DateTime.MinValue`; otherwise the file decoded with the fixed policy |
| Slots.SaveSlot.Rename | Assets/DataSave/Data/SaveSlot.cs:373-421 | the corrected rename: result and file moves are those of the rename rule with the key always moved; on success the name and all three paths follow the new name, on failure they stay |
| Slots.SaveSlot.RenameAsWritten | Assets/DataSave/Data/SaveSlot.cs:373-421 | the rename as written: result and file moves are those of the rename rule with the key moved only when `EncryptionType` is not `None`; on success the name and all three paths follow the new name |
| Slots.SaveSlot.RenameMoving | Assets/DataSave/Data/SaveSlot.cs:377-414 | the checks and the three guarded moves in order, with the key move under the given guard: the outcome and the files are those of `RenameEffect`, and the paths follow the name only on success |
| Slots.SaveSlot.MoveIfPresent | Assets/DataSave/Data/SaveSlot.cs:395-398 | one guarded move: it happens only when the guard holds, the source exists and the paths differ, and a failed move leaves the files |
| Registry.FindByName | Assets/DataSave/Data/SaveSlotManager.cs:53 | `FirstOrDefault` by name: the first slot with that name, or none when no slot has it |
| Registry.UniqueAfterRemove | Assets/DataSave/Data/SaveSlotManager.cs:88 | removing a slot keeps the names distinct |
| Registry.UniqueAfterRename | Assets/DataSave/Data/SaveSlotManager.cs:104-112 | renaming one slot to a name whose blob file was free keeps the names distinct when every listed slot's blob was on disk |
| Registry.UniqueAfterAppend | Assets/DataSave/Data/SaveSlotManager.cs:61-68 | appending a slot whose name is not listed keeps the names distinct |
| Registry.SlotFilesMembership | Assets/DataSave/Data/SaveSlotManager.cs:122-125 | the files `DeleteAllSaveSlots` removes are exactly the three files of each listed slot |
| Registry.LastIndexOf | Assets/DataSave/Data/SaveSlotManager.cs:33 | the position of the last dot, which `Path.GetExtension` splits at, or none |
| Registry.BlobFileIsSlot | Assets/DataSave/Data/SaveSlotManager.cs:33-39 | a blob file passes the filter and yields the slot's own name |
| Registry.KeyFileIsSidecar | Assets/DataSave/Data/SaveSlotManager.cs:33-35 | a key file is skipped |
| Registry.MetadataFileIsSidecar | Assets/DataSave/Data/SaveSlotManager.cs:33-35 | a metadata file is skipped |
| Registry.AnyKeyEndingIsSkipped | Assets/DataSave/Data/SaveSlotManager.cs:33 | every extension ending in "key", such as ".monkey", is skipped too |
| Registry.SaveSlotManager.constructor | Assets/DataSave/Data/SaveSlotManager.cs:12-13 | the list starts empty and no slot is active |
| Registry.SaveSlotManager.DoesSlotExist | Assets/DataSave/Data/SaveSlotManager.cs:115-118 | true iff some listed slot has exactly that name |
| Registry.SaveSlotManager.ChangeActiveSaveSlot | Assets/DataSave/Data/SaveSlotManager.cs:51-55 | the active slot becomes the first listed slot with that name, and null iff no slot has it |
| Registry.SaveSlotManager.CreateSaveSlot | Assets/DataSave/Data/SaveSlotManager.cs:57-70 | an existing name changes nothing. Otherwise it succeeds iff the slot opens (`Opens`), the files become `FilesAfterOpen`, and the names become the old names plus the new name exactly on success. The appended slot is fresh and carries the given settings; a failure appends nothing. Names stay unique |
| Registry.SaveSlotManager.AddNewSlot | Assets/DataSave/Data/SaveSlotManager.cs:67-68 | an unlisted name is appended at the end iff its slot opens (`Opens`); the files become `FilesAfterOpen` either way |
| Registry.SaveSlotManager.OpenSlot | Assets/DataSave/Data/SaveSlotManager.cs:67 | a slot is returned iff it opens (`Opens`), and the files become `FilesAfterOpen`. A returned slot is fresh, carries the name and the settings, and its key file holds its key |
| Registry.SaveSlotManager.Add | Assets/DataSave/Data/SaveSlotManager.cs:68 | `_saveSlots.Add` puts the slot at the end and keeps the registry invariant and unique names |
| Registry.SaveSlotManager.DeleteSaveSlot | Assets/DataSave/Data/SaveSlotManager.cs:72-98 | an unknown name changes nothing. Otherwise the first slot with that name loses its three files and leaves the list, and the rest keep their order. The active-slot reference is not reset |
| Registry.SaveSlotManager.RemoveAt | Assets/DataSave/Data/SaveSlotManager.cs:88 | `_saveSlots.Remove` of one listed slot keeps the others in order and their names distinct |
| Registry.SaveSlotManager.RenameSaveSlot | Assets/DataSave/Data/SaveSlotManager.cs:100-113 | an unknown name changes no file, no list entry and no slot field. Otherwise the first slot with that name is renamed as `Rename` decides and the result is dropped. Its key and settings stay, every other listed slot is unchanged, and names stay unique while every listed slot's blob is on disk (`BlobsOnDisk`) |
| Registry.SaveSlotManager.RenameListed | Assets/DataSave/Data/SaveSlotManager.cs:112 | `Rename` on one listed slot: the files move as `RenameEffect` says, the slot keeps its key and settings, every other listed slot is unchanged, and a changed name is the new one, whose blob path was free |
| Registry.SaveSlotManager.DeleteAllSaveSlots | Assets/DataSave/Data/SaveSlotManager.cs:120-128 | every listed slot's three files are deleted, nothing else is, the list is emptied, and the active-slot reference stays |
| Registry.SaveSlotManager.TryCreateSaveSlot | Assets/DataSave/Data/SaveSlotManager.cs:37-45 | a create with its exception caught: the name ends up listed iff it was listed already or its slot opens. A listed name changes nothing; otherwise the name is appended exactly when it opens, and the files become `FilesAfterOpen`. Names stay unique |
| Registry.SaveSlotManager.Initialize | Assets/DataSave/Data/SaveSlotManager.cs:17-49 | the listed names and the files are those of `InitRun` over the listing: one create attempt per non-sidecar file, in listing order, with a failing slot skipped. Names stay unique. An existing active slot is kept, otherwise the first listed slot (or none) becomes active |
| Registry.SaveSlotManager.LoadSlots | Assets/DataSave/Data/SaveSlotManager.cs:31-46 | the `foreach` over the listing leaves the names and files of `InitRun`, only grows the list, and keeps names unique |
| Registry.SaveSlotManager.InitializeFile | Assets/DataSave/Data/SaveSlotManager.cs:33-45 | one pass of the loop does what `InitStep` says: a sidecar or a listed name changes nothing, otherwise the name is appended iff its slot opens |
| Registry.SaveSlotManager.DefaultActiveSlot | Assets/DataSave/Data/SaveSlotManager.cs:48 | `ActiveSaveSlot ??= FirstOrDefault()`: an existing active slot is kept, otherwise the first listed slot (or none) becomes active |
| Registry.InitRunExtends | Assets/DataSave/Data/SaveSlotManager.cs:31-46 | the names listed after the first k files stay listed to the end of the loop |
| Registry.InitAttemptListed | Assets/DataSave/Data/SaveSlotManager.cs:33-45 | the name of a non-sidecar file is listed after its pass iff it was listed before or its slot opened in that pass, and then stays listed; so a name left unlisted failed to open |
| Registry.InitListsCandidates | Assets/DataSave/Data/SaveSlotManager.cs:31-40 | `Initialize` lists only names listed before or base names of non-sidecar files |
| Registry.InitKeepsNamesDistinct | Assets/DataSave/Data/SaveSlotManager.cs:31-46 | the loop never lists a name twice |
| Facade.DataManager.constructor | Assets/DataSave/Data/DataManager.cs:13-14 | the facade holds the registry and the settings for new slots |
| Facade.DataManager.Save | Assets/DataSave/Data/DataManager.cs:21-26 | with no active slot nothing happens. Otherwise the active slot's cache gets the entry, and the files change only at its blob and then its metadata path: unchanged when the blob encoding fails, the new blob alone when the record encoding fails, both on success. A complete save reopens to its cache |
| Facade.DataManager.Load | Assets/DataSave/Data/DataManager.cs:46-51 | with no active slot, the type's default; otherwise the active slot's cached value or its JSON conversion, or the default for an absent key |
| Facade.DataManager.CreateSaveSlot | Assets/DataSave/Data/DataManager.cs:67 | the registry's create with the facade's compression and encryption settings: a new name is listed iff its slot opens, and the files become `FilesAfterOpen` |
| Facade.DataManager.DeleteSaveSlot | Assets/DataSave/Data/DataManager.cs:68 | the registry's delete contract, passed on: an unknown name changes nothing; otherwise the first slot with that name leaves the list with its three files, and the active slot stays |
| Facade.DataManager.RenameSaveSlot | Assets/DataSave/Data/DataManager.cs:69 | the registry's rename contract, passed on: an unknown name changes nothing; otherwise the file moves, the kept key and settings, the other slots unchanged, and unique names while every blob is on disk |
| Facade.DataManager.SetActiveSlot | Assets/DataSave/Data/DataManager.cs:70 | the first listed slot with that name becomes active, or none does iff no slot has it |
| Facade.DataManager.DeleteAllSaveSlots | Assets/DataSave/Data/DataManager.cs:71 | the registry's delete-all: an empty list and all slot files gone |
| Facade.DataManager.DoesSlotExist | Assets/DataSave/Data/DataManager.cs:75 | true iff some slot in `GetSaveSlots()` has exactly that name |
| Logging.ChannelOf | Assets/DataSave/Helper/CustomLogging.cs:52-63 | errors go to `Debug.LogError` and only they do; warnings go to `Debug.LogWarning` and only they do |
| Logging.Log | Assets/DataSave/Helper/CustomLogging.cs:26-64 | a message is shown iff its severity reaches the level's threshold, on its type's channel, as the caller information, a space and the message |
| Logging.LogInfo | Assets/DataSave/Helper/CustomLogging.cs:67 | shown iff the level is `Detailed`, on `Debug.Log` |
| Logging.LogWarning | Assets/DataSave/Helper/CustomLogging.cs:68 | shown iff the level is not `None`, on `Debug.LogWarning` |
| Logging.LogError | Assets/DataSave/Helper/CustomLogging.cs:69 | always shown, on `Debug.LogError` |
| Logging.MoreVerboseShowsMore | Assets/DataSave/Helper/CustomLogging.cs:29-39 | a more verbose level shows everything a quieter one shows, identically |
| SlotUI.NatToString | Assets/DataSave/Examples/Clicker/SaveSlotUI.cs:307 | a number is written as decimal digits, with lengths that separate numbers below and above 10, 100 and 1000 |
| SlotUI.NatToStringInjective | Assets/DataSave/Examples/Clicker/SaveSlotUI.cs:307 | different numbers give different default names |
| SlotUI.SaveSlotUI.constructor | Assets/DataSave/Examples/Clicker/SaveSlotUI.cs:19-20 | the menu holds the name prefix and the slot limit |
| SlotUI.SaveSlotUI.GenerateUniqueSlotName | Assets/DataSave/Examples/Clicker/SaveSlotUI.cs:300-320 | the name for the least number from 1 to 999 that no slot has; the GUID name when all are taken; never `prefix_1000` |
| SlotUI.SaveSlotUI.CreateNewSaveSlot | Assets/DataSave/Examples/Clicker/SaveSlotUI.cs:169-191 | at the slot limit nothing changes. Otherwise the generated name is never `prefix_1000`, and it is unlisted whenever a numbered name is free. Creating it does what `CreatedFrom` says: a new name is appended, with the facade's settings, iff its slot opens, and the files become `FilesAfterOpen` |
| SlotUI.SaveSlotUI.CreateNamedSlot | Assets/DataSave/Examples/Clicker/SaveSlotUI.cs:182 | the facade's create with the outcome dropped: a listed name changes nothing; a new one is appended iff its slot opens |
| SlotUI.SaveSlotUI.HandleSlotRename | Assets/DataSave/Examples/Clicker/SaveSlotUI.cs:193-230 | true iff the name is not blank and is unchanged or not yet taken. A false result restores the text. A refused or unchanged name touches nothing. Otherwise the registry's rename runs with its whole contract passed on (the other slots unchanged, unique names while every blob is on disk), and the handler reports true even when `Rename` refused |
| SlotUI.SaveSlotUI.SelectSaveSlot | Assets/DataSave/Examples/Clicker/SaveSlotUI.cs:232-258 | a blank or unknown name leaves the active slot; for a known one, the first listed slot with that name becomes active |
| SlotUI.SaveSlotUI.ConfirmDeleteSlot | Assets/DataSave/Examples/Clicker/SaveSlotUI.cs:260-271 | a blank or unknown name changes nothing; a known one leaves the list, the other slots keeping their order, and its three files are deleted |
| SlotUI.SaveSlotUI.DeleteSaveSlot | Assets/DataSave/Examples/Clicker/SaveSlotUI.cs:273-294 | an unknown name changes nothing; a known one loses its files and its place in the list, and the active slot stays |

## Findings

| source | as written | input that shows it | evidently intended | confidence | as-written member | corrected member |
|---|---|---|---|---|---|---|
| Assets/DataSave/Data/SaveSlot.cs:400-403 | `Rename` moves the key file only when `EncryptionType != Encryption.None`, but always moves the metadata file, which is encrypted with that key | an unencrypted slot "a" with its blob, key and metadata files, renamed to the free name "b": `b.saveslot` and `b_METADATA.metadata` exist and `b_KEY.key` does not, so a later `new SaveSlot("b", …)` draws a new key and cannot decrypt the metadata | all three files move together, so the slot keeps the key its metadata was sealed with | high; not executed | `Slots.SaveSlot.RenameAsWritten`, with `Slots.UnencryptedRenameStrandsKey` about its effect | `Slots.SaveSlot.Rename`, whose effect (the key always moved) `Slots.RenameKeepsStore` is about |
| Assets/DataSave/Data/SaveSlot.cs:260-279 | `DeleteKey` rewrites the blob with the live settings and keeps the old metadata record | a slot whose record says GZIP and AES, opened with no compression and no encryption (the settings were changed between sessions), then `DeleteKey("k")`: the next open decrypts and decompresses a plain UTF-8 blob | the record is rewritten with the settings the blob was just encoded with, as `Save` does | medium; not executed | `Slots.DeleteKeyKeepsStaleRecord` | `Slots.SaveSlot.DeleteKeyAndRecord` |

## Left out

- Concurrency is not modelled: `SemaphoreSlim`, the `lock` statements, `_webglLock`, and
  the WebGL paths with `SyncFS`. Every operation is one sequential step.
- `SaveAsync` and `DeleteKeyAsync` are modelled by `Save` and `DeleteKey`, which do the
  same steps synchronously.
- `DataManager.LoadAsync` is not modelled. It calls `SaveSlot.LoadAsync`, which
  SaveSlot.cs does not define.
- Directory paths are simplified:
  - `Directory.CreateDirectory` is a no-op, because directories are implicit in the file map;
  - `Application.persistentDataPath` plus `"Saveslots"` is the `directory` parameter;
  - `Path.Combine` is a join with "/".
- Registry.SaveSlotManager.Initialize: the directory listing is the `fileNames`
  parameter. It is not tied to the file map. The filter and the name derivation work on
  bare file names.
- The randomness and the clock are parameters:
  - `GenerateKey` is `freshKey`;
  - `GenerateIV` is `iv`;
  - `Guid.NewGuid().ToString("N")` is `guid`;
  - `DateTime.Now` is `now`, in ticks.
- The key size `Aes.Create` draws is not modelled. A key of the wrong size fails with
  CryptoError.
- GZIP, the AES block transform with its padding, UTF-8, `object.ToString()` and the
  Newtonsoft serializer are uninterpreted. Their round-trip laws are the `Lawful`
  hypothesis.
- Slots.UnencryptedRenameStrandsKey: assumes `KeySensitive`, which says a ciphertext never
  decrypts under another key. This idealises the CBC padding check, which rejects a wrong
  key only with high probability.
- Null values are not modelled. A null cache entry makes `GetValue` throw on
  `value.ToString()`, and `FromJson("null")` makes the cache null.
- These are not modelled, because they only read file dates and sizes, expose the
  dictionary, or release the semaphore: `GetLastModified`, `GetFileSize`, `GetCacheData`
  and `Dispose`. Also left out is `DeleteSaveSlot`'s call to `Dispose`, and the
  `IOException` it catches: deleting cannot fail in the file map.
- Facade.DataManager.GetSaveSlots: returns the list as a value. The source returns the
  live `List<SaveSlot>`, so a caller could change it; that aliasing is not modelled.
- `DataManager.CompressionType` and `EncryptionType` are static fields of enums that the
  modelled files do not declare. Their initial values are constructor parameters.
- `Compression` and `Encryption` are modelled as two-valued enums (none, or GZIP/AES).
  The key guard `EncryptionType != Encryption.None` at SaveSlot.cs:400, and so the
  rename finding, depends on that: a third encryption value would also move the key.
- Slots.SaveSlot.Rename: moves the key file whatever the encryption, unlike the guard at
  SaveSlot.cs:400, which moves it only for an encrypted slot (the first finding;
  `Slots.SaveSlot.RenameAsWritten` keeps the guard). The rename chain calls the corrected
  `Rename`, so `Registry.SaveSlotManager.RenameSaveSlot`, `Registry.SaveSlotManager.RenameListed`,
  `Facade.DataManager.RenameSaveSlot` and `SlotUI.SaveSlotUI.HandleSlotRename` all promise
  that an unencrypted slot's key file moves, which the source does not do.
- Slots.SaveSlot.Rename: not atomic, as in the source. When a later move throws, the
  earlier moves stay and the method reports false.
- SlotUI.SaveSlotUI.HandleSlotRename: the `catch` at SaveSlotUI.cs:224-229 is not
  modelled. `RenameSaveSlot` cannot throw, because `Rename` catches every exception
  itself.
- Logging is not modelled beyond `CustomLogging.cs`:
  - the log calls inside the other operations;
  - the `[Conditional]` attribute that removes `Log` from release builds;
  - the `StackFrame` lookup, which is the `callerInfo` parameter;
  - the mutable `CurrentLogLevel`, which is the `level` parameter, whose initial value
    is `Logging.DefaultLogLevel`.
- The menu's widgets are not modelled: `RefreshUI`, `CreateSlotUI`, `_activeSlotUIs`,
  `OnGameStarted`, `Awake`, `OnDestroy` and the button listeners.
- `UnityJsonConverters.cs` is not part of this model: it holds the float-valued Unity
  type converters. `GZIP.cs` and `SaveSettings.cs` are not part of it either: they are
  the compressor wrapper and the inspector defaults.
