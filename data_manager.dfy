/**
 * The public API of the save system (DataManager.cs): the save settings new slots are
 * created with, cache access through the active slot, and the slot lifecycle, each
 * forwarded to the registry.
 */
module Facade {
  import opened Wrappers
  import opened Platform
  import opened DataCache
  import opened Slots
  import opened Registry

  class DataManager {
    /** The settings `CreateSaveSlot` gives every new slot. */
    var CompressionType: Compression
    var EncryptionType: Encryption
    /** The registry every call goes through. */
    const saveSlotManager: SaveSlotManager

    constructor (saveSlotManager: SaveSlotManager, compression: Compression, encryption: Encryption)
      ensures this.saveSlotManager == saveSlotManager
      ensures CompressionType == compression && EncryptionType == encryption
    {
      this.saveSlotManager := saveSlotManager;
      CompressionType := compression;
      EncryptionType := encryption;
    }

    /** `ActiveSaveSlot`: the registry's active slot, read on every call. */
    function ActiveSaveSlot(): SaveSlot?
      reads this, saveSlotManager
    {
      saveSlotManager.ActiveSaveSlot
    }

    /** The cache of the active slot, if there is one: all that `Save` may change besides the files. */
    ghost function ActiveCache(): set<object>
      reads this, saveSlotManager, saveSlotManager.ActiveSet()
    {
      if saveSlotManager.ActiveSaveSlot == null then {} else {saveSlotManager.ActiveSaveSlot.dataCacheManager}
    }

    /**
     * `Save` (and `SaveAsync`): without an active slot nothing happens; otherwise the active
     * slot saves the same key and value, only its blob and metadata files change, and a
     * complete save can be reopened from disk.
     */
    method Save(key: string, value: Value, ivBlob: Bytes, ivMeta: Bytes, now: int) returns (r: Outcome)
      requires saveSlotManager.Valid()
      modifies ActiveCache(), saveSlotManager.fs
      ensures saveSlotManager.Valid()
      ensures ActiveSaveSlot() == null ==> r == Pass && saveSlotManager.fs.files == old(saveSlotManager.fs.files)
      ensures var slot := ActiveSaveSlot();
              slot != null ==>
                && slot.dataCacheManager.Cache == old(slot.dataCacheManager.Cache)[key := value]
                && (var blob := SaveUtility.ProcessSaveData(saveSlotManager.env, saveSlotManager.env.cacheToJson(slot.dataCacheManager.Cache),
                                                            slot.encryptionKey, slot.CompressionType, slot.EncryptionType, ivBlob);
                    var meta := EncodeMetadata(saveSlotManager.env, Metadata(slot.CompressionType, slot.EncryptionType, now), slot.encryptionKey, ivMeta);
                    var files, before := saveSlotManager.fs.files, old(saveSlotManager.fs.files);
                    && (blob.Failure? ==> r == Fail(blob.error) && files == before)
                    && (blob.Success? && meta.Failure? ==> r == Fail(meta.error) && files == before[slot.SavePath := blob.value])
                    && (blob.Success? && meta.Success? ==>
                          r == Pass && files == before[slot.SavePath := blob.value][slot.metadataPath := meta.value]))
                && (old(slot.KeyOnDisk()) ==> slot.KeyOnDisk())
                && (r.Pass? && Lawful(saveSlotManager.env) && slot.KeyOnDisk() && |ivBlob| == IvLength && |ivMeta| == IvLength ==>
                      forall comp, enc, freshKey ::
                        Reopened(saveSlotManager.env, saveSlotManager.fs.files, saveSlotManager.directory, slot.Name, comp, enc, freshKey)
                          == Success(slot.dataCacheManager.Cache))
    {
      var slot := saveSlotManager.ActiveSaveSlot;
      if slot == null {
        return Pass;
      }
      r := slot.Save(key, value, ivBlob, ivMeta, now);
    }

    /**
     * `Load<T>`: without an active slot, `default(T)`; otherwise the active slot's cached
     * value for the key, read without touching any file.
     */
    function Load<T>(key: string, view: TypeView<T>): (r: Result<T>)
      reads this, saveSlotManager, saveSlotManager.ActiveSet(), ActiveCache()
      ensures ActiveSaveSlot() == null ==> r == Success(view.default)
      ensures var slot := ActiveSaveSlot();
              slot != null && key !in slot.dataCacheManager.Cache ==> r == Success(view.default)
      ensures var slot := ActiveSaveSlot();
              slot != null && key in slot.dataCacheManager.Cache && view.cast(slot.dataCacheManager.Cache[key]).Some? ==>
                r == Success(view.cast(slot.dataCacheManager.Cache[key]).value)
      ensures var slot := ActiveSaveSlot();
              slot != null && key in slot.dataCacheManager.Cache && view.cast(slot.dataCacheManager.Cache[key]).None?
              && view.parse(slot.env.valueText(slot.dataCacheManager.Cache[key])).Some? ==>
                r == Success(view.parse(slot.env.valueText(slot.dataCacheManager.Cache[key])).value)
      ensures r.Failure? ==>
                var slot := ActiveSaveSlot();
                slot != null && key in slot.dataCacheManager.Cache && view.cast(slot.dataCacheManager.Cache[key]).None?
                && view.parse(slot.env.valueText(slot.dataCacheManager.Cache[key])).None?
    {
      var slot := saveSlotManager.ActiveSaveSlot;
      if slot == null then Success(view.default) else slot.Load(key, view)
    }

    /** `CreateSaveSlot(name)`: the registry's operation, with this facade's settings. */
    method CreateSaveSlot(name: string, freshKey: Bytes, iv: Bytes) returns (r: Outcome)
      requires saveSlotManager.Valid()
      modifies saveSlotManager`saveSlots, saveSlotManager.fs
      ensures saveSlotManager.Valid()
      ensures old(saveSlotManager.DoesSlotExist(name)) ==>
                r == Pass && saveSlotManager.saveSlots == old(saveSlotManager.saveSlots)
                && saveSlotManager.fs.files == old(saveSlotManager.fs.files)
      ensures !old(saveSlotManager.DoesSlotExist(name)) ==>
                && (r.Pass? <==> Opens(saveSlotManager.env, old(saveSlotManager.fs.files), saveSlotManager.directory, name,
                                       CompressionType, EncryptionType, freshKey, iv))
                && saveSlotManager.fs.files == FilesAfterOpen(saveSlotManager.env, old(saveSlotManager.fs.files), saveSlotManager.directory,
                                                              name, CompressionType, EncryptionType, freshKey, iv)
      ensures r.Fail? ==> saveSlotManager.saveSlots == old(saveSlotManager.saveSlots)
      ensures !old(saveSlotManager.DoesSlotExist(name)) && r.Pass? ==>
                var before := old(saveSlotManager.saveSlots);
                && |saveSlotManager.saveSlots| == |before| + 1 && saveSlotManager.saveSlots[..|before|] == before
                && var s := saveSlotManager.saveSlots[|before|];
                   s.Name == name && s.CompressionType == CompressionType && s.EncryptionType == EncryptionType
      ensures old(saveSlotManager.UniqueNames()) ==> saveSlotManager.UniqueNames()
    {
      r := saveSlotManager.CreateSaveSlot(name, CompressionType, EncryptionType, freshKey, iv);
    }

    /** `DeleteSaveSlot(name)`: forwarded unchanged. */
    method DeleteSaveSlot(name: string)
      requires saveSlotManager.Valid()
      modifies saveSlotManager`saveSlots, saveSlotManager.fs
      ensures saveSlotManager.Valid() && ActiveSaveSlot() == old(ActiveSaveSlot())
      ensures !old(saveSlotManager.DoesSlotExist(name)) ==>
                saveSlotManager.saveSlots == old(saveSlotManager.saveSlots) && saveSlotManager.fs.files == old(saveSlotManager.fs.files)
      ensures old(saveSlotManager.DoesSlotExist(name)) ==>
                var i := old(FindByName(saveSlotManager.saveSlots, name));
                var target := old(saveSlotManager.saveSlots[i]);
                && saveSlotManager.saveSlots == old(saveSlotManager.saveSlots[..i] + saveSlotManager.saveSlots[i + 1..])
                && saveSlotManager.fs.files == old(saveSlotManager.fs.files) - {old(target.SavePath), old(target.keyPath), old(target.metadataPath)}
    {
      saveSlotManager.DeleteSaveSlot(name);
    }

    /** `RenameSaveSlot(oldName, newName)`: forwarded unchanged. */
    method RenameSaveSlot(oldName: string, newName: string)
      requires saveSlotManager.Valid()
      modifies saveSlotManager.saveSlots, saveSlotManager.fs
      ensures saveSlotManager.Valid() && saveSlotManager.saveSlots == old(saveSlotManager.saveSlots)
      ensures !old(saveSlotManager.DoesSlotExist(oldName)) ==>
                saveSlotManager.fs.files == old(saveSlotManager.fs.files) && unchanged(saveSlotManager.saveSlots)
      ensures old(saveSlotManager.DoesSlotExist(oldName)) ==>
                var slots := saveSlotManager.saveSlots;
                var i := old(FindByName(slots, oldName));
                var effect := RenameEffect(old(saveSlotManager.fs.files), saveSlotManager.directory, oldName, newName, true);
                && saveSlotManager.fs.files == effect.files
                && slots[i].Name == (if effect.ok then newName else oldName)
                && slots[i].encryptionKey == old(slots[i].encryptionKey)
                && slots[i].CompressionType == old(slots[i].CompressionType)
                && slots[i].EncryptionType == old(slots[i].EncryptionType)
                && forall j | 0 <= j < |slots| && j != i :: unchanged(slots[j])
      ensures old(saveSlotManager.UniqueNames()) && old(saveSlotManager.BlobsOnDisk()) ==> saveSlotManager.UniqueNames()
    {
      saveSlotManager.RenameSaveSlot(oldName, newName);
    }

    /** `SetActiveSlot(name)`: the first slot with that name becomes active, or none does. */
    method SetActiveSlot(name: string)
      requires saveSlotManager.Valid()
      modifies saveSlotManager`ActiveSaveSlot
      ensures saveSlotManager.Valid()
      ensures ActiveSaveSlot() == null <==> !DoesSlotExist(name)
      ensures ActiveSaveSlot() != null ==>
                var slots := GetSaveSlots();
                exists i | 0 <= i < |slots| :: slots[i] == ActiveSaveSlot() && ActiveSaveSlot().Name == name
                                               && forall j | 0 <= j < i :: slots[j].Name != name
    {
      saveSlotManager.ChangeActiveSaveSlot(name);
    }

    /** `DeleteAllSaveSlots`: forwarded unchanged. */
    method DeleteAllSaveSlots()
      requires saveSlotManager.Valid()
      modifies saveSlotManager`saveSlots, saveSlotManager.fs
      ensures saveSlotManager.Valid() && GetSaveSlots() == [] && ActiveSaveSlot() == old(ActiveSaveSlot())
      ensures saveSlotManager.fs.files == old(saveSlotManager.fs.files - SlotFiles(saveSlotManager.saveSlots))
    {
      saveSlotManager.DeleteAllSaveSlots();
    }

    /** `GetSaveSlots`: the registry's list. */
    function GetSaveSlots(): seq<SaveSlot>
      reads this, saveSlotManager
    {
      saveSlotManager.saveSlots
    }

    /** `DoesSlotExist(name)`: some slot in the list has exactly that name. */
    function DoesSlotExist(name: string): (r: bool)
      reads this, saveSlotManager, saveSlotManager.saveSlots
      ensures r <==> exists s | s in GetSaveSlots() :: s.Name == name
    {
      saveSlotManager.DoesSlotExist(name)
    }
  }
}
