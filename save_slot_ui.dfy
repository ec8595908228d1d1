/**
 * The slot rules of the example menu (SaveSlotUI.cs): default slot names, the rename
 * handler's checks, and the guards in front of create, select and delete. Widgets,
 * listeners and the `OnGameStarted` event are not modelled; a text box is `InputField`.
 */
module SlotUI {
  import opened Platform
  import opened Slots
  import opened Registry
  import opened Facade

  /** `int.ToString()` on a natural number: its decimal digits, most significant first. */
  function NatToString(n: nat): (s: string)
    ensures 1 <= |s|
    ensures forall i | 0 <= i < |s| :: '0' <= s[i] <= '9'
    ensures n < 10 ==> |s| == 1
    ensures n < 100 ==> |s| <= 2
    ensures n < 1000 ==> |s| <= 3
    ensures n >= 10 ==> |s| >= 2
    ensures n >= 100 ==> |s| >= 3
    ensures n >= 1000 ==> |s| >= 4
  {
    var digit := ['0' + (n % 10) as char];
    if n < 10 then digit else NatToString(n / 10) + digit
  }

  /** `$"{prefix}_{n}"`: the numbered default name. */
  function SlotName(prefix: string, n: nat): string {
    prefix + "_" + NatToString(n)
  }

  /** `$"{prefix}_{guid[..8]}"`: the fallback name, from the first eight hex digits of a GUID. */
  function GuidSlotName(prefix: string, guid: string): string
    requires 8 <= |guid|
  {
    prefix + "_" + guid[..8]
  }

  /** Numbered names with different numbers differ, so each number names one slot. */
  lemma {:induction false} NatToStringInjective(a: nat, b: nat)
    requires NatToString(a) == NatToString(b)
    ensures a == b
  {
    var sa, sb := NatToString(a), NatToString(b);
    assert sa[|sa| - 1] == sb[|sb| - 1];
    assert a % 10 == b % 10;
    if a >= 10 && b >= 10 {
      assert NatToString(a / 10) == sa[..|sa| - 1] == sb[..|sb| - 1] == NatToString(b / 10);
      NatToStringInjective(a / 10, b / 10);
    }
  }

  /** The text of a TextMeshPro input field. */
  class InputField {
    var text: string

    constructor (text: string)
      ensures this.text == text
    {
      this.text := text;
    }
  }

  class SaveSlotUI {
    /** The inspector settings `_defaultSlotPrefix` (default "SaveSlot") and `_maxSlots` (default 10). */
    const defaultSlotPrefix: string
    const maxSlots: int
    const dataManager: DataManager

    constructor (dataManager: DataManager, defaultSlotPrefix: string, maxSlots: int)
      ensures this.dataManager == dataManager
      ensures this.defaultSlotPrefix == defaultSlotPrefix && this.maxSlots == maxSlots
    {
      this.dataManager := dataManager;
      this.defaultSlotPrefix := defaultSlotPrefix;
      this.maxSlots := maxSlots;
    }

    /** A slot already has the numbered default name `n`. */
    predicate Taken(n: nat)
      reads this, dataManager, dataManager.saveSlotManager, dataManager.saveSlotManager.saveSlots
    {
      dataManager.DoesSlotExist(SlotName(defaultSlotPrefix, n))
    }

    /** `n` is the least number from 1 to 999 whose numbered name no slot has. */
    ghost predicate LeastFree(n: nat)
      reads this, dataManager, dataManager.saveSlotManager, dataManager.saveSlotManager.saveSlots
    {
      1 <= n <= 999 && !Taken(n) && forall m | 1 <= m < n :: Taken(m)
    }

    /**
     * `GenerateUniqueSlotName`: the numbered name for the least free number from 1 to 999;
     * when all of those exist, the GUID name, which is not checked against the list. The
     * name for 1000 is built and then replaced before it is checked, so it never comes out.
     */
    method GenerateUniqueSlotName(guid: string) returns (candidateName: string)
      requires 8 <= |guid|
      ensures (exists n | 1 <= n <= 999 :: !Taken(n)) ==>
                exists n :: candidateName == SlotName(defaultSlotPrefix, n) && LeastFree(n)
      ensures (forall n | 1 <= n <= 999 :: Taken(n)) ==> candidateName == GuidSlotName(defaultSlotPrefix, guid)
      ensures (exists n | 1 <= n <= 999 :: !Taken(n)) ==> !dataManager.DoesSlotExist(candidateName)
      ensures candidateName != SlotName(defaultSlotPrefix, 1000)
    {
      var counter := 1;
      while true
        invariant 1 <= counter <= 1000
        invariant forall m | 1 <= m < counter :: Taken(m)
        decreases 1000 - counter
      {
        candidateName := SlotName(defaultSlotPrefix, counter);
        counter := counter + 1;
        if counter > 1000 {
          candidateName := GuidSlotName(defaultSlotPrefix, guid);
          assert |candidateName| != |SlotName(defaultSlotPrefix, 1000)|;
          return;
        }
        if !dataManager.DoesSlotExist(candidateName) {
          assert !Taken(counter - 1);
          assert |candidateName| != |SlotName(defaultSlotPrefix, 1000)|;
          return;
        }
      }
    }

    /**
     * `CreateNewSaveSlot`: at the slot limit nothing happens; otherwise a default name is
     * generated by `GenerateUniqueSlotName`, which is free whenever a numbered name is, and
     * the slot is created under it as `CreatedFrom` says.
     */
    method CreateNewSaveSlot(guid: string, freshKey: Bytes, iv: Bytes) returns (ghost newSlotName: string)
      requires dataManager.saveSlotManager.Valid() && 8 <= |guid|
      modifies dataManager.saveSlotManager`saveSlots, dataManager.saveSlotManager.fs
      ensures dataManager.saveSlotManager.Valid()
      ensures |old(dataManager.GetSaveSlots())| >= maxSlots ==>
                dataManager.GetSaveSlots() == old(dataManager.GetSaveSlots())
                && dataManager.saveSlotManager.fs.files == old(dataManager.saveSlotManager.fs.files)
      ensures |old(dataManager.GetSaveSlots())| < maxSlots ==> newSlotName != SlotName(defaultSlotPrefix, 1000)
      ensures |old(dataManager.GetSaveSlots())| < maxSlots && (exists n | 1 <= n <= 999 :: !old(Taken(n))) ==>
                !old(dataManager.DoesSlotExist(newSlotName))
      ensures |old(dataManager.GetSaveSlots())| < maxSlots ==>
                CreatedFrom(old(dataManager.DoesSlotExist(newSlotName)), old(dataManager.saveSlotManager.saveSlots),
                            old(dataManager.saveSlotManager.fs.files), newSlotName, freshKey, iv)
    {
      newSlotName := "";
      if |dataManager.GetSaveSlots()| >= maxSlots {
        return;
      }
      ghost var free: nat := 0;
      if exists n | 1 <= n <= 999 :: !Taken(n) {
        free :| 1 <= free <= 999 && !Taken(free);
      }
      var name := GenerateUniqueSlotName(guid);
      newSlotName := name;
      if free != 0 {
        assert !Taken(free);
        assert !dataManager.DoesSlotExist(name);
      }
      CreateNamedSlot(name, freshKey, iv);
    }

    /**
     * What creating the slot `name` did, given whether it was listed and the list and files
     * before: a listed name changes nothing; a new name is appended, with the facade's
     * settings, exactly when its slot opens, and the files are those the open leaves.
     */
    ghost predicate CreatedFrom(wasListed: bool, before: seq<SaveSlot>, filesBefore: map<string, Bytes>,
                                name: string, freshKey: Bytes, iv: Bytes)
      reads this, dataManager, dataManager.saveSlotManager, dataManager.saveSlotManager.fs,
            dataManager.saveSlotManager.saveSlots
    {
      var manager := dataManager.saveSlotManager;
      var after := manager.saveSlots;
      && (wasListed ==> after == before && manager.fs.files == filesBefore)
      && (!wasListed ==>
            && (|after| == |before| + 1 <==> Opens(manager.env, filesBefore, manager.directory, name,
                                                   dataManager.CompressionType, dataManager.EncryptionType, freshKey, iv))
            && manager.fs.files == FilesAfterOpen(manager.env, filesBefore, manager.directory, name,
                                                  dataManager.CompressionType, dataManager.EncryptionType, freshKey, iv))
      && before <= after && |after| <= |before| + 1
      && (|after| == |before| + 1 ==>
            after[|before|].Name == name
            && after[|before|].CompressionType == dataManager.CompressionType
            && after[|before|].EncryptionType == dataManager.EncryptionType)
    }

    /** `DataManager.CreateSaveSlot(newSlotName)` inside the `try` of `CreateNewSaveSlot`: the outcome is dropped. */
    method CreateNamedSlot(name: string, freshKey: Bytes, iv: Bytes)
      requires dataManager.saveSlotManager.Valid()
      modifies dataManager.saveSlotManager`saveSlots, dataManager.saveSlotManager.fs
      ensures dataManager.saveSlotManager.Valid()
      ensures CreatedFrom(old(dataManager.DoesSlotExist(name)), old(dataManager.saveSlotManager.saveSlots),
                          old(dataManager.saveSlotManager.fs.files), name, freshKey, iv)
    {
      var _ := dataManager.CreateSaveSlot(name, freshKey, iv);
    }

    /**
     * `HandleSlotRename`: a blank name is refused and the field reverts; an unchanged name is
     * accepted as it is; a name some slot already has is refused and the field reverts;
     * anything else is handed to the facade, and the handler reports success.
     */
    method HandleSlotRename(oldName: string, newName: string, inputField: InputField) returns (ok: bool)
      requires dataManager.saveSlotManager.Valid()
      modifies inputField, dataManager.saveSlotManager.saveSlots, dataManager.saveSlotManager.fs
      ensures dataManager.saveSlotManager.Valid()
      ensures ok <==> !IsNullOrWhiteSpace(newName) && (oldName == newName || !old(dataManager.DoesSlotExist(newName)))
      ensures !ok ==> inputField.text == oldName
      ensures ok ==> inputField.text == old(inputField.text)
      ensures !ok || oldName == newName ==>
                unchanged(dataManager.saveSlotManager.saveSlots) && unchanged(dataManager.saveSlotManager.fs)
      ensures dataManager.saveSlotManager.saveSlots == old(dataManager.saveSlotManager.saveSlots)
      ensures ok && oldName != newName && !old(dataManager.DoesSlotExist(oldName)) ==>
                dataManager.saveSlotManager.fs.files == old(dataManager.saveSlotManager.fs.files)
                && unchanged(dataManager.saveSlotManager.saveSlots)
      ensures ok && oldName != newName && old(dataManager.DoesSlotExist(oldName)) ==>
                var slots := dataManager.saveSlotManager.saveSlots;
                var i := old(FindByName(slots, oldName));
                var effect := RenameEffect(old(dataManager.saveSlotManager.fs.files), dataManager.saveSlotManager.directory,
                                           oldName, newName, true);
                && dataManager.saveSlotManager.fs.files == effect.files
                && slots[i].Name == (if effect.ok then newName else oldName)
                && slots[i].encryptionKey == old(slots[i].encryptionKey)
                && slots[i].CompressionType == old(slots[i].CompressionType)
                && slots[i].EncryptionType == old(slots[i].EncryptionType)
                && forall j | 0 <= j < |slots| && j != i :: unchanged(slots[j])
      ensures old(dataManager.saveSlotManager.UniqueNames()) && old(dataManager.saveSlotManager.BlobsOnDisk()) ==>
                dataManager.saveSlotManager.UniqueNames()
    {
      if IsNullOrWhiteSpace(newName) {
        inputField.text := oldName;
        return false;
      }
      if oldName == newName {
        return true;
      }
      if dataManager.DoesSlotExist(newName) {
        inputField.text := oldName;
        return false;
      }
      dataManager.RenameSaveSlot(oldName, newName);
      ok := true;
    }

    /** `SelectSaveSlot`: a blank or unknown name leaves the active slot alone; a known one becomes active. */
    method SelectSaveSlot(slotName: string)
      requires dataManager.saveSlotManager.Valid()
      modifies dataManager.saveSlotManager`ActiveSaveSlot
      ensures dataManager.saveSlotManager.Valid()
      ensures IsNullOrWhiteSpace(slotName) || !dataManager.DoesSlotExist(slotName) ==>
                dataManager.ActiveSaveSlot() == old(dataManager.ActiveSaveSlot())
      ensures !IsNullOrWhiteSpace(slotName) && dataManager.DoesSlotExist(slotName) ==>
                var slots, active := dataManager.GetSaveSlots(), dataManager.ActiveSaveSlot();
                active != null
                && exists i | 0 <= i < |slots| :: slots[i] == active && active.Name == slotName
                                                 && forall j | 0 <= j < i :: slots[j].Name != slotName
    {
      if IsNullOrWhiteSpace(slotName) {
        return;
      }
      if !dataManager.DoesSlotExist(slotName) {
        return;
      }
      dataManager.SetActiveSlot(slotName);
    }

    /** `ConfirmDeleteSlot`: a blank name is refused; any other goes on to `DeleteSaveSlot`. */
    method ConfirmDeleteSlot(slotName: string)
      requires dataManager.saveSlotManager.Valid()
      modifies dataManager.saveSlotManager`saveSlots, dataManager.saveSlotManager.fs
      ensures dataManager.saveSlotManager.Valid()
      ensures dataManager.ActiveSaveSlot() == old(dataManager.ActiveSaveSlot())
      ensures IsNullOrWhiteSpace(slotName) || !old(dataManager.DoesSlotExist(slotName)) ==>
                dataManager.GetSaveSlots() == old(dataManager.GetSaveSlots())
                && dataManager.saveSlotManager.fs.files == old(dataManager.saveSlotManager.fs.files)
      ensures !IsNullOrWhiteSpace(slotName) && old(dataManager.DoesSlotExist(slotName)) ==>
                var i := old(FindByName(dataManager.saveSlotManager.saveSlots, slotName));
                var target := old(dataManager.GetSaveSlots()[i]);
                && dataManager.GetSaveSlots() == old(dataManager.GetSaveSlots()[..i] + dataManager.GetSaveSlots()[i + 1..])
                && dataManager.saveSlotManager.fs.files
                     == old(dataManager.saveSlotManager.fs.files) - {old(target.SavePath), old(target.keyPath), old(target.metadataPath)}
    {
      if IsNullOrWhiteSpace(slotName) {
        return;
      }
      DeleteSaveSlot(slotName);
    }

    /** `DeleteSaveSlot`: an unknown name changes nothing; a known one is deleted through the facade. */
    method DeleteSaveSlot(slotName: string)
      requires dataManager.saveSlotManager.Valid()
      modifies dataManager.saveSlotManager`saveSlots, dataManager.saveSlotManager.fs
      ensures dataManager.saveSlotManager.Valid()
      ensures dataManager.ActiveSaveSlot() == old(dataManager.ActiveSaveSlot())
      ensures !old(dataManager.DoesSlotExist(slotName)) ==>
                dataManager.GetSaveSlots() == old(dataManager.GetSaveSlots())
                && dataManager.saveSlotManager.fs.files == old(dataManager.saveSlotManager.fs.files)
      ensures old(dataManager.DoesSlotExist(slotName)) ==>
                var i := old(FindByName(dataManager.saveSlotManager.saveSlots, slotName));
                var target := old(dataManager.GetSaveSlots()[i]);
                && dataManager.GetSaveSlots() == old(dataManager.GetSaveSlots()[..i] + dataManager.GetSaveSlots()[i + 1..])
                && dataManager.saveSlotManager.fs.files
                     == old(dataManager.saveSlotManager.fs.files) - {old(target.SavePath), old(target.keyPath), old(target.metadataPath)}
    {
      if !dataManager.DoesSlotExist(slotName) {
        return;
      }
      dataManager.DeleteSaveSlot(slotName);
    }
  }
}
