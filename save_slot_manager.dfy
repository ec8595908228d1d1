/**
 * The slot registry (SaveSlotManager.cs): the ordered list of slots, the active-slot
 * reference, and the lifecycle operations. The settings for new slots, which the source
 * reads from `DataManager.CompressionType` and `DataManager.EncryptionType`, arrive as
 * parameters; so do the random keys and IVs that new slots draw.
 */
module Registry {
  import opened Wrappers
  import opened Platform
  import opened Slots

  /** `FirstOrDefault(x => x.Name == name)`, as an index: the first slot with that name, or -1. */
  function FindByName(slots: seq<SaveSlot>, name: string): (i: int)
    reads slots
    ensures -1 <= i < |slots|
    ensures i >= 0 ==> slots[i].Name == name && forall j | 0 <= j < i :: slots[j].Name != name
    ensures i < 0 ==> forall j | 0 <= j < |slots| :: slots[j].Name != name
    decreases |slots|
  {
    if slots == [] then -1
    else if slots[0].Name == name then 0
    else
      var k := FindByName(slots[1..], name);
      if k < 0 then -1 else k + 1
  }

  /** No two slots in the list share a name. */
  ghost predicate DistinctNames(slots: seq<SaveSlot>)
    reads slots
  {
    forall i, j | 0 <= i < j < |slots| :: slots[i].Name != slots[j].Name
  }

  /** Removing a slot keeps the remaining names distinct. */
  lemma UniqueAfterRemove(slots: seq<SaveSlot>, i: nat)
    requires i < |slots| && DistinctNames(slots)
    ensures DistinctNames(slots[..i] + slots[i + 1..])
  {
    var rest := slots[..i] + slots[i + 1..];
    forall a, b | 0 <= a < b < |rest|
      ensures rest[a].Name != rest[b].Name
    {
      var a', b' := if a < i then a else a + 1, if b < i then b else b + 1;
      assert rest[a] == slots[a'] && rest[b] == slots[b'];
    }
  }

  /** The names of a list of slots, in order. */
  function NamesOf(slots: seq<SaveSlot>): (names: seq<string>)
    reads slots
    ensures |names| == |slots| && forall k | 0 <= k < |slots| :: names[k] == slots[k].Name
  {
    seq(|slots|, k requires 0 <= k < |slots| reads slots => slots[k].Name)
  }

  lemma NamesOfAppend(slots: seq<SaveSlot>, s: SaveSlot)
    ensures NamesOf(slots + [s]) == NamesOf(slots) + [s.Name]
  {
  }

  /**
   * Renaming slot `i` keeps the names distinct when the old names were distinct, each had
   * its blob file on disk, and the new name's blob file was free (`Rename` checks exactly that).
   */
  lemma UniqueAfterRename(slots: seq<SaveSlot>, names: seq<string>, i: nat, directory: string, files: map<string, Bytes>)
    requires |names| == |slots| && i < |slots|
    requires forall a, b | 0 <= a < b < |names| :: names[a] != names[b]
    requires forall j | 0 <= j < |names| :: BlobPath(directory, names[j]) in files
    requires BlobPath(directory, slots[i].Name) !in files
    requires forall j | 0 <= j < |slots| && j != i :: slots[j].Name == names[j]
    ensures DistinctNames(slots)
  {
    forall a, b | 0 <= a < b < |slots|
      ensures slots[a].Name != slots[b].Name
    {
      if a == i {
        assert BlobPath(directory, names[b]) in files;
      } else if b == i {
        assert BlobPath(directory, names[a]) in files;
      }
    }
  }

  /** Appending a slot whose name is not yet listed keeps the names distinct. */
  lemma UniqueAfterAppend(slots: seq<SaveSlot>, s: SaveSlot)
    requires DistinctNames(slots) && forall t | t in slots :: t.Name != s.Name
    ensures DistinctNames(slots + [s])
  {
    var all := slots + [s];
    forall a, b | 0 <= a < b < |all|
      ensures all[a].Name != all[b].Name
    {
      if b == |slots| {
        assert all[a] in slots;
      }
    }
  }

  /** The three files of every slot in the list. */
  function SlotFiles(slots: seq<SaveSlot>): set<string>
    reads slots
  {
    if slots == [] then {}
    else SlotFiles(slots[..|slots| - 1]) + {slots[|slots| - 1].SavePath, slots[|slots| - 1].keyPath, slots[|slots| - 1].metadataPath}
  }

  lemma {:induction false} SlotFilesMembership(slots: seq<SaveSlot>, p: string)
    ensures p in SlotFiles(slots) <==>
              exists i | 0 <= i < |slots| :: p == slots[i].SavePath || p == slots[i].keyPath || p == slots[i].metadataPath
  {
    if slots != [] {
      SlotFilesMembership(slots[..|slots| - 1], p);
      var last := |slots| - 1;
      if p in SlotFiles(slots[..last]) {
        var i :| 0 <= i < last && (p == slots[..last][i].SavePath || p == slots[..last][i].keyPath || p == slots[..last][i].metadataPath);
        assert slots[i] == slots[..last][i];
      }
      if exists i | 0 <= i < |slots| :: p == slots[i].SavePath || p == slots[i].keyPath || p == slots[i].metadataPath {
        var i :| 0 <= i < |slots| && (p == slots[i].SavePath || p == slots[i].keyPath || p == slots[i].metadataPath);
        if i < last {
          assert slots[..last][i] == slots[i];
        }
      }
    }
  }

  /** `string.LastIndexOf(c)`: the position of the last `c`, or -1. */
  function LastIndexOf(s: string, c: char): (i: int)
    ensures -1 <= i < |s|
    ensures i >= 0 ==> s[i] == c && forall j | i < j < |s| :: s[j] != c
    ensures i < 0 ==> forall j | 0 <= j < |s| :: s[j] != c
  {
    if s == [] then -1
    else if s[|s| - 1] == c then |s| - 1
    else LastIndexOf(s[..|s| - 1], c)
  }

  /** `Path.GetExtension` of a file name: from the last dot on, or empty when there is none or it ends the name. */
  function GetExtension(fileName: string): string {
    var dot := LastIndexOf(fileName, '.');
    if dot < 0 || dot == |fileName| - 1 then "" else fileName[dot..]
  }

  /** `Path.GetFileNameWithoutExtension` of a file name: everything before the last dot. */
  function GetFileNameWithoutExtension(fileName: string): string {
    var dot := LastIndexOf(fileName, '.');
    if dot < 0 then fileName else fileName[..dot]
  }

  /** `s.EndsWith(suffix)`. */
  predicate EndsWith(s: string, suffix: string) {
    |suffix| <= |s| && s[|s| - |suffix|..] == suffix
  }

  /** The filter in `Initialize`: an extension ending in "key" or ".metadata" marks a sidecar file. */
  predicate IsSidecar(fileName: string) {
    EndsWith(GetExtension(fileName), "key") || EndsWith(GetExtension(fileName), ".metadata")
  }

  /** A dot with no dot after it is the last dot. */
  lemma LastDotAt(s: string, i: nat)
    requires i < |s| && s[i] == '.' && forall j | i < j < |s| :: s[j] != '.'
    ensures LastIndexOf(s, '.') == i
  {
  }

  /** The filter and the name derivation fit the file layout: a slot's blob file is taken for a slot of the same name. */
  lemma BlobFileIsSlot(name: string)
    ensures !IsSidecar(name + ".saveslot") && GetFileNameWithoutExtension(name + ".saveslot") == name
  {
    var blob := name + ".saveslot";
    LastDotAt(blob, |name|);
    assert GetExtension(blob) == ".saveslot";
    assert blob[..|name|] == name;
  }

  /** A slot's key file is skipped. */
  lemma KeyFileIsSidecar(name: string)
    ensures IsSidecar(name + "_KEY.key")
  {
    var key := name + "_KEY.key";
    LastDotAt(key, |name| + 4);
    assert GetExtension(key) == ".key";
  }

  /** A slot's metadata file is skipped. */
  lemma MetadataFileIsSidecar(name: string)
    ensures IsSidecar(name + "_METADATA.metadata")
  {
    var meta := name + "_METADATA.metadata";
    LastDotAt(meta, |name| + 9);
    assert GetExtension(meta) == ".metadata";
  }

  /** Every file with an extension such as ".monkey" is skipped too: the test is on the ending "key" only. */
  lemma AnyKeyEndingIsSkipped(stem: string, ext: string)
    requires forall j | 0 <= j < |stem| :: stem[j] != '.'
    requires forall j | 0 <= j < |ext| :: ext[j] != '.'
    ensures IsSidecar(stem + "." + ext + "key")
  {
    var f := stem + "." + ext + "key";
    assert forall j | |stem| < j < |f| :: f[j] != '.';
    LastDotAt(f, |stem|);
    assert GetExtension(f) == "." + ext + "key";
  }

  /** A slot a registry can own: paths derived from its name, on the registry's file system. */
  ghost predicate Owned(s: SaveSlot, fs: FileSystem, directory: string, env: Env)
    reads s
  {
    s.Valid() && s.fs == fs && s.directory == directory && s.env == env
  }

  /** Listed slots are distinct objects with distinct caches. */
  predicate Separate(slots: seq<SaveSlot>) {
    forall i, j | 0 <= i < j < |slots| :: slots[i] != slots[j] && slots[i].dataCacheManager != slots[j].dataCacheManager
  }

  lemma SeparateRemove(slots: seq<SaveSlot>, i: nat)
    requires Separate(slots) && i < |slots|
    ensures Separate(slots[..i] + slots[i + 1..])
  {
    var rest := slots[..i] + slots[i + 1..];
    forall a, b | 0 <= a < b < |rest|
      ensures rest[a] != rest[b] && rest[a].dataCacheManager != rest[b].dataCacheManager
    {
      var a', b' := if a < i then a else a + 1, if b < i then b else b + 1;
      assert rest[a] == slots[a'] && rest[b] == slots[b'];
    }
  }

  lemma SeparateAppend(slots: seq<SaveSlot>, s: SaveSlot)
    requires Separate(slots)
    requires forall t | t in slots :: t != s && t.dataCacheManager != s.dataCacheManager
    ensures Separate(slots + [s])
  {
    var all := slots + [s];
    forall a, b | 0 <= a < b < |all|
      ensures all[a] != all[b] && all[a].dataCacheManager != all[b].dataCacheManager
    {
      if b == |slots| {
        assert all[a] in slots;
      }
    }
  }

  /** The slot names `Initialize` derives from a directory listing: base names of the files that are not sidecars. */
  function Candidates(fileNames: seq<string>): set<string> {
    if fileNames == [] then {}
    else
      var last := fileNames[|fileNames| - 1];
      Candidates(fileNames[..|fileNames| - 1]) + (if IsSidecar(last) then {} else {GetFileNameWithoutExtension(last)})
  }

  /** No name occurs twice. */
  predicate NoDuplicates(names: seq<string>) {
    forall a, b | 0 <= a < b < |names| :: names[a] != names[b]
  }

  /** The names of the listed slots and the files on disk, as `Initialize` goes through the listing. */
  datatype InitState = InitState(names: seq<string>, files: map<string, Bytes>)

  /**
   * One pass of the loop in `Initialize`: a sidecar is skipped; a listed name changes nothing;
   * otherwise the slot is opened, which may write its key and blob, and it is listed iff it opens.
   */
  function InitStep(env: Env, directory: string, comp: Compression, enc: Encryption, st: InitState, file: string,
                    freshKey: Bytes, iv: Bytes): InitState
  {
    if IsSidecar(file) then st
    else
      var name := GetFileNameWithoutExtension(file);
      if name in st.names then st
      else InitState(st.names + (if Opens(env, st.files, directory, name, comp, enc, freshKey, iv) then [name] else []),
                     FilesAfterOpen(env, st.files, directory, name, comp, enc, freshKey, iv))
  }

  /** The loop in `Initialize` over the listing, the file at position `k` drawing `freshKeys(k)` and `ivs(k)`. */
  function InitRun(env: Env, directory: string, comp: Compression, enc: Encryption, freshKeys: nat -> Bytes, ivs: nat -> Bytes,
                   fileNames: seq<string>, start: InitState): InitState
    decreases |fileNames|
  {
    if fileNames == [] then start
    else
      var k := |fileNames| - 1;
      InitStep(env, directory, comp, enc, InitRun(env, directory, comp, enc, freshKeys, ivs, fileNames[..k], start),
               fileNames[k], freshKeys(k), ivs(k))
  }

  /** The run over the first `k + 1` files is one more step after the run over the first `k`. */
  lemma InitRunStep(env: Env, directory: string, comp: Compression, enc: Encryption,
                    freshKeys: nat -> Bytes, ivs: nat -> Bytes, fileNames: seq<string>, start: InitState, k: nat)
    requires k < |fileNames|
    ensures InitRun(env, directory, comp, enc, freshKeys, ivs, fileNames[..k + 1], start)
            == InitStep(env, directory, comp, enc, InitRun(env, directory, comp, enc, freshKeys, ivs, fileNames[..k], start),
                        fileNames[k], freshKeys(k), ivs(k))
  {
    assert fileNames[..k + 1][..k] == fileNames[..k];
  }

  /** Each later file only adds names: the names listed after the first `k` files stay listed to the end. */
  lemma {:induction false} InitRunExtends(env: Env, directory: string, comp: Compression, enc: Encryption,
                                          freshKeys: nat -> Bytes, ivs: nat -> Bytes, fileNames: seq<string>, start: InitState, k: nat)
    requires k <= |fileNames|
    ensures InitRun(env, directory, comp, enc, freshKeys, ivs, fileNames[..k], start).names
            <= InitRun(env, directory, comp, enc, freshKeys, ivs, fileNames, start).names
    decreases |fileNames| - k
  {
    if k < |fileNames| {
      var last := |fileNames| - 1;
      assert fileNames[..last][..k] == fileNames[..k];
      InitRunExtends(env, directory, comp, enc, freshKeys, ivs, fileNames[..last], start, k);
      assert fileNames[..last] == fileNames[..|fileNames| - 1];
    } else {
      assert fileNames[..k] == fileNames;
    }
  }

  /**
   * A failing slot is skipped and the rest still load: the name of every non-sidecar file ends
   * up listed iff it was listed before that file was reached, or the slot opened then, or a
   * later file of the same name opened it. In particular a name left unlisted failed to open
   * on every attempt.
   */
  lemma {:induction false} InitAttemptListed(env: Env, directory: string, comp: Compression, enc: Encryption,
                                             freshKeys: nat -> Bytes, ivs: nat -> Bytes, fileNames: seq<string>, start: InitState, k: nat)
    requires k < |fileNames| && !IsSidecar(fileNames[k])
    ensures var st := InitRun(env, directory, comp, enc, freshKeys, ivs, fileNames[..k], start);
            var name := GetFileNameWithoutExtension(fileNames[k]);
            var next := InitRun(env, directory, comp, enc, freshKeys, ivs, fileNames[..k + 1], start);
            && (name in next.names <==> name in st.names || Opens(env, st.files, directory, name, comp, enc, freshKeys(k), ivs(k)))
            && (name in next.names ==> name in InitRun(env, directory, comp, enc, freshKeys, ivs, fileNames, start).names)
  {
    var st := InitRun(env, directory, comp, enc, freshKeys, ivs, fileNames[..k], start);
    InitRunStep(env, directory, comp, enc, freshKeys, ivs, fileNames, start, k);
    InitStepListed(env, directory, comp, enc, st, fileNames[k], freshKeys(k), ivs(k));
    InitRunExtends(env, directory, comp, enc, freshKeys, ivs, fileNames, start, k + 1);
  }

  /** One pass over a non-sidecar file lists its name iff it was listed or its slot opens. */
  lemma InitStepListed(env: Env, directory: string, comp: Compression, enc: Encryption, st: InitState, file: string,
                       freshKey: Bytes, iv: Bytes)
    requires !IsSidecar(file)
    ensures var name := GetFileNameWithoutExtension(file);
            name in InitStep(env, directory, comp, enc, st, file, freshKey, iv).names
            <==> name in st.names || Opens(env, st.files, directory, name, comp, enc, freshKey, iv)
  {
  }

  /** `Initialize` lists only names it started with or base names of non-sidecar files. */
  lemma {:induction false} InitListsCandidates(env: Env, directory: string, comp: Compression, enc: Encryption,
                                               freshKeys: nat -> Bytes, ivs: nat -> Bytes, fileNames: seq<string>, start: InitState)
    ensures forall name | name in InitRun(env, directory, comp, enc, freshKeys, ivs, fileNames, start).names ::
              name in start.names || name in Candidates(fileNames)
  {
    if fileNames != [] {
      var k := |fileNames| - 1;
      InitListsCandidates(env, directory, comp, enc, freshKeys, ivs, fileNames[..k], start);
    }
  }

  /** `Initialize` never lists a name twice: a listed name is not opened again. */
  lemma {:induction false} InitKeepsNamesDistinct(env: Env, directory: string, comp: Compression, enc: Encryption,
                                                  freshKeys: nat -> Bytes, ivs: nat -> Bytes, fileNames: seq<string>, start: InitState)
    requires NoDuplicates(start.names)
    ensures NoDuplicates(InitRun(env, directory, comp, enc, freshKeys, ivs, fileNames, start).names)
  {
    if fileNames != [] {
      var k := |fileNames| - 1;
      var st := InitRun(env, directory, comp, enc, freshKeys, ivs, fileNames[..k], start);
      InitKeepsNamesDistinct(env, directory, comp, enc, freshKeys, ivs, fileNames[..k], start);
      var next := InitStep(env, directory, comp, enc, st, fileNames[k], freshKeys(k), ivs(k));
      assert InitRun(env, directory, comp, enc, freshKeys, ivs, fileNames, start) == next;
      if |next.names| > |st.names| {
        var name := GetFileNameWithoutExtension(fileNames[k]);
        assert next.names == st.names + [name] && name !in st.names;
        forall a, b | 0 <= a < b < |next.names|
          ensures next.names[a] != next.names[b]
        {
          assert next.names[a] == st.names[a];
          if b < |st.names| {
            assert next.names[b] == st.names[b];
          } else {
            assert next.names[b] == name && st.names[a] in st.names;
          }
        }
      } else {
        assert next.names == st.names;
      }
    }
  }

  /** The slots listed from position `from` on all have the given settings. */
  ghost predicate NewSlotsUse(slots: seq<SaveSlot>, from: int, comp: Compression, enc: Encryption)
    reads slots
  {
    forall i | 0 <= from <= i < |slots| :: slots[i].CompressionType == comp && slots[i].EncryptionType == enc
  }

  class SaveSlotManager {
    var saveSlots: seq<SaveSlot>
    var ActiveSaveSlot: SaveSlot?
    /** The file system, the slots directory and the codecs every slot runs against. */
    const fs: FileSystem
    const directory: string
    const env: Env

    ghost function ActiveSet(): set<SaveSlot>
      reads this
    {
      if ActiveSaveSlot == null then {} else {ActiveSaveSlot}
    }

    /**
     * The registry invariant: every listed slot, and the active one (which need not be listed
     * any more), is owned; listed slots are distinct objects; and no two known slots share a cache.
     */
    ghost predicate Valid()
      reads this, saveSlots, ActiveSet()
    {
      && (forall s | s in saveSlots :: Owned(s, fs, directory, env))
      && Separate(saveSlots)
      && (ActiveSaveSlot != null ==>
            && Owned(ActiveSaveSlot, fs, directory, env)
            && forall s | s in saveSlots && s != ActiveSaveSlot :: s.dataCacheManager != ActiveSaveSlot.dataCacheManager)
    }

    /** No two listed slots share a name. */
    ghost predicate UniqueNames()
      reads this, saveSlots
    {
      DistinctNames(saveSlots)
    }

    /** Every listed slot's blob file exists. */
    ghost predicate BlobsOnDisk()
      reads this, saveSlots, fs
    {
      forall i | 0 <= i < |saveSlots| :: saveSlots[i].SavePath in fs.files
    }

    constructor (fs: FileSystem, directory: string, env: Env)
      ensures Valid() && saveSlots == [] && ActiveSaveSlot == null
      ensures this.fs == fs && this.directory == directory && this.env == env
    {
      saveSlots := [];
      ActiveSaveSlot := null;
      this.fs := fs;
      this.directory := directory;
      this.env := env;
    }

    /** `DoesSlotExist`: exact, case-sensitive name equality with some listed slot. */
    function DoesSlotExist(name: string): (r: bool)
      reads this, saveSlots
      ensures r <==> exists i | 0 <= i < |saveSlots| :: saveSlots[i].Name == name
    {
      FindByName(saveSlots, name) >= 0
    }

    /** `ChangeActiveSaveSlot`: the first slot with that name, or null when none has it. */
    method ChangeActiveSaveSlot(newSlotName: string)
      requires Valid()
      modifies this`ActiveSaveSlot
      ensures Valid()
      ensures ActiveSaveSlot == null <==> !DoesSlotExist(newSlotName)
      ensures ActiveSaveSlot != null ==>
                exists i | 0 <= i < |saveSlots| :: saveSlots[i] == ActiveSaveSlot && ActiveSaveSlot.Name == newSlotName
                                                   && forall j | 0 <= j < i :: saveSlots[j].Name != newSlotName
    {
      var i := FindByName(saveSlots, newSlotName);
      ActiveSaveSlot := if i < 0 then null else saveSlots[i];
    }

    /**
     * `CreateSaveSlot`: an existing name changes nothing; otherwise one new slot is opened with
     * the given settings and appended. A slot that fails to open is the exception the source
     * lets through: nothing is appended, though its key file may have been written.
     */
    method CreateSaveSlot(newSlotName: string, compression: Compression, encryption: Encryption, freshKey: Bytes, iv: Bytes)
      returns (r: Outcome)
      requires Valid()
      modifies this`saveSlots, fs
      ensures Valid()
      ensures old(DoesSlotExist(newSlotName)) ==> r == Pass && saveSlots == old(saveSlots) && fs.files == old(fs.files)
      ensures !old(DoesSlotExist(newSlotName)) ==>
                && (r.Pass? <==> Opens(env, old(fs.files), directory, newSlotName, compression, encryption, freshKey, iv))
                && fs.files == FilesAfterOpen(env, old(fs.files), directory, newSlotName, compression, encryption, freshKey, iv)
                && NamesOf(saveSlots) == old(NamesOf(saveSlots)) + (if r.Pass? then [newSlotName] else [])
      ensures NewSlotsUse(saveSlots, |old(saveSlots)|, compression, encryption)
      ensures r.Fail? ==> saveSlots == old(saveSlots)
      ensures r.Pass? ==> DoesSlotExist(newSlotName)
      ensures !old(DoesSlotExist(newSlotName)) && r.Pass? ==>
                && |saveSlots| == |old(saveSlots)| + 1 && saveSlots[..|old(saveSlots)|] == old(saveSlots)
                && var s := saveSlots[|old(saveSlots)|];
                   fresh(s) && fresh(s.dataCacheManager) && s.Name == newSlotName && s.KeyOnDisk()
                   && s.CompressionType == compression && s.EncryptionType == encryption
      ensures forall p | p != BlobPath(directory, newSlotName) && p != KeyPath(directory, newSlotName) ::
                (p in fs.files <==> p in old(fs.files)) && (p in fs.files ==> fs.files[p] == old(fs.files)[p])
      ensures old(UniqueNames()) ==> UniqueNames()
    {
      if DoesSlotExist(newSlotName) {
        return Pass;
      }
      ghost var before := saveSlots;
      r := AddNewSlot(newSlotName, compression, encryption, freshKey, iv);
      if r.Pass? {
        var s := saveSlots[|before|];
        assert saveSlots == before + [s];
        NamesOfAppend(before, s);
      }
    }

    /** The part of `CreateSaveSlot` after the existence check: open the slot, then append it. */
    method AddNewSlot(newSlotName: string, compression: Compression, encryption: Encryption, freshKey: Bytes, iv: Bytes)
      returns (r: Outcome)
      requires Valid() && !DoesSlotExist(newSlotName)
      modifies this`saveSlots, fs
      ensures Valid()
      ensures r.Pass? <==> Opens(env, old(fs.files), directory, newSlotName, compression, encryption, freshKey, iv)
      ensures fs.files == FilesAfterOpen(env, old(fs.files), directory, newSlotName, compression, encryption, freshKey, iv)
      ensures r.Fail? ==> saveSlots == old(saveSlots)
      ensures r.Pass? ==>
                && |saveSlots| == |old(saveSlots)| + 1 && saveSlots[..|old(saveSlots)|] == old(saveSlots)
                && var s := saveSlots[|old(saveSlots)|];
                   fresh(s) && fresh(s.dataCacheManager) && s.Name == newSlotName && s.KeyOnDisk()
                   && s.CompressionType == compression && s.EncryptionType == encryption
      ensures forall p | p != BlobPath(directory, newSlotName) && p != KeyPath(directory, newSlotName) ::
                (p in fs.files <==> p in old(fs.files)) && (p in fs.files ==> fs.files[p] == old(fs.files)[p])
      ensures old(UniqueNames()) ==> UniqueNames()
    {
      var slot := OpenSlot(newSlotName, compression, encryption, freshKey, iv);
      if slot.Failure? {
        return Fail(slot.error);
      }
      Add(slot.value);
      r := Pass;
    }

    /**
     * `new SaveSlot(name, compression, encryption)` in the registry's directory: what the
     * registry relies on of a slot that opens, and the files it may touch.
     */
    method OpenSlot(name: string, compression: Compression, encryption: Encryption, freshKey: Bytes, iv: Bytes)
      returns (slot: Result<SaveSlot>)
      modifies fs
      ensures slot.Success? <==> Opens(env, old(fs.files), directory, name, compression, encryption, freshKey, iv)
      ensures fs.files == FilesAfterOpen(env, old(fs.files), directory, name, compression, encryption, freshKey, iv)
      ensures slot.Success? ==>
                && fresh(slot.value) && fresh(slot.value.dataCacheManager) && Owned(slot.value, fs, directory, env)
                && slot.value.Name == name && slot.value.KeyOnDisk()
                && slot.value.CompressionType == compression && slot.value.EncryptionType == encryption
      ensures forall p | p != BlobPath(directory, name) && p != KeyPath(directory, name) ::
                (p in fs.files <==> p in old(fs.files)) && (p in fs.files ==> fs.files[p] == old(fs.files)[p])
    {
      PathsDistinct(directory, name, name);
      slot := SaveSlot.Open(name, compression, encryption, fs, directory, env, freshKey, iv);
    }

    /** `saveSlots.Add`: a fresh, owned slot goes to the end of the list. */
    method Add(slot: SaveSlot)
      requires Valid() && Owned(slot, fs, directory, env)
      requires slot !in saveSlots && slot !in ActiveSet()
      requires forall s | s in saveSlots || s in ActiveSet() :: s.dataCacheManager != slot.dataCacheManager
      modifies this`saveSlots
      ensures Valid() && saveSlots == old(saveSlots) + [slot]
      ensures old(UniqueNames()) && (forall s | s in old(saveSlots) :: s.Name != slot.Name) ==> UniqueNames()
    {
      saveSlots := saveSlots + [slot];
      assert Valid() by {
        assert forall s | s in saveSlots :: s in old(saveSlots) || s == slot;
        SeparateAppend(old(saveSlots), slot);
      }
      if old(UniqueNames()) && forall s | s in old(saveSlots) :: s.Name != slot.Name {
        UniqueAfterAppend(old(saveSlots), slot);
      }
    }

    /**
     * `DeleteSaveSlot`: an unknown name changes nothing; otherwise the first slot with that
     * name has its three files deleted and is removed from the list. The active-slot reference is
     * left as it was, even when it pointed at the deleted slot.
     */
    method DeleteSaveSlot(newSlotName: string)
      requires Valid()
      modifies this`saveSlots, fs
      ensures Valid() && ActiveSaveSlot == old(ActiveSaveSlot)
      ensures !old(DoesSlotExist(newSlotName)) ==> saveSlots == old(saveSlots) && fs.files == old(fs.files)
      ensures old(DoesSlotExist(newSlotName)) ==>
                var i := old(FindByName(saveSlots, newSlotName));
                && saveSlots == old(saveSlots[..i] + saveSlots[i + 1..])
                && fs.files == old(fs.files) - {old(saveSlots[i].SavePath), old(saveSlots[i].keyPath), old(saveSlots[i].metadataPath)}
      ensures old(UniqueNames()) ==> UniqueNames()
    {
      var i := FindByName(saveSlots, newSlotName);
      if i < 0 {
        return;
      }
      var targetSaveSlot := saveSlots[i];
      assert targetSaveSlot in saveSlots;
      targetSaveSlot.ClearFiles();
      RemoveAt(i);
    }

    /** `_saveSlots.Remove` of the listed slot `i`: the rest keep their order, and their names stay distinct. */
    method RemoveAt(i: nat)
      requires Valid() && i < |saveSlots|
      modifies this`saveSlots
      ensures Valid() && saveSlots == old(saveSlots[..i] + saveSlots[i + 1..])
      ensures old(UniqueNames()) ==> UniqueNames()
    {
      ghost var unique := UniqueNames();
      saveSlots := saveSlots[..i] + saveSlots[i + 1..];
      assert Valid() by {
        assert forall s | s in saveSlots :: s in old(saveSlots);
        SeparateRemove(old(saveSlots), i);
      }
      if unique {
        UniqueAfterRemove(old(saveSlots), i);
      }
    }

    /**
     * `RenameSaveSlot`: an unknown old name changes nothing; otherwise the first slot with
     * that name is renamed as `SaveSlot.Rename` decides, and the result is dropped. Names stay
     * unique as long as every listed slot's blob is on disk, because `Rename` refuses a name
     * whose blob file exists.
     */
    method RenameSaveSlot(oldName: string, newName: string)
      requires Valid()
      modifies saveSlots, fs
      ensures Valid() && saveSlots == old(saveSlots)
      ensures !old(DoesSlotExist(oldName)) ==> fs.files == old(fs.files) && unchanged(saveSlots)
      ensures old(DoesSlotExist(oldName)) ==>
                var i := old(FindByName(saveSlots, oldName));
                var effect := RenameEffect(old(fs.files), directory, oldName, newName, true);
                && fs.files == effect.files
                && saveSlots[i].Name == (if effect.ok then newName else oldName)
                && saveSlots[i].encryptionKey == old(saveSlots[i].encryptionKey)
                && saveSlots[i].CompressionType == old(saveSlots[i].CompressionType)
                && saveSlots[i].EncryptionType == old(saveSlots[i].EncryptionType)
                && forall j | 0 <= j < |saveSlots| && j != i :: unchanged(saveSlots[j])
      ensures old(UniqueNames()) && old(BlobsOnDisk()) ==> UniqueNames()
    {
      var i := FindByName(saveSlots, oldName);
      if i < 0 {
        return;
      }
      ghost var names := NamesOf(saveSlots);
      ghost var unique := UniqueNames() && BlobsOnDisk();
      if unique {
        forall j | 0 <= j < |names|
          ensures BlobPath(directory, names[j]) in fs.files
        {
          assert saveSlots[j] in saveSlots;
        }
      }
      ghost var before := fs.files;
      RenameListed(i, newName);
      if unique && saveSlots[i].Name != oldName {
        UniqueAfterRename(saveSlots, names, i, directory, before);
      }
    }

    /**
     * The rename step of `RenameSaveSlot`, for the listed slot `i`: `SaveSlot.Rename` on that
     * slot, every other slot untouched. A changed name is the new one, whose blob path was free.
     */
    method RenameListed(i: nat, newName: string)
      requires Valid() && i < |saveSlots|
      modifies saveSlots, fs
      ensures Valid() && saveSlots == old(saveSlots)
      ensures var effect := RenameEffect(old(fs.files), directory, old(saveSlots[i].Name), newName, true);
              fs.files == effect.files && saveSlots[i].Name == (if effect.ok then newName else old(saveSlots[i].Name))
      ensures saveSlots[i].encryptionKey == old(saveSlots[i].encryptionKey)
      ensures saveSlots[i].CompressionType == old(saveSlots[i].CompressionType)
      ensures saveSlots[i].EncryptionType == old(saveSlots[i].EncryptionType)
      ensures forall j | 0 <= j < |saveSlots| && j != i :: unchanged(saveSlots[j])
      ensures saveSlots[i].Name != old(saveSlots[i].Name) ==>
                saveSlots[i].Name == newName && BlobPath(directory, newName) !in old(fs.files)
    {
      var targetSlot := saveSlots[i];
      assert targetSlot in saveSlots;
      ghost var before := fs.files;
      var _ := targetSlot.Rename(newName);
      forall j | 0 <= j < |saveSlots| && j != i
        ensures unchanged(saveSlots[j])
      {
        assert saveSlots[j] != targetSlot;
      }
      assert Valid() by {
        assert forall s | s in saveSlots :: s == targetSlot || unchanged(s);
      }
      if targetSlot.Name != old(targetSlot.Name) {
        RenameRefusals(before, directory, old(targetSlot.Name), newName, true);
      }
    }

    /** `DeleteAllSaveSlots`: every listed slot's files are deleted and the list is emptied; the active-slot reference stays. */
    method DeleteAllSaveSlots()
      requires Valid()
      modifies this`saveSlots, fs
      ensures Valid() && saveSlots == [] && ActiveSaveSlot == old(ActiveSaveSlot)
      ensures fs.files == old(fs.files - SlotFiles(saveSlots))
    {
      var k := 0;
      while k < |saveSlots|
        invariant 0 <= k <= |saveSlots| && saveSlots == old(saveSlots)
        invariant forall s | s in saveSlots :: s.fs == fs
        invariant fs.files == old(fs.files - SlotFiles(saveSlots[..k]))
      {
        var slot := saveSlots[k];
        assert slot in saveSlots;
        assert old(saveSlots[..k + 1][..k] == saveSlots[..k]);
        slot.ClearFiles();
        k := k + 1;
      }
      assert saveSlots[..k] == saveSlots;
      saveSlots := [];
    }

    /**
     * The body of the loop in `Initialize`: `CreateSaveSlot` with its exception caught.
     * `created` tells whether the name is listed afterwards: it was already, or the slot opened.
     */
    method TryCreateSaveSlot(name: string, compression: Compression, encryption: Encryption, freshKey: Bytes, iv: Bytes)
      returns (created: bool)
      requires Valid()
      modifies this`saveSlots, fs
      ensures Valid() && old(saveSlots) <= saveSlots
      ensures created <==> old(DoesSlotExist(name)) || Opens(env, old(fs.files), directory, name, compression, encryption, freshKey, iv)
      ensures old(DoesSlotExist(name)) ==> saveSlots == old(saveSlots) && fs.files == old(fs.files)
      ensures !old(DoesSlotExist(name)) ==>
                && fs.files == FilesAfterOpen(env, old(fs.files), directory, name, compression, encryption, freshKey, iv)
                && NamesOf(saveSlots) == old(NamesOf(saveSlots)) + (if created then [name] else [])
      ensures NewSlotsUse(saveSlots, |old(saveSlots)|, compression, encryption)
      ensures old(UniqueNames()) ==> UniqueNames()
    {
      var r := CreateSaveSlot(name, compression, encryption, freshKey, iv);
      created := r.Pass?;
    }

    /** One pass of the loop in `Initialize`, as `InitStep` describes it. */
    method InitializeFile(file: string, compression: Compression, encryption: Encryption, freshKey: Bytes, iv: Bytes)
      requires Valid()
      modifies this`saveSlots, fs
      ensures Valid() && old(saveSlots) <= saveSlots
      ensures InitState(NamesOf(saveSlots), fs.files)
              == InitStep(env, directory, compression, encryption, old(InitState(NamesOf(saveSlots), fs.files)), file, freshKey, iv)
      ensures NewSlotsUse(saveSlots, |old(saveSlots)|, compression, encryption)
      ensures old(UniqueNames()) ==> UniqueNames()
    {
      if !IsSidecar(file) {
        var name := GetFileNameWithoutExtension(file);
        assert name in NamesOf(saveSlots) <==> DoesSlotExist(name);
        var _ := TryCreateSaveSlot(name, compression, encryption, freshKey, iv);
      }
    }

    /**
     * `Initialize`: load every slot of the directory listing, as `LoadSlots` does, then keep an
     * existing active slot, else take the first listed.
     */
    method Initialize(fileNames: seq<string>, compression: Compression, encryption: Encryption,
                      freshKeys: nat -> Bytes, ivs: nat -> Bytes)
      requires Valid()
      modifies this`saveSlots, this`ActiveSaveSlot, fs
      ensures Valid()
      ensures old(saveSlots) <= saveSlots
      ensures InitState(NamesOf(saveSlots), fs.files)
              == InitRun(env, directory, compression, encryption, freshKeys, ivs, fileNames, InitState(old(NamesOf(saveSlots)), old(fs.files)))
      ensures NewSlotsUse(saveSlots, |old(saveSlots)|, compression, encryption)
      ensures old(UniqueNames()) ==> UniqueNames()
      ensures old(ActiveSaveSlot) != null ==> ActiveSaveSlot == old(ActiveSaveSlot)
      ensures old(ActiveSaveSlot) == null ==> ActiveSaveSlot == (if saveSlots == [] then null else saveSlots[0])
    {
      LoadSlots(fileNames, compression, encryption, freshKeys, ivs);
      DefaultActiveSlot();
    }

    /** `ActiveSaveSlot ??= _saveSlots.FirstOrDefault()`: a set active slot stays, otherwise the first listed one, if any. */
    method DefaultActiveSlot()
      requires Valid()
      modifies this`ActiveSaveSlot
      ensures Valid() && UniqueNames() == old(UniqueNames())
      ensures old(ActiveSaveSlot) != null ==> ActiveSaveSlot == old(ActiveSaveSlot)
      ensures old(ActiveSaveSlot) == null ==> ActiveSaveSlot == (if saveSlots == [] then null else saveSlots[0])
    {
      if ActiveSaveSlot == null {
        ActiveSaveSlot := if saveSlots == [] then null else saveSlots[0];
      }
    }

    /**
     * The loop of `Initialize`: for each file of the slots directory, in the order given, skip
     * sidecars and create a slot named after the file's base name, catching the exception of a
     * slot that fails to open. The names listed and the files left are those of `InitRun`.
     */
    method LoadSlots(fileNames: seq<string>, compression: Compression, encryption: Encryption,
                     freshKeys: nat -> Bytes, ivs: nat -> Bytes)
      requires Valid()
      modifies this`saveSlots, fs
      ensures Valid()
      ensures old(saveSlots) <= saveSlots
      ensures InitState(NamesOf(saveSlots), fs.files)
              == InitRun(env, directory, compression, encryption, freshKeys, ivs, fileNames, InitState(old(NamesOf(saveSlots)), old(fs.files)))
      ensures NewSlotsUse(saveSlots, |old(saveSlots)|, compression, encryption)
      ensures old(UniqueNames()) ==> UniqueNames()
    {
      ghost var start := InitState(NamesOf(saveSlots), fs.files);
      var k := 0;
      while k < |fileNames|
        invariant 0 <= k <= |fileNames|
        invariant Valid()
        invariant old(saveSlots) <= saveSlots
        invariant InitState(NamesOf(saveSlots), fs.files) == InitRun(env, directory, compression, encryption, freshKeys, ivs, fileNames[..k], start)
        invariant NewSlotsUse(saveSlots, |old(saveSlots)|, compression, encryption)
        invariant old(UniqueNames()) ==> UniqueNames()
      {
        InitializeFile(fileNames[k], compression, encryption, freshKeys(k), ivs(k));
        InitRunStep(env, directory, compression, encryption, freshKeys, ivs, fileNames, start, k);
        k := k + 1;
      }
      assert fileNames[..k] == fileNames;
    }
  }
}
