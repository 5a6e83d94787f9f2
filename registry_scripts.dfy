/** The `using (var key = CreateSubKey(...)) { key.SetValue(...); ... }`
    blocks both registry classes are made of, run against a live store. */
module Scripts {
  import opened Wrappers
  import opened Store
  import opened Catalog
  import opened AddinModel

  /** `OpenBaseKey(CurrentUser).OpenSubKey(OFFICE_ADDINS_PATH)`: the AddIns key, if it exists. */
  method OpenAddinsKey(reg: Registry) returns (key: Option<Loc>)
    ensures key.Some? <==> AddinsLoc() in reg.store.keys
    ensures key.Some? ==> key.value == AddinsLoc()
  {
    AddinsLocAt();
    key := reg.OpenSubKey(CurrentUser, OfficeAddinsPath);
  }

  /** `key.OpenSubKey(subKeyName)` on the AddIns key, then
      `CreateAddinFromRegistry`: the record of one listed sub-key, if it reads. */
  method ReadAddinKey(reg: Registry, name: string) returns (e: Option<AddinData>)
    ensures e == Entry(reg.store, name)
  {
    var sub := reg.OpenRelative(AddinsLoc(), name);
    e := None;
    if sub.Some? {
      e := ReadEntry(reg.store, name);
    }
  }

  /** `OpenBaseKey(CurrentUser).OpenSubKey(OFFICE_ADDINS_PATH + "\\" + name, true)`:
      the add-in's key for writing, null when it is missing, refused when
      HKCU is. */
  method OpenAddinKeyWritable(reg: Registry, name: string) returns (k: Result<Option<Loc>, StoreError>)
    ensures k.Failure? <==> Rel(AddinsLoc(), name) in reg.store.keys && CurrentUser in reg.denied
    ensures k.Failure? ==> k.error == Denied
    ensures k.Success? ==> (k.value.Some? <==> Rel(AddinsLoc(), name) in reg.store.keys)
    ensures k.Success? && k.value.Some? ==> k.value.value == Rel(AddinsLoc(), name)
  {
    AddinKeyAt(name);
    k := reg.OpenSubKeyWritable(CurrentUser, AddinKeyName(name));
  }

  /** The registry half of `SetAddinEnabled`: writes LoadBehavior 3 or 0
      into the add-in's key; a missing key or a refused hive changes nothing. */
  method WriteLoadBehavior(reg: Registry, name: string, enabled: bool) returns (o: Outcome<Exception>)
    modifies reg
    ensures o == SetEnabledOutcome(old(reg.store), reg.denied, name)
    ensures reg.store == if o.Pass? then Set(old(reg.store), Rel(AddinsLoc(), name), "LoadBehavior", DWord(EnabledLoadBehavior(enabled)))
                         else old(reg.store)
  {
    var key := OpenAddinKeyWritable(reg, name);
    if key.Failure? {
      return Wrap(UpdatePrefix, Fail(key.error));
    }
    if key.value.None? {
      return Fail(InvalidOperation(UpdatePrefix + NotFoundMessage(name)));
    }
    reg.SetValue(key.value.value, "LoadBehavior", DWord(if enabled then 3 else 0));
    return Pass;
  }

  /** One key write: create the key, then set its values in order. A refused
      hive fails at the `CreateSubKey` and writes nothing. */
  method WriteKey(reg: Registry, w: KeyWrite) returns (o: Outcome<StoreError>)
    modifies reg
    ensures (reg.store, o) == WriteOp(old(reg.store), reg.denied, w)
  {
    var k := reg.CreateSubKey(w.hive, w.name);
    if k.Failure? {
      return Fail(k.error);
    }
    ghost var created := reg.store;
    var i := 0;
    while i < |w.values|
      invariant 0 <= i <= |w.values|
      invariant reg.store == SetAll(created, Target(w), w.values[..i])
    {
      assert w.values[..i + 1][..i] == w.values[..i];
      reg.SetValue(k.value, w.values[i].0, w.values[i].1);
      i := i + 1;
    }
    assert w.values[..i] == w.values;
    return Pass;
  }

  lemma RunWritesCons(r: Reg, denied: set<Hive>, w: KeyWrite, ws: seq<KeyWrite>)
    ensures RunWrites(r, denied, [w] + ws)
         == if WriteOp(r, denied, w).1.Fail? then WriteOp(r, denied, w) else RunWrites(WriteOp(r, denied, w).0, denied, ws)
  {
    assert ([w] + ws)[0] == w;
    assert ([w] + ws)[1..] == ws;
  }

  lemma RunWritesSingle(r: Reg, denied: set<Hive>, w: KeyWrite)
    ensures RunWrites(r, denied, [w]) == WriteOp(r, denied, w)
  {
    assert [w][1..] == [];
  }

  lemma RunDeletesSingle(r: Reg, denied: set<Hive>, d: (Hive, string))
    ensures RunDeletes(r, denied, [d]) == DeleteTreeOp(r, denied, d.0, d.1)
  {
    assert [d][1..] == [];
  }

  /** `RegisterCLSID`: the AppID key, the CLSID key, its in-process server and
      its ProgID, stopping at the first refused write. */
  method RegisterClsid(reg: Registry, guid: string, progId: string, dllPath: string) returns (o: Outcome<StoreError>)
    modifies reg
    ensures (reg.store, o) == RunWrites(old(reg.store), reg.denied, ClsidWrites(guid, progId, dllPath))
  {
    var ws := ClsidWrites(guid, progId, dllPath);
    ghost var r0 := reg.store;
    assert ws == [ws[0]] + ([ws[1]] + ([ws[2]] + ([ws[3]] + [])));
    RunWritesCons(r0, reg.denied, ws[0], [ws[1]] + ([ws[2]] + ([ws[3]] + [])));
    o := WriteKey(reg, AppIdWrite(guid));
    if o.Fail? { return; }
    ghost var r1 := reg.store;
    RunWritesCons(r1, reg.denied, ws[1], [ws[2]] + ([ws[3]] + []));
    o := WriteKey(reg, ClsidKeyWrite(guid, progId));
    if o.Fail? { return; }
    ghost var r2 := reg.store;
    RunWritesCons(r2, reg.denied, ws[2], [ws[3]] + []);
    o := WriteKey(reg, InprocWrite(guid, progId, dllPath));
    if o.Fail? { return; }
    ghost var r3 := reg.store;
    RunWritesCons(r3, reg.denied, ws[3], []);
    o := WriteKey(reg, ProgIdWrite(guid, progId));
  }
}
