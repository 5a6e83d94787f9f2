/** `RegistryManager` (OneNoteAddinManager.Lib/Services/RegistryManager.cs):
    the older twin of `RegistryService`, working on the machine's registry.
    That registry is passed to the constructor here. Registration writes no
    lookup entry and unregistration deletes none. */
module LibRegistryManager {
  import opened Wrappers
  import opened Store
  import opened AddinModel
  import opened Catalog
  import opened Scripts

  class RegistryManager {
    const registry: Registry

    constructor (registry: Registry)
      ensures this.registry == registry
    {
      this.registry := registry;
    }

    /** One fresh record per readable sub-key of the AddIns key, in sub-key order. */
    method GetInstalledAddins() returns (addins: seq<AddinInfo>)
      ensures DataOf(addins) == Listing(registry.store)
      ensures forall a :: a in addins ==> fresh(a) && a.raised == []
    {
      addins := [];
      var key := OpenAddinsKey(registry);
      if key.None? {
        return;
      }
      var names := registry.GetSubKeyNames(key.value);
      ghost var r := registry.store;
      var i := 0;
      assert names[..0] == [];
      while i < |names|
        invariant 0 <= i <= |names|
        invariant registry.store == r
        invariant DataOf(addins) == ListEntries(r, names[..i])
        invariant forall a :: a in addins ==> fresh(a)
        invariant forall a :: a in addins ==> a.raised == []
      {
        ListEntriesStep(r, names, i);
        var e := ReadAddinKey(registry, names[i]);
        if e.Some? {
          addins := AddRecord(addins, e.value);
        }
        i := i + 1;
      }
      assert names[..i] == names;
    }

    /** Writes LoadBehavior 3 or 0 into the add-in's key and mirrors it into
        the record; a missing key or a refused hive changes nothing. */
    method SetAddinEnabled(addin: AddinInfo, enabled: bool) returns (o: Outcome<Exception>)
      modifies registry, addin
      ensures o == SetEnabledOutcome(old(registry.store), registry.denied, old(addin.name))
      ensures o.Pass? ==>
        && registry.store == Set(old(registry.store), Rel(AddinsLoc(), old(addin.name)), "LoadBehavior", DWord(EnabledLoadBehavior(enabled)))
        && addin.Data() == old(addin.Data()).(loadBehavior := EnabledLoadBehavior(enabled), isEnabled := enabled)
        && addin.raised == old(addin.raised) + ["LoadBehavior"] + ["IsEnabled"]
      ensures o.Fail? ==> registry.store == old(registry.store) && addin.Data() == old(addin.Data()) && addin.raised == old(addin.raised)
    {
      o := WriteLoadBehavior(registry, addin.name, enabled);
      if o.Pass? {
        var loadBehavior := if enabled then 3 else 0;
        addin.SetLoadBehavior(loadBehavior);
        addin.SetIsEnabled(enabled);
      }
    }

    /** The AddIns key, then the COM registration, stopping at the first
        refused write. */
    method RegisterAddin(name: string, friendlyName: string, description: string, dllPath: string, guid: string)
      returns (o: Outcome<Exception>)
      modifies registry
      ensures registry.store == RunWrites(old(registry.store), registry.denied, ManagerRegisterWrites(name, friendlyName, description, dllPath, guid)).0
      ensures o == Wrap(RegisterPrefix, RunWrites(old(registry.store), registry.denied, ManagerRegisterWrites(name, friendlyName, description, dllPath, guid)).1)
    {
      ghost var r0 := registry.store;
      var addins := AddinsWrite(name, friendlyName, description);
      var cs := ClsidWrites(guid, name, dllPath);
      RunWritesSingle(r0, registry.denied, addins);
      RunWritesAppend(r0, registry.denied, [addins], cs);
      var so := WriteKey(registry, addins);
      if so.Pass? {
        so := RegisterClsid(registry, guid, name, dllPath);
      }
      o := Wrap(RegisterPrefix, so);
    }

    /** The AddIns tree, then the AppID and CLSID trees when the record has a
        GUID, stopping at the first failure. */
    method UnregisterAddin(addin: AddinInfo) returns (o: Outcome<Exception>)
      modifies registry
      ensures registry.store == RunDeletes(old(registry.store), registry.denied, ManagerUnregisterDeletes(addin.name, addin.guid)).0
      ensures o == Wrap(UnregisterPrefix, RunDeletes(old(registry.store), registry.denied, ManagerUnregisterDeletes(addin.name, addin.guid)).1)
    {
      ghost var r0 := registry.store;
      var own := [(CurrentUser, AddinKeyName(addin.name))];
      var com := ClsidDeletes(addin.guid);
      RunDeletesSplit(r0, registry.denied, own, com);
      RunDeletesSingle(r0, registry.denied, own[0]);
      var so := registry.DeleteSubKeyTree(CurrentUser, AddinKeyName(addin.name));
      if so.Pass? && addin.guid != "" {
        ghost var r1 := registry.store;
        RunDeletesSplit(r1, registry.denied, [com[0]], [com[1]]);
        assert com == [com[0]] + [com[1]];
        RunDeletesSingle(r1, registry.denied, com[0]);
        so := registry.DeleteSubKeyTree(ClassesRoot, AppIdRoot + "\\" + addin.guid);
        if so.Pass? {
          RunDeletesSingle(registry.store, registry.denied, com[1]);
          so := registry.DeleteSubKeyTree(ClassesRoot, ClsidRoot + "\\" + addin.guid);
        }
      }
      o := Wrap(UnregisterPrefix, so);
    }

    /** Creates and deletes a scratch key under HKCR; true only when both succeed. */
    method IsRunningAsAdministrator() returns (b: bool)
      modifies registry
      ensures (registry.store, b) == AdminProbe(old(registry.store), registry.denied)
    {
      var key := registry.CreateSubKey(ClassesRoot, ProbeKeyName);
      if key.Failure? {
        return false;
      }
      var o := registry.DeleteSubKey(ClassesRoot, ProbeKeyName);
      return o.Pass?;
    }
  }
}
