/** `AddinManager` (Services/AddinManager.cs): the application's own front
    end, built over a `RegistryManager` of its own. Its parameterless
    constructor opens the machine's registry; that registry is passed in
    here. `File.Exists` and `Guid.NewGuid` are passed in. */
module RootAddinManager {
  import opened Wrappers
  import opened Store
  import opened AddinModel
  import opened Catalog
  import opened AddinPolicy
  import opened LibRegistryManager

  class AddinManager {
    const manager: RegistryManager

    constructor (registry: Registry)
      ensures fresh(manager) && manager.registry == registry
    {
      manager := new RegistryManager(registry);
    }

    method GetAllAddins() returns (addins: seq<AddinInfo>)
      ensures DataOf(addins) == Listing(manager.registry.store)
      ensures forall a :: a in addins ==> fresh(a) && a.raised == []
    {
      addins := manager.GetInstalledAddins();
    }

    /** `SetAddinEnabled(addin, true)`. */
    method EnableAddin(addin: AddinInfo) returns (o: Outcome<Exception>)
      modifies manager.registry, addin
      ensures o == SetEnabledOutcome(old(manager.registry.store), manager.registry.denied, old(addin.name))
      ensures o.Pass? ==>
        && manager.registry.store == Set(old(manager.registry.store), Rel(AddinsLoc(), old(addin.name)), "LoadBehavior", DWord(3))
        && addin.Data() == old(addin.Data()).(loadBehavior := 3, isEnabled := true)
        && addin.raised == old(addin.raised) + ["LoadBehavior"] + ["IsEnabled"]
      ensures o.Fail? ==> manager.registry.store == old(manager.registry.store) && addin.Data() == old(addin.Data()) && addin.raised == old(addin.raised)
    {
      o := manager.SetAddinEnabled(addin, true);
    }

    /** `SetAddinEnabled(addin, false)`. */
    method DisableAddin(addin: AddinInfo) returns (o: Outcome<Exception>)
      modifies manager.registry, addin
      ensures o == SetEnabledOutcome(old(manager.registry.store), manager.registry.denied, old(addin.name))
      ensures o.Pass? ==>
        && manager.registry.store == Set(old(manager.registry.store), Rel(AddinsLoc(), old(addin.name)), "LoadBehavior", DWord(0))
        && addin.Data() == old(addin.Data()).(loadBehavior := 0, isEnabled := false)
        && addin.raised == old(addin.raised) + ["LoadBehavior"] + ["IsEnabled"]
      ensures o.Fail? ==> manager.registry.store == old(manager.registry.store) && addin.Data() == old(addin.Data()) && addin.raised == old(addin.raised)
    {
      o := manager.SetAddinEnabled(addin, false);
    }

    /** Registers the DLL under its file name without extension; a DLL that
        does not exist is refused before anything is written. `guid` is the
        freshly generated GUID. */
    method RegisterNewAddin(dllPath: string, fileExists: string -> bool, guid: string) returns (o: Outcome<Exception>)
      modifies manager.registry
      ensures !fileExists(dllPath) ==> o == Fail(DllNotFound(dllPath)) && manager.registry.store == old(manager.registry.store)
      ensures fileExists(dllPath) ==>
        && manager.registry.store == RunWrites(old(manager.registry.store), manager.registry.denied, NewAddinWrites(dllPath, guid, false)).0
        && o == Wrap(RegisterPrefix, RunWrites(old(manager.registry.store), manager.registry.denied, NewAddinWrites(dllPath, guid, false)).1)
    {
      if !fileExists(dllPath) {
        return Fail(DllNotFound(dllPath));
      }
      var fileName := FileNameWithoutExtension(dllPath);
      var friendlyName := NewFriendlyName(fileName);
      var description := NewDescription(dllPath);
      o := manager.RegisterAddin(fileName, friendlyName, description, dllPath, guid);
    }

    method UnregisterAddin(addin: AddinInfo) returns (o: Outcome<Exception>)
      modifies manager.registry
      ensures manager.registry.store == RunDeletes(old(manager.registry.store), manager.registry.denied, UnregisterDeletes(addin.Data(), false)).0
      ensures o == Wrap(UnregisterPrefix, RunDeletes(old(manager.registry.store), manager.registry.denied, UnregisterDeletes(addin.Data(), false)).1)
    {
      o := manager.UnregisterAddin(addin);
    }

    method IsRunningAsAdministrator() returns (b: bool)
      modifies manager.registry
      ensures (manager.registry.store, b) == AdminProbe(old(manager.registry.store), manager.registry.denied)
    {
      b := manager.IsRunningAsAdministrator();
    }

    /** The listed add-ins whose DLL path is set but names no existing file,
        in listing order. */
    method FindOrphanedEntries(fileExists: string -> bool) returns (orphans: seq<AddinInfo>)
      ensures DataOf(orphans) == Orphaned(Listing(manager.registry.store), fileExists)
      ensures forall a :: a in orphans ==> fresh(a)
    {
      var addins := GetAllAddins();
      orphans := WhereOrphan(addins, fileExists);
    }

    /** Unregisters every orphan; a failure is swallowed and the next orphan
        is still attempted. */
    method CleanupOrphanedEntries(fileExists: string -> bool)
      modifies manager.registry
      ensures manager.registry.store
           == UnregisterEach(old(manager.registry.store), manager.registry.denied, Orphaned(Listing(old(manager.registry.store)), fileExists), false)
    {
      var orphaned := FindOrphanedEntries(fileExists);
      UnregisterEvery(orphaned);
    }

    /** The `foreach` of `CleanupOrphanedEntries`: `UnregisterAddin` on each
        record in order, inside a `try` whose `catch` only logs. */
    method UnregisterEvery(addins: seq<AddinInfo>)
      modifies manager.registry
      ensures manager.registry.store == UnregisterEach(old(manager.registry.store), manager.registry.denied, DataOf(addins), false)
    {
      ghost var r0 := manager.registry.store;
      ghost var ds := DataOf(addins);
      var i := 0;
      assert ds[..0] == [];
      while i < |addins|
        invariant 0 <= i <= |addins|
        invariant forall j :: 0 <= j < |addins| ==> addins[j].Data() == ds[j]
        invariant manager.registry.store == UnregisterEach(r0, manager.registry.denied, ds[..i], false)
      {
        assert ds[..i + 1][..i] == ds[..i];
        var _ := UnregisterAddin(addins[i]);
        i := i + 1;
      }
      assert ds[..i] == ds;
    }

    /** Copies the enabled flag, LoadBehavior and DLL path of the first listed
        add-in with the same name; without one nothing changes. */
    method RefreshAddinStatus(addin: AddinInfo)
      modifies addin
      ensures FirstByName(Listing(manager.registry.store), old(addin.name)).None? ==>
        addin.Data() == old(addin.Data()) && addin.raised == old(addin.raised)
      ensures FirstByName(Listing(manager.registry.store), old(addin.name)).Some? ==>
        && addin.Data() == Refreshed(old(addin.Data()), FirstByName(Listing(manager.registry.store), old(addin.name)).value)
        && addin.raised == old(addin.raised) + ["IsEnabled"] + ["LoadBehavior"] + ["DllPath"]
    {
      var allAddins := GetAllAddins();
      var updated := FirstByName(DataOf(allAddins), addin.name);
      if updated.Some? {
        addin.SetIsEnabled(updated.value.isEnabled);
        addin.SetLoadBehavior(updated.value.loadBehavior);
        addin.SetDllPath(updated.value.dllPath);
      }
    }
  }
}
