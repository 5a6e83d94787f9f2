/** `AddinManager` (OneNoteAddinManager.Lib/Services/AddinManager.cs): the
    library's front end over an injected `RegistryService`. `File.Exists` and
    `Guid.NewGuid` are passed in. */
module LibAddinManager {
  import opened Wrappers
  import opened Store
  import opened AddinModel
  import opened Catalog
  import opened AddinPolicy
  import opened LibRegistryService

  class AddinManager {
    const service: RegistryService

    constructor (service: RegistryService)
      ensures this.service == service
    {
      this.service := service;
    }

    /** `new AddinManager(registryService)`: a null service is refused. */
    static method New(service: RegistryService?) returns (m: Result<AddinManager, Exception>)
      ensures m.Failure? <==> service == null
      ensures m.Failure? ==> m.error == ArgumentNull("registryService")
      ensures m.Success? ==> fresh(m.value) && m.value.service == service
    {
      if service == null {
        return Failure(ArgumentNull("registryService"));
      }
      var a := new AddinManager(service);
      return Success(a);
    }

    method GetAllAddins() returns (addins: seq<AddinInfo>)
      ensures DataOf(addins) == Listing(service.registry.store)
      ensures forall a :: a in addins ==> fresh(a) && a.raised == []
    {
      addins := service.GetInstalledAddins();
    }

    /** `SetAddinEnabled(addin, true)`. */
    method EnableAddin(addin: AddinInfo) returns (o: Outcome<Exception>)
      modifies service.registry, addin
      ensures o == SetEnabledOutcome(old(service.registry.store), service.registry.denied, old(addin.name))
      ensures o.Pass? ==>
        && service.registry.store == Set(old(service.registry.store), Rel(AddinsLoc(), old(addin.name)), "LoadBehavior", DWord(3))
        && addin.Data() == old(addin.Data()).(loadBehavior := 3, isEnabled := true)
        && addin.raised == old(addin.raised) + ["LoadBehavior"] + ["IsEnabled"]
      ensures o.Fail? ==> service.registry.store == old(service.registry.store) && addin.Data() == old(addin.Data()) && addin.raised == old(addin.raised)
    {
      o := service.SetAddinEnabled(addin, true);
    }

    /** `SetAddinEnabled(addin, false)`. */
    method DisableAddin(addin: AddinInfo) returns (o: Outcome<Exception>)
      modifies service.registry, addin
      ensures o == SetEnabledOutcome(old(service.registry.store), service.registry.denied, old(addin.name))
      ensures o.Pass? ==>
        && service.registry.store == Set(old(service.registry.store), Rel(AddinsLoc(), old(addin.name)), "LoadBehavior", DWord(0))
        && addin.Data() == old(addin.Data()).(loadBehavior := 0, isEnabled := false)
        && addin.raised == old(addin.raised) + ["LoadBehavior"] + ["IsEnabled"]
      ensures o.Fail? ==> service.registry.store == old(service.registry.store) && addin.Data() == old(addin.Data()) && addin.raised == old(addin.raised)
    {
      o := service.SetAddinEnabled(addin, false);
    }

    /** Registers the DLL under its file name without extension; a DLL that
        does not exist is refused before anything is written. `guid` is the
        freshly generated GUID. */
    method RegisterNewAddin(dllPath: string, fileExists: string -> bool, guid: string) returns (o: Outcome<Exception>)
      modifies service.registry
      ensures !fileExists(dllPath) ==> o == Fail(DllNotFound(dllPath)) && service.registry.store == old(service.registry.store)
      ensures fileExists(dllPath) ==>
        && service.registry.store == RunWrites(old(service.registry.store), service.registry.denied, NewAddinWrites(dllPath, guid, true)).0
        && o == Wrap(RegisterPrefix, RunWrites(old(service.registry.store), service.registry.denied, NewAddinWrites(dllPath, guid, true)).1)
    {
      if !fileExists(dllPath) {
        return Fail(DllNotFound(dllPath));
      }
      var fileName := FileNameWithoutExtension(dllPath);
      var friendlyName := NewFriendlyName(fileName);
      var description := NewDescription(dllPath);
      o := service.RegisterAddin(fileName, friendlyName, description, dllPath, guid);
    }

    method UnregisterAddin(addin: AddinInfo) returns (o: Outcome<Exception>)
      modifies service.registry
      ensures service.registry.store == RunDeletes(old(service.registry.store), service.registry.denied, UnregisterDeletes(addin.Data(), true)).0
      ensures o == Wrap(UnregisterPrefix, RunDeletes(old(service.registry.store), service.registry.denied, UnregisterDeletes(addin.Data(), true)).1)
    {
      o := service.UnregisterAddin(addin);
    }

    method IsRunningAsAdministrator() returns (b: bool)
      modifies service.registry
      ensures (service.registry.store, b) == AdminProbe(old(service.registry.store), service.registry.denied)
    {
      b := service.IsRunningAsAdministrator();
    }

    /** The listed add-ins whose DLL path is set but names no existing file,
        in listing order. */
    method FindOrphanedEntries(fileExists: string -> bool) returns (orphans: seq<AddinInfo>)
      ensures DataOf(orphans) == Orphaned(Listing(service.registry.store), fileExists)
      ensures forall a :: a in orphans ==> fresh(a)
    {
      var addins := GetAllAddins();
      orphans := WhereOrphan(addins, fileExists);
    }

    /** Unregisters every orphan; a failure is swallowed and the next orphan
        is still attempted. */
    method CleanupOrphanedEntries(fileExists: string -> bool)
      modifies service.registry
      ensures service.registry.store
           == UnregisterEach(old(service.registry.store), service.registry.denied, Orphaned(Listing(old(service.registry.store)), fileExists), true)
    {
      var orphaned := FindOrphanedEntries(fileExists);
      UnregisterEvery(orphaned);
    }

    /** The `foreach` of `CleanupOrphanedEntries`: `UnregisterAddin` on each
        record in order, inside a `try` whose `catch` only logs. */
    method UnregisterEvery(addins: seq<AddinInfo>)
      modifies service.registry
      ensures service.registry.store == UnregisterEach(old(service.registry.store), service.registry.denied, DataOf(addins), true)
    {
      ghost var r0 := service.registry.store;
      ghost var ds := DataOf(addins);
      var i := 0;
      assert ds[..0] == [];
      while i < |addins|
        invariant 0 <= i <= |addins|
        invariant forall j :: 0 <= j < |addins| ==> addins[j].Data() == ds[j]
        invariant service.registry.store == UnregisterEach(r0, service.registry.denied, ds[..i], true)
      {
        assert ds[..i + 1][..i] == ds[..i];
        var _ := UnregisterAddin(addins[i]);
        i := i + 1;
      }
      assert ds[..i] == ds;
    }

    /** Copies the enabled flag, LoadBehavior and DLL path of the first listed
        add-in with the same name; without one nothing changes. */
    method RefreshAddinStatus(addin: AddinInfo)
      modifies addin
      ensures FirstByName(Listing(service.registry.store), old(addin.name)).None? ==>
        addin.Data() == old(addin.Data()) && addin.raised == old(addin.raised)
      ensures FirstByName(Listing(service.registry.store), old(addin.name)).Some? ==>
        && addin.Data() == Refreshed(old(addin.Data()), FirstByName(Listing(service.registry.store), old(addin.name)).value)
        && addin.raised == old(addin.raised) + ["IsEnabled"] + ["LoadBehavior"] + ["DllPath"]
    {
      var allAddins := GetAllAddins();
      var updated := FirstByName(DataOf(allAddins), addin.name);
      if updated.Some? {
        addin.SetIsEnabled(updated.value.isEnabled);
        addin.SetLoadBehavior(updated.value.loadBehavior);
        addin.SetDllPath(updated.value.dllPath);
      }
    }
  }
}
