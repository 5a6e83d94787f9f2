/** The policy both `AddinManager` classes add on top of the registry
    classes (OneNoteAddinManager.Lib/Services/AddinManager.cs and
    Services/AddinManager.cs): naming a new add-in after its DLL, the orphan
    filter, and unregistering every orphan whatever happens to the others. */
module AddinPolicy {
  import opened Wrappers
  import opened Strings
  import opened Store
  import opened AddinModel
  import opened Catalog

  // ----- naming a new add-in after its DLL -----

  /** The directory separators of a Windows path. */
  predicate IsSeparator(c: char) { c == '\\' || c == '/' }

  predicate NoSeparator(s: string) {
    forall i :: 0 <= i < |s| ==> !IsSeparator(s[i])
  }

  /** `Path.GetFileName`: the longest tail of the path without a separator. */
  function FileName(p: string): (f: string)
    ensures |f| <= |p| && f == p[|p| - |f|..]
    ensures NoSeparator(f)
    ensures |f| < |p| ==> IsSeparator(p[|p| - |f| - 1])
    decreases |p|
  {
    if p == [] || IsSeparator(p[|p| - 1]) then []
    else
      var q := p[..|p| - 1];
      var g := FileName(q);
      assert |g| < |q| ==> p[|p| - |g| - 2] == q[|q| - |g| - 1];
      assert p[|p| - |g| - 1..] == g + [p[|p| - 1]];
      g + [p[|p| - 1]]
  }

  /** `s.LastIndexOf(c)`: the last position holding `c`, or -1. */
  function LastIndexOf(s: string, c: char): (i: int)
    ensures -1 <= i < |s|
    ensures i >= 0 ==> s[i] == c
    ensures forall j :: i < j < |s| ==> s[j] != c
    decreases |s|
  {
    if s == [] then -1
    else if s[|s| - 1] == c then |s| - 1
    else LastIndexOf(s[..|s| - 1], c)
  }

  /** The file name with its extension, from the last '.', cut off. */
  function WithoutExtension(f: string): string {
    var i := LastIndexOf(f, '.');
    if i < 0 then f else f[..i]
  }

  /** The cut falls on the last '.', and keeps a name without separators so. */
  lemma WithoutExtensionCut(f: string)
    ensures var n := WithoutExtension(f);
      && |n| <= |f| && n == f[..|n|]
      && (NoSeparator(f) ==> NoSeparator(n))
      && ('.' !in f ==> n == f)
      && ('.' in f ==> |n| < |f| && f[|n|] == '.' && '.' !in f[|n| + 1..])
  {
    var i := LastIndexOf(f, '.');
    if i < 0 {
      assert '.' !in f;
    } else {
      var n := f[..i];
      var tail := f[i + 1..];
      assert forall j :: 0 <= j < |tail| ==> tail[j] == f[i + 1 + j];
      assert NoSeparator(f) ==> NoSeparator(n) by {
        if NoSeparator(f) {
          forall j | 0 <= j < |n| ensures !IsSeparator(n[j]) {
            assert n[j] == f[j];
          }
        }
      }
    }
  }

  /** `Path.GetFileNameWithoutExtension`: the file name up to its last '.',
      or all of it when it has no '.'. */
  function FileNameWithoutExtension(p: string): (n: string)
    ensures NoSeparator(n)
    ensures |n| <= |FileName(p)| && n == FileName(p)[..|n|]
    ensures '.' !in FileName(p) ==> n == FileName(p)
    ensures '.' in FileName(p) ==> |n| < |FileName(p)| && FileName(p)[|n|] == '.' && '.' !in FileName(p)[|n| + 1..]
  {
    WithoutExtensionCut(FileName(p));
    WithoutExtension(FileName(p))
  }

  /** The file name of a path is whatever follows its last separator. */
  lemma {:induction false} FileNameAfterSeparator(dir: string, sep: char, f: string)
    requires IsSeparator(sep) && NoSeparator(f)
    ensures FileName(dir + [sep] + f) == f
    decreases |f|
  {
    var p := dir + [sep] + f;
    if f == [] {
      assert p == dir + [sep];
    } else {
      var f' := f[..|f| - 1];
      assert p[..|p| - 1] == dir + [sep] + f';
      FileNameAfterSeparator(dir, sep, f');
      assert f' + [f[|f| - 1]] == f;
    }
  }

  /** Only the last dot starts the extension. */
  lemma WithoutLastExtension(stem: string, ext: string)
    requires '.' !in ext
    ensures WithoutExtension(stem + "." + ext) == stem
  {
    var f := stem + "." + ext;
    var i := LastIndexOf(f, '.');
    assert f[|stem|] == '.';
    assert forall j :: |stem| < j < |f| ==> f[j] == ext[j - |stem| - 1];
    assert f[..|stem|] == stem;
  }

  /** Naming after the DLL keeps every dot of the stem and drops the
      extension: `dir\My.Addin.dll` gives `My.Addin`. */
  lemma StemOfPath(dir: string, sep: char, stem: string, ext: string)
    requires IsSeparator(sep) && NoSeparator(stem) && NoSeparator(ext) && '.' !in ext
    ensures FileNameWithoutExtension(dir + [sep] + stem + "." + ext) == stem
  {
    var f := stem + "." + ext;
    assert dir + [sep] + stem + "." + ext == dir + [sep] + f;
    assert NoSeparator(f) by {
      forall i | 0 <= i < |f| ensures !IsSeparator(f[i]) {
        if i > |stem| { assert f[i] == ext[i - |stem| - 1]; }
      }
    }
    FileNameAfterSeparator(dir, sep, f);
    WithoutLastExtension(stem, ext);
  }

  /** A path with no separator and no dot names the add-in after itself. */
  lemma BareFileName(p: string)
    requires NoSeparator(p) && '.' !in p
    ensures FileNameWithoutExtension(p) == p
  {
    assert p[|p| - |p|..] == p;
  }

  /** The friendly name: the name with every '.' turned into a space. */
  function NewFriendlyName(name: string): (f: string)
    ensures |f| == |name| && '.' !in f
    ensures forall i :: 0 <= i < |name| && name[i] != '.' ==> f[i] == name[i]
  {
    ReplaceChar(name, '.', ' ')
  }

  const LoadedFromPrefix: string := "Add-in loaded from "

  function NewDescription(dllPath: string): string { LoadedFromPrefix + dllPath }

  const DllNotFoundPrefix: string := "DLL file not found: "

  /** The exception for a DLL that does not exist. */
  function DllNotFound(dllPath: string): Exception { FileNotFound(DllNotFoundPrefix + dllPath) }

  /** A registration script: the AddIns key first, then HKCR keys only, and
      for `RegistryService` one more key, the lookup entry. */
  lemma RegisterWritesShape(name: string, fn: string, de: string, path: string, guid: string, service: bool)
    ensures var ws := if service then ServiceRegisterWrites(name, fn, de, path, guid) else ManagerRegisterWrites(name, fn, de, path, guid);
      && |ws| == (if service then 6 else 5)
      && ws[0] == AddinsWrite(name, fn, de)
      && (forall i :: 1 <= i < |ws| ==> ws[i].hive == ClassesRoot)
      && (service ==> ws[5] == LookupWrite(name, guid))
  {
    var ws := if service then ServiceRegisterWrites(name, fn, de, path, guid) else ManagerRegisterWrites(name, fn, de, path, guid);
    RegisterWritesHives(ws, name, fn, de, path, guid);
  }

  /** What `RegisterNewAddin` hands to `RegistryService.RegisterAddin` or
      `RegistryManager.RegisterAddin` for a DLL. */
  function NewAddinWrites(dllPath: string, guid: string, service: bool): (ws: seq<KeyWrite>)
    ensures |ws| == if service then 6 else 5
    ensures ws[0] == AddinsWrite(FileNameWithoutExtension(dllPath), NewFriendlyName(FileNameWithoutExtension(dllPath)), NewDescription(dllPath))
    ensures forall i :: 1 <= i < |ws| ==> ws[i].hive == ClassesRoot
    ensures service ==> ws[5] == LookupWrite(FileNameWithoutExtension(dllPath), guid)
  {
    var name := FileNameWithoutExtension(dllPath);
    RegisterWritesShape(name, NewFriendlyName(name), NewDescription(dllPath), dllPath, guid, service);
    if service then ServiceRegisterWrites(name, NewFriendlyName(name), NewDescription(dllPath), dllPath, guid)
    else ManagerRegisterWrites(name, NewFriendlyName(name), NewDescription(dllPath), dllPath, guid)
  }


  /** Registering `dir\stem.ext` through `RegistryService` lists the add-in
      `stem`, its dots turned into spaces for the friendly name, described as
      loaded from the path, with that GUID and DLL path, and enabled. */
  lemma NewAddinRoundTrip(r: Reg, denied: set<Hive>, dir: string, stem: string, ext: string, guid: string)
    requires WellFormed(r) && CurrentUser !in denied && ClassesRoot !in denied
    requires stem != "" && NoSeparator(stem) && NoSeparator(ext) && '.' !in ext && guid != ""
    requires '/' !in dir + "\\" + stem + "." + ext
    requires !Contains(ReplaceChar(dir + "\\" + stem + "." + ext, '\\', '/'), "file:///")
    ensures var w := RunWrites(r, denied, NewAddinWrites(dir + "\\" + stem + "." + ext, guid, true));
      && w.1 == Pass
      && FirstByName(Listing(w.0), stem)
         == Some(AddinData(stem, NewFriendlyName(stem), NewDescription(dir + "\\" + stem + "." + ext),
                           Some(dir + "\\" + stem + "." + ext), guid, true, 3))
  {
    var path := dir + "\\" + stem + "." + ext;
    assert path == dir + ['\\'] + stem + "." + ext;
    StemOfPath(dir, '\\', stem, ext);
    ServiceRegisterRoundTrip(r, denied, stem, NewFriendlyName(stem), NewDescription(path), path, guid);
  }

  /** Registering `dir\stem.ext` through `RegistryManager` lists the add-in
      `stem` with no GUID and an empty DLL path, however it was registered. */
  lemma NewAddinNoGuid(r: Reg, denied: set<Hive>, dir: string, stem: string, ext: string, guid: string)
    requires WellFormed(r) && CurrentUser !in denied && ClassesRoot !in denied
    requires stem != "" && NoSeparator(stem) && NoSeparator(ext) && '.' !in ext
    requires stem != AppIdRoot && stem != ClsidRoot
    requires Value(r, At(ClassesRoot, LookupKeyName(stem)), "") == None
    ensures var w := RunWrites(r, denied, NewAddinWrites(dir + "\\" + stem + "." + ext, guid, false));
      && w.1 == Pass
      && FirstByName(Listing(w.0), stem)
         == Some(AddinData(stem, NewFriendlyName(stem), NewDescription(dir + "\\" + stem + "." + ext), Some(""), "", true, 3))
  {
    var path := dir + "\\" + stem + "." + ext;
    assert path == dir + ['\\'] + stem + "." + ext;
    StemOfPath(dir, '\\', stem, ext);
    ManagerRegisterReadsNoGuid(r, denied, stem, NewFriendlyName(stem), NewDescription(path), path, guid);
  }

  // ----- orphans -----

  /** `!string.IsNullOrEmpty(a.DllPath) && !File.Exists(a.DllPath)`. */
  predicate IsOrphan(d: AddinData, fileExists: string -> bool) {
    d.dllPath.Some? && d.dllPath.value != "" && !fileExists(d.dllPath.value)
  }

  /** The orphans among the records, in their order (`Where`). */
  function Orphaned(xs: seq<AddinData>, fileExists: string -> bool): (os: seq<AddinData>)
    ensures |os| <= |xs|
    ensures forall d :: d in os <==> d in xs && IsOrphan(d, fileExists)
    decreases |xs|
  {
    if xs == [] then []
    else
      var front := Orphaned(xs[..|xs| - 1], fileExists);
      assert xs == xs[..|xs| - 1] + [xs[|xs| - 1]];
      if IsOrphan(xs[|xs| - 1], fileExists) then front + [xs[|xs| - 1]] else front
  }

  /** The filter keeps order: the orphans of a concatenation are the orphans
      of each part, one after the other. */
  lemma {:induction false} OrphanedAppend(a: seq<AddinData>, b: seq<AddinData>, fileExists: string -> bool)
    ensures Orphaned(a + b, fileExists) == Orphaned(a, fileExists) + Orphaned(b, fileExists)
    decreases |b|
  {
    if b == [] {
      assert a + b == a;
    } else {
      var b' := b[..|b| - 1];
      assert (a + b)[..|a + b| - 1] == a + b';
      assert (a + b)[|a + b| - 1] == b[|b| - 1];
      OrphanedAppend(a, b', fileExists);
    }
  }

  /** A record whose DLL exists, or that names none, is never an orphan. */
  lemma OrphanedSkips(xs: seq<AddinData>, fileExists: string -> bool, d: AddinData)
    requires d.dllPath == None || d.dllPath == Some("") || fileExists(d.dllPath.value)
    ensures d !in Orphaned(xs, fileExists)
  {
  }

  /** The records of the orphans, as the objects they are (`Where` on the list). */
  function WhereOrphan(xs: seq<AddinInfo>, fileExists: string -> bool): (ys: seq<AddinInfo>)
    reads set x | x in xs
    ensures forall y :: y in ys ==> y in xs
    ensures DataOf(ys) == Orphaned(DataOf(xs), fileExists)
    decreases |xs|
  {
    if xs == [] then []
    else
      var last := xs[|xs| - 1];
      var front := WhereOrphan(xs[..|xs| - 1], fileExists);
      assert DataOf(xs[..|xs| - 1]) == DataOf(xs)[..|xs| - 1];
      if IsOrphan(last.Data(), fileExists) then
        DataOfSnoc(front, last);
        front + [last]
      else front
  }

  // ----- cleanup -----

  /** What one `UnregisterAddin` call deletes, by `RegistryService` or by
      `RegistryManager`. */
  function UnregisterDeletes(d: AddinData, service: bool): seq<(Hive, string)> {
    if service then ServiceUnregisterDeletes(d.name, d.guid) else ManagerUnregisterDeletes(d.name, d.guid)
  }

  /** The store after unregistering each record in turn, each call's failure
      caught and the next one attempted. */
  function UnregisterEach(r: Reg, denied: set<Hive>, ds: seq<AddinData>, service: bool): Reg
    decreases |ds|
  {
    if ds == [] then r
    else RunDeletes(UnregisterEach(r, denied, ds[..|ds| - 1], service), denied, UnregisterDeletes(ds[|ds| - 1], service)).0
  }

  /** Records are unregistered one after another in the list's order: the
      cleanup of `a + b` is the cleanup of `a`, then that of `b`. */
  lemma {:induction false} UnregisterEachAppend(r: Reg, denied: set<Hive>, a: seq<AddinData>, b: seq<AddinData>, service: bool)
    ensures UnregisterEach(r, denied, a + b, service) == UnregisterEach(UnregisterEach(r, denied, a, service), denied, b, service)
    decreases |b|
  {
    if b == [] {
      assert a + b == a;
    } else {
      var b' := b[..|b| - 1];
      assert (a + b)[..|a + b| - 1] == a + b';
      assert (a + b)[|a + b| - 1] == b[|b| - 1];
      UnregisterEachAppend(r, denied, a, b', service);
    }
  }

  lemma {:induction false} UnregisterEachWellFormed(r: Reg, denied: set<Hive>, ds: seq<AddinData>, service: bool)
    requires WellFormed(r)
    ensures WellFormed(UnregisterEach(r, denied, ds, service))
    decreases |ds|
  {
    if ds != [] {
      UnregisterEachWellFormed(r, denied, ds[..|ds| - 1], service);
      RunDeletesWellFormed(UnregisterEach(r, denied, ds[..|ds| - 1], service), denied, UnregisterDeletes(ds[|ds| - 1], service));
    }
  }

  /** One unregistration, where the current user's hive accepts writes,
      removes the name from the AddIns key, even when a later delete fails. */
  lemma UnregisterGone(r: Reg, denied: set<Hive>, d: AddinData, service: bool)
    requires WellFormed(r) && CurrentUser !in denied
    ensures Gone(RunDeletes(r, denied, UnregisterDeletes(d, service)).0, d.name)
  {
    var ds := UnregisterDeletes(d, service);
    AddinDeleteGone(r, denied, d.name);
    var r1 := DeleteTreeOp(r, denied, CurrentUser, AddinKeyName(d.name)).0;
    assert ds[0] == (CurrentUser, AddinKeyName(d.name));
    assert RunDeletes(r, denied, ds) == RunDeletes(r1, denied, ds[1..]);
    RunDeletesKeepGone(r1, denied, ds[1..], d.name);
  }

  /** Cleanup goes on after a failure: with the current user's hive writable,
      every record handed to it ends up gone, including those after one
      whose COM or lookup delete was refused. */
  lemma {:induction false} UnregisterEachGone(r: Reg, denied: set<Hive>, ds: seq<AddinData>, service: bool, k: int)
    requires WellFormed(r) && CurrentUser !in denied
    requires 0 <= k < |ds|
    ensures Gone(UnregisterEach(r, denied, ds, service), ds[k].name)
    decreases |ds|
  {
    var front := ds[..|ds| - 1];
    var r1 := UnregisterEach(r, denied, front, service);
    var script := UnregisterDeletes(ds[|ds| - 1], service);
    UnregisterEachWellFormed(r, denied, front, service);
    if k == |ds| - 1 {
      UnregisterGone(r1, denied, ds[k], service);
    } else {
      UnregisterEachGone(r, denied, front, service, k);
      assert front[k] == ds[k];
      RunDeletesKeepGone(r1, denied, script, ds[k].name);
    }
  }

  /** After cleanup no orphan is listed any more. */
  lemma CleanupUnlists(r: Reg, denied: set<Hive>, fileExists: string -> bool, service: bool, k: int, i: int)
    requires WellFormed(r) && CurrentUser !in denied
    requires 0 <= k < |Orphaned(Listing(r), fileExists)|
    requires 0 <= i < |Listing(UnregisterEach(r, denied, Orphaned(Listing(r), fileExists), service))|
    ensures Listing(UnregisterEach(r, denied, Orphaned(Listing(r), fileExists), service))[i].name
         != Orphaned(Listing(r), fileExists)[k].name
  {
    var os := Orphaned(Listing(r), fileExists);
    UnregisterEachGone(r, denied, os, service, k);
    GoneNotListed(UnregisterEach(r, denied, os, service), os[k].name);
  }

  // ----- refresh -----

  /** Refreshing finds the record the registry holds for that sub-key now. */
  lemma RefreshFinds(r: Reg, n: string)
    ensures FirstByName(Listing(r), n)
         == if AddinsLoc() in r.keys && n in r.keys[AddinsLoc()] then Entry(r, n) else None
  {
    if AddinsLoc() in r.keys {
      FirstByNameListEntries(r, r.keys[AddinsLoc()], n);
    }
  }

  /** The record after a refresh: the listed record's enabled flag,
      LoadBehavior and DLL path, with every other field kept. */
  function Refreshed(d: AddinData, u: AddinData): (e: AddinData)
    ensures e.name == d.name && e.friendlyName == d.friendlyName && e.description == d.description && e.guid == d.guid
    ensures e.isEnabled == u.isEnabled && e.loadBehavior == u.loadBehavior && e.dllPath == u.dllPath
  {
    d.(isEnabled := u.isEnabled, loadBehavior := u.loadBehavior, dllPath := u.dllPath)
  }

  /** Refreshing a record brings it in line with the registry: its enabled
      flag agrees with its LoadBehavior read from the store. */
  lemma RefreshAgrees(r: Reg, d: AddinData)
    requires FirstByName(Listing(r), d.name).Some?
    ensures Refreshed(d, FirstByName(Listing(r), d.name).value).isEnabled
        <==> Refreshed(d, FirstByName(Listing(r), d.name).value).loadBehavior == 3
    ensures Value(r, Rel(AddinsLoc(), d.name), "LoadBehavior").None? ==>
      Refreshed(d, FirstByName(Listing(r), d.name).value).loadBehavior == 0
  {
    RefreshFinds(r, d.name);
  }
}
