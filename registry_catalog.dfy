/** The add-in catalogue as kept in the registry: where each piece of an
    add-in's registration lives, how a listed record is read back from the
    keys, and which keys registration writes and unregistration deletes.
    Both registry classes (OneNoteAddinManager.Lib/Services/RegistryService.cs
    and OneNoteAddinManager.Lib/Services/RegistryManager.cs) share this
    layout; they differ only in the scripts they run. */
module Catalog {
  import opened Wrappers
  import opened Strings
  import opened Store
  import opened AddinModel

  /** The segments of `SOFTWARE\Microsoft\Office\OneNote\AddIns`. */
  const AddinsSegments: seq<string> := ["SOFTWARE", "Microsoft", "Office", "OneNote", "AddIns"]
  const OfficeAddinsPath: string := Join(AddinsSegments, "\\")
  const AppIdRoot: string := "AppID"
  const ClsidRoot: string := "CLSID"
  const Wow64ClsidRoot: string := "WOW6432Node\\CLSID"

  /** The key listing one sub-key per registered add-in. */
  function AddinsLoc(): Loc { Loc(CurrentUser, AddinsSegments) }

  function AddinKeyName(name: string): string { OfficeAddinsPath + "\\" + name }

  /** `HKCR\{name}\CLSID`, whose default value names the add-in's GUID. */
  function LookupKeyName(name: string): string { name + "\\" + ClsidRoot }

  function InprocKeyName(root: string, guid: string): string { root + "\\" + guid + "\\" + "InprocServer32" }

  /** The AddIns key is the one its path names. */
  lemma AddinsLocAt()
    ensures At(CurrentUser, OfficeAddinsPath) == AddinsLoc()
  {
    assert CleanPath(AddinsSegments);
    PathOfJoinPath(AddinsSegments);
  }

  /** The add-in's own key is the `name` child of the AddIns key, for a
      single-segment name. */
  lemma AddinKeyIsChild(name: string)
    requires Segment(name)
    ensures At(CurrentUser, AddinKeyName(name)) == Child(AddinsLoc(), name)
    ensures Rel(AddinsLoc(), name) == Child(AddinsLoc(), name)
  {
    AddinsLocAt();
    PathOfJoin(OfficeAddinsPath, name);
    PathOfSegment(name);
  }

  /** The add-in's key, whatever the name: its path is the AddIns path
      followed by the name's own segments. */
  lemma AddinKeyAt(name: string)
    ensures At(CurrentUser, AddinKeyName(name)) == Rel(AddinsLoc(), name)
  {
    AddinsLocAt();
    PathOfJoin(OfficeAddinsPath, name);
  }

  // ----- reading values -----

  /** `object.ToString()` on a value read from the registry. */
  function ToText(v: RegValue): string {
    match v
    case Sz(t) => t
    case DWord(n) => IntToString(n)
    case Binary(_) => "System.Byte[]"
  }

  /** `Convert.ToInt32(object)`: None where it throws (a malformed or
      out-of-range string, a byte array). */
  function ToInt32(v: RegValue): Option<int> {
    match v
    case Sz(t) => ParseInt32(t)
    case DWord(n) => if Int32Min <= n <= Int32Max then Some(n) else None
    case Binary(_) => None
  }

  /** The path a `CodeBase` URL is written with. */
  function EncodeCodeBase(dllPath: string): string {
    "file:///" + ReplaceChar(dllPath, '\\', '/')
  }

  /** The path a `CodeBase` URL is read back as. */
  function DecodeCodeBase(codeBase: string): string {
    ReplaceChar(ReplaceAll(codeBase, "file:///", ""), '/', '\\')
  }

  /** Reading back a written `CodeBase` turns every '/' of the path into '\'
      and keeps everything else, so the path comes back exactly when it has no
      '/' (for a path whose encoding does not itself contain "file:///"). */
  lemma CodeBaseRoundTrip(p: string)
    requires !Contains(ReplaceChar(p, '\\', '/'), "file:///")
    ensures DecodeCodeBase(EncodeCodeBase(p)) == ReplaceChar(p, '/', '\\')
    ensures DecodeCodeBase(EncodeCodeBase(p)) == p <==> '/' !in p
  {
    var e := ReplaceChar(p, '\\', '/');
    var s := "file:///" + e;
    assert StartsWith(s, "file:///") && s[8..] == e;
    ReplaceAllAbsent(e, "file:///", "");
    assert ReplaceAll(s, "file:///", "") == e;
    var d := DecodeCodeBase(s);
    if '/' in p {
      var i :| 0 <= i < |p| && p[i] == '/';
      assert d[i] == '\\';
    }
  }

  /** The default value of `HKCR\{name}\CLSID`, as text, if present. */
  function FindAddinGuid(r: Reg, name: string): Option<string> {
    match Value(r, At(ClassesRoot, LookupKeyName(name)), "")
    case None => None
    case Some(v) => Some(ToText(v))
  }

  /** A non-empty `CodeBase` of the GUID's in-process server, as text. */
  function CodeBaseOf(r: Reg, root: string, guid: string): Option<string> {
    match Value(r, At(ClassesRoot, InprocKeyName(root, guid)), "CodeBase")
    case None => None
    case Some(v) => if ToText(v) == "" then None else Some(ToText(v))
  }

  /** The DLL path: the 64-bit registration's `CodeBase` if there is one, else
      the WOW64 one, else null. */
  function FindDllPath(r: Reg, guid: string): (p: Option<string>)
    ensures CodeBaseOf(r, ClsidRoot, guid).Some? ==> p == Some(DecodeCodeBase(CodeBaseOf(r, ClsidRoot, guid).value))
    ensures CodeBaseOf(r, ClsidRoot, guid).None? ==>
      p == if CodeBaseOf(r, Wow64ClsidRoot, guid).Some? then Some(DecodeCodeBase(CodeBaseOf(r, Wow64ClsidRoot, guid).value)) else None
  {
    match CodeBaseOf(r, ClsidRoot, guid)
    case Some(c) => Some(DecodeCodeBase(c))
    case None =>
      match CodeBaseOf(r, Wow64ClsidRoot, guid)
      case Some(c) => Some(DecodeCodeBase(c))
      case None => None
  }

  function TextOr(r: Reg, l: Loc, n: string, default: string): string {
    match Value(r, l, n)
    case None => default
    case Some(v) => ToText(v)
  }

  /** The record read from the add-in key `name` once its LoadBehavior is `lb`. */
  function EntryWith(r: Reg, name: string, lb: int): (d: AddinData)
    ensures d.name == name && d.loadBehavior == lb && (d.isEnabled <==> lb == 3)
  {
    var l := Rel(AddinsLoc(), name);
    var d := AddinData(name, TextOr(r, l, "FriendlyName", name), TextOr(r, l, "Description", ""), Some(""), "", lb == 3, lb);
    var g := FindAddinGuid(r, name);
    if g.Some? && g.value != "" then d.(guid := g.value, dllPath := FindDllPath(r, g.value)) else d
  }

  /** The record `CreateAddinFromRegistry` builds from the existing add-in key
      `name`; None when its LoadBehavior does not convert to an integer. */
  function ReadEntry(r: Reg, name: string): (e: Option<AddinData>)
    ensures e.None? <==> Value(r, Rel(AddinsLoc(), name), "LoadBehavior").Some?
                         && ToInt32(Value(r, Rel(AddinsLoc(), name), "LoadBehavior").value).None?
    ensures e.Some? ==> e.value.name == name && (e.value.isEnabled <==> e.value.loadBehavior == 3)
  {
    var lb := match Value(r, Rel(AddinsLoc(), name), "LoadBehavior") case None => Some(0) case Some(v) => ToInt32(v);
    if lb.None? then None else Some(EntryWith(r, name, lb.value))
  }

  /** The record for sub-key `name`, if that key exists and reads. */
  function Entry(r: Reg, name: string): (e: Option<AddinData>)
    ensures e.Some? ==> Rel(AddinsLoc(), name) in r.keys && e.value.name == name
    ensures e.Some? ==> (e.value.isEnabled <==> e.value.loadBehavior == 3)
    ensures e.Some? && Value(r, Rel(AddinsLoc(), name), "FriendlyName").None? ==> e.value.friendlyName == name
    ensures e.Some? && Value(r, Rel(AddinsLoc(), name), "Description").None? ==> e.value.description == ""
    ensures e.Some? && Value(r, Rel(AddinsLoc(), name), "LoadBehavior").None? ==> e.value.loadBehavior == 0
    ensures e.None? <==>
      || Rel(AddinsLoc(), name) !in r.keys
      || (Value(r, Rel(AddinsLoc(), name), "LoadBehavior").Some?
          && ToInt32(Value(r, Rel(AddinsLoc(), name), "LoadBehavior").value).None?)
  {
    if Rel(AddinsLoc(), name) !in r.keys then None else ReadEntry(r, name)
  }

  /** The records for the sub-keys `names`, in order, one at most per name. */
  function ListEntries(r: Reg, names: seq<string>): (es: seq<AddinData>)
    ensures |es| <= |names|
    decreases |names|
  {
    if names == [] then []
    else
      var front := ListEntries(r, names[..|names| - 1]);
      match Entry(r, names[|names| - 1])
      case None => front
      case Some(d) => front + [d]
  }

  /** Every listed record comes from one of the names, and its enabled flag
      agrees with its LoadBehavior. */
  lemma {:induction false} ListEntriesNamed(r: Reg, names: seq<string>)
    ensures forall i :: 0 <= i < |ListEntries(r, names)| ==> ListEntries(r, names)[i].name in names
    ensures forall i :: 0 <= i < |ListEntries(r, names)| ==>
      (ListEntries(r, names)[i].isEnabled <==> ListEntries(r, names)[i].loadBehavior == 3)
    decreases |names|
  {
    if names != [] {
      var front := names[..|names| - 1];
      ListEntriesNamed(r, front);
      assert forall x :: x in front ==> x in names;
    }
  }

  /** What `GetInstalledAddins` returns: empty without the AddIns key, else
      one record per readable sub-key, in sub-key order. */
  function Listing(r: Reg): seq<AddinData> {
    if AddinsLoc() in r.keys then ListEntries(r, r.keys[AddinsLoc()]) else []
  }

  /** One more sub-key adds its record, if it reads. */
  lemma ListEntriesStep(r: Reg, names: seq<string>, i: int)
    requires 0 <= i < |names|
    ensures ListEntries(r, names[..i + 1])
         == ListEntries(r, names[..i]) + if Entry(r, names[i]).Some? then [Entry(r, names[i]).value] else []
  {
    assert names[..i + 1][..i] == names[..i];
  }

  lemma {:induction false} ListEntriesAppend(r: Reg, a: seq<string>, b: seq<string>)
    ensures ListEntries(r, a + b) == ListEntries(r, a) + ListEntries(r, b)
    decreases |b|
  {
    if b == [] {
      assert a + b == a;
    } else {
      var b' := b[..|b| - 1];
      assert (a + b)[..|a + b| - 1] == a + b';
      assert (a + b)[|a + b| - 1] == b[|b| - 1];
      ListEntriesAppend(r, a, b');
    }
  }

  /** The first record named `n` (`FirstOrDefault(a => a.Name == n)`). */
  function FirstByName(xs: seq<AddinData>, n: string): (f: Option<AddinData>)
    ensures f.Some? ==> f.value in xs && f.value.name == n
    ensures f.None? <==> forall i :: 0 <= i < |xs| ==> xs[i].name != n
    decreases |xs|
  {
    if xs == [] then None
    else if xs[0].name == n then Some(xs[0])
    else FirstByName(xs[1..], n)
  }

  lemma {:induction false} FirstByNameAppend(a: seq<AddinData>, b: seq<AddinData>, n: string)
    ensures FirstByName(a + b, n) == if FirstByName(a, n).Some? then FirstByName(a, n) else FirstByName(b, n)
    decreases |a|
  {
    if a == [] {
      assert a + b == b;
    } else {
      assert (a + b)[0] == a[0];
      assert (a + b)[1..] == a[1..] + b;
      FirstByNameAppend(a[1..], b, n);
    }
  }

  /** Looking a name up in the listing finds exactly that sub-key's record. */
  lemma {:induction false} FirstByNameListEntries(r: Reg, names: seq<string>, n: string)
    ensures FirstByName(ListEntries(r, names), n) == if n in names then Entry(r, n) else None
    decreases |names|
  {
    if names != [] {
      var front := names[..|names| - 1];
      var m := names[|names| - 1];
      assert names == front + [m];
      FirstByNameListEntries(r, front, n);
      ListEntriesAppend(r, front, [m]);
      assert [m][..0] == [];
      assert ListEntries(r, [m]) == (match Entry(r, m) case None => [] case Some(d) => [d]);
      FirstByNameAppend(ListEntries(r, front), ListEntries(r, [m]), n);
    }
  }

  /** A listed record belongs to a listed sub-key. */
  lemma ListingNames(r: Reg, i: int)
    requires 0 <= i < |Listing(r)|
    ensures AddinsLoc() in r.keys && Listing(r)[i].name in r.keys[AddinsLoc()]
  {
    ListEntriesNamed(r, r.keys[AddinsLoc()]);
  }

  // ----- writing -----

  /** One `CreateSubKey` followed by the `SetValue` calls on the new key. */
  datatype KeyWrite = KeyWrite(hive: Hive, name: string, values: seq<(string, RegValue)>)

  function Target(w: KeyWrite): Loc { At(w.hive, w.name) }

  /** The last value a list of `SetValue` calls gives the value name `n`. */
  function Written(vs: seq<(string, RegValue)>, n: string): Option<RegValue>
    decreases |vs|
  {
    if vs == [] then None
    else if vs[|vs| - 1].0 == n then Some(vs[|vs| - 1].1)
    else Written(vs[..|vs| - 1], n)
  }

  function SetAll(r: Reg, l: Loc, vs: seq<(string, RegValue)>): (r': Reg)
    ensures r'.keys == r.keys
    ensures ValuesOnKeys(r) ==> ValuesOnKeys(r')
    ensures forall k, n :: Value(r', k, n) == if k == l && l in r.keys && Written(vs, n).Some? then Written(vs, n) else Value(r, k, n)
    decreases |vs|
  {
    if vs == [] then r else Set(SetAll(r, l, vs[..|vs| - 1]), l, vs[|vs| - 1].0, vs[|vs| - 1].1)
  }

  lemma CreateKeepsValues(r: Reg, l: Loc, k: Loc, n: string)
    requires ValuesOnKeys(r)
    ensures Value(Create(r, l), k, n) == Value(r, k, n)
  {
  }

  /** A key write that goes through. */
  function ApplyWrite(r: Reg, w: KeyWrite): Reg {
    SetAll(Create(r, Target(w)), Target(w), w.values)
  }

  /** A key write leaves the written values at its target and nothing else changed. */
  lemma ApplyWriteValue(r: Reg, w: KeyWrite, k: Loc, n: string)
    requires ValuesOnKeys(r)
    ensures Value(ApplyWrite(r, w), k, n) == if k == Target(w) && Written(w.values, n).Some? then Written(w.values, n) else Value(r, k, n)
  {
    CreateKeepsValues(r, Target(w), k, n);
  }

  /** A key write creates its target and drops no key and no sub-key name. */
  lemma ApplyWriteGrows(r: Reg, w: KeyWrite)
    ensures Target(w) in ApplyWrite(r, w).keys
    ensures forall k :: k in r.keys ==> k in ApplyWrite(r, w).keys && forall x :: x in r.keys[k] ==> x in ApplyWrite(r, w).keys[k]
    ensures ValuesOnKeys(r) ==> ValuesOnKeys(ApplyWrite(r, w))
  {
  }

  /** A key write that fails when its hive refuses writes. */
  function WriteOp(r: Reg, denied: set<Hive>, w: KeyWrite): (Reg, Outcome<StoreError>) {
    if w.hive in denied then (r, Fail(Denied)) else (ApplyWrite(r, w), Pass)
  }

  /** Key writes in order, stopping at the first failure. */
  function RunWrites(r: Reg, denied: set<Hive>, ws: seq<KeyWrite>): (Reg, Outcome<StoreError>)
    decreases |ws|
  {
    if ws == [] then (r, Pass)
    else
      var (r1, o) := WriteOp(r, denied, ws[0]);
      if o.Fail? then (r1, o) else RunWrites(r1, denied, ws[1..])
  }

  lemma {:induction false} RunWritesAppend(r: Reg, denied: set<Hive>, a: seq<KeyWrite>, b: seq<KeyWrite>)
    ensures RunWrites(r, denied, a + b)
         == if RunWrites(r, denied, a).1.Fail? then RunWrites(r, denied, a)
            else RunWrites(RunWrites(r, denied, a).0, denied, b)
    decreases |a|
  {
    if a == [] {
      assert a + b == b;
    } else {
      assert (a + b)[0] == a[0];
      assert (a + b)[1..] == a[1..] + b;
      var (r1, o) := WriteOp(r, denied, a[0]);
      if o.Pass? {
        RunWritesAppend(r1, denied, a[1..], b);
      }
    }
  }

  /** One more write after a script. */
  lemma RunWritesSnoc(r: Reg, denied: set<Hive>, ws: seq<KeyWrite>, w: KeyWrite)
    ensures RunWrites(r, denied, ws + [w])
         == if RunWrites(r, denied, ws).1.Fail? then RunWrites(r, denied, ws) else WriteOp(RunWrites(r, denied, ws).0, denied, w)
  {
    RunWritesAppend(r, denied, ws, [w]);
    assert [w][1..] == [];
  }

  /** All of a script's writes, when none fails. */
  function WritesAll(r: Reg, ws: seq<KeyWrite>): Reg
    decreases |ws|
  {
    if ws == [] then r else WritesAll(ApplyWrite(r, ws[0]), ws[1..])
  }

  /** A script drops no key and no sub-key name. */
  lemma {:induction false} WritesAllGrows(r: Reg, ws: seq<KeyWrite>, k: Loc, x: string)
    requires k in r.keys
    ensures k in WritesAll(r, ws).keys
    ensures x in r.keys[k] ==> x in WritesAll(r, ws).keys[k]
    decreases |ws|
  {
    if ws != [] {
      ApplyWriteGrows(r, ws[0]);
      WritesAllGrows(ApplyWrite(r, ws[0]), ws[1..], k, x);
    }
  }

  /** The value a script leaves at `(k, n)`: its last write there. */
  function WrittenAt(ws: seq<KeyWrite>, k: Loc, n: string): Option<RegValue>
    decreases |ws|
  {
    if ws == [] then None
    else
      var w := ws[|ws| - 1];
      if Target(w) == k && Written(w.values, n).Some? then Written(w.values, n)
      else WrittenAt(ws[..|ws| - 1], k, n)
  }

  lemma {:induction false} RunWritesAllowed(r: Reg, denied: set<Hive>, ws: seq<KeyWrite>)
    requires forall i :: 0 <= i < |ws| ==> ws[i].hive !in denied
    ensures RunWrites(r, denied, ws) == (WritesAll(r, ws), Pass)
    decreases |ws|
  {
    if ws != [] {
      RunWritesAllowed(ApplyWrite(r, ws[0]), denied, ws[1..]);
    }
  }

  /** After a script, every value is the script's last write to it, or what it was. */
  lemma {:induction false} WritesAllValue(r: Reg, ws: seq<KeyWrite>, k: Loc, n: string)
    requires ValuesOnKeys(r)
    ensures Value(WritesAll(r, ws), k, n) == if WrittenAt(ws, k, n).Some? then WrittenAt(ws, k, n) else Value(r, k, n)
    decreases |ws|
  {
    if ws != [] {
      var r1 := ApplyWrite(r, ws[0]);
      ApplyWriteOnKeys(r, ws[0]);
      WritesAllValue(r1, ws[1..], k, n);
      ApplyWriteValue(r, ws[0], k, n);
      WrittenAtFirst(ws, k, n);
    }
  }

  lemma ApplyWriteOnKeys(r: Reg, w: KeyWrite)
    requires ValuesOnKeys(r)
    ensures ValuesOnKeys(ApplyWrite(r, w))
  {
    ApplyWriteGrows(r, w);
  }

  /** The last write of a script is in its tail, or else it is the first write. */
  lemma WrittenAtFirst(ws: seq<KeyWrite>, k: Loc, n: string)
    requires ws != []
    ensures WrittenAt(ws, k, n)
         == if WrittenAt(ws[1..], k, n).Some? then WrittenAt(ws[1..], k, n)
            else if Target(ws[0]) == k && Written(ws[0].values, n).Some? then Written(ws[0].values, n)
            else None
  {
    assert ws == [ws[0]] + ws[1..];
    WrittenAtAppend([ws[0]], ws[1..], k, n);
    assert [ws[0]][..0] == [];
  }

  lemma {:induction false} WrittenAtAppend(a: seq<KeyWrite>, b: seq<KeyWrite>, k: Loc, n: string)
    ensures WrittenAt(a + b, k, n) == if WrittenAt(b, k, n).Some? then WrittenAt(b, k, n) else WrittenAt(a, k, n)
    decreases |b|
  {
    if b == [] {
      assert a + b == a;
    } else {
      var b' := b[..|b| - 1];
      assert (a + b)[..|a + b| - 1] == a + b';
      assert (a + b)[|a + b| - 1] == b[|b| - 1];
      WrittenAtAppend(a, b', k, n);
    }
  }

  /** A script none of whose writes targets `k` leaves `k`'s values alone. */
  lemma {:induction false} NotTargeted(ws: seq<KeyWrite>, k: Loc, n: string)
    requires forall i :: 0 <= i < |ws| ==> Target(ws[i]) != k
    ensures WrittenAt(ws, k, n) == None
    decreases |ws|
  {
    if ws != [] {
      NotTargeted(ws[..|ws| - 1], k, n);
    }
  }

  lemma SetAllWellFormed(r: Reg, l: Loc, vs: seq<(string, RegValue)>)
    requires WellFormed(r)
    ensures WellFormed(SetAll(r, l, vs))
    decreases |vs|
  {
    if vs != [] {
      SetAllWellFormed(r, l, vs[..|vs| - 1]);
      SetWellFormed(SetAll(r, l, vs[..|vs| - 1]), l, vs[|vs| - 1].0, vs[|vs| - 1].1);
    }
  }

  lemma ApplyWriteWellFormed(r: Reg, w: KeyWrite)
    requires WellFormed(r)
    ensures WellFormed(ApplyWrite(r, w))
  {
    CreateWellFormed(r, Target(w));
    SetAllWellFormed(Create(r, Target(w)), Target(w), w.values);
  }

  lemma {:induction false} RunWritesWellFormed(r: Reg, denied: set<Hive>, ws: seq<KeyWrite>)
    requires WellFormed(r)
    ensures WellFormed(RunWrites(r, denied, ws).0)
    decreases |ws|
  {
    if ws != [] && ws[0].hive !in denied {
      ApplyWriteWellFormed(r, ws[0]);
      RunWritesWellFormed(ApplyWrite(r, ws[0]), denied, ws[1..]);
    }
  }

  // ----- the registration scripts -----

  /** `AddIns\{name}` with FriendlyName, Description and LoadBehavior 3. */
  function AddinsWrite(name: string, friendlyName: string, description: string): KeyWrite {
    KeyWrite(CurrentUser, AddinKeyName(name),
      [("FriendlyName", Sz(friendlyName)), ("Description", Sz(description)), ("LoadBehavior", DWord(3))])
  }

  function AppIdWrite(guid: string): KeyWrite {
    KeyWrite(ClassesRoot, AppIdRoot + "\\" + guid, [("DllSurrogate", Sz(""))])
  }

  function ClsidKeyWrite(guid: string, progId: string): KeyWrite {
    KeyWrite(ClassesRoot, ClsidRoot + "\\" + guid, [("", Sz(progId + ".AddIn")), ("AppID", Sz(guid))])
  }

  /** The in-process server: the .NET runtime host loading the DLL at its `CodeBase`. */
  function InprocWrite(guid: string, progId: string, dllPath: string): KeyWrite {
    KeyWrite(ClassesRoot, InprocKeyName(ClsidRoot, guid),
      [ ("", Sz(InprocServer)),
        ("ThreadingModel", Sz(ThreadingModel)),
        ("CodeBase", Sz(EncodeCodeBase(dllPath))),
        ("Class", Sz(progId + ".AddIn")),
        ("RuntimeVersion", Sz(RuntimeVersion)) ])
  }

  function ProgIdWrite(guid: string, progId: string): KeyWrite {
    KeyWrite(ClassesRoot, ClsidRoot + "\\" + guid + "\\" + "ProgID", [("", Sz(progId))])
  }

  /** `RegisterCLSID`: the AppID key, the CLSID key, its in-process server
      and its ProgID. */
  function ClsidWrites(guid: string, progId: string, dllPath: string): seq<KeyWrite> {
    [AppIdWrite(guid), ClsidKeyWrite(guid, progId), InprocWrite(guid, progId, dllPath), ProgIdWrite(guid, progId)]
  }

  /** The `HKCR\{name}\CLSID` lookup entry naming the GUID. */
  function LookupWrite(name: string, guid: string): KeyWrite {
    KeyWrite(ClassesRoot, LookupKeyName(name), [("", Sz(guid))])
  }

  /** What `RegistryService.RegisterAddin` writes. */
  function ServiceRegisterWrites(name: string, friendlyName: string, description: string, dllPath: string, guid: string): seq<KeyWrite> {
    [AddinsWrite(name, friendlyName, description)] + ClsidWrites(guid, name, dllPath) + [LookupWrite(name, guid)]
  }

  /** What `RegistryManager.RegisterAddin` writes: no lookup entry. */
  function ManagerRegisterWrites(name: string, friendlyName: string, description: string, dllPath: string, guid: string): seq<KeyWrite> {
    [AddinsWrite(name, friendlyName, description)] + ClsidWrites(guid, name, dllPath)
  }

  /** The keys `RegisterCLSID` writes all lie under the AppID or CLSID hierarchy of HKCR. */
  lemma ClsidTargetsStart(guid: string, progId: string, dllPath: string, i: int)
    requires 0 <= i < 4
    ensures var t := Target(ClsidWrites(guid, progId, dllPath)[i]);
      t.hive == ClassesRoot && t.path != [] && (t.path[0] == AppIdRoot || t.path[0] == ClsidRoot)
  {
    if i == 0 {
      PathOfSegment(AppIdRoot);
      PathOfJoin(AppIdRoot, guid);
    } else {
      PathOfSegment(ClsidRoot);
      PathOfJoin(ClsidRoot, guid);
      if i == 2 {
        PathOfJoin(ClsidRoot + "\\" + guid, "InprocServer32");
      } else if i == 3 {
        PathOfJoin(ClsidRoot + "\\" + guid, "ProgID");
      }
    }
  }

  /** The AddIns write lists the add-in under a single-segment name. */
  lemma AddinsWriteLists(r: Reg, name: string, fn: string, de: string)
    requires WellFormed(r) && Segment(name)
    ensures var r' := ApplyWrite(r, AddinsWrite(name, fn, de));
      AddinsLoc() in r'.keys && name in r'.keys[AddinsLoc()]
  {
    var l := Target(AddinsWrite(name, fn, de));
    AddinKeyIsChild(name);
    ParentChild(l);
    assert Parent(l) == AddinsLoc();
    var c := Create(r, l);
    if l in r.keys {
      assert Parent(l) in r.keys && Last(l) in r.keys[Parent(l)];
    }
    assert AddinsLoc() in c.keys && name in c.keys[AddinsLoc()];
    assert ApplyWrite(r, AddinsWrite(name, fn, de)) == SetAll(c, l, AddinsWrite(name, fn, de).values);
  }

  /** The AddIns write gives the add-in key its three values. */
  lemma AddinsWriteValues(name: string, fn: string, de: string)
    ensures var vs := AddinsWrite(name, fn, de).values;
      && Written(vs, "FriendlyName") == Some(Sz(fn))
      && Written(vs, "Description") == Some(Sz(de))
      && Written(vs, "LoadBehavior") == Some(DWord(3))
  {
    var vs := AddinsWrite(name, fn, de).values;
    assert vs[2].0 == "LoadBehavior";
    assert Written(vs, "LoadBehavior") == Some(DWord(3));
    assert vs[..2] == [("FriendlyName", Sz(fn)), ("Description", Sz(de))];
    assert "LoadBehavior" != "Description";
    assert Written(vs, "Description") == Written(vs[..2], "Description");
    assert Written(vs, "Description") == Some(Sz(de));
    assert "LoadBehavior"[0] != "FriendlyName"[0];
    assert "Description" != "FriendlyName";
    assert Written(vs, "FriendlyName") == Written(vs[..2], "FriendlyName");
    assert vs[..2][..1] == [("FriendlyName", Sz(fn))];
    assert Written(vs[..2], "FriendlyName") == Written(vs[..2][..1], "FriendlyName");
  }

  /** The in-process server write leaves the encoded `CodeBase`. */
  lemma InprocCodeBase(guid: string, progId: string, dllPath: string)
    ensures Written(InprocWrite(guid, progId, dllPath).values, "CodeBase") == Some(Sz(EncodeCodeBase(dllPath)))
  {
    var vs := InprocWrite(guid, progId, dllPath).values;
    assert vs[4].0 == "RuntimeVersion";
    assert Written(vs, "CodeBase") == Written(vs[..4], "CodeBase");
    assert vs[..4][3].0 == "Class";
    assert Written(vs[..4], "CodeBase") == Written(vs[..4][..3], "CodeBase");
    assert vs[..4][..3] == vs[..3];
    assert vs[..3][2] == ("CodeBase", Sz(EncodeCodeBase(dllPath)));
  }

  /** A listed add-in key holding a friendly name, a description and
      LoadBehavior 3 reads back with those. */
  lemma ListedWithValues(r: Reg, name: string, fn: string, de: string)
    requires AddinsLoc() in r.keys && name in r.keys[AddinsLoc()]
    requires Rel(AddinsLoc(), name) in r.keys
    requires Value(r, Rel(AddinsLoc(), name), "FriendlyName") == Some(Sz(fn))
    requires Value(r, Rel(AddinsLoc(), name), "Description") == Some(Sz(de))
    requires Value(r, Rel(AddinsLoc(), name), "LoadBehavior") == Some(DWord(3))
    ensures FirstByName(Listing(r), name) == Some(EntryWith(r, name, 3))
    ensures EntryWith(r, name, 3).friendlyName == fn && EntryWith(r, name, 3).description == de
  {
    assert Entry(r, name) == Some(EntryWith(r, name, 3));
    FirstByNameListEntries(r, r.keys[AddinsLoc()], name);
  }

  /** A value the first write of a script leaves survives the rest of the
      script when no later write targets its key. */
  lemma ScriptKeepsFirst(r: Reg, ws: seq<KeyWrite>, l: Loc, n: string, v: RegValue)
    requires ValuesOnKeys(r) && ws != []
    requires Value(ApplyWrite(r, ws[0]), l, n) == Some(v)
    requires forall i :: 1 <= i < |ws| ==> Target(ws[i]) != l
    ensures Value(WritesAll(r, ws), l, n) == Some(v)
  {
    var tail := ws[1..];
    ApplyWriteGrows(r, ws[0]);
    assert forall i :: 0 <= i < |tail| ==> Target(tail[i]) == Target(ws[i + 1]);
    NotTargeted(tail, l, n);
    WritesAllValue(ApplyWrite(r, ws[0]), tail, l, n);
  }

  /** A script that starts with the AddIns write and otherwise writes only
      under HKCR lists the add-in with the friendly name and description it
      was given and LoadBehavior 3. */
  lemma ScriptListsAddin(r: Reg, ws: seq<KeyWrite>, name: string, fn: string, de: string)
    requires WellFormed(r) && Segment(name)
    requires ws != [] && ws[0] == AddinsWrite(name, fn, de)
    requires forall i :: 1 <= i < |ws| ==> ws[i].hive == ClassesRoot
    ensures var r' := WritesAll(r, ws);
      && FirstByName(Listing(r'), name) == Some(EntryWith(r', name, 3))
      && EntryWith(r', name, 3).friendlyName == fn
      && EntryWith(r', name, 3).description == de
  {
    var r1 := ApplyWrite(r, ws[0]);
    var r' := WritesAll(r, ws);
    assert WritesAll(r, ws) == WritesAll(r1, ws[1..]);
    AddinsWriteLists(r, name, fn, de);
    AddinsWriteValues(name, fn, de);
    AddinKeyIsChild(name);
    var l := Rel(AddinsLoc(), name);
    assert Target(ws[0]) == l;
    ApplyWriteGrows(r, ws[0]);
    WritesAllGrows(r1, ws[1..], AddinsLoc(), name);
    WritesAllGrows(r1, ws[1..], l, name);
    ApplyWriteValue(r, ws[0], l, "FriendlyName");
    ApplyWriteValue(r, ws[0], l, "Description");
    ApplyWriteValue(r, ws[0], l, "LoadBehavior");
    ScriptKeepsFirst(r, ws, l, "FriendlyName", Sz(fn));
    ScriptKeepsFirst(r, ws, l, "Description", Sz(de));
    ScriptKeepsFirst(r, ws, l, "LoadBehavior", DWord(3));
    ListedWithValues(r', name, fn, de);
  }

  /** The service's script ends with the lookup entry and writes the encoded
      `CodeBase` last in the in-process server. */
  lemma ServiceScriptWrites(name: string, fn: string, de: string, path: string, guid: string)
    ensures var ws := ServiceRegisterWrites(name, fn, de, path, guid);
      && WrittenAt(ws, At(ClassesRoot, LookupKeyName(name)), "") == Some(Sz(guid))
      && WrittenAt(ws, At(ClassesRoot, InprocKeyName(ClsidRoot, guid)), "CodeBase") == Some(Sz(EncodeCodeBase(path)))
  {
    var ws := ServiceRegisterWrites(name, fn, de, path, guid);
    var ip := At(ClassesRoot, InprocKeyName(ClsidRoot, guid));
    var ipw := InprocWrite(guid, name, path);
    var lw := LookupWrite(name, guid);
    var pw := ProgIdWrite(guid, name);
    InprocCodeBase(guid, name, path);
    assert |ws| == 6 && ws[5] == lw;
    assert Written(lw.values, "") == Some(Sz(guid));
    assert Written(lw.values, "CodeBase") == None;
    assert Written(pw.values, "CodeBase") == None;
    assert ws[..5] == [AddinsWrite(name, fn, de), AppIdWrite(guid), ClsidKeyWrite(guid, name), ipw, pw];
    assert WrittenAt(ws, ip, "CodeBase") == WrittenAt(ws[..5], ip, "CodeBase");
    assert ws[..5][..4] == [AddinsWrite(name, fn, de), AppIdWrite(guid), ClsidKeyWrite(guid, name), ipw];
    assert WrittenAt(ws[..5], ip, "CodeBase") == WrittenAt(ws[..5][..4], ip, "CodeBase");
    assert WrittenAt(ws[..5][..4], ip, "CodeBase") == Some(Sz(EncodeCodeBase(path)));
  }

  /** `RegisterCLSID` writes only under HKCR. */
  lemma ClsidWritesHive(guid: string, progId: string, dllPath: string)
    ensures var cs := ClsidWrites(guid, progId, dllPath);
      |cs| == 4 && forall i :: 0 <= i < |cs| ==> cs[i].hive == ClassesRoot
  {
  }

  /** Both registration scripts write the AddIns key first and then only under HKCR. */
  lemma RegisterWritesHives(ws: seq<KeyWrite>, name: string, fn: string, de: string, path: string, guid: string)
    requires ws == ServiceRegisterWrites(name, fn, de, path, guid) || ws == ManagerRegisterWrites(name, fn, de, path, guid)
    ensures ws != [] && ws[0] == AddinsWrite(name, fn, de)
    ensures forall i :: 1 <= i < |ws| ==> ws[i].hive == ClassesRoot
  {
    var cs := ClsidWrites(guid, name, path);
    ClsidWritesHive(guid, name, path);
    forall i | 1 <= i < |ws|
      ensures ws[i].hive == ClassesRoot
    {
      if i <= 4 {
        assert ws[i] == cs[i - 1];
      } else {
        assert ws[i] == LookupWrite(name, guid);
      }
    }
  }

  /** A script whose first write goes to HKCU and the rest to HKCR runs to
      completion when neither hive refuses writes. */
  lemma RunRegisterAllowed(r: Reg, denied: set<Hive>, ws: seq<KeyWrite>)
    requires CurrentUser !in denied && ClassesRoot !in denied
    requires ws != [] && ws[0].hive == CurrentUser
    requires forall i :: 1 <= i < |ws| ==> ws[i].hive == ClassesRoot
    ensures RunWrites(r, denied, ws) == (WritesAll(r, ws), Pass)
  {
    RunWritesAllowed(r, denied, ws);
  }

  /** A lookup entry naming a GUID whose in-process server holds an encoded
      `CodeBase` gives the record that GUID and the decoded path. */
  lemma EntryWithGuid(r: Reg, name: string, lb: int, guid: string, path: string)
    requires guid != ""
    requires Value(r, At(ClassesRoot, LookupKeyName(name)), "") == Some(Sz(guid))
    requires Value(r, At(ClassesRoot, InprocKeyName(ClsidRoot, guid)), "CodeBase") == Some(Sz(EncodeCodeBase(path)))
    requires '/' !in path && !Contains(ReplaceChar(path, '\\', '/'), "file:///")
    ensures EntryWith(r, name, lb).guid == guid && EntryWith(r, name, lb).dllPath == Some(path)
  {
    assert FindAddinGuid(r, name) == Some(guid);
    assert EncodeCodeBase(path) != "";
    assert CodeBaseOf(r, ClsidRoot, guid) == Some(EncodeCodeBase(path));
    CodeBaseRoundTrip(path);
  }

  /** Without a lookup entry the record has no GUID and an empty DLL path. */
  lemma EntryWithoutGuid(r: Reg, name: string, lb: int)
    requires Value(r, At(ClassesRoot, LookupKeyName(name)), "") == None
    ensures EntryWith(r, name, lb).guid == "" && EntryWith(r, name, lb).dllPath == Some("")
  {
  }

  /** Registration then listing, for `RegistryService`: the add-in reads back
      with the name, friendly name, description, GUID and DLL path it was
      registered with, LoadBehavior 3 and enabled. */
  lemma ServiceRegisterRoundTrip(r: Reg, denied: set<Hive>, name: string, fn: string, de: string, path: string, guid: string)
    requires WellFormed(r) && CurrentUser !in denied && ClassesRoot !in denied
    requires Segment(name) && guid != ""
    requires '/' !in path && !Contains(ReplaceChar(path, '\\', '/'), "file:///")
    ensures RunWrites(r, denied, ServiceRegisterWrites(name, fn, de, path, guid)).1 == Pass
    ensures FirstByName(Listing(RunWrites(r, denied, ServiceRegisterWrites(name, fn, de, path, guid)).0), name)
         == Some(AddinData(name, fn, de, Some(path), guid, true, 3))
  {
    var ws := ServiceRegisterWrites(name, fn, de, path, guid);
    RegisterWritesHives(ws, name, fn, de, path, guid);
    RunRegisterAllowed(r, denied, ws);
    ScriptListsAddin(r, ws, name, fn, de);
    var r' := WritesAll(r, ws);
    ServiceScriptWrites(name, fn, de, path, guid);
    WritesAllValue(r, ws, At(ClassesRoot, LookupKeyName(name)), "");
    WritesAllValue(r, ws, At(ClassesRoot, InprocKeyName(ClsidRoot, guid)), "CodeBase");
    EntryWithGuid(r', name, 3, guid, path);
    var d := EntryWith(r', name, 3);
    assert d == AddinData(name, fn, de, Some(path), guid, true, 3);
  }

  /** `RegisterCLSID` never writes the lookup entry of a name other than AppID or CLSID. */
  lemma ManagerScriptSkipsLookup(name: string, fn: string, de: string, path: string, guid: string)
    requires Segment(name) && name != AppIdRoot && name != ClsidRoot
    ensures WrittenAt(ManagerRegisterWrites(name, fn, de, path, guid), At(ClassesRoot, LookupKeyName(name)), "") == None
  {
    var ws := ManagerRegisterWrites(name, fn, de, path, guid);
    var lk := At(ClassesRoot, LookupKeyName(name));
    LookupUnderTop(name);
    forall i | 0 <= i < |ws|
      ensures Target(ws[i]) != lk
    {
      if i > 0 {
        assert ws[i] == ClsidWrites(guid, name, path)[i - 1];
        ClsidTargetsStart(guid, name, path, i - 1);
      }
    }
    NotTargeted(ws, lk, "");
  }

  /** Registration then listing, for `RegistryManager`: without the lookup
      entry the add-in reads back with no GUID and an empty DLL path. */
  lemma ManagerRegisterReadsNoGuid(r: Reg, denied: set<Hive>, name: string, fn: string, de: string, path: string, guid: string)
    requires WellFormed(r) && CurrentUser !in denied && ClassesRoot !in denied
    requires Segment(name) && name != AppIdRoot && name != ClsidRoot
    requires Value(r, At(ClassesRoot, LookupKeyName(name)), "") == None
    ensures RunWrites(r, denied, ManagerRegisterWrites(name, fn, de, path, guid)).1 == Pass
    ensures FirstByName(Listing(RunWrites(r, denied, ManagerRegisterWrites(name, fn, de, path, guid)).0), name)
         == Some(AddinData(name, fn, de, Some(""), "", true, 3))
  {
    var ws := ManagerRegisterWrites(name, fn, de, path, guid);
    RegisterWritesHives(ws, name, fn, de, path, guid);
    RunRegisterAllowed(r, denied, ws);
    ScriptListsAddin(r, ws, name, fn, de);
    var r' := WritesAll(r, ws);
    ManagerScriptSkipsLookup(name, fn, de, path, guid);
    WritesAllValue(r, ws, At(ClassesRoot, LookupKeyName(name)), "");
    EntryWithoutGuid(r', name, 3);
    var d := EntryWith(r', name, 3);
    assert d == AddinData(name, fn, de, Some(""), "", true, 3);
  }

  // ----- enabling -----

  /** The LoadBehavior a `SetAddinEnabled` call writes. */
  function EnabledLoadBehavior(enabled: bool): int { if enabled then 3 else 0 }

  const AccessDeniedMessage: string := "Access denied to registry. Please run as administrator."
  const UpdatePrefix: string := "Error updating registry: "
  const RegisterPrefix: string := "Error registering add-in: "
  const UnregisterPrefix: string := "Error unregistering add-in: "

  /** The catch clauses: a refused write becomes the access-denied message,
      any other failure the prefix and the original message. */
  function Wrap(prefix: string, o: Outcome<StoreError>): (w: Outcome<Exception>)
    ensures w.Pass? <==> o.Pass?
  {
    match o
    case Pass => Pass
    case Fail(Denied) => Fail(InvalidOperation(AccessDeniedMessage))
    case Fail(e) => Fail(InvalidOperation(prefix + ErrorMessage(e)))
  }

  function NotFoundMessage(name: string): string { "Add-in registry key not found: " + name }

  /** The outcome of `SetAddinEnabled`: the missing-key exception, wrapped by
      the generic catch; the access-denied one; or success. */
  function SetEnabledOutcome(r: Reg, denied: set<Hive>, name: string): (o: Outcome<Exception>)
    ensures Rel(AddinsLoc(), name) !in r.keys ==> o == Fail(InvalidOperation(UpdatePrefix + NotFoundMessage(name)))
    ensures o.Pass? <==> Rel(AddinsLoc(), name) in r.keys && CurrentUser !in denied
  {
    var l := Rel(AddinsLoc(), name);
    if l !in r.keys then Fail(InvalidOperation(UpdatePrefix + NotFoundMessage(name)))
    else if CurrentUser in denied then Fail(InvalidOperation(AccessDeniedMessage))
    else Pass
  }

  /** A record depends only on its add-in key's values other than
      LoadBehavior and on values under HKCR. */
  lemma EntryWithFrame(r: Reg, r': Reg, name: string, lb: int)
    requires forall k: Loc, m: string :: (k.hive == ClassesRoot || (k == Rel(AddinsLoc(), name) && m != "LoadBehavior")) ==> Value(r', k, m) == Value(r, k, m)
    ensures EntryWith(r', name, lb) == EntryWith(r, name, lb)
  {
    var l := Rel(AddinsLoc(), name);
    assert "FriendlyName" != "LoadBehavior" && "Description" != "LoadBehavior";
    assert Value(r', l, "FriendlyName") == Value(r, l, "FriendlyName");
    assert Value(r', l, "Description") == Value(r, l, "Description");
    ClassesRootFrame(r, r', name, "");
    var g := FindAddinGuid(r, name);
    if g.Some? && g.value != "" {
      ClassesRootFrame(r, r', name, g.value);
    }
  }

  /** The lookup entry and both `CodeBase` values are read under HKCR. */
  lemma ClassesRootFrame(r: Reg, r': Reg, name: string, guid: string)
    requires forall k: Loc, m: string :: k.hive == ClassesRoot ==> Value(r', k, m) == Value(r, k, m)
    ensures FindAddinGuid(r', name) == FindAddinGuid(r, name)
    ensures FindDllPath(r', guid) == FindDllPath(r, guid)
  {
    assert CodeBaseOf(r', ClsidRoot, guid) == CodeBaseOf(r, ClsidRoot, guid);
    assert CodeBaseOf(r', Wow64ClsidRoot, guid) == CodeBaseOf(r, Wow64ClsidRoot, guid);
  }

  /** A record depends only on whether its add-in key exists, that key's
      values and values under HKCR. */
  lemma EntryFrame(r: Reg, r': Reg, name: string)
    requires Rel(AddinsLoc(), name) in r'.keys <==> Rel(AddinsLoc(), name) in r.keys
    requires forall k: Loc, m: string :: (k.hive == ClassesRoot || k == Rel(AddinsLoc(), name)) ==> Value(r', k, m) == Value(r, k, m)
    ensures Entry(r', name) == Entry(r, name)
  {
    var l := Rel(AddinsLoc(), name);
    assert Value(r', l, "LoadBehavior") == Value(r, l, "LoadBehavior");
    EntryWithFrame(r, r', name, match Value(r, l, "LoadBehavior") case None => 0 case Some(v) => if ToInt32(v).Some? then ToInt32(v).value else 0);
  }

  /** After enabling or disabling, the add-in reads back with the new
      LoadBehavior and everything else as before, and every other add-in
      reads back unchanged. */
  lemma SetEnabledReadsBack(r: Reg, name: string, enabled: bool, other: string)
    requires Segment(name) && Segment(other) && other != name
    requires Rel(AddinsLoc(), name) in r.keys
    ensures var r' := Set(r, Rel(AddinsLoc(), name), "LoadBehavior", DWord(EnabledLoadBehavior(enabled)));
      && Entry(r', name) == Some(EntryWith(r, name, EnabledLoadBehavior(enabled)))
      && Entry(r', name).value.isEnabled == enabled
      && Entry(r', other) == Entry(r, other)
  {
    SetLoadBehaviorSelf(r, name, EnabledLoadBehavior(enabled));
    SetLoadBehaviorOther(r, name, EnabledLoadBehavior(enabled), other);
  }

  lemma SetLoadBehaviorSelf(r: Reg, name: string, lb: int)
    requires Rel(AddinsLoc(), name) in r.keys
    requires Int32Min <= lb <= Int32Max
    ensures Entry(Set(r, Rel(AddinsLoc(), name), "LoadBehavior", DWord(lb)), name) == Some(EntryWith(r, name, lb))
  {
    var r' := Set(r, Rel(AddinsLoc(), name), "LoadBehavior", DWord(lb));
    assert Entry(r', name) == Some(EntryWith(r', name, lb));
    EntryWithFrame(r, r', name, lb);
  }

  lemma SetLoadBehaviorOther(r: Reg, name: string, lb: int, other: string)
    requires Segment(name) && Segment(other) && other != name
    ensures Entry(Set(r, Rel(AddinsLoc(), name), "LoadBehavior", DWord(lb)), other) == Entry(r, other)
  {
    AddinKeyIsChild(name);
    AddinKeyIsChild(other);
    assert Child(AddinsLoc(), other) != Child(AddinsLoc(), name) by {
      assert Child(AddinsLoc(), other).path[|AddinsLoc().path|] == other;
    }
    EntryFrame(r, Set(r, Rel(AddinsLoc(), name), "LoadBehavior", DWord(lb)), other);
  }

  // ----- unregistering -----

  /** `DeleteSubKeyTree(name, false)` calls in order, stopping at the first failure. */
  function RunDeletes(r: Reg, denied: set<Hive>, ds: seq<(Hive, string)>): (Reg, Outcome<StoreError>)
    decreases |ds|
  {
    if ds == [] then (r, Pass)
    else
      var (r1, o) := DeleteTreeOp(r, denied, ds[0].0, ds[0].1);
      if o.Fail? then (r1, o) else RunDeletes(r1, denied, ds[1..])
  }

  /** The COM trees, deleted only for a non-empty GUID. */
  function ClsidDeletes(guid: string): seq<(Hive, string)> {
    if guid != "" then [(ClassesRoot, AppIdRoot + "\\" + guid), (ClassesRoot, ClsidRoot + "\\" + guid)] else []
  }

  /** What `RegistryManager.UnregisterAddin` deletes. */
  function ManagerUnregisterDeletes(name: string, guid: string): seq<(Hive, string)> {
    [(CurrentUser, AddinKeyName(name))] + ClsidDeletes(guid)
  }

  /** What `RegistryService.UnregisterAddin` deletes: also the lookup tree `HKCR\{name}`. */
  function ServiceUnregisterDeletes(name: string, guid: string): seq<(Hive, string)> {
    ManagerUnregisterDeletes(name, guid) + [(ClassesRoot, name)]
  }

  lemma RunDeletesWellFormed(r: Reg, denied: set<Hive>, ds: seq<(Hive, string)>)
    requires WellFormed(r)
    ensures WellFormed(RunDeletes(r, denied, ds).0)
    decreases |ds|
  {
    if ds != [] {
      DeleteTreeOpWellFormed(r, denied, ds[0].0, ds[0].1);
      RunDeletesWellFormed(DeleteTreeOp(r, denied, ds[0].0, ds[0].1).0, denied, ds[1..]);
    }
  }

  /** `n` is not among the AddIns key's sub-keys. */
  predicate Gone(r: Reg, n: string) {
    !(AddinsLoc() in r.keys && n in r.keys[AddinsLoc()])
  }

  /** A name that is gone is not listed. */
  lemma GoneNotListed(r: Reg, n: string)
    requires Gone(r, n)
    ensures forall i :: 0 <= i < |Listing(r)| ==> Listing(r)[i].name != n
  {
    if AddinsLoc() in r.keys {
      ListEntriesNamed(r, r.keys[AddinsLoc()]);
    }
  }

  /** Deleting never brings a name back. */
  lemma {:induction false} RunDeletesKeepGone(r: Reg, denied: set<Hive>, ds: seq<(Hive, string)>, n: string)
    requires Gone(r, n)
    ensures Gone(RunDeletes(r, denied, ds).0, n)
    decreases |ds|
  {
    if ds != [] {
      var (r1, o) := DeleteTreeOp(r, denied, ds[0].0, ds[0].1);
      assert Gone(r1, n);
      RunDeletesKeepGone(r1, denied, ds[1..], n);
    }
  }

  /** Deleting the add-in's own key, where writes are allowed, takes its name
      off the AddIns key. */
  lemma AddinDeleteGone(r: Reg, denied: set<Hive>, n: string)
    requires WellFormed(r) && CurrentUser !in denied
    ensures DeleteTreeOp(r, denied, CurrentUser, AddinKeyName(n)).1 == Pass
    ensures Gone(DeleteTreeOp(r, denied, CurrentUser, AddinKeyName(n)).0, n)
  {
    var l := At(CurrentUser, AddinKeyName(n));
    PathOfJoin(OfficeAddinsPath, n);
    AddinsLocAt();
    if !Gone(r, n) {
      ListedAreSegments(r, AddinsLoc(), n);
      AddinKeyIsChild(n);
      ParentChild(l);
      assert l in r.keys;
    }
  }

  /** Unregistering, by either class, where the current user's hive accepts
      writes, leaves the name unlisted, even when a later delete fails. */
  lemma UnregisterUnlists(r: Reg, denied: set<Hive>, name: string, guid: string, service: bool)
    requires WellFormed(r) && CurrentUser !in denied
    ensures var ds := if service then ServiceUnregisterDeletes(name, guid) else ManagerUnregisterDeletes(name, guid);
      forall i :: 0 <= i < |Listing(RunDeletes(r, denied, ds).0)| ==> Listing(RunDeletes(r, denied, ds).0)[i].name != name
  {
    var ds := if service then ServiceUnregisterDeletes(name, guid) else ManagerUnregisterDeletes(name, guid);
    AddinDeleteGone(r, denied, name);
    var r1 := DeleteTreeOp(r, denied, CurrentUser, AddinKeyName(name)).0;
    assert ds[0] == (CurrentUser, AddinKeyName(name));
    assert RunDeletes(r, denied, ds) == RunDeletes(r1, denied, ds[1..]);
    RunDeletesKeepGone(r1, denied, ds[1..], name);
    GoneNotListed(RunDeletes(r, denied, ds).0, name);
  }

  /** `RegistryManager.UnregisterAddin` leaves the lookup entry `HKCR\{name}\CLSID`
      as it was; `RegistryService.UnregisterAddin` removes it when it gets
      that far. */
  lemma UnregisterLookup(r: Reg, denied: set<Hive>, name: string, guid: string)
    requires WellFormed(r)
    requires Segment(name) && name != AppIdRoot && name != ClsidRoot
    ensures var lk := At(ClassesRoot, LookupKeyName(name));
      var r' := RunDeletes(r, denied, ManagerUnregisterDeletes(name, guid)).0;
      (lk in r'.keys <==> lk in r.keys) && Value(r', lk, "") == Value(r, lk, "")
    ensures var lk := At(ClassesRoot, LookupKeyName(name));
      RunDeletes(r, denied, ServiceUnregisterDeletes(name, guid)).1 == Pass ==>
        lk !in RunDeletes(r, denied, ServiceUnregisterDeletes(name, guid)).0.keys
  {
    var lk := At(ClassesRoot, LookupKeyName(name));
    var ms := ManagerUnregisterDeletes(name, guid);
    ManagerDeletesMissLookup(name, guid);
    DeletesKeep(r, denied, ms, lk);
    RunDeletesSplit(r, denied, ms, [(ClassesRoot, name)]);
    var rm := RunDeletes(r, denied, ms);
    RunDeletesWellFormed(r, denied, ms);
    if rm.1.Pass? {
      LookupTreeDelete(rm.0, denied, name);
    }
  }

  /** None of the manager's deletes covers a lookup entry. */
  lemma ManagerDeletesMissLookup(name: string, guid: string)
    requires Segment(name) && name != AppIdRoot && name != ClsidRoot
    ensures var ms := ManagerUnregisterDeletes(name, guid);
      forall i :: 0 <= i < |ms| ==> !Under(At(ClassesRoot, LookupKeyName(name)), At(ms[i].0, ms[i].1))
  {
    var lk := At(ClassesRoot, LookupKeyName(name));
    LookupUnderTop(name);
    GuidTreeStarts(AppIdRoot, guid);
    GuidTreeStarts(ClsidRoot, guid);
    var ms := ManagerUnregisterDeletes(name, guid);
    forall i | 0 <= i < |ms|
      ensures !Under(lk, At(ms[i].0, ms[i].1))
    {
      if i > 0 {
        assert ms[i] == (ClassesRoot, AppIdRoot + "\\" + guid) || ms[i] == (ClassesRoot, ClsidRoot + "\\" + guid);
      }
    }
  }

  /** `HKCR\{root}\{guid}` starts with the segment `root`. */
  lemma GuidTreeStarts(root: string, guid: string)
    requires Segment(root)
    ensures var t := At(ClassesRoot, root + "\\" + guid); t.path != [] && t.path[0] == root
  {
    PathOfJoin(root, guid);
    PathOfSegment(root);
  }

  /** Deleting the tree `HKCR\{name}` without failure leaves no lookup entry. */
  lemma LookupTreeDelete(r: Reg, denied: set<Hive>, name: string)
    requires WellFormed(r) && Segment(name)
    ensures RunDeletes(r, denied, [(ClassesRoot, name)]).1 == Pass ==>
      At(ClassesRoot, LookupKeyName(name)) !in RunDeletes(r, denied, [(ClassesRoot, name)]).0.keys
  {
    var lk := At(ClassesRoot, LookupKeyName(name));
    var top := At(ClassesRoot, name);
    LookupUnderTop(name);
    assert [(ClassesRoot, name)][1..] == [];
    assert RunDeletes(r, denied, [(ClassesRoot, name)]) == DeleteTreeOp(r, denied, ClassesRoot, name);
    if top !in r.keys {
      if lk in r.keys {
        AncestorsExist(r, lk, top.path);
      }
    } else if ClassesRoot !in denied {
      assert DeleteTreeOp(r, denied, ClassesRoot, name).0 == DeleteTree(r, top);
    }
  }

  /** The lookup entry `HKCR\{name}\CLSID` lies below `HKCR\{name}`. */
  lemma LookupUnderTop(name: string)
    requires Segment(name)
    ensures At(ClassesRoot, name).path == [name]
    ensures At(ClassesRoot, LookupKeyName(name)).path == [name, ClsidRoot]
    ensures Under(At(ClassesRoot, LookupKeyName(name)), At(ClassesRoot, name))
  {
    PathOfJoin(name, ClsidRoot);
    PathOfSegment(name);
    PathOfSegment(ClsidRoot);
    assert At(ClassesRoot, LookupKeyName(name)).path == [name, ClsidRoot];
  }

  /** Deletes that do not cover a key leave it and its values alone. */
  lemma {:induction false} DeletesKeep(r: Reg, denied: set<Hive>, ds: seq<(Hive, string)>, k: Loc)
    requires forall i :: 0 <= i < |ds| ==> !Under(k, At(ds[i].0, ds[i].1))
    ensures var r' := RunDeletes(r, denied, ds).0;
      (k in r'.keys <==> k in r.keys) && forall n :: Value(r', k, n) == Value(r, k, n)
    decreases |ds|
  {
    if ds != [] {
      var r1 := DeleteTreeOp(r, denied, ds[0].0, ds[0].1).0;
      assert (k in r1.keys <==> k in r.keys) && forall n :: Value(r1, k, n) == Value(r, k, n);
      DeletesKeep(r1, denied, ds[1..], k);
    }
  }

  lemma {:induction false} RunDeletesSplit(r: Reg, denied: set<Hive>, a: seq<(Hive, string)>, b: seq<(Hive, string)>)
    ensures RunDeletes(r, denied, a + b)
         == if RunDeletes(r, denied, a).1.Fail? then RunDeletes(r, denied, a)
            else RunDeletes(RunDeletes(r, denied, a).0, denied, b)
    decreases |a|
  {
    if a == [] {
      assert a + b == b;
    } else {
      assert (a + b)[0] == a[0];
      assert (a + b)[1..] == a[1..] + b;
      var (r1, o) := DeleteTreeOp(r, denied, a[0].0, a[0].1);
      if o.Pass? {
        RunDeletesSplit(r1, denied, a[1..], b);
      }
    }
  }

  // ----- the administrator probe -----

  const ProbeKeyName: string := "OneNoteAddinManager_Test"

  /** `IsRunningAsAdministrator`: create a scratch key under HKCR and delete it
      again; true only when both succeed. */
  function AdminProbe(r: Reg, denied: set<Hive>): (Reg, bool) {
    var (r1, o1) := CreateKeyOp(r, denied, ClassesRoot, ProbeKeyName);
    if o1.Fail? then (r1, false)
    else
      var (r2, o2) := DeleteKeyOp(r1, denied, ClassesRoot, ProbeKeyName);
      (r2, o2.Pass?)
  }

  /** Without a scratch key already present, the probe answers whether HKCR
      accepts writes and leaves the store exactly as it found it. */
  lemma AdminProbeRestores(r: Reg, denied: set<Hive>)
    requires WellFormed(r) && At(ClassesRoot, ProbeKeyName) !in r.keys
    ensures AdminProbe(r, denied) == (r, ClassesRoot !in denied)
  {
    if ClassesRoot !in denied {
      ProbeLoc();
      CreateDeleteLeaf(r, At(ClassesRoot, ProbeKeyName));
    }
  }

  /** The scratch key is a child of the HKCR root. */
  lemma ProbeLoc()
    ensures At(ClassesRoot, ProbeKeyName).path == [ProbeKeyName]
  {
    PathOfSegment(ProbeKeyName);
  }

  /** Creating a missing key whose parent exists and deleting it again
      restores the store. */
  lemma CreateDeleteLeaf(r: Reg, l: Loc)
    requires WellFormed(r) && l !in r.keys && |l.path| == 1
    ensures Create(r, l).keys[l] == []
    ensures DeleteTree(Create(r, l), l) == r
  {
    var root := Root(l.hive);
    assert Parent(l) == root;
    assert root in r.keys by {
      if l.hive == CurrentUser {} else {}
    }
    assert Child(root, Last(l)) == l;
    assert Last(l) !in r.keys[root];
    var r1 := Create(r, l);
    assert r1 == AddChild(r, l);
    forall k | k in r.keys && Under(k, l)
      ensures false
    {
      AncestorsExist(r, k, l.path);
    }
    DeleteLeafKeys(r, r1, l);
    DeleteLeafValues(r, r1, l);
  }

  lemma DeleteLeafValues(r: Reg, r1: Reg, l: Loc)
    requires |l.path| == 1 && ValuesOnKeys(r)
    requires forall k :: k in r.keys ==> !Under(k, l)
    requires r1.values == r.values
    ensures DeleteTree(r1, l).values == r.values
  {
    var r2 := DeleteTree(r1, l);
    assert forall q :: q in r.values ==> !Under(q.0, l);
    assert forall q :: q in r2.values <==> q in r.values;
  }

  lemma DeleteLeafKeys(r: Reg, r1: Reg, l: Loc)
    requires |l.path| == 1 && l !in r.keys && Root(l.hive) in r.keys
    requires Last(l) !in r.keys[Root(l.hive)]
    requires forall k :: k in r.keys ==> !Under(k, l)
    requires r1 == AddChild(r, l)
    ensures DeleteTree(r1, l).keys == r.keys
  {
    var root := Root(l.hive);
    assert Parent(l) == root;
    var r2 := DeleteTree(r1, l);
    assert forall k :: k in r2.keys <==> k in r.keys;
    assert r2.keys[root] == Remove(AppendNew(r.keys[root], Last(l)), Last(l));
    assert r2.keys[root] == r.keys[root] by {
      assert AppendNew(r.keys[root], Last(l)) == r.keys[root] + [Last(l)];
      RemoveAppended(r.keys[root], Last(l));
    }
    assert forall k :: k in r.keys ==> r2.keys[k] == r.keys[k];
  }

  lemma {:induction false} RemoveAppended(ks: seq<string>, n: string)
    requires n !in ks
    ensures Remove(ks + [n], n) == ks
    decreases |ks|
  {
    if ks == [] {
      assert Remove([n], n) == [] + Remove([], n);
    } else {
      assert (ks + [n])[0] == ks[0];
      assert (ks + [n])[1..] == ks[1..] + [n];
      RemoveAppended(ks[1..], n);
      assert [ks[0]] + ks[1..] == ks;
    }
  }
}
