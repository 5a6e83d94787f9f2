/** The add-in record shown by the manager and the registry views derived
    from it (Models/AddinInfo.cs). */
module AddinModel {
  import opened Wrappers
  import opened Strings

  /** The record's fields at one moment. `dllPath` is the only field the
      catalogue can leave null. */
  datatype AddinData = AddinData(
    name: string,
    friendlyName: string,
    description: string,
    dllPath: Option<string>,
    guid: string,
    isEnabled: bool,
    loadBehavior: int)

  /** The fields of a freshly constructed record: every string empty. */
  const Blank: AddinData := AddinData("", "", "", Some(""), "", false, 0)

  /** The observable record: each property setter stores its value and raises
      `PropertyChanged` with the property's name, which `raised` records. */
  class AddinInfo {
    var name: string
    var friendlyName: string
    var description: string
    var dllPath: Option<string>
    var guid: string
    var isEnabled: bool
    var loadBehavior: int
    var raised: seq<string>

    function Data(): AddinData
      reads this
    {
      AddinData(name, friendlyName, description, dllPath, guid, isEnabled, loadBehavior)
    }

    constructor ()
      ensures Data() == Blank && raised == []
    {
      name, friendlyName, description, dllPath, guid := "", "", "", Some(""), "";
      isEnabled, loadBehavior := false, 0;
      raised := [];
    }

    /** An object initializer: the fields as given, with the notifications it
        raises before anyone can listen left out. */
    constructor FromData(d: AddinData)
      ensures Data() == d && raised == []
    {
      name, friendlyName, description, dllPath, guid := d.name, d.friendlyName, d.description, d.dllPath, d.guid;
      isEnabled, loadBehavior := d.isEnabled, d.loadBehavior;
      raised := [];
    }

    method SetName(v: string)
      modifies this
      ensures Data() == old(Data()).(name := v)
      ensures raised == old(raised) + ["Name"]
    {
      name := v;
      raised := raised + ["Name"];
    }

    method SetFriendlyName(v: string)
      modifies this
      ensures Data() == old(Data()).(friendlyName := v)
      ensures raised == old(raised) + ["FriendlyName"]
    {
      friendlyName := v;
      raised := raised + ["FriendlyName"];
    }

    method SetDescription(v: string)
      modifies this
      ensures Data() == old(Data()).(description := v)
      ensures raised == old(raised) + ["Description"]
    {
      description := v;
      raised := raised + ["Description"];
    }

    method SetDllPath(v: Option<string>)
      modifies this
      ensures Data() == old(Data()).(dllPath := v)
      ensures raised == old(raised) + ["DllPath"]
    {
      dllPath := v;
      raised := raised + ["DllPath"];
    }

    method SetGuid(v: string)
      modifies this
      ensures Data() == old(Data()).(guid := v)
      ensures raised == old(raised) + ["Guid"]
    {
      guid := v;
      raised := raised + ["Guid"];
    }

    method SetIsEnabled(v: bool)
      modifies this
      ensures Data() == old(Data()).(isEnabled := v)
      ensures raised == old(raised) + ["IsEnabled"]
    {
      isEnabled := v;
      raised := raised + ["IsEnabled"];
    }

    method SetLoadBehavior(v: int)
      modifies this
      ensures Data() == old(Data()).(loadBehavior := v)
      ensures raised == old(raised) + ["LoadBehavior"]
    {
      loadBehavior := v;
      raised := raised + ["LoadBehavior"];
    }
  }

  /** The records' fields, in order. */
  function DataOf(xs: seq<AddinInfo>): (ds: seq<AddinData>)
    reads set x | x in xs
    ensures |ds| == |xs|
    ensures forall i :: 0 <= i < |xs| ==> ds[i] == xs[i].Data()
  {
    seq(|xs|, i reads set x | x in xs requires 0 <= i < |xs| => xs[i].Data())
  }

  lemma DataOfSnoc(xs: seq<AddinInfo>, x: AddinInfo)
    ensures DataOf(xs + [x]) == DataOf(xs) + [x.Data()]
  {
  }

  /** `list.Add(new AddinInfo { ... })`: one fresh record holding `d` at the end. */
  method AddRecord(xs: seq<AddinInfo>, d: AddinData) returns (ys: seq<AddinInfo>)
    ensures |ys| == |xs| + 1 && ys == xs + [ys[|xs|]]
    ensures fresh(ys[|xs|]) && ys[|xs|].raised == []
    ensures DataOf(ys) == old(DataOf(xs)) + [d]
  {
    ghost var before := DataOf(xs);
    var a := new AddinInfo.FromData(d);
    assert DataOf(xs) == before;
    DataOfSnoc(xs, a);
    ys := xs + [a];
  }

  // ----- derived views -----

  function Status(d: AddinData): (s: string)
    ensures s == "Enabled" || s == "Disabled"
    ensures s == "Enabled" <==> d.isEnabled
  {
    if d.isEnabled then "Enabled" else "Disabled"
  }

  const NotAvailable: string := "Not Available"
  const OfficeAddinPrefix: string := "HKEY_CURRENT_USER\\SOFTWARE\\Microsoft\\Office\\OneNote\\AddIns\\"
  const AppIdPrefix: string := "HKEY_CLASSES_ROOT\\AppID\\"
  const ClsidPrefix: string := "HKEY_CLASSES_ROOT\\CLSID\\"
  const ClassesRootPrefix: string := "HKEY_CLASSES_ROOT\\"

  function OfficeAddinRegistryPath(d: AddinData): (p: string)
    ensures StartsWith(p, OfficeAddinPrefix) && p[|OfficeAddinPrefix|..] == d.name
  {
    OfficeAddinPrefix + d.name
  }

  /** A GUID path, or "Not Available" for an add-in without a GUID. */
  function GuidPath(prefix: string, guid: string): (p: string)
    requires prefix != NotAvailable && StartsWith(prefix, "HKEY_")
    ensures p == NotAvailable <==> guid == ""
    ensures guid != "" ==> StartsWith(p, prefix) && p[|prefix|..] == guid
  {
    if guid != "" then
      assert (prefix + guid)[0] == 'H';
      prefix + guid
    else NotAvailable
  }

  function AppIdRegistryPath(d: AddinData): string {
    GuidPath(AppIdPrefix, d.guid)
  }

  function ClsidRegistryPath(d: AddinData): string {
    GuidPath(ClsidPrefix, d.guid)
  }

  function ProgIdRegistryPath(d: AddinData): (p: string)
    ensures StartsWith(p, ClassesRootPrefix) && p[|ClassesRootPrefix|..] == d.name
  {
    ClassesRootPrefix + d.name
  }

  /** The COM class name: the add-in name with ".AddIn" appended. */
  function ComClassName(d: AddinData): (c: string)
    ensures |c| == |d.name| + 6 && c[..|d.name|] == d.name && c[|d.name|..] == ".AddIn"
  {
    d.name + ".AddIn"
  }

  const ThreadingModel: string := "Both"
  const RuntimeVersion: string := "v4.0.30319"
  const InprocServer: string := "mscoree.dll"

  /** The LoadBehavior values Office documents. */
  predicate KnownLoadBehavior(n: int) {
    n == 0 || n == 1 || n == 2 || n == 3 || n == 8 || n == 9 || n == 16
  }

  const Explain0: string := "Disabled" + " - Add-in is not loaded"
  const Explain1: string := "Loaded once" + " - Add-in is loaded only on demand"
  const Explain2: string := "Loaded at startup" + " - Add-in is loaded when the application starts"
  const Explain3: string := "Loaded at startup and on demand" + " - Add-in is loaded at startup and remains loaded"
  const Explain8: string := "Connected on demand" + " - Add-in is loaded only when requested by the user"
  const Explain9: string := "Connected at startup" + " - Add-in is loaded at startup and connected"
  const Explain16: string := "Connected with first document" + " - Add-in is loaded when the first document is opened"
  const UnknownPrefix: string := "Unknown behavior ("

  function LoadBehaviorExplanation(n: int): string {
    match n
    case 0 => Explain0
    case 1 => Explain1
    case 2 => Explain2
    case 3 => Explain3
    case 8 => Explain8
    case 9 => Explain9
    case 16 => Explain16
    case _ => UnknownPrefix + IntToString(n) + ")"
  }

  /** The documented values, and only they, get a text of their own; every
      other value is reported with its number. */
  lemma LoadBehaviorExplained(n: int)
    ensures KnownLoadBehavior(n) <==> !StartsWith(LoadBehaviorExplanation(n), UnknownPrefix)
    ensures !KnownLoadBehavior(n) ==> LoadBehaviorExplanation(n) == UnknownPrefix + IntToString(n) + ")"
  {
    var e := LoadBehaviorExplanation(n);
    assert UnknownPrefix[0] == 'U';
    if KnownLoadBehavior(n) {
      match n
      case 0 => assert Explain0[0] == 'D';
      case 1 => assert Explain1[0] == 'L';
      case 2 => assert Explain2[0] == 'L';
      case 3 => assert Explain3[0] == 'L';
      case 8 => assert Explain8[0] == 'C';
      case 9 => assert Explain9[0] == 'C';
      case 16 => assert Explain16[0] == 'C';
    } else {
      assert e[..|UnknownPrefix|] == UnknownPrefix;
    }
  }

  /** One registry key the add-in needs, with the values it should hold, in
      the order they are listed. */
  datatype RegistryKeyInfo = RegistryKeyInfo(
    path: string,
    purpose: string,
    description: string,
    values: seq<(string, string)>)

  /** "key: value" pairs joined by "; ". */
  function ValuesText(k: RegistryKeyInfo): string {
    Join(Pairs(k.values), "; ")
  }

  function Pairs(vs: seq<(string, string)>): (ps: seq<string>)
    ensures |ps| == |vs|
    ensures forall i :: 0 <= i < |vs| ==> ps[i] == vs[i].0 + ": " + vs[i].1
  {
    seq(|vs|, i requires 0 <= i < |vs| => vs[i].0 + ": " + vs[i].1)
  }

  /** `ValuesText` lists the entries in order: one entry is printed alone, and
      two non-empty halves are printed with "; " between them. */
  lemma ValuesTextInOrder(a: seq<(string, string)>, b: seq<(string, string)>, p: string, pu: string, de: string)
    ensures ValuesText(RegistryKeyInfo(p, pu, de, [])) == ""
    ensures |a| == 1 ==> ValuesText(RegistryKeyInfo(p, pu, de, a)) == a[0].0 + ": " + a[0].1
    ensures a != [] && b != [] ==>
      ValuesText(RegistryKeyInfo(p, pu, de, a + b))
        == ValuesText(RegistryKeyInfo(p, pu, de, a)) + "; " + ValuesText(RegistryKeyInfo(p, pu, de, b))
  {
    if a != [] && b != [] {
      assert Pairs(a + b) == Pairs(a) + Pairs(b);
      JoinAppend(Pairs(a), Pairs(b), "; ");
    }
  }

  const NetCategoryGuid: string := "{62C8FE65-4EBB-45E7-B440-6E39B2CDBF29}"

  const OfficePurpose: string := "Office Add-in Registration"
  const AppIdPurpose: string := "AppID Registration"
  const ClsidPurpose: string := "CLSID Registration"
  const InprocPurpose: string := "In-Process Server Registration"
  const CategoryPurpose: string := ".NET Category Registration"
  const ProgIdPurpose: string := "Programmatic Identifier"
  const ProgIdClassPurpose: string := "ProgID Class Registration"

  const OfficeDescription: string := "Registers the add-in with OneNote. Contains LoadBehavior, FriendlyName, and Description."
  const ProgIdClassDescription: string := "Maps the friendly name to the CLSID. Allows creation by name instead of GUID."
  const AppIdDescription: string := "Registers the application ID for COM activation. DllSurrogate enables out-of-process activation."
  const DllSurrogateText: string := "(empty string) - Enables out-of-process activation"
  const ClsidDescription: string := "Registers the COM class ID. This is the main COM registration for the add-in."
  const InprocDescription: string := "Specifies how the COM object is loaded. Points to .NET runtime and the actual DLL."
  const InprocServerText: string := InprocServer + " - .NET Runtime host"
  const ThreadingModelText: string := ThreadingModel + " - Supports both STA and MTA"
  const RuntimeVersionText: string := RuntimeVersion + " - .NET Framework version"
  const CategoryDescription: string := "Identifies this as a .NET component. Required for .NET COM interop."
  const ProgIdDescription: string := "Human-readable name for the COM class. Used for CreateObject calls."

  /** The purposes of the keys that exist only for an add-in with a GUID. */
  predicate GuidPurpose(p: string) {
    p == AppIdPurpose || p == ClsidPurpose || p == InprocPurpose || p == CategoryPurpose || p == ProgIdPurpose
  }

  /** The five keys of an add-in's COM registration under its GUID. */
  function GuidKeys(d: AddinData): (ks: seq<RegistryKeyInfo>)
    requires d.guid != ""
    ensures |ks| == 5
    ensures ks[0].purpose == AppIdPurpose && ks[1].purpose == ClsidPurpose && ks[2].purpose == InprocPurpose
    ensures ks[3].purpose == CategoryPurpose && ks[4].purpose == ProgIdPurpose
    ensures ks[0].path == AppIdPrefix + d.guid && ks[1].path == ClsidPrefix + d.guid
    ensures ks[2].path == ks[1].path + "\\InprocServer32"
    ensures ks[3].path == ks[1].path + "\\Implemented Categories\\" + NetCategoryGuid
    ensures ks[4].path == ks[1].path + "\\ProgID"
  {
    var clsid := ClsidRegistryPath(d);
    [ RegistryKeyInfo(
        AppIdRegistryPath(d), AppIdPurpose,
        AppIdDescription,
        [ ("DllSurrogate", DllSurrogateText) ]),
      RegistryKeyInfo(
        clsid, ClsidPurpose,
        ClsidDescription,
        [ ("(Default)", ComClassName(d)), ("AppID", d.guid) ]),
      RegistryKeyInfo(
        clsid + "\\InprocServer32", InprocPurpose,
        InprocDescription,
        [ ("(Default)", InprocServerText),
          ("ThreadingModel", ThreadingModelText),
          ("CodeBase", if d.dllPath.Some? then d.dllPath.value else "Not set"),
          ("Class", ComClassName(d)),
          ("RuntimeVersion", RuntimeVersionText) ]),
      RegistryKeyInfo(
        clsid + "\\Implemented Categories\\" + NetCategoryGuid, CategoryPurpose,
        CategoryDescription,
        [ ("Category", ".NET Category") ]),
      RegistryKeyInfo(
        clsid + "\\ProgID", ProgIdPurpose,
        ProgIdDescription,
        [ ("(Default)", d.name) ]) ]
  }

  /** The two keys every add-in has are not COM keys. */
  lemma FixedPurposesAreNotGuidPurposes()
    ensures !GuidPurpose(OfficePurpose) && !GuidPurpose(ProgIdClassPurpose)
  {
    assert OfficePurpose[0] == 'O';
    assert AppIdPurpose[0] == 'A' && ClsidPurpose[0] == 'C' && InprocPurpose[0] == 'I';
    assert CategoryPurpose[0] == '.' && ProgIdPurpose[4] == 'r' && ProgIdClassPurpose[4] == 'I';
  }

  /** The keys the add-in needs, for display: the Office registration first,
      the ProgID class registration last, and the five COM keys between them
      exactly when the add-in has a GUID. */
  function RegistryKeys(d: AddinData): (ks: seq<RegistryKeyInfo>)
    ensures |ks| == if d.guid != "" then 7 else 2
    ensures ks[0].purpose == OfficePurpose && ks[0].path == OfficeAddinRegistryPath(d)
    ensures ks[|ks| - 1].purpose == ProgIdClassPurpose && ks[|ks| - 1].path == ProgIdRegistryPath(d)
    ensures forall i :: 0 <= i < |ks| && GuidPurpose(ks[i].purpose) ==> d.guid != ""
    ensures d.guid != "" ==> forall p :: GuidPurpose(p) ==> exists i :: 0 <= i < |ks| && ks[i].purpose == p
  {
    var office := RegistryKeyInfo(
      OfficeAddinRegistryPath(d), OfficePurpose,
      OfficeDescription,
      [ ("LoadBehavior", IntToString(d.loadBehavior) + " (" + LoadBehaviorExplanation(d.loadBehavior) + ")"),
        ("FriendlyName", d.friendlyName),
        ("Description", d.description) ]);
    var progIdClass := RegistryKeyInfo(
      ProgIdRegistryPath(d), ProgIdClassPurpose,
      ProgIdClassDescription,
      [ ("(Default)", ComClassName(d)), ("CLSID", d.guid) ]);
    FixedPurposesAreNotGuidPurposes();
    if d.guid == "" then [office, progIdClass]
    else
      var g := GuidKeys(d);
      var ks := [office] + g + [progIdClass];
      assert forall i :: 1 <= i < 6 ==> ks[i] == g[i - 1];
      assert forall p :: GuidPurpose(p) ==> exists i :: 0 <= i < |ks| && ks[i].purpose == p by {
        forall p | GuidPurpose(p)
          ensures exists i :: 0 <= i < |ks| && ks[i].purpose == p
        {
          if p == AppIdPurpose { assert ks[1].purpose == p; }
          else if p == ClsidPurpose { assert ks[2].purpose == p; }
          else if p == InprocPurpose { assert ks[3].purpose == p; }
          else if p == CategoryPurpose { assert ks[4].purpose == p; }
          else { assert ks[5].purpose == p; }
        }
      }
      ks
  }
}
