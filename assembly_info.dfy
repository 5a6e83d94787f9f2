/** The assembly texts of the DLL panel (OneNoteAddinManager.App/ViewModels/DllInfoViewModel.cs,
    `GetAssemblyVersion` to `GetProgId`). What reflection and
    `FileVersionInfo` report about the DLL is input data here. */
module AssemblyInfo {
  import opened Wrappers
  import opened Strings

  // ----- what reflection reports -----

  /** The flags of `PortableExecutableKinds`; the empty set is
      `NotAPortableExecutableImage`. */
  datatype PEKind = ILOnly | Required32Bit | PE32Plus | Unmanaged32Bit | Preferred32Bit

  /** `ImageFileMachine`: the named members, and any other code. */
  datatype Machine = I386 | AMD64 | IA64 | ARM | OtherMachine(code: int)

  /** One type of the assembly: what `GetTypes` reports about it, the names
      of the interfaces it implements, and its `ComVisible`, `Guid` and
      `ProgId` attributes when present. */
  datatype TypeFacts = TypeFacts(
    name: string,
    isClass: bool,
    isPublic: bool,
    isInterface: bool,
    interfaces: seq<string>,
    comVisible: Option<bool>,
    guid: Option<string>,
    progId: Option<string>)

  /** A loaded assembly: its version (null when it has none), its target
      framework attribute, its image runtime version, its types (or the
      message of the exception `GetTypes` throws), the PE kind and machine of
      its first module, and its assembly-level `ComVisible` and `Guid`. */
  datatype AssemblyFacts = AssemblyFacts(
    version: Option<string>,
    targetFramework: Option<string>,
    imageRuntimeVersion: string,
    types: Result<seq<TypeFacts>, string>,
    peKind: set<PEKind>,
    machine: Machine,
    comVisible: Option<bool>,
    guid: Option<string>)

  /** `FileVersionInfo`: the file version and company name, either null. */
  datatype VersionFacts = VersionFacts(fileVersion: Option<string>, companyName: Option<string>)

  const UnableToLoad: string := "Unable to load assembly"
  const NotSpecified: string := "Not specified"
  const ErrorPrefix: string := "Error: "

  // ----- version, framework, company -----

  /** The assembly version, "Unknown" when it has none. */
  function AssemblyVersionOf(assembly: Option<AssemblyFacts>): (text: string)
    ensures assembly.None? ==> text == UnableToLoad
    ensures assembly.Some? && assembly.value.version.None? ==> text == "Unknown"
    ensures assembly.Some? && assembly.value.version.Some? ==> text == assembly.value.version.value
  {
    match assembly
    case None => UnableToLoad
    case Some(a) => if a.version.Some? then a.version.value else "Unknown"
  }

  /** The file version, "Unknown" when it is null. */
  function FileVersionOf(versionInfo: Option<VersionFacts>): (text: string)
    ensures versionInfo.None? ==> text == "Unable to read version"
    ensures versionInfo.Some? && versionInfo.value.fileVersion.None? ==> text == "Unknown"
    ensures versionInfo.Some? && versionInfo.value.fileVersion.Some? ==> text == versionInfo.value.fileVersion.value
  {
    match versionInfo
    case None => "Unable to read version"
    case Some(v) => if v.fileVersion.Some? then v.fileVersion.value else "Unknown"
  }

  /** The target framework attribute, else the runtime the image was built for. */
  function TargetFrameworkOf(assembly: Option<AssemblyFacts>): (text: string)
    ensures assembly.None? ==> text == UnableToLoad
    ensures assembly.Some? && assembly.value.targetFramework.Some? ==> text == assembly.value.targetFramework.value
    ensures assembly.Some? && assembly.value.targetFramework.None? ==>
      StartsWith(text, ".NET Framework ") && text[|".NET Framework "|..] == assembly.value.imageRuntimeVersion
  {
    match assembly
    case None => UnableToLoad
    case Some(a) => if a.targetFramework.Some? then a.targetFramework.value else ".NET Framework " + a.imageRuntimeVersion
  }

  /** An empty company name counts as none. */
  function CompanyOf(versionInfo: Option<VersionFacts>): (text: string)
    ensures text != ""
    ensures versionInfo.None? ==> text == "Unable to read version info"
    ensures versionInfo.Some? && (versionInfo.value.companyName.None? || versionInfo.value.companyName == Some("")) ==> text == NotSpecified
    ensures versionInfo.Some? && versionInfo.value.companyName.Some? && versionInfo.value.companyName.value != "" ==> text == versionInfo.value.companyName.value
  {
    match versionInfo
    case None => "Unable to read version info"
    case Some(v) => if v.companyName.Some? && v.companyName.value != "" then v.companyName.value else NotSpecified
  }

  // ----- architecture -----

  /** The names `Enum.ToString` lists for a set of flags, in flag order. */
  function KindNames(kinds: set<PEKind>): seq<string> {
    (if ILOnly in kinds then ["ILOnly"] else [])
    + (if Required32Bit in kinds then ["Required32Bit"] else [])
    + (if PE32Plus in kinds then ["PE32Plus"] else [])
    + (if Unmanaged32Bit in kinds then ["Unmanaged32Bit"] else [])
    + (if Preferred32Bit in kinds then ["Preferred32Bit"] else [])
  }

  /** A non-empty flag set lists a first name, and that is ILOnly when set. */
  lemma KindNamesFirst(kinds: set<PEKind>)
    requires kinds != {}
    ensures KindNames(kinds) != [] && KindNames(kinds)[0] != ""
    ensures ILOnly in kinds ==> KindNames(kinds)[0] == "ILOnly"
  {
    var names := KindNames(kinds);
    var k :| k in kinds;
    if ILOnly in kinds {
      assert names[0] == "ILOnly";
    } else if Required32Bit in kinds {
      assert names[0] == "Required32Bit";
    } else if PE32Plus in kinds {
      assert names[0] == "PE32Plus";
    } else if Unmanaged32Bit in kinds {
      assert names[0] == "Unmanaged32Bit";
    } else {
      assert k == Preferred32Bit;
      assert names[0] == "Preferred32Bit";
    }
  }

  /** `PortableExecutableKinds.ToString()`: the zero value by its name,
      otherwise the flag names in flag order, so ILOnly always comes first. */
  function KindsText(kinds: set<PEKind>): (text: string)
    ensures text != ""
    ensures kinds == {} ==> text == "NotAPortableExecutableImage"
    ensures ILOnly in kinds ==> StartsWith(text, "ILOnly")
  {
    if kinds == {} then "NotAPortableExecutableImage"
    else
      var names := KindNames(kinds);
      KindNamesFirst(kinds);
      JoinStartsWithFirst(names, ", ");
      Join(names, ", ")
  }

  function MachineText(m: Machine): string {
    match m
    case I386 => "I386"
    case AMD64 => "AMD64"
    case IA64 => "IA64"
    case ARM => "ARM"
    case OtherMachine(code) => IntToString(code)
  }

  const AnyCpuText: string := "AnyCPU (MSIL)"
  const X86Text: string := "x86 (32-bit)"
  const X64Text: string := "x64 (64-bit)"
  const Ia64Text: string := "IA64 (Itanium)"
  const ArmText: string := "ARM"

  function UnknownArchitecture(kinds: set<PEKind>, m: Machine): string {
    "Unknown (" + KindsText(kinds) + ", " + MachineText(m) + ")"
  }

  /** The architecture table as written: each row matches one exact flag
      value, so a flag set with more than the one flag falls through. */
  function ArchitectureAsWritten(kinds: set<PEKind>, m: Machine): (text: string)
    ensures text == AnyCpuText <==> kinds == {ILOnly} && m == I386
    ensures text == X86Text <==> kinds == {Required32Bit} && m == I386
    ensures text == X64Text <==> kinds == {ILOnly} && m == AMD64
    ensures text == Ia64Text <==> kinds == {ILOnly} && m == IA64
    ensures text == ArmText <==> kinds == {ILOnly} && m == ARM
    ensures text != UnknownArchitecture(kinds, m) <==>
      (kinds == {ILOnly} && (m == I386 || m == AMD64 || m == IA64 || m == ARM)) || (kinds == {Required32Bit} && m == I386)
  {
    assert UnknownArchitecture(kinds, m)[0] == 'U';
    if kinds == {ILOnly} && m == I386 then AnyCpuText
    else if kinds == {Required32Bit} && m == I386 then X86Text
    else if kinds == {ILOnly} && m == AMD64 then X64Text
    else if kinds == {ILOnly} && m == IA64 then Ia64Text
    else if kinds == {ILOnly} && m == ARM then ArmText
    else UnknownArchitecture(kinds, m)
  }

  /** The table read as flag tests: a 32-bit requirement on I386 is x86,
      otherwise IL code runs on the machine it names. */
  function Architecture(kinds: set<PEKind>, m: Machine): (text: string)
    ensures ArchitectureAsWritten(kinds, m) != UnknownArchitecture(kinds, m) ==> text == ArchitectureAsWritten(kinds, m)
    ensures m == I386 && Required32Bit in kinds ==> text == X86Text
    ensures m == I386 && ILOnly in kinds && Required32Bit !in kinds ==> text == AnyCpuText
    ensures m == AMD64 && ILOnly in kinds ==> text == X64Text
  {
    if m == I386 && Required32Bit in kinds then X86Text
    else if m == I386 && ILOnly in kinds then AnyCpuText
    else if m == AMD64 && ILOnly in kinds then X64Text
    else if m == IA64 && ILOnly in kinds then Ia64Text
    else if m == ARM && ILOnly in kinds then ArmText
    else UnknownArchitecture(kinds, m)
  }

  /** The flag sets the compilers emit for x86 and x64 assemblies carry two
      flags, so the table as written reports them as unknown while the flag
      tests name them. */
  lemma ArchitectureAsWrittenMissesTwoFlagKinds()
    ensures ArchitectureAsWritten({ILOnly, Required32Bit}, I386) == UnknownArchitecture({ILOnly, Required32Bit}, I386)
    ensures ArchitectureAsWritten({ILOnly, PE32Plus}, AMD64) == UnknownArchitecture({ILOnly, PE32Plus}, AMD64)
    ensures Architecture({ILOnly, Required32Bit}, I386) == X86Text
    ensures Architecture({ILOnly, PE32Plus}, AMD64) == X64Text
  {
    assert Required32Bit !in {ILOnly};
    assert ILOnly !in {Required32Bit};
    assert PE32Plus !in {ILOnly};
  }

  /** The unknown case spells the flags out: an x86 assembly reads
      "Unknown (ILOnly, Required32Bit, I386)". */
  lemma UnknownX86Text()
    ensures KindsText({ILOnly, Required32Bit}) == "ILOnly, Required32Bit"
    ensures MachineText(I386) == "I386"
  {
    assert KindNames({ILOnly, Required32Bit}) == ["ILOnly", "Required32Bit"];
  }

  // ----- implemented interfaces -----

  const OfficeMarkers: seq<string> :=
    ["Extensibility", "Office", "OneNote", "IDTExtensibility", "IRibbonExtensibility", "ICustomTaskPaneConsumer"]
  const ComMarkers: seq<string> := ["IDisposable", "IUnknown", "IDispatch"]

  /** Whether the name contains one of the markers. */
  predicate ContainsAny(n: string, markers: seq<string>) {
    markers != [] && (Contains(n, markers[0]) || ContainsAny(n, markers[1..]))
  }

  predicate IsOfficeInterface(n: string) {
    ContainsAny(n, OfficeMarkers)
  }

  /** A common COM interface that is not an Office one: the `else if`. */
  predicate IsComInterface(n: string) {
    !IsOfficeInterface(n) && ContainsAny(n, ComMarkers)
  }

  /** Only public classes are inspected. */
  predicate Inspected(t: TypeFacts) {
    t.isClass && t.isPublic
  }

  /** The names that pass the test, in order. */
  function Kept(ifs: seq<string>, keep: string -> bool): seq<string> {
    if ifs == [] then []
    else Kept(ifs[..|ifs| - 1], keep) + if keep(ifs[|ifs| - 1]) then [ifs[|ifs| - 1]] else []
  }

  /** The interface names of the inspected classes that pass the test, in
      encounter order. */
  function Collected(types: seq<TypeFacts>, keep: string -> bool): seq<string> {
    if types == [] then []
    else
      var t := types[|types| - 1];
      Collected(types[..|types| - 1], keep) + if Inspected(t) then Kept(t.interfaces, keep) else []
  }

  lemma {:induction false} KeptMembers(ifs: seq<string>, keep: string -> bool, n: string)
    ensures n in Kept(ifs, keep) <==> n in ifs && keep(n)
  {
    if ifs != [] {
      var front := ifs[..|ifs| - 1];
      KeptMembers(front, keep, n);
      assert ifs == front + [ifs[|ifs| - 1]];
    }
  }

  /** A name is collected exactly when it passes the test and an inspected
      class implements it. */
  lemma {:induction false} CollectedMembers(types: seq<TypeFacts>, keep: string -> bool, n: string)
    ensures n in Collected(types, keep) <==> keep(n) && exists i :: 0 <= i < |types| && Inspected(types[i]) && n in types[i].interfaces
  {
    if types != [] {
      var front := types[..|types| - 1];
      CollectedMembers(front, keep, n);
      KeptMembers(types[|types| - 1].interfaces, keep, n);
      forall i | 0 <= i < |front| ensures front[i] == types[i] { }
      if exists i :: 0 <= i < |types| && Inspected(types[i]) && n in types[i].interfaces {
        var i :| 0 <= i < |types| && Inspected(types[i]) && n in types[i].interfaces;
        if i < |front| {
          assert front[i] == types[i];
        }
      }
    }
  }

  /** `List.Contains` before `Add`: first occurrences, in order. */
  function Dedup(s: seq<string>): seq<string> {
    if s == [] then []
    else
      var d := Dedup(s[..|s| - 1]);
      var x := s[|s| - 1];
      if x in d then d else d + [x]
  }

  /** The de-duplicated list holds each name of the original exactly once. */
  lemma {:induction false} DedupMembers(s: seq<string>)
    ensures forall x :: x in Dedup(s) <==> x in s
    ensures forall i, j :: 0 <= i < j < |Dedup(s)| ==> Dedup(s)[i] != Dedup(s)[j]
  {
    if s != [] {
      var front := s[..|s| - 1];
      DedupMembers(front);
      assert s == front + [s[|s| - 1]];
    }
  }

  lemma DedupSnoc(s: seq<string>, x: string)
    ensures Dedup(s + [x]) == if x in Dedup(s) then Dedup(s) else Dedup(s) + [x]
  {
    assert (s + [x])[..|s|] == s;
  }

  /** One more interface name extends a de-duplicated collection the way
      `Contains` before `Add` does. */
  lemma KeepStep(a: seq<string>, ifs: seq<string>, j: int, keep: string -> bool)
    requires 0 <= j < |ifs|
    ensures Dedup(a + Kept(ifs[..j + 1], keep))
         == if keep(ifs[j]) && ifs[j] !in Dedup(a + Kept(ifs[..j], keep)) then Dedup(a + Kept(ifs[..j], keep)) + [ifs[j]]
            else Dedup(a + Kept(ifs[..j], keep))
  {
    assert ifs[..j + 1][..j] == ifs[..j];
    assert ifs[..j + 1][j] == ifs[j];
    if keep(ifs[j]) {
      assert a + Kept(ifs[..j + 1], keep) == (a + Kept(ifs[..j], keep)) + [ifs[j]];
      DedupSnoc(a + Kept(ifs[..j], keep), ifs[j]);
    } else {
      assert Kept(ifs[..j + 1], keep) == Kept(ifs[..j], keep);
    }
  }

  /** Adds the interfaces of one type to the two lists: the inner loop of
      `GetImplementedInterfaces`, over the two name tests. */
  method CollectInterfaces(ifs: seq<string>, office: string -> bool, com: string -> bool,
                           relevant0: seq<string>, common0: seq<string>, ghost ra: seq<string>, ghost ca: seq<string>)
    returns (relevant: seq<string>, common: seq<string>)
    requires relevant0 == Dedup(ra) && common0 == Dedup(ca)
    requires forall n :: com(n) ==> !office(n)
    ensures relevant == Dedup(ra + Kept(ifs, office))
    ensures common == Dedup(ca + Kept(ifs, com))
  {
    relevant, common := relevant0, common0;
    var j := 0;
    assert ifs[..0] == [];
    assert ra + [] == ra && ca + [] == ca;
    while j < |ifs|
      invariant 0 <= j <= |ifs|
      invariant relevant == Dedup(ra + Kept(ifs[..j], office))
      invariant common == Dedup(ca + Kept(ifs[..j], com))
    {
      var n := ifs[j];
      KeepStep(ra, ifs, j, office);
      KeepStep(ca, ifs, j, com);
      if office(n) {
        if n !in relevant {
          relevant := relevant + [n];
        }
      } else if com(n) {
        if n !in common {
          common := common + [n];
        }
      }
      j := j + 1;
    }
    assert ifs[..j] == ifs;
  }

  /** The outer loop of `GetImplementedInterfaces`: every inspected class's
      interfaces, de-duplicated in first-seen order. */
  method ClassifyInterfaces(types: seq<TypeFacts>, office: string -> bool, com: string -> bool)
    returns (relevant: seq<string>, common: seq<string>)
    requires forall n :: com(n) ==> !office(n)
    ensures relevant == Dedup(Collected(types, office))
    ensures common == Dedup(Collected(types, com))
  {
    relevant, common := [], [];
    var i := 0;
    assert types[..0] == [];
    while i < |types|
      invariant 0 <= i <= |types|
      invariant relevant == Dedup(Collected(types[..i], office))
      invariant common == Dedup(Collected(types[..i], com))
    {
      assert types[..i + 1][..i] == types[..i];
      assert types[..i + 1][i] == types[i];
      if types[i].isClass && types[i].isPublic {
        assert Collected(types[..i + 1], office) == Collected(types[..i], office) + Kept(types[i].interfaces, office);
        assert Collected(types[..i + 1], com) == Collected(types[..i], com) + Kept(types[i].interfaces, com);
        relevant, common := CollectInterfaces(types[i].interfaces, office, com, relevant, common,
                                              Collected(types[..i], office), Collected(types[..i], com));
        assert relevant == Dedup(Collected(types[..i + 1], office));
      } else {
        assert Collected(types[..i + 1], office) == Collected(types[..i], office);
        assert Collected(types[..i + 1], com) == Collected(types[..i], com);
        assert relevant == Dedup(Collected(types[..i + 1], office));
      }
      i := i + 1;
    }
    assert types[..i] == types;
  }

  const OfficePrefix: string := "Office/OneNote: "
  const ComPrefix: string := "COM: "
  const NoInterfaces: string := "No relevant interfaces found"

  function InterfacesText(relevant: seq<string>, common: seq<string>): string {
    if relevant != [] then OfficePrefix + Join(relevant, ", ")
    else if common != [] then ComPrefix + Join(common, ", ")
    else NoInterfaces
  }

  /** Without an assembly "Unable to load assembly"; otherwise the implemented-interfaces text: "Error: " and the message when `GetTypes` throws. */
  function ImplementedInterfacesOf(assembly: Option<AssemblyFacts>): (text: string)
    ensures assembly.None? ==> text == UnableToLoad
    ensures assembly.Some? && assembly.value.types.Failure? ==> text == ErrorPrefix + assembly.value.types.error
  {
    match assembly
    case None => UnableToLoad
    case Some(a) =>
      match a.types
      case Failure(message) => ErrorPrefix + message
      case Success(types) => InterfacesText(Dedup(Collected(types, IsOfficeInterface)), Dedup(Collected(types, IsComInterface)))
  }

  method ImplementedInterfaces(assembly: Option<AssemblyFacts>) returns (text: string)
    ensures text == ImplementedInterfacesOf(assembly)
  {
    if assembly.None? {
      return UnableToLoad;
    }
    if assembly.value.types.Failure? {
      return ErrorPrefix + assembly.value.types.error;
    }
    var relevant, common := ClassifyInterfaces(assembly.value.types.value, IsOfficeInterface, IsComInterface);
    text := InterfacesText(relevant, common);
  }

  /** Some inspected class implements an interface passing the test. */
  predicate Implements(types: seq<TypeFacts>, keep: string -> bool) {
    exists i, n :: 0 <= i < |types| && Inspected(types[i]) && n in types[i].interfaces && keep(n)
  }

  /** The Office list wins: it is shown whenever an inspected class implements
      an Office interface; the COM list only when none does and one
      implements a COM interface; the fixed text when neither. */
  lemma InterfacesClassified(types: seq<TypeFacts>)
    ensures Implements(types, IsOfficeInterface) ==>
      ImplementedInterfacesOf(Some(AssemblyFactsWith(types))) == OfficePrefix + Join(Dedup(Collected(types, IsOfficeInterface)), ", ")
    ensures !Implements(types, IsOfficeInterface) && Implements(types, IsComInterface) ==>
      ImplementedInterfacesOf(Some(AssemblyFactsWith(types))) == ComPrefix + Join(Dedup(Collected(types, IsComInterface)), ", ")
    ensures !Implements(types, IsOfficeInterface) && !Implements(types, IsComInterface) ==>
      ImplementedInterfacesOf(Some(AssemblyFactsWith(types))) == NoInterfaces
  {
    CollectedEmpty(types, IsOfficeInterface);
    CollectedEmpty(types, IsComInterface);
  }

  /** The de-duplicated collection is empty exactly when no inspected class
      implements a name passing the test. */
  lemma CollectedEmpty(types: seq<TypeFacts>, keep: string -> bool)
    ensures Dedup(Collected(types, keep)) == [] <==> !Implements(types, keep)
  {
    DedupMembers(Collected(types, keep));
    if Implements(types, keep) {
      var i, n :| 0 <= i < |types| && Inspected(types[i]) && n in types[i].interfaces && keep(n);
      CollectedMembers(types, keep, n);
      assert n in Dedup(Collected(types, keep));
    } else if Collected(types, keep) != [] {
      CollectedMembers(types, keep, Collected(types, keep)[0]);
    }
  }

  /** An assembly that is only its types, for stating facts about them. */
  function AssemblyFactsWith(types: seq<TypeFacts>): AssemblyFacts {
    AssemblyFacts(None, None, "", Success(types), {}, I386, None, None)
  }

  // ----- attribute listings -----

  /** "Name: value" for every selected type whose attribute is present, in
      type order. */
  function Labelled(types: seq<TypeFacts>, selected: TypeFacts -> bool, value: TypeFacts -> Option<string>): (ls: seq<string>)
    ensures ls == [] <==> forall i :: 0 <= i < |types| ==> !(selected(types[i]) && value(types[i]).Some?)
    ensures forall i :: 0 <= i < |ls| ==> ':' in ls[i]
  {
    if types == [] then []
    else
      var t := types[|types| - 1];
      var front := Labelled(types[..|types| - 1], selected, value);
      assert forall i :: 0 <= i < |types| - 1 ==> types[..|types| - 1][i] == types[i];
      if selected(t) && value(t).Some? then
        var l := t.name + ": " + value(t).value;
        assert l[|t.name|] == ':';
        front + [l]
      else front
  }

  /** The `foreach` over the types that collects the attribute texts. */
  method LabelTypes(types: seq<TypeFacts>, selected: TypeFacts -> bool, value: TypeFacts -> Option<string>) returns (ls: seq<string>)
    ensures ls == Labelled(types, selected, value)
  {
    ls := [];
    var i := 0;
    assert types[..0] == [];
    while i < |types|
      invariant 0 <= i <= |types|
      invariant ls == Labelled(types[..i], selected, value)
    {
      assert types[..i + 1][..i] == types[..i];
      var t := types[i];
      if selected(t) && value(t).Some? {
        ls := ls + [t.name + ": " + value(t).value];
      }
      i := i + 1;
    }
    assert types[..i] == types;
  }

  function BoolText(b: bool): string {
    if b then "True" else "False"
  }

  function ComVisibleValue(t: TypeFacts): Option<string> {
    if t.comVisible.Some? then Some(BoolText(t.comVisible.value)) else None
  }

  function GuidValue(t: TypeFacts): Option<string> {
    t.guid
  }

  function ProgIdValue(t: TypeFacts): Option<string> {
    t.progId
  }

  predicate PublicType(t: TypeFacts) {
    t.isPublic
  }

  predicate PublicClassOrInterface(t: TypeFacts) {
    t.isPublic && (t.isInterface || t.isClass)
  }

  predicate PublicClass(t: TypeFacts) {
    t.isPublic && t.isClass
  }

  /** The assembly-level entry and the "Types: ..." entry, joined by "; ". */
  function AttributeSummary(assemblyLevel: Option<string>, typeTexts: seq<string>): string {
    var parts := (if assemblyLevel.Some? then ["Assembly: " + assemblyLevel.value] else [])
               + (if typeTexts != [] then ["Types: " + Join(typeTexts, ", ")] else []);
    if parts != [] then Join(parts, "; ") else NotSpecified
  }

  /** "Not specified" exactly when there is neither an assembly-level
      attribute nor a type attribute. */
  lemma AttributeSummaryEmpty(assemblyLevel: Option<string>, typeTexts: seq<string>)
    ensures AttributeSummary(assemblyLevel, typeTexts) == NotSpecified <==> assemblyLevel.None? && typeTexts == []
  {
    var parts := (if assemblyLevel.Some? then ["Assembly: " + assemblyLevel.value] else [])
               + (if typeTexts != [] then ["Types: " + Join(typeTexts, ", ")] else []);
    if parts != [] {
      var j := Join(parts, "; ");
      assert j[0] == parts[0][0];
      assert parts[0][0] == 'A' || parts[0][0] == 'T';
      assert NotSpecified[0] == 'N';
    }
  }

  /** Without an assembly "Unable to load assembly"; otherwise the ComVisible text, with the same failure texts. */
  function ComVisibleOf(assembly: Option<AssemblyFacts>): (text: string)
    ensures assembly.None? ==> text == UnableToLoad
    ensures assembly.Some? && assembly.value.types.Failure? ==> text == ErrorPrefix + assembly.value.types.error
  {
    match assembly
    case None => UnableToLoad
    case Some(a) =>
      match a.types
      case Failure(message) => ErrorPrefix + message
      case Success(types) =>
        AttributeSummary(if a.comVisible.Some? then Some(BoolText(a.comVisible.value)) else None, Labelled(types, PublicType, ComVisibleValue))
  }

  /** Without an assembly "Unable to load assembly"; otherwise the Guid text, with the same failure texts. */
  function GuidOf(assembly: Option<AssemblyFacts>): (text: string)
    ensures assembly.None? ==> text == UnableToLoad
    ensures assembly.Some? && assembly.value.types.Failure? ==> text == ErrorPrefix + assembly.value.types.error
  {
    match assembly
    case None => UnableToLoad
    case Some(a) =>
      match a.types
      case Failure(message) => ErrorPrefix + message
      case Success(types) => AttributeSummary(a.guid, Labelled(types, PublicClassOrInterface, GuidValue))
  }

  /** Without an assembly "Unable to load assembly"; otherwise the ProgId text, with the same failure texts. */
  function ProgIdOf(assembly: Option<AssemblyFacts>): (text: string)
    ensures assembly.None? ==> text == UnableToLoad
    ensures assembly.Some? && assembly.value.types.Failure? ==> text == ErrorPrefix + assembly.value.types.error
  {
    match assembly
    case None => UnableToLoad
    case Some(a) =>
      match a.types
      case Failure(message) => ErrorPrefix + message
      case Success(types) =>
        var ls := Labelled(types, PublicClass, ProgIdValue);
        if ls != [] then Join(ls, ", ") else NotSpecified
  }

  method ComVisible(assembly: Option<AssemblyFacts>) returns (text: string)
    ensures text == ComVisibleOf(assembly)
  {
    if assembly.None? {
      return UnableToLoad;
    }
    var a := assembly.value;
    if a.types.Failure? {
      return ErrorPrefix + a.types.error;
    }
    var typeTexts := LabelTypes(a.types.value, PublicType, ComVisibleValue);
    text := AttributeSummary(if a.comVisible.Some? then Some(BoolText(a.comVisible.value)) else None, typeTexts);
  }

  method Guid(assembly: Option<AssemblyFacts>) returns (text: string)
    ensures text == GuidOf(assembly)
  {
    if assembly.None? {
      return UnableToLoad;
    }
    var a := assembly.value;
    if a.types.Failure? {
      return ErrorPrefix + a.types.error;
    }
    var typeTexts := LabelTypes(a.types.value, PublicClassOrInterface, GuidValue);
    text := AttributeSummary(a.guid, typeTexts);
  }

  method ProgId(assembly: Option<AssemblyFacts>) returns (text: string)
    ensures text == ProgIdOf(assembly)
  {
    if assembly.None? {
      return UnableToLoad;
    }
    var a := assembly.value;
    if a.types.Failure? {
      return ErrorPrefix + a.types.error;
    }
    var progIds := LabelTypes(a.types.value, PublicClass, ProgIdValue);
    text := if progIds != [] then Join(progIds, ", ") else NotSpecified;
  }

  /** The ComVisible text reads "Not specified" exactly when neither the
      assembly nor a public type carries the attribute. */
  lemma ComVisibleNotSpecified(a: AssemblyFacts)
    requires a.types.Success?
    ensures ComVisibleOf(Some(a)) == NotSpecified <==>
      a.comVisible.None? && forall i :: 0 <= i < |a.types.value| ==> !(a.types.value[i].isPublic && a.types.value[i].comVisible.Some?)
  {
    AttributeSummaryEmpty(if a.comVisible.Some? then Some(BoolText(a.comVisible.value)) else None, Labelled(a.types.value, PublicType, ComVisibleValue));
  }

  /** The GUID text reads "Not specified" exactly when neither the assembly
      nor a public class or interface carries the attribute. */
  lemma GuidNotSpecified(a: AssemblyFacts)
    requires a.types.Success?
    ensures GuidOf(Some(a)) == NotSpecified <==>
      a.guid.None? && forall i :: 0 <= i < |a.types.value| ==> !(PublicClassOrInterface(a.types.value[i]) && a.types.value[i].guid.Some?)
  {
    AttributeSummaryEmpty(a.guid, Labelled(a.types.value, PublicClassOrInterface, GuidValue));
  }

  /** The ProgId text reads "Not specified" exactly when no public class
      carries the attribute. */
  lemma ProgIdNotSpecified(a: AssemblyFacts)
    requires a.types.Success?
    ensures ProgIdOf(Some(a)) == NotSpecified <==>
      forall i :: 0 <= i < |a.types.value| ==> !(PublicClass(a.types.value[i]) && a.types.value[i].progId.Some?)
  {
    var ls := Labelled(a.types.value, PublicClass, ProgIdValue);
    if ls != [] {
      JoinStartsWithFirst(ls, ", ");
      assert ':' in ls[0];
      var k :| 0 <= k < |ls[0]| && ls[0][k] == ':';
      assert Join(ls, ", ")[k] == ':';
      assert ':' !in NotSpecified;
    }
  }

  /** A join starts with its first part. */
  lemma JoinStartsWithFirst(parts: seq<string>, sep: string)
    requires parts != []
    ensures parts[0] <= Join(parts, sep)
  {
  }
}
