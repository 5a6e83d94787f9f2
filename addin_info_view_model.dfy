/** `AddInInfoViewModel`, `RelayCommand` and `RelayCommand<T>`
    (OneNoteAddinManager.App/ViewModels/AddInInfoViewModel.cs): the details
    panel of one add-in, looked up from a registry path, and the command
    objects its buttons bind to. The machine registry the view model reads
    through a fresh `RegistryManager` is passed to its constructor. */
module AddinInfoView {
  import opened Wrappers
  import opened Strings
  import opened Store
  import opened AddinModel
  import opened Catalog
  import opened LibRegistryManager

  // ----- locating the add-in -----

  /** The text after the last '\' of a registry path, or the whole path when
      it has none. `Split` always yields a part, so the result is never null. */
  function ExtractAddinNameFromPath(registryPath: string): (n: Option<string>)
    ensures n.Some?
    ensures '\\' !in n.value
    ensures '\\' !in registryPath ==> n.value == registryPath
    ensures '\\' in registryPath ==> exists k :: 0 <= k < |registryPath| && registryPath[k] == '\\' && n.value == registryPath[k + 1..]
  {
    var parts := Split(registryPath, '\\');
    if |parts| == 0 then None
    else if '\\' in registryPath then SplitLastPart(registryPath, '\\'); Some(parts[|parts| - 1])
    else SplitNoSep(registryPath, '\\'); Some(parts[|parts| - 1])
  }

  /** The name of an add-in with no '\' in it comes back out of its Office
      add-in registry path. */
  lemma ExtractInvertsOfficePath(d: AddinData)
    requires '\\' !in d.name
    ensures ExtractAddinNameFromPath(OfficeAddinRegistryPath(d)) == Some(d.name)
  {
    var head := OfficeAddinPrefix[..|OfficeAddinPrefix| - 1];
    assert OfficeAddinRegistryPath(d) == head + ['\\'] + d.name;
    SplitAppend(head, d.name, '\\');
    SplitNoSep(d.name, '\\');
  }

  /** `List.Find` with an ordinal case-insensitive name test: the index of
      the first matching record, or -1. */
  function FindIgnoreCase(ds: seq<AddinData>, name: string): (i: int)
    ensures -1 <= i < |ds|
    ensures i >= 0 ==> EqualsIgnoreCase(ds[i].name, name)
    ensures forall j :: 0 <= j < |ds| && (i < 0 || j < i) ==> !EqualsIgnoreCase(ds[j].name, name)
    decreases |ds|
  {
    if ds == [] then -1
    else if EqualsIgnoreCase(ds[0].name, name) then 0
    else
      var k := FindIgnoreCase(ds[1..], name);
      if k < 0 then -1 else k + 1
  }

  /** The add-in the panel shows for a registry path and a listing: none for
      a null or empty path or an empty last segment, otherwise the first
      listed add-in whose name matches that segment ignoring case. */
  function LoadedAddin(registryPath: Option<string>, listing: seq<AddinData>): Option<AddinData> {
    if registryPath.None? || registryPath.value == "" then None
    else
      var name := ExtractAddinNameFromPath(registryPath.value).value;
      if name == "" then None
      else
        var i := FindIgnoreCase(listing, name);
        if i < 0 then None else Some(listing[i])
  }

  /** The panel opened on a listed add-in's Office registry path shows that
      add-in, provided no earlier listed name matches it ignoring case. */
  lemma LoadedAddinFindsListed(listing: seq<AddinData>, k: int)
    requires 0 <= k < |listing|
    requires listing[k].name != "" && '\\' !in listing[k].name
    requires forall j :: 0 <= j < k ==> !EqualsIgnoreCase(listing[j].name, listing[k].name)
    ensures LoadedAddin(Some(OfficeAddinRegistryPath(listing[k])), listing) == Some(listing[k])
  {
    ExtractInvertsOfficePath(listing[k]);
    assert EqualsIgnoreCase(listing[k].name, listing[k].name);
  }

  /** Whatever the panel shows is a listed add-in whose name matches the
      path's last segment ignoring case. */
  lemma LoadedAddinIsListed(registryPath: Option<string>, listing: seq<AddinData>)
    ensures LoadedAddin(registryPath, listing).Some? ==>
      && registryPath.Some? && registryPath.value != ""
      && LoadedAddin(registryPath, listing).value in listing
      && EqualsIgnoreCase(LoadedAddin(registryPath, listing).value.name, ExtractAddinNameFromPath(registryPath.value).value)
  {
  }

  // ----- commands -----

  /** The handler a command runs, identified by its name; what it does (a
      message box, starting regedit, the clipboard) is outside the model. */
  datatype Action = Action(handler: string)

  /** The `object` parameter handed to a generic command: a value of the
      command's type, or something else (null included). */
  datatype Arg<T> = Typed(value: T) | Untyped

  /** `RelayCommand`: a parameterless action and an optional predicate. The
      number of times the action ran stands for its effect. */
  class RelayCommand {
    const execute: Action
    const canExecute: Option<() -> bool>
    var runs: nat

    constructor (execute: Action, canExecute: Option<() -> bool>)
      ensures this.execute == execute && this.canExecute == canExecute && runs == 0
    {
      this.execute := execute;
      this.canExecute := canExecute;
      runs := 0;
    }

    /** `new RelayCommand(execute, canExecute)`: a null action is refused. */
    static method New(execute: Option<Action>, canExecute: Option<() -> bool>) returns (c: Result<RelayCommand, Exception>)
      ensures c.Failure? <==> execute.None?
      ensures c.Failure? ==> c.error == ArgumentNull("execute")
      ensures c.Success? ==> fresh(c.value) && c.value.execute == execute.value && c.value.canExecute == canExecute && c.value.runs == 0
    {
      if execute.None? {
        return Failure(ArgumentNull("execute"));
      }
      var r := new RelayCommand(execute.value, canExecute);
      return Success(r);
    }

    /** The predicate's answer, and true when there is no predicate. The
        parameter is ignored. */
    function CanExecute(): (b: bool)
      reads this
      ensures canExecute.None? ==> b
      ensures canExecute.Some? ==> b == canExecute.value()
    {
      match canExecute
      case None => true
      case Some(p) => p()
    }

    /** Runs the action once, whatever the parameter. */
    method Execute()
      modifies this
      ensures runs == old(runs) + 1
    {
      runs := runs + 1;
    }
  }

  /** `RelayCommand<T>`: an action on a `T` and an optional predicate on it;
      `executed` lists the arguments the action received. */
  class RelayCommandOf<T> {
    const execute: Action
    const canExecute: Option<T -> bool>
    var executed: seq<T>

    constructor (execute: Action, canExecute: Option<T -> bool>)
      ensures this.execute == execute && this.canExecute == canExecute && executed == []
    {
      this.execute := execute;
      this.canExecute := canExecute;
      executed := [];
    }

    /** `new RelayCommand<T>(execute, canExecute)`: a null action is refused. */
    static method New(execute: Option<Action>, canExecute: Option<T -> bool>) returns (c: Result<RelayCommandOf<T>, Exception>)
      ensures c.Failure? <==> execute.None?
      ensures c.Failure? ==> c.error == ArgumentNull("execute")
      ensures c.Success? ==> fresh(c.value) && c.value.execute == execute.value && c.value.canExecute == canExecute && c.value.executed == []
    {
      if execute.None? {
        return Failure(ArgumentNull("execute"));
      }
      var r := new RelayCommandOf(execute.value, canExecute);
      return Success(r);
    }

    /** False for a parameter that is not a `T`; otherwise the predicate's
        answer, and true when there is no predicate. */
    function CanExecute(parameter: Arg<T>): (b: bool)
      reads this
      ensures parameter.Untyped? ==> !b
      ensures parameter.Typed? && canExecute.None? ==> b
      ensures parameter.Typed? && canExecute.Some? ==> b == canExecute.value(parameter.value)
    {
      match parameter
      case Untyped => false
      case Typed(v) => if canExecute.None? then true else canExecute.value(v)
    }

    /** Hands a `T` parameter to the action; any other parameter is ignored. */
    method Execute(parameter: Arg<T>)
      modifies this
      ensures parameter.Untyped? ==> executed == old(executed)
      ensures parameter.Typed? ==> executed == old(executed) + [parameter.value]
    {
      if parameter.Typed? {
        executed := executed + [parameter.value];
      }
    }
  }

  // ----- the view model -----

  /** Whether a registry path is usable: not null and not empty. */
  predicate ValidRegistryPath(registryPath: Option<string>) {
    registryPath.Some? && registryPath.value != ""
  }

  /** The constructor's lookup: with a usable path, the installed add-in
      whose name matches the path's last segment ignoring case, or null. */
  method LoadAddinInfo(registryPath: Option<string>, registry: Registry) returns (found: AddinInfo?)
    ensures (found == null) <==> LoadedAddin(registryPath, Listing(registry.store)).None?
    ensures found != null ==> fresh(found) && found.Data() == LoadedAddin(registryPath, Listing(registry.store)).value
  {
    found := null;
    if registryPath.Some? && registryPath.value != "" {
      var addinName := ExtractAddinNameFromPath(registryPath.value);
      if addinName.value != "" {
        var registryManager := new RegistryManager(registry);
        var addins := registryManager.GetInstalledAddins();
        ghost var listing := DataOf(addins);
        assert listing == Listing(registry.store);
        var i := FindIgnoreCase(DataOf(addins), addinName.value);
        if i >= 0 {
          assert addins[i] in addins;
          found := addins[i];
        }
      }
    }
  }

  class AddInInfoViewModel {
    const registryPath: Option<string>
    const addinInfo: AddinInfo?
    const openRegistryEditorCommand: RelayCommand
    const copyRegistryPathCommand: RelayCommand
    const showInfoCommand: RelayCommandOf<string>

    /** Looks the add-in up when the path is usable and wires the commands;
        the registry-editor and copy commands are gated on the path. */
    constructor (registryPath: Option<string>, registry: Registry)
      ensures this.registryPath == registryPath
      ensures (addinInfo == null) <==> LoadedAddin(registryPath, Listing(registry.store)).None?
      ensures addinInfo != null ==> fresh(addinInfo) && addinInfo.Data() == LoadedAddin(registryPath, Listing(registry.store)).value
      ensures fresh(openRegistryEditorCommand) && fresh(copyRegistryPathCommand) && fresh(showInfoCommand)
      ensures openRegistryEditorCommand.CanExecute() == ValidRegistryPath(registryPath)
      ensures copyRegistryPathCommand.CanExecute() == ValidRegistryPath(registryPath)
      ensures showInfoCommand.canExecute.None? && showInfoCommand.executed == []
    {
      this.registryPath := registryPath;
      var found := LoadAddinInfo(registryPath, registry);
      addinInfo := found;
      var valid := ValidRegistryPath(registryPath);
      openRegistryEditorCommand := new RelayCommand(Action("OpenRegistryEditor"), Some(() => valid));
      copyRegistryPathCommand := new RelayCommand(Action("CopyRegistryPath"), Some(() => valid));
      showInfoCommand := new RelayCommandOf(Action("ShowInfo"), None);
    }

    function Name(): string
      reads this, addinInfo
    {
      if addinInfo == null then NotAvailable else addinInfo.name
    }

    function FriendlyName(): string
      reads this, addinInfo
    {
      if addinInfo == null then NotAvailable else addinInfo.friendlyName
    }

    function StatusText(): string
      reads this, addinInfo
    {
      if addinInfo == null then NotAvailable else Status(addinInfo.Data())
    }

    function Guid(): string
      reads this, addinInfo
    {
      if addinInfo == null then NotAvailable else addinInfo.guid
    }

    /** A loaded add-in without a DLL path shows "Not Available" too. */
    function DllPath(): string
      reads this, addinInfo
    {
      if addinInfo == null || addinInfo.dllPath.None? then NotAvailable else addinInfo.dllPath.value
    }

    function RegistryPath(): string
      reads this
    {
      if registryPath.None? then NotAvailable else registryPath.value
    }

    predicate HasValidRegistryPath()
      reads this
    {
      ValidRegistryPath(registryPath)
    }

    /** Without a loaded add-in every add-in field reads "Not Available"; the
        registry path reads "Not Available" only when it is null, and an
        empty one is shown as it is. */
    lemma Fallbacks()
      ensures addinInfo == null ==>
        && Name() == NotAvailable && FriendlyName() == NotAvailable && StatusText() == NotAvailable
        && Guid() == NotAvailable && DllPath() == NotAvailable
      ensures addinInfo != null ==>
        && Name() == addinInfo.name && FriendlyName() == addinInfo.friendlyName
        && StatusText() == Status(addinInfo.Data()) && Guid() == addinInfo.guid
      ensures registryPath.None? ==> RegistryPath() == NotAvailable && !HasValidRegistryPath()
      ensures registryPath.Some? ==> RegistryPath() == registryPath.value
      ensures HasValidRegistryPath() <==> registryPath.Some? && |registryPath.value| > 0
    {
    }

    /** A panel whose add-in was found has a usable registry path. */
    lemma LoadedImpliesValidPath(listing: seq<AddinData>)
      requires (addinInfo == null) <==> LoadedAddin(registryPath, listing).None?
      ensures addinInfo != null ==> HasValidRegistryPath()
    {
    }
  }
}
