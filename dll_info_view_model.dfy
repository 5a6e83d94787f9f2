/** `DllInfoViewModel` (OneNoteAddinManager.App/ViewModels/DllInfoViewModel.cs):
    the state behind the DLL panel of an add-in. The file system's answers
    (whether the file exists, its length and last write time, how an
    exclusive open ends) and what loading the DLL yields are passed in. */
module DllInfoView {
  import opened Wrappers
  import opened Strings
  import opened FileSize
  import opened AssemblyInfo

  /** What `IFileInfo` reports about the DLL path; the last write time is
      already formatted as "yyyy-MM-dd HH:mm:ss". */
  datatype FileFacts = FileFacts(present: bool, length: int, lastWriteTime: string)

  /** How `File.Open(path, Open, Write, None)` ends: the stream opens, or it
      throws an `UnauthorizedAccessException`, an `IOException` (sharing
      violations and missing files alike) or another exception, with its
      message. */
  datatype OpenResult = Opened | UnauthorizedAccess | IOError(message: string) | OtherError(message: string)

  /** What `LoadAssemblyInformation` obtains: the version info, or None when
      reading it throws; the loaded assembly, or None when `LoadFrom` throws. */
  datatype LoadResult = LoadResult(versionInfo: Option<VersionFacts>, assembly: Option<AssemblyFacts>)

  datatype Brush = Red | Green | Gray

  const NotLockedText: string := "File is not locked - available for writing"
  const AccessDeniedText: string := "File is locked - access denied (may be in use by OneNote or another process)"
  const InUseText: string := "File is locked - currently being used by another process (likely OneNote)"
  const InUseMarker: string := "being used by another process"
  const LockedPrefix: string := "File is locked - "
  const UndeterminedPrefix: string := "Could not determine lock status: "

  /** `CheckFileLock`: the lock flag and its explanation for how the exclusive
      open ended. */
  function CheckFileLock(r: OpenResult): (lock: (bool, string))
    ensures lock.0 <==> r.UnauthorizedAccess? || r.IOError?
    ensures r.Opened? ==> lock.1 == NotLockedText
    ensures r.UnauthorizedAccess? ==> lock.1 == AccessDeniedText
    ensures r.IOError? && Contains(r.message, InUseMarker) ==> lock.1 == InUseText
    ensures r.IOError? && !Contains(r.message, InUseMarker) ==> lock.1 == LockedPrefix + r.message
    ensures r.OtherError? ==> lock.1 == UndeterminedPrefix + r.message
  {
    match r
    case Opened => (false, NotLockedText)
    case UnauthorizedAccess => (true, AccessDeniedText)
    case IOError(m) => if Contains(m, InUseMarker) then (true, InUseText) else (true, LockedPrefix + m)
    case OtherError(m) => (false, UndeterminedPrefix + m)
  }

  /** The names `NotifyAssemblyPropertiesChanged` raises, in order. */
  const AssemblyProperties: seq<string> :=
    ["AssemblyVersionText", "FileVersionText", "TargetFrameworkText", "ImplementedInterfacesText",
     "AssemblyArchitectureText", "CompanyText", "ComVisibleText", "GuidText", "ProgIdText"]

  /** The names the `IsLocked` setter raises. */
  const LockProperties: seq<string> := ["IsLocked", "FileLockedText", "FileLockedBrush"]

  const NA: string := "N/A"

  class DllInfoViewModel {
    const assemblyPath: Option<string>
    /** The file system's `FileInfo.New`. */
    const fileInfo: string -> FileFacts
    var isLocked: bool
    var lockDetails: string
    var loadedAssembly: Option<AssemblyFacts>
    var versionInfo: Option<VersionFacts>
    var assemblyLoadAttempted: bool
    /** The PropertyChanged notifications raised so far. */
    var raised: seq<string>

    /** Takes the file's facts when there is a path; for an existing file
        reads the lock state, loads the assembly information and announces
        the assembly properties. */
    constructor (assemblyPath: Option<string>, fileInfo: string -> FileFacts, probe: OpenResult, load: LoadResult)
      ensures this.assemblyPath == assemblyPath && this.fileInfo == fileInfo
      ensures FileExists() ==>
        && (isLocked, lockDetails) == CheckFileLock(probe)
        && assemblyLoadAttempted
        && (versionInfo, loadedAssembly) == Loaded(load)
        && raised == AssemblyProperties
      ensures !FileExists() ==>
        && !isLocked && lockDetails == "" && !assemblyLoadAttempted
        && versionInfo.None? && loadedAssembly.None? && raised == []
    {
      this.assemblyPath := assemblyPath;
      this.fileInfo := fileInfo;
      isLocked := false;
      lockDetails := "";
      loadedAssembly := None;
      versionInfo := None;
      assemblyLoadAttempted := false;
      raised := [];
      new;
      if assemblyPath.Some? && fileInfo(assemblyPath.value).present {
        var lock := CheckFileLock(probe);
        isLocked := lock.0;
        lockDetails := lock.1;
        LoadAssemblyInformation(load);
        raised := raised + AssemblyProperties;
      }
    }

    /** The `IFileInfo` of the path, created only for a non-null path. */
    function AssemblyFile(): Option<FileFacts>
      reads this
    {
      if assemblyPath.Some? then Some(fileInfo(assemblyPath.value)) else None
    }

    /** `_assemblyFile?.Exists == true`. */
    predicate FileExists()
      reads this
    {
      AssemblyFile().Some? && AssemblyFile().value.present
    }

    /** The private `IsLocked` setter: a new value is stored and announced,
        the current value is ignored. */
    method SetIsLocked(v: bool)
      modifies this
      ensures isLocked == v
      ensures raised == if old(isLocked) != v then old(raised) + LockProperties else old(raised)
      ensures lockDetails == old(lockDetails) && loadedAssembly == old(loadedAssembly)
      ensures versionInfo == old(versionInfo) && assemblyLoadAttempted == old(assemblyLoadAttempted)
    {
      if isLocked != v {
        isLocked := v;
        raised := raised + LockProperties;
      }
    }

    /** The private `LockDetails` setter, with the same change test. */
    method SetLockDetails(v: string)
      modifies this
      ensures lockDetails == v
      ensures raised == if old(lockDetails) != v then old(raised) + ["LockDetails"] else old(raised)
      ensures isLocked == old(isLocked) && loadedAssembly == old(loadedAssembly)
      ensures versionInfo == old(versionInfo) && assemblyLoadAttempted == old(assemblyLoadAttempted)
    {
      if lockDetails != v {
        lockDetails := v;
        raised := raised + ["LockDetails"];
      }
    }

    /** The timer's lock check: for an existing file, a changed lock flag
        replaces the flag and the details; an unchanged flag keeps the old
        details even when the new ones differ. Afterwards the flag agrees
        with the probe, so a second check with the same probe changes
        nothing. */
    method UpdateLockStatusIfNeeded(probe: OpenResult)
      modifies this
      ensures !FileExists() || old(isLocked) == CheckFileLock(probe).0 ==>
        isLocked == old(isLocked) && lockDetails == old(lockDetails) && raised == old(raised)
      ensures FileExists() && old(isLocked) != CheckFileLock(probe).0 ==>
        && isLocked == CheckFileLock(probe).0 && lockDetails == CheckFileLock(probe).1
        && raised == old(raised) + LockProperties + (if old(lockDetails) != CheckFileLock(probe).1 then ["LockDetails"] else [])
      ensures FileExists() ==> isLocked == CheckFileLock(probe).0
      ensures loadedAssembly == old(loadedAssembly) && versionInfo == old(versionInfo)
      ensures assemblyLoadAttempted == old(assemblyLoadAttempted)
    {
      if assemblyPath.None? || !FileExists() {
        return;
      }
      var lock := CheckFileLock(probe);
      if isLocked != lock.0 {
        SetIsLocked(lock.0);
        SetLockDetails(lock.1);
      }
    }

    /** Loads the version info and the assembly at most once, and only for an
        existing file; a failure to read the version info leaves both unset. */
    method LoadAssemblyInformation(load: LoadResult)
      modifies this
      ensures old(assemblyLoadAttempted) || assemblyPath.None? || !FileExists() ==>
        && assemblyLoadAttempted == old(assemblyLoadAttempted)
        && versionInfo == old(versionInfo) && loadedAssembly == old(loadedAssembly)
      ensures !old(assemblyLoadAttempted) && assemblyPath.Some? && FileExists() ==>
        assemblyLoadAttempted && (versionInfo, loadedAssembly) == Loaded(load)
      ensures FileExists() && assemblyPath.Some? ==> assemblyLoadAttempted
      ensures isLocked == old(isLocked) && lockDetails == old(lockDetails) && raised == old(raised)
    {
      if assemblyLoadAttempted || assemblyPath.None? || !FileExists() {
        return;
      }
      assemblyLoadAttempted := true;
      if load.versionInfo.None? {
        versionInfo := None;
        loadedAssembly := None;
      } else {
        versionInfo := load.versionInfo;
        loadedAssembly := load.assembly;
      }
    }

    /** Drops the loaded assembly and version info; the timer is outside the model. */
    method Dispose()
      modifies this
      ensures loadedAssembly.None? && versionInfo.None?
      ensures isLocked == old(isLocked) && lockDetails == old(lockDetails)
      ensures assemblyLoadAttempted == old(assemblyLoadAttempted) && raised == old(raised)
    {
      loadedAssembly := None;
      versionInfo := None;
    }

    // ----- presentation -----

    function FileExistsText(): string
      reads this
    {
      if !FileExists() then "❌ No" else "✓ Yes"
    }

    function FileExistsBrush(): Brush
      reads this
    {
      if !FileExists() then Red else Green
    }

    function FileSizeText(): Option<SizeText>
      reads this
    {
      if !FileExists() then None else Some(FileSizeOf(AssemblyFile().value.length))
    }

    function FileLockedText(): string
      reads this
    {
      if !FileExists() then NA else if isLocked then "🔒 Yes" else "🔓 No"
    }

    function FileLockedBrush(): Brush
      reads this
    {
      if !FileExists() then Gray else if isLocked then Red else Green
    }

    function LastModifiedText(): string
      reads this
    {
      if !FileExists() then NA else AssemblyFile().value.lastWriteTime
    }

    function AssemblyVersionText(): string
      reads this
    {
      if !FileExists() then NA else AssemblyVersionOf(loadedAssembly)
    }

    function FileVersionText(): string
      reads this
    {
      if !FileExists() then NA else FileVersionOf(versionInfo)
    }

    function TargetFrameworkText(): string
      reads this
    {
      if !FileExists() then NA else TargetFrameworkOf(loadedAssembly)
    }

    function AssemblyArchitectureText(): string
      reads this
    {
      if !FileExists() then NA
      else if loadedAssembly.None? then UnableToLoad
      else Architecture(loadedAssembly.value.peKind, loadedAssembly.value.machine)
    }

    function CompanyText(): string
      reads this
    {
      if !FileExists() then NA else CompanyOf(versionInfo)
    }

    method ImplementedInterfacesText() returns (text: string)
      ensures !FileExists() ==> text == NA
      ensures FileExists() ==> text == ImplementedInterfacesOf(loadedAssembly)
    {
      if !FileExists() {
        return NA;
      }
      text := ImplementedInterfaces(loadedAssembly);
    }

    method ComVisibleText() returns (text: string)
      ensures !FileExists() ==> text == NA
      ensures FileExists() ==> text == ComVisibleOf(loadedAssembly)
    {
      if !FileExists() {
        return NA;
      }
      text := ComVisible(loadedAssembly);
    }

    method GuidText() returns (text: string)
      ensures !FileExists() ==> text == NA
      ensures FileExists() ==> text == GuidOf(loadedAssembly)
    {
      if !FileExists() {
        return NA;
      }
      text := Guid(loadedAssembly);
    }

    method ProgIdText() returns (text: string)
      ensures !FileExists() ==> text == NA
      ensures FileExists() ==> text == ProgIdOf(loadedAssembly)
    {
      if !FileExists() {
        return NA;
      }
      text := ProgId(loadedAssembly);
    }

    /** For a null path or a missing file every file and assembly text reads
        "N/A", the existence text "❌ No" and the size is absent; an existing
        file reads "✓ Yes" and shows the lock state. The size and the
        architecture agree with the application's own wherever that does not
        throw or fall through to "Unknown". */
    lemma NotAvailableGuards()
      ensures !FileExists() ==>
        && FileExistsText() == "❌ No" && FileExistsBrush() == Red && FileLockedBrush() == Gray
        && FileSizeText().None? && FileLockedText() == NA && LastModifiedText() == NA
        && AssemblyVersionText() == NA && FileVersionText() == NA && TargetFrameworkText() == NA
        && AssemblyArchitectureText() == NA && CompanyText() == NA
      ensures FileExists() ==>
        && FileExistsText() == "✓ Yes" && FileExistsBrush() == Green
        && FileSizeText() == Some(FileSizeOf(AssemblyFile().value.length))
        && (FileLockedText() == "🔒 Yes" <==> isLocked)
        && (FileLockedBrush() == Red <==> isLocked)
      ensures FileExists() && AssemblyFile().value.length as real <= LargestFormatted ==>
        var size := AssemblyFile().value.length as real;
        Divisions(size) < |Units| && FileSizeText() == Some(SizeText(DividedBy(size, Divisions(size)), Units[Divisions(size)]))
      ensures FileExists() && loadedAssembly.Some? ==>
        var a := loadedAssembly.value;
        ArchitectureAsWritten(a.peKind, a.machine) != UnknownArchitecture(a.peKind, a.machine) ==>
          AssemblyArchitectureText() == ArchitectureAsWritten(a.peKind, a.machine)
      ensures assemblyPath.None? ==> !FileExists()
    {
      if FileExists() {
        FileSizeOfAgrees(AssemblyFile().value.length);
      }
    }
  }

  /** What the loader keeps: both unset when the version info cannot be read. */
  function Loaded(load: LoadResult): (kept: (Option<VersionFacts>, Option<AssemblyFacts>))
    ensures load.versionInfo.None? ==> kept == (None, None)
    ensures load.versionInfo.Some? ==> kept == (load.versionInfo, load.assembly)
  {
    if load.versionInfo.None? then (None, None) else (load.versionInfo, load.assembly)
  }
}
