# OneNote add-in manager: a verified model

OneNote add-in manager is a Windows desktop tool. It lists the COM add-ins
registered for OneNote, enables and disables them, registers a new add-in
from its DLL and unregisters existing ones. It also finds and cleans up
orphaned entries, whose DLL no longer exists. Its panels explain an add-in's
registry keys, inspect its DLL and show Markdown help pages.

This project models that core in Dafny and proves properties of the model.

- **The registry.** It is a value, `Store.Reg`: a map from (hive, key path)
  to the key's ordered sub-key names, plus a map of named values.
  `Store.Registry` is the mutable object around it. Its `denied` hives are
  the ones that refuse writes with a `SecurityException`.
- **The add-in record.** `AddinModel.AddinInfo` is a class whose setters
  log the property-changed notifications they raise. `AddinModel.AddinData`
  is its value snapshot. The derived registry paths, the LoadBehavior texts
  and the registry-key listing are functions of that snapshot.
- **The catalogue services.** `LibRegistryService.RegistryService` (the
  injectable service) and `LibRegistryManager.RegistryManager` (the older
  direct class) are methods over the store. Each is proved against the
  specification functions in `Catalog`: the listing (`Listing`), the write
  scripts (`RunWrites`), the delete scripts (`RunDeletes`) and the
  administrator probe (`AdminProbe`). `Scripts` holds the registry steps
  they share.
- **The two `AddinManager` facades.** `LibAddinManager` is the library one
  over `RegistryService`; `RootAddinManager` is the application one over
  `RegistryManager`. They are proved against `AddinPolicy`: the naming of a
  new add-in, the orphan filter, cleanup and refresh.
- **The view models.** AddIn information (`AddinInfoView`), DLL information
  (`DllInfoView`, with `AssemblyInfo` and `FileSize`), the documentation
  viewer (`DocumentationViewer`) and the enable/disable button converter
  (`EnableDisableConverter`).

Main results:
- Registering then listing gives back the registered add-in: with its GUID
  and DLL path through `RegistryService`, and, when `HKCR\name\CLSID` holds
  no value beforehand, without them through `RegistryManager`, which writes
  no lookup entry (and whose unregistration leaves an earlier one behind).
- Enabling or disabling reads back with only LoadBehavior and the enabled
  flag changed, and every other add-in is unchanged.
- Unregistering takes the add-in off the list even when a later COM delete
  fails. Cleanup leaves no orphan listed.
- When no `HKCR\OneNoteAddinManager_Test` key exists beforehand, the
  administrator probe answers whether HKCR accepts writes and leaves the
  registry as it found it.
- Every store operation keeps the registry a well-formed tree.
- The Markdown renderer splits at block lines, skips code fences and joins
  consecutive text lines into paragraphs.
- Two defects in the DLL panel are described under Findings.

Environment facts become parameters:
- `File.Exists` is a function `string -> bool`.
- `Guid.NewGuid()` is the `guid` argument.
- Opening a DLL for the lock check is an `OpenResult`.
- Loading an assembly is a `LoadResult` / `AssemblyFacts` value.
- Reading a documentation page is a `string -> Lookup` function.

## Model

| member | source | states |
|---|---|---|
| AddinModel.AddinInfo.constructor | Models/AddinInfo.cs:10-16 | a new record has the default field values (empty texts, disabled, LoadBehavior 0) and has raised nothing |
| AddinModel.AddinInfo.FromData | Models/AddinInfo.cs:10-87 | a record built with an object initializer holds exactly the given fields |
| AddinModel.AddinInfo.SetName | Models/AddinInfo.cs:18-27 | only the name changes, and "Name" is raised |
| AddinModel.AddinInfo.SetFriendlyName | Models/AddinInfo.cs:28-37 | only the friendly name changes, and "FriendlyName" is raised |
| AddinModel.AddinInfo.SetDescription | Models/AddinInfo.cs:38-47 | only the description changes, and "Description" is raised |
| AddinModel.AddinInfo.SetDllPath | Models/AddinInfo.cs:48-57 | only the DLL path changes (null allowed), and "DllPath" is raised |
| AddinModel.AddinInfo.SetGuid | Models/AddinInfo.cs:58-67 | only the GUID changes, and "Guid" is raised |
| AddinModel.AddinInfo.SetIsEnabled | Models/AddinInfo.cs:68-78 | only the enabled flag changes, and "IsEnabled" is raised |
| AddinModel.AddinInfo.SetLoadBehavior | Models/AddinInfo.cs:79-87 | only LoadBehavior changes, and "LoadBehavior" is raised |
| AddinModel.DataOf | Models/AddinInfo.cs:18-87 | the snapshot of a list of records has one entry per record, holding that record's fields |
| AddinModel.Status | Models/AddinInfo.cs:89 | "Enabled" exactly when the add-in is enabled, otherwise "Disabled" |
| AddinModel.OfficeAddinRegistryPath | Models/AddinInfo.cs:92 | the HKCU AddIns path prefix followed by exactly the add-in name |
| AddinModel.GuidPath | Models/AddinInfo.cs:93-94 | "Not Available" exactly when there is no GUID; otherwise the prefix followed by exactly the GUID |
| AddinModel.ProgIdRegistryPath | Models/AddinInfo.cs:95 | the HKCR prefix followed by exactly the name |
| AddinModel.ComClassName | Models/AddinInfo.cs:98 | the name followed by ".AddIn" |
| AddinModel.LoadBehaviorExplained | Models/AddinInfo.cs:104-114 | exactly the seven documented values get their own text; any other value reads "Unknown behavior (n)" with its decimal number |
| AddinModel.Pairs | Models/AddinInfo.cs:229 | one "key: value" text per entry, in order |
| AddinModel.ValuesTextInOrder | Models/AddinInfo.cs:229 | no entries give ""; one entry stands alone; two non-empty halves are joined by "; " |
| AddinModel.GuidKeys | Models/AddinInfo.cs:137-198 | an add-in with a GUID gets the five COM keys, in the order AppID, CLSID, InprocServer32, Implemented Categories, ProgID, at `HKEY_CLASSES_ROOT\AppID\{guid}`, `HKEY_CLASSES_ROOT\CLSID\{guid}` and the three sub-keys of the CLSID key |
| AddinModel.FixedPurposesAreNotGuidPurposes | Models/AddinInfo.cs:126-203 | the two keys every add-in has are not COM keys |
| AddinModel.RegistryKeys | Models/AddinInfo.cs:117-214 | the Office key comes first and the ProgID class key last; the five COM keys are present exactly when there is a GUID; 7 keys or 2 |
| Store.Registry.constructor | OneNoteAddinManager.Lib/Services/RegistryService.cs:28-31 | the registry holds the given store and refused hives |
| Store.Registry.OpenSubKey | OneNoteAddinManager.Lib/Services/RegistryService.cs:39 | a base key's sub-key is found exactly when it exists |
| Store.Registry.OpenRelative | OneNoteAddinManager.Lib/Services/RegistryService.cs:45 | a key's sub-key is found exactly when it exists |
| Store.Registry.GetSubKeyNames | OneNoteAddinManager.Lib/Services/RegistryService.cs:43 | the sub-key names of an open key, each naming an existing child; the model lists them in creation order |
| Store.Registry.OpenSubKeyWritable | OneNoteAddinManager.Lib/Services/RegistryService.cs:154 | a missing key gives null; an existing key in a refused hive raises the security error |
| Store.Create | OneNoteAddinManager.Lib/Services/RegistryService.cs:184 | the key and every missing ancestor are created empty and appended to their parents' sub-key lists; an existing key changes nothing; no value changes |
| Store.Set | OneNoteAddinManager.Lib/Services/RegistryService.cs:159 | exactly one named value of an existing key changes, and no key |
| Store.DeleteTree | OneNoteAddinManager.Lib/Services/RegistryService.cs:247 | the key, every key below it and their values go, and the key's name leaves its parent's list; nothing else changes |
| Store.Registry.CreateSubKey | OneNoteAddinManager.Lib/Services/RegistryService.cs:184 | a refused hive raises the security error and changes nothing; otherwise the store is Create of the key, and stays well formed |
| Store.Registry.SetValue | OneNoteAddinManager.Lib/Services/RegistryService.cs:186-188 | the store is Set of the value, and stays well formed |
| Store.Registry.DeleteSubKeyTree | OneNoteAddinManager.Lib/Services/RegistryService.cs:247 | a name denoting the hive is refused; a missing key is no error; a refused hive raises; otherwise the tree goes; the store stays well formed |
| Store.Registry.DeleteSubKey | OneNoteAddinManager.Lib/Services/RegistryService.cs:278 | a missing key is no error; a key that still has sub-keys is refused; otherwise, where writes are allowed, the leaf goes |
| Store.CreateWellFormed | OneNoteAddinManager.Lib/Services/RegistryService.cs:184 | creating a key keeps the registry a tree whose parents list their children |
| Store.DeleteTreeWellFormed | OneNoteAddinManager.Lib/Services/RegistryService.cs:247 | deleting a tree keeps the registry well formed |
| Store.SetWellFormed | OneNoteAddinManager.Lib/Services/RegistryService.cs:159 | setting a value keeps the registry well formed |
| Store.PathOfJoin | OneNoteAddinManager.Lib/Services/RegistryService.cs:154 | a name built as `a\b` denotes the path of `a` followed by the path of `b` |
| Catalog.AddinKeyAt | OneNoteAddinManager.Lib/Services/RegistryService.cs:154 | opening `AddIns\name` from the hive is the same key as opening `name` under the AddIns key |
| Catalog.CodeBaseRoundTrip | OneNoteAddinManager.Lib/Services/RegistryService.cs:128-230 | reading back a written CodeBase turns every '/' of the path into '\'; the path comes back unchanged exactly when it has no '/' |
| Catalog.FindDllPath | OneNoteAddinManager.Lib/Services/RegistryService.cs:118-148 | the 64-bit registration's CodeBase wins, then the WOW64 one, otherwise null |
| Catalog.EntryWith | OneNoteAddinManager.Lib/Services/RegistryService.cs:72-100 | the record carries the key name and the LoadBehavior, and is enabled exactly when LoadBehavior is 3 |
| Catalog.ReadEntry | OneNoteAddinManager.Lib/Services/RegistryService.cs:72-100 | reading fails exactly when LoadBehavior is present but does not convert to a 32-bit integer |
| Catalog.Entry | OneNoteAddinManager.Lib/Services/RegistryService.cs:45-81 | missing values fall back (friendly name to the key name, description to "", LoadBehavior to 0); no record exactly when the key is missing or its LoadBehavior is malformed |
| Strings.IntToStringParses | OneNoteAddinManager.Lib/Services/RegistryService.cs:81 | a LoadBehavior written as the text of a 32-bit integer converts back to that integer |
| Strings.ParseInt32RejectsOtherPadding | OneNoteAddinManager.Lib/Services/RegistryService.cs:81 | `Convert.ToInt32` pads only with U+0009-U+000D and the space: "3" followed by a no-break space, or by '\0' and then a space, is malformed |
| Strings.ParseInt32IgnoresTrailingNuls | OneNoteAddinManager.Lib/Services/RegistryService.cs:81 | '\0' characters at the very end are ignored, so "3\0" and a tab, "3", a space and two '\0' both convert to 3 |
| Catalog.ListEntriesNamed | OneNoteAddinManager.Lib/Services/RegistryService.cs:43-56 | every listed record comes from a sub-key name, and its enabled flag agrees with its LoadBehavior |
| Catalog.FirstByNameListEntries | OneNoteAddinManager.Lib/Services/RegistryService.cs:43-56 | looking a name up in the listing finds exactly that sub-key's record |
| Catalog.FirstByName | Services/AddinManager.cs:88 | `FirstOrDefault` by name: a found record is in the list and has the name; none is found only when no record has it |
| Catalog.SetEnabledOutcome | OneNoteAddinManager.Lib/Services/RegistryService.cs:150-177 | a missing key fails with the wrapped "not found" message; success exactly when the key exists and HKCU accepts writes |
| Catalog.Wrap | OneNoteAddinManager.Lib/Services/RegistryService.cs:201-207 | the catch clauses fail exactly when the registry operation failed |
| Catalog.SetEnabledReadsBack | OneNoteAddinManager.Lib/Services/RegistryService.cs:154-160 | after enabling or disabling, the add-in reads back with the new LoadBehavior and flag and the rest as before, and every other add-in reads back unchanged |
| Catalog.ClsidWritesHive | OneNoteAddinManager.Lib/Services/RegistryService.cs:210-240 | RegisterCLSID makes four key writes, all under HKCR |
| Catalog.ClsidTargetsStart | OneNoteAddinManager.Lib/Services/RegistryService.cs:213-236 | every key RegisterCLSID writes lies under HKCR\AppID or HKCR\CLSID |
| Catalog.InprocCodeBase | OneNoteAddinManager.Lib/Services/RegistryService.cs:230 | the in-process server gets the encoded CodeBase |
| Catalog.AddinsWriteValues | OneNoteAddinManager.Lib/Services/RegistryService.cs:184-188 | the add-in key gets the friendly name, the description and LoadBehavior 3 |
| Catalog.ServiceScriptWrites | OneNoteAddinManager.Lib/Services/RegistryService.cs:179-208 | the service's registration writes the GUID lookup entry and the encoded CodeBase |
| Catalog.RegisterWritesHives | OneNoteAddinManager.Lib/Services/RegistryService.cs:184-198 | both registration scripts start with the AddIns key and afterwards write only under HKCR |
| Catalog.RunRegisterAllowed | OneNoteAddinManager.Lib/Services/RegistryService.cs:179-208 | with both hives writable, registration runs to the end without failure |
| Catalog.ScriptListsAddin | OneNoteAddinManager.Lib/Services/RegistryService.cs:184-188 | after registration the add-in is listed, with its friendly name, its description and LoadBehavior 3 |
| Catalog.EntryWithGuid | OneNoteAddinManager.Lib/Services/RegistryService.cs:84-148 | a lookup entry and an encoded CodeBase give the record that GUID and the decoded path |
| Catalog.EntryWithoutGuid | OneNoteAddinManager.Lib/Services/RegistryService.cs:84-109 | without a lookup entry the record has no GUID and an empty DLL path |
| Catalog.ServiceRegisterRoundTrip | OneNoteAddinManager.Lib/Services/RegistryService.cs:179-208 | RegistryService: register, then list, gives the add-in with the name, friendly name, description, GUID and DLL path it was registered with, enabled with LoadBehavior 3 |
| Catalog.ManagerScriptSkipsLookup | OneNoteAddinManager.Lib/Services/RegistryManager.cs:166-189 | RegistryManager's registration never writes the lookup entry |
| Catalog.ManagerRegisterReadsNoGuid | OneNoteAddinManager.Lib/Services/RegistryManager.cs:58-189 | RegistryManager: when `HKCR\name\CLSID` holds no value beforehand, register, then list, gives the add-in with no GUID and an empty DLL path |
| Catalog.AddinDeleteGone | OneNoteAddinManager.Lib/Services/RegistryService.cs:247 | deleting the add-in key in a writable HKCU succeeds and takes the name off the AddIns key |
| Catalog.RunDeletesKeepGone | OneNoteAddinManager.Lib/Services/RegistryService.cs:247-257 | later deletes never bring a name back |
| Catalog.UnregisterUnlists | OneNoteAddinManager.Lib/Services/RegistryService.cs:242-267 | unregistering through either class, with HKCU writable, leaves the add-in unlisted even when a later delete fails |
| Catalog.UnregisterLookup | OneNoteAddinManager.Lib/Services/RegistryService.cs:257 | RegistryManager leaves the lookup entry as it was; RegistryService removes it when it gets that far |
| Catalog.ManagerDeletesMissLookup | OneNoteAddinManager.Lib/Services/RegistryManager.cs:223-245 | none of RegistryManager's deletes covers the lookup entry |
| Catalog.DeletesKeep | OneNoteAddinManager.Lib/Services/RegistryService.cs:242-267 | deletes that do not cover a key leave it and its values alone |
| Catalog.AdminProbeRestores | OneNoteAddinManager.Lib/Services/RegistryService.cs:269-289 | when no `HKCR\OneNoteAddinManager_Test` key exists beforehand, the probe answers whether HKCR accepts writes and leaves the registry exactly as it was |
| Catalog.CreateDeleteLeaf | OneNoteAddinManager.Lib/Services/RegistryService.cs:274-278 | creating a missing top-level key and deleting it again restores the store |
| Catalog.SetAll | OneNoteAddinManager.Lib/Services/RegistryService.cs:186-188 | a run of SetValue calls leaves each value at its last write, changes no key, and touches only the target key |
| Catalog.ApplyWriteValue | OneNoteAddinManager.Lib/Services/RegistryService.cs:184-188 | one key write leaves its values at its target and changes nothing else |
| Catalog.ApplyWriteGrows | OneNoteAddinManager.Lib/Services/RegistryService.cs:184 | a key write creates its target and drops no key and no sub-key name |
| Catalog.WritesAllValue | OneNoteAddinManager.Lib/Services/RegistryService.cs:179-240 | after a script, every value is the script's last write to it, or what it was before |
| Catalog.RunWritesAllowed | OneNoteAddinManager.Lib/Services/RegistryService.cs:179-240 | a script into writable hives runs to the end without failure |
| Catalog.RunWritesWellFormed | OneNoteAddinManager.Lib/Services/RegistryService.cs:179-240 | a write script keeps the registry well formed |
| Catalog.RunDeletesWellFormed | OneNoteAddinManager.Lib/Services/RegistryService.cs:242-267 | a delete script keeps the registry well formed |
| AddinPolicy.RefreshFinds | Services/AddinManager.cs:87-88 | refreshing finds the record the registry now holds for that sub-key, if any |
| Scripts.OpenAddinsKey | OneNoteAddinManager.Lib/Services/RegistryService.cs:39 | the AddIns key is opened exactly when it exists |
| Scripts.ReadAddinKey | OneNoteAddinManager.Lib/Services/RegistryService.cs:45-50 | one listed sub-key read into a record: exactly its catalog entry, and nothing when the sub-key does not open |
| Scripts.OpenAddinKeyWritable | OneNoteAddinManager.Lib/Services/RegistryService.cs:154 | the add-in's key for writing: null when missing, the security error when HKCU refuses |
| Scripts.WriteLoadBehavior | OneNoteAddinManager.Lib/Services/RegistryService.cs:152-176 | the outcome is SetEnabledOutcome; on success LoadBehavior is 3 or 0, otherwise nothing changes |
| Scripts.WriteKey | OneNoteAddinManager.Lib/Services/RegistryService.cs:184-188 | create the key, then set its values in order; a refused hive fails at CreateSubKey and writes nothing |
| Scripts.RegisterClsid | OneNoteAddinManager.Lib/Services/RegistryService.cs:210-240 | the four COM key writes in order, stopping at the first refused one |
| LibRegistryService.RegistryService.constructor | OneNoteAddinManager.Lib/Services/RegistryService.cs:28-31 | the service keeps the registry it is given |
| LibRegistryService.RegistryService.New | OneNoteAddinManager.Lib/Services/RegistryService.cs:28-31 | a null registry is refused with ArgumentNullException("registry") |
| LibRegistryService.RegistryService.GetInstalledAddins | OneNoteAddinManager.Lib/Services/RegistryService.cs:33-70 | one fresh record per readable AddIns sub-key, in sub-key order, equal to Listing |
| LibRegistryService.RegistryService.SetAddinEnabled | OneNoteAddinManager.Lib/Services/RegistryService.cs:150-177 | on success LoadBehavior 3 or 0 is written and mirrored into the record, and its two notifications are raised; on failure nothing changes |
| LibRegistryService.RegistryService.RegisterAddin | OneNoteAddinManager.Lib/Services/RegistryService.cs:179-208 | the AddIns key, the COM registration and the lookup entry, stopping at the first refused write, with the failure wrapped |
| LibRegistryService.RegistryService.UnregisterAddin | OneNoteAddinManager.Lib/Services/RegistryService.cs:242-267 | deletes the AddIns tree, then the AppID and CLSID trees when there is a GUID, then HKCR\name, stopping at the first failure |
| LibRegistryService.RegistryService.IsRunningAsAdministrator | OneNoteAddinManager.Lib/Services/RegistryService.cs:269-289 | the scratch-key probe, as AdminProbe |
| LibRegistryManager.RegistryManager.constructor | OneNoteAddinManager.Lib/Services/RegistryManager.cs:12-17 | the manager works on the registry it is given |
| LibRegistryManager.RegistryManager.GetInstalledAddins | OneNoteAddinManager.Lib/Services/RegistryManager.cs:19-56 | one fresh record per readable AddIns sub-key, in order, equal to Listing |
| LibRegistryManager.RegistryManager.SetAddinEnabled | OneNoteAddinManager.Lib/Services/RegistryManager.cs:137-164 | as RegistryService.SetAddinEnabled |
| LibRegistryManager.RegistryManager.RegisterAddin | OneNoteAddinManager.Lib/Services/RegistryManager.cs:166-189 | the AddIns key, then the COM registration (no lookup entry), stopping at the first refused write |
| LibRegistryManager.RegistryManager.UnregisterAddin | OneNoteAddinManager.Lib/Services/RegistryManager.cs:223-245 | deletes the AddIns tree, then the AppID and CLSID trees when there is a GUID, stopping at the first failure |
| LibRegistryManager.RegistryManager.IsRunningAsAdministrator | OneNoteAddinManager.Lib/Services/RegistryManager.cs:247-267 | the scratch-key probe, as AdminProbe |
| AddinPolicy.FileName | OneNoteAddinManager.Lib/Services/AddinManager.cs:54 | `Path.GetFileName`: the longest tail of the path without a separator |
| AddinPolicy.LastIndexOf | OneNoteAddinManager.Lib/Services/AddinManager.cs:54 | the last position holding the character, or -1 |
| AddinPolicy.FileNameWithoutExtension | OneNoteAddinManager.Lib/Services/AddinManager.cs:54 | `Path.GetFileNameWithoutExtension`: a prefix of the file name without separators, cut at its last '.', or the whole file name when it has no '.' |
| AddinPolicy.StemOfPath | OneNoteAddinManager.Lib/Services/AddinManager.cs:54 | `dir\My.Addin.dll` gives `My.Addin`: every dot of the stem kept, the extension dropped |
| AddinPolicy.BareFileName | OneNoteAddinManager.Lib/Services/AddinManager.cs:54 | a path with no separator and no dot names the add-in after itself |
| AddinPolicy.NewFriendlyName | OneNoteAddinManager.Lib/Services/AddinManager.cs:55 | the name with every '.' turned into a space, and every other character kept |
| AddinPolicy.NewAddinWrites | OneNoteAddinManager.Lib/Services/AddinManager.cs:53-61 | the AddIns key of the DLL's stem with its friendly name and description first, then only HKCR keys: four COM keys, and the lookup entry last for RegistryService |
| AddinPolicy.NewAddinRoundTrip | OneNoteAddinManager.Lib/Services/AddinManager.cs:46-62 | registering `dir\stem.ext` through RegistryService lists `stem` with its friendly name, "Loaded from" description, GUID and path, enabled |
| AddinPolicy.NewAddinNoGuid | Services/AddinManager.cs:33-49 | when `HKCR\stem\CLSID` holds no value beforehand, registering `dir\stem.ext` through RegistryManager lists `stem` with no GUID and an empty DLL path |
| AddinPolicy.Orphaned | OneNoteAddinManager.Lib/Services/AddinManager.cs:74-78 | a record is kept exactly when its DLL path is set and names no existing file |
| AddinPolicy.IsOrphan | OneNoteAddinManager.Lib/Services/AddinManager.cs:77 | the orphan test: a non-empty DLL path naming no existing file (a predicate; Orphaned states its use) |
| AddinPolicy.OrphanedAppend | OneNoteAddinManager.Lib/Services/AddinManager.cs:77 | the filter keeps the listing order |
| AddinPolicy.WhereOrphan | OneNoteAddinManager.Lib/Services/AddinManager.cs:77 | the orphan records, as the same objects |
| AddinPolicy.UnregisterGone | OneNoteAddinManager.Lib/Services/AddinManager.cs:64-67 | one unregistration, with HKCU writable, removes the name even when a later delete fails |
| AddinPolicy.UnregisterEach | OneNoteAddinManager.Lib/Services/AddinManager.cs:80-95 | each record's delete script runs on the store the previous one left, a failure ending only that record's script (a definition; the lemmas below state its properties) |
| AddinPolicy.UnregisterEachAppend | OneNoteAddinManager.Lib/Services/AddinManager.cs:83-94 | the records are unregistered one after another in list order: cleaning up `a + b` is cleaning up `a`, then `b` |
| AddinPolicy.UnregisterEachGone | OneNoteAddinManager.Lib/Services/AddinManager.cs:80-95 | cleanup goes on after a failure: every record handed to it ends up gone |
| AddinPolicy.UnregisterEachWellFormed | OneNoteAddinManager.Lib/Services/AddinManager.cs:80-95 | cleanup keeps the registry well formed |
| AddinPolicy.CleanupUnlists | OneNoteAddinManager.Lib/Services/AddinManager.cs:80-95 | after cleanup no orphan is listed any more |
| AddinPolicy.Refreshed | OneNoteAddinManager.Lib/Services/AddinManager.cs:97-107 | the listed record's enabled flag, LoadBehavior and DLL path, with every other field kept |
| AddinPolicy.RefreshAgrees | OneNoteAddinManager.Lib/Services/AddinManager.cs:97-107 | after a refresh the enabled flag agrees with the stored LoadBehavior, and a missing LoadBehavior reads as 0 |
| LibAddinManager.AddinManager.constructor | OneNoteAddinManager.Lib/Services/AddinManager.cs:19-22 | the manager keeps its service |
| LibAddinManager.AddinManager.New | OneNoteAddinManager.Lib/Services/AddinManager.cs:19-22 | a null service is refused with ArgumentNullException("registryService") |
| LibAddinManager.AddinManager.GetAllAddins | OneNoteAddinManager.Lib/Services/AddinManager.cs:31-34 | the service's listing |
| LibAddinManager.AddinManager.EnableAddin | OneNoteAddinManager.Lib/Services/AddinManager.cs:36-39 | LoadBehavior 3 written and the record enabled, or nothing changed on failure |
| LibAddinManager.AddinManager.DisableAddin | OneNoteAddinManager.Lib/Services/AddinManager.cs:41-44 | LoadBehavior 0 written and the record disabled, or nothing changed on failure |
| LibAddinManager.AddinManager.RegisterNewAddin | OneNoteAddinManager.Lib/Services/AddinManager.cs:46-62 | a missing DLL raises "DLL file not found" and writes nothing; otherwise the RegistryService registration under the file name |
| LibAddinManager.AddinManager.UnregisterAddin | OneNoteAddinManager.Lib/Services/AddinManager.cs:64-67 | the RegistryService deletes for the record |
| LibAddinManager.AddinManager.IsRunningAsAdministrator | OneNoteAddinManager.Lib/Services/AddinManager.cs:69-72 | the probe, as AdminProbe |
| LibAddinManager.AddinManager.FindOrphanedEntries | OneNoteAddinManager.Lib/Services/AddinManager.cs:74-78 | the orphaned records of the listing, in listing order |
| LibAddinManager.AddinManager.CleanupOrphanedEntries | OneNoteAddinManager.Lib/Services/AddinManager.cs:80-95 | every orphan unregistered in turn, each failure swallowed |
| LibAddinManager.AddinManager.UnregisterEvery | OneNoteAddinManager.Lib/Services/AddinManager.cs:84-94 | the `foreach` with its `try`, as UnregisterEach |
| LibAddinManager.AddinManager.RefreshAddinStatus | OneNoteAddinManager.Lib/Services/AddinManager.cs:97-107 | copies three fields from the first listed namesake, raising their notifications; without one nothing changes |
| RootAddinManager.AddinManager.constructor | Services/AddinManager.cs:13-16 | the manager works through a RegistryManager on the given registry |
| RootAddinManager.AddinManager.GetAllAddins | Services/AddinManager.cs:18-21 | the manager's listing |
| RootAddinManager.AddinManager.EnableAddin | Services/AddinManager.cs:23-26 | LoadBehavior 3 written and the record enabled, or nothing changed on failure |
| RootAddinManager.AddinManager.DisableAddin | Services/AddinManager.cs:28-31 | LoadBehavior 0 written and the record disabled, or nothing changed on failure |
| RootAddinManager.AddinManager.RegisterNewAddin | Services/AddinManager.cs:33-49 | a missing DLL raises "DLL file not found" and writes nothing; otherwise the RegistryManager registration |
| RootAddinManager.AddinManager.UnregisterAddin | Services/AddinManager.cs:51-54 | the RegistryManager deletes for the record |
| RootAddinManager.AddinManager.IsRunningAsAdministrator | Services/AddinManager.cs:57-60 | the probe, as AdminProbe |
| RootAddinManager.AddinManager.FindOrphanedEntries | Services/AddinManager.cs:62-66 | the orphaned records of the listing, in listing order |
| RootAddinManager.AddinManager.CleanupOrphanedEntries | Services/AddinManager.cs:68-83 | every orphan unregistered in turn, each failure swallowed |
| RootAddinManager.AddinManager.UnregisterEvery | Services/AddinManager.cs:71-82 | the `foreach` with its `try`, as UnregisterEach |
| RootAddinManager.AddinManager.RefreshAddinStatus | Services/AddinManager.cs:85-95 | copies three fields from the first listed namesake; without one nothing changes |
| EnableDisableConverter.Convert | OneNoteAddinManager.App/Converters/EnableDisableConverter.cs:9-16 | "Disable" exactly for a boxed true; "Enable" for false and for any non-bool |
| EnableDisableConverter.ConvertBack | OneNoteAddinManager.App/Converters/EnableDisableConverter.cs:18-21 | always NotImplementedException |
| EnableDisableConverter.ConvertMatchesToggleButton | MainWindow.xaml.cs:128 | the converter gives the label the main window sets by hand, and "Disable" exactly when the status reads "Enabled" |
| AddinInfoView.ExtractAddinNameFromPath | OneNoteAddinManager.App/ViewModels/AddInInfoViewModel.cs:52-57 | never null and contains no '\'; the whole path when it has no '\', otherwise the text after one of its '\' characters, which with no '\' left in it is the text after the last one |
| AddinInfoView.ExtractInvertsOfficePath | OneNoteAddinManager.App/ViewModels/AddInInfoViewModel.cs:52-57 | an add-in's name comes back from its Office registry path |
| AddinInfoView.FindIgnoreCase | OneNoteAddinManager.App/ViewModels/AddInInfoViewModel.cs:36 | `List.Find` ignoring case: the first matching index, or -1 when none matches |
| AddinInfoView.LoadedAddinFindsListed | OneNoteAddinManager.App/ViewModels/AddInInfoViewModel.cs:21-50 | a panel opened on a listed add-in's path shows that add-in |
| AddinInfoView.LoadedAddinIsListed | OneNoteAddinManager.App/ViewModels/AddInInfoViewModel.cs:21-50 | whatever the panel shows is a listed add-in whose name matches the last path segment, ignoring case |
| AddinInfoView.RelayCommand.constructor | OneNoteAddinManager.App/ViewModels/AddInInfoViewModel.cs:195-199 | keeps the action and the predicate |
| AddinInfoView.RelayCommand.New | OneNoteAddinManager.App/ViewModels/AddInInfoViewModel.cs:195-199 | a null action is refused with ArgumentNullException("execute") |
| AddinInfoView.RelayCommand.CanExecute | OneNoteAddinManager.App/ViewModels/AddInInfoViewModel.cs:207 | the predicate's answer, and true without a predicate |
| AddinInfoView.RelayCommand.Execute | OneNoteAddinManager.App/ViewModels/AddInInfoViewModel.cs:209 | runs the action once |
| AddinInfoView.RelayCommandOf.constructor | OneNoteAddinManager.App/ViewModels/AddInInfoViewModel.cs:218-222 | keeps the action and the predicate |
| AddinInfoView.RelayCommandOf.New | OneNoteAddinManager.App/ViewModels/AddInInfoViewModel.cs:218-222 | a null action is refused with ArgumentNullException("execute") |
| AddinInfoView.RelayCommandOf.CanExecute | OneNoteAddinManager.App/ViewModels/AddInInfoViewModel.cs:230-235 | false for a parameter that is not a T; otherwise the predicate's answer, and true without one |
| AddinInfoView.RelayCommandOf.Execute | OneNoteAddinManager.App/ViewModels/AddInInfoViewModel.cs:237-241 | hands a T parameter to the action and ignores anything else |
| AddinInfoView.LoadAddinInfo | OneNoteAddinManager.App/ViewModels/AddInInfoViewModel.cs:26-42 | returns a fresh record of exactly the add-in LoadedAddin picks from the listing, and null exactly when it picks none |
| AddinInfoView.AddInInfoViewModel.constructor | OneNoteAddinManager.App/ViewModels/AddInInfoViewModel.cs:21-50 | the add-in is loaded exactly when LoadedAddin finds one; the registry-editor and copy commands are enabled exactly for a usable path |
| AddinInfoView.AddInInfoViewModel.Fallbacks | OneNoteAddinManager.App/ViewModels/AddInInfoViewModel.cs:60-85 | without an add-in every field reads "Not Available"; the path reads "Not Available" only when null; a path is usable exactly when non-null and non-empty |
| AddinInfoView.AddInInfoViewModel.LoadedImpliesValidPath | OneNoteAddinManager.App/ViewModels/AddInInfoViewModel.cs:31-85 | a panel whose add-in was found has a usable registry path |
| DllInfoView.CheckFileLock | OneNoteAddinManager.App/ViewModels/DllInfoViewModel.cs:592-617 | locked exactly for an access or I/O error; each outcome has its explanation, "in use" when the message says so |
| DllInfoView.Loaded | OneNoteAddinManager.App/ViewModels/DllInfoViewModel.cs:252-273 | a failed version-info read leaves both unset; otherwise the version info and the assembly (or null) |
| DllInfoView.DllInfoViewModel.constructor | OneNoteAddinManager.App/ViewModels/DllInfoViewModel.cs:30-62 | for an existing file: the lock state, the loaded information and the property notifications; otherwise nothing is loaded |
| DllInfoView.DllInfoViewModel.SetIsLocked | OneNoteAddinManager.App/ViewModels/DllInfoViewModel.cs:67-80 | stores the flag and raises the lock properties only when it changed |
| DllInfoView.DllInfoViewModel.SetLockDetails | OneNoteAddinManager.App/ViewModels/DllInfoViewModel.cs:82-93 | stores the details and raises "LockDetails" only when they changed |
| DllInfoView.DllInfoViewModel.UpdateLockStatusIfNeeded | OneNoteAddinManager.App/ViewModels/DllInfoViewModel.cs:570-590 | a changed lock flag replaces the flag and the details; an unchanged one keeps the old details; afterwards the flag agrees with the probe |
| DllInfoView.DllInfoViewModel.LoadAssemblyInformation | OneNoteAddinManager.App/ViewModels/DllInfoViewModel.cs:245-274 | loads at most once, and only for an existing file |
| DllInfoView.DllInfoViewModel.Dispose | OneNoteAddinManager.App/ViewModels/DllInfoViewModel.cs:632-641 | drops the version info and the assembly, and changes nothing else |
| DllInfoView.DllInfoViewModel.ImplementedInterfacesText | OneNoteAddinManager.App/ViewModels/DllInfoViewModel.cs:123-130 | "N/A" without a file, otherwise the interface summary |
| DllInfoView.DllInfoViewModel.ComVisibleText | OneNoteAddinManager.App/ViewModels/DllInfoViewModel.cs:150-157 | "N/A" without a file, otherwise the ComVisible summary |
| DllInfoView.DllInfoViewModel.GuidText | OneNoteAddinManager.App/ViewModels/DllInfoViewModel.cs:159-166 | "N/A" without a file, otherwise the GUID summary |
| DllInfoView.DllInfoViewModel.ProgIdText | OneNoteAddinManager.App/ViewModels/DllInfoViewModel.cs:168-175 | "N/A" without a file, otherwise the ProgId summary |
| DllInfoView.DllInfoViewModel.NotAvailableGuards | OneNoteAddinManager.App/ViewModels/DllInfoViewModel.cs:96-230 | without a file every text reads "N/A", the existence text "❌ No" in red, and there is no size; an existing file reads "✓ Yes", shows "🔒 Yes" and red exactly when locked, and shows the size and architecture the application shows wherever it neither throws (sizes up to 512·1024^4 bytes) nor falls through to "Unknown" |
| AssemblyInfo.Architecture | OneNoteAddinManager.App/ViewModels/DllInfoViewModel.cs:401-427 | agrees with the table as written wherever that names an architecture, and reads the flags as tests: a 32-bit requirement on I386 is x86, IL code on I386 without it is Any CPU, and IL code on AMD64 is x64, whatever other flags are set |
| AssemblyInfo.ArchitectureAsWritten | OneNoteAddinManager.App/ViewModels/DllInfoViewModel.cs:411-419 | each architecture name appears exactly for its one exact flag value and machine (x86 only for `Required32Bit` alone on I386); every other pair reads "Unknown (flags, machine)" |
| AssemblyInfo.KindsText | OneNoteAddinManager.App/ViewModels/DllInfoViewModel.cs:418 | `PortableExecutableKinds.ToString()`: never empty, the zero value by its name, and ILOnly first whenever it is set |
| AssemblyInfo.ArchitectureAsWrittenMissesTwoFlagKinds | OneNoteAddinManager.App/ViewModels/DllInfoViewModel.cs:411-419 | the x86 and x64 flag sets compilers emit fall through the table as written to "Unknown", while the flag tests name them |
| AssemblyInfo.UnknownX86Text | OneNoteAddinManager.App/ViewModels/DllInfoViewModel.cs:418 | the unknown case spells out the flags in `Enum.ToString` order |
| AssemblyInfo.AssemblyVersionOf | OneNoteAddinManager.App/ViewModels/DllInfoViewModel.cs:276-286 | "Unable to load assembly" without an assembly, "Unknown" without a version, otherwise the version |
| AssemblyInfo.FileVersionOf | OneNoteAddinManager.App/ViewModels/DllInfoViewModel.cs:293-302 | "Unable to read version" without version info, "Unknown" for a null file version, otherwise the file version |
| AssemblyInfo.TargetFrameworkOf | OneNoteAddinManager.App/ViewModels/DllInfoViewModel.cs:309-328 | "Unable to load assembly" without an assembly; the target framework attribute, else ".NET Framework " followed by the image runtime version |
| AssemblyInfo.CompanyOf | OneNoteAddinManager.App/ViewModels/DllInfoViewModel.cs:429-438 | never empty: "Unable to read version info" without version info, "Not specified" for a null or empty company, otherwise the company |
| AssemblyInfo.ImplementedInterfacesOf | OneNoteAddinManager.App/ViewModels/DllInfoViewModel.cs:335-399 | "Unable to load assembly" without an assembly, "Error: " and the message when `GetTypes` throws |
| AssemblyInfo.ComVisibleOf | OneNoteAddinManager.App/ViewModels/DllInfoViewModel.cs:445-489 | "Unable to load assembly" without an assembly, "Error: " and the message when `GetTypes` throws |
| AssemblyInfo.GuidOf | OneNoteAddinManager.App/ViewModels/DllInfoViewModel.cs:491-535 | "Unable to load assembly" without an assembly, "Error: " and the message when `GetTypes` throws |
| AssemblyInfo.ProgIdOf | OneNoteAddinManager.App/ViewModels/DllInfoViewModel.cs:537-566 | "Unable to load assembly" without an assembly, "Error: " and the message when `GetTypes` throws |
| AssemblyInfo.CollectedMembers | OneNoteAddinManager.App/ViewModels/DllInfoViewModel.cs:345-380 | a name is collected exactly when it passes the test and a public class implements it |
| AssemblyInfo.DedupMembers | OneNoteAddinManager.App/ViewModels/DllInfoViewModel.cs:363-366 | `Contains` before `Add` keeps every name once and no name twice |
| AssemblyInfo.CollectInterfaces | OneNoteAddinManager.App/ViewModels/DllInfoViewModel.cs:350-378 | the inner loop: the Office and COM lists grow by the de-duplicated matches of one type |
| AssemblyInfo.ClassifyInterfaces | OneNoteAddinManager.App/ViewModels/DllInfoViewModel.cs:341-380 | the outer loop: the de-duplicated Office and COM names of all inspected classes, in first-seen order |
| AssemblyInfo.ImplementedInterfaces | OneNoteAddinManager.App/ViewModels/DllInfoViewModel.cs:335-399 | the interface text of the assembly |
| AssemblyInfo.InterfacesClassified | OneNoteAddinManager.App/ViewModels/DllInfoViewModel.cs:382-391 | the Office list wins whenever one exists, the COM list shows only without it, and "No relevant interfaces found" when neither |
| AssemblyInfo.CollectedEmpty | OneNoteAddinManager.App/ViewModels/DllInfoViewModel.cs:382-386 | the list is empty exactly when no inspected class implements a matching interface |
| AssemblyInfo.Labelled | OneNoteAddinManager.App/ViewModels/DllInfoViewModel.cs:467-476 | one "Name: value" text per selected type with the attribute; empty exactly when there is none |
| AssemblyInfo.LabelTypes | OneNoteAddinManager.App/ViewModels/DllInfoViewModel.cs:467-476 | the `foreach` over the types, as Labelled |
| AssemblyInfo.AttributeSummaryEmpty | OneNoteAddinManager.App/ViewModels/DllInfoViewModel.cs:478-483 | "Not specified" exactly when there is neither an assembly-level nor a type attribute |
| AssemblyInfo.ComVisible | OneNoteAddinManager.App/ViewModels/DllInfoViewModel.cs:445-489 | the ComVisible text of the assembly |
| AssemblyInfo.Guid | OneNoteAddinManager.App/ViewModels/DllInfoViewModel.cs:491-535 | the GUID text of the assembly |
| AssemblyInfo.ProgId | OneNoteAddinManager.App/ViewModels/DllInfoViewModel.cs:537-566 | the ProgId text of the assembly |
| AssemblyInfo.ComVisibleNotSpecified | OneNoteAddinManager.App/ViewModels/DllInfoViewModel.cs:445-489 | the ComVisible text reads "Not specified" exactly when neither the assembly nor a public type carries the attribute |
| AssemblyInfo.GuidNotSpecified | OneNoteAddinManager.App/ViewModels/DllInfoViewModel.cs:491-535 | the GUID text reads "Not specified" exactly when neither the assembly nor a public class or interface carries the attribute |
| AssemblyInfo.ProgIdNotSpecified | OneNoteAddinManager.App/ViewModels/DllInfoViewModel.cs:537-566 | the ProgId text reads "Not specified" exactly when no public class carries the attribute |
| FileSize.RoundHalfEven | OneNoteAddinManager.App/ViewModels/DllInfoViewModel.cs:624 | `Math.Round(decimal)`: within a half of the input, with a tie going to the even integer |
| FileSize.RoundReachesOne | OneNoteAddinManager.App/ViewModels/DllInfoViewModel.cs:624 | the loop test holds exactly when the amount exceeds 512 |
| FileSize.DivisionsAtMost | OneNoteAddinManager.App/ViewModels/DllInfoViewModel.cs:624-628 | at most k divisions happen exactly for amounts up to 512·1024^k |
| FileSize.DividedInRange | OneNoteAddinManager.App/ViewModels/DllInfoViewModel.cs:624-628 | after the divisions an amount above 512 lies in (0.5, 512] |
| FileSize.FormatFileSizeAsWritten | OneNoteAddinManager.App/ViewModels/DllInfoViewModel.cs:619-630 | as written: succeeds exactly when at most four divisions happen, and otherwise throws IndexOutOfRange |
| FileSize.AsWrittenFailsAbove512Tebibytes | OneNoteAddinManager.App/ViewModels/DllInfoViewModel.cs:621-629 | as written, formatting fails exactly above 512·1024^4 bytes; one pebibyte fails |
| FileSize.FormatFileSize | OneNoteAddinManager.App/ViewModels/DllInfoViewModel.cs:619-630 | the corrected loop, also bounded by the last unit, as FileSizeOf |
| FileSize.FileSizeOfAgrees | OneNoteAddinManager.App/ViewModels/DllInfoViewModel.cs:619-630 | agrees with the source wherever the source does not throw; up to 512 bytes stays in B; a larger amount shows a number in (0.5, 512] |
| FileSize.FileSizeExamples | OneNoteAddinManager.App/ViewModels/DllInfoViewModel.cs:619-630 | 20 and 512 bytes stay in B with amounts 20 and 512, and 1536 bytes is 1.5 KB |
| DocumentationViewer.ProcessBoldTextUnmarked | ViewModels/DocumentationViewerViewModel.cs:275-279 | after stripping, no "**" is left |
| DocumentationViewer.ProcessBoldInlines | ViewModels/DocumentationViewerViewModel.cs:281-303 | the loop gives InlineRuns: the pieces between markers, alternately plain and bold, with empty pieces dropped |
| DocumentationViewer.InlineRunsSpellText | ViewModels/DocumentationViewerViewModel.cs:278-303 | the runs spell out the text with its markers removed, and no run is empty |
| DocumentationViewer.UnmarkedSingleRun | ViewModels/DocumentationViewerViewModel.cs:281-303 | a non-empty text without markers is a single plain run |
| DocumentationViewer.MarkedWordIsBold | ViewModels/DocumentationViewerViewModel.cs:281-303 | `**w**` is a single bold run of w |
| DocumentationViewer.RenderMarkdown | ViewModels/DocumentationViewerViewModel.cs:107-199 | the line loop gives Render: the elements of the content in order |
| DocumentationViewer.BreakLineSeparates | ViewModels/DocumentationViewerViewModel.cs:118-177 | a blank, header or list line splits the page: the part before, that line's elements, then the part after |
| DocumentationViewer.FenceLineSkipped | ViewModels/DocumentationViewerViewModel.cs:181-184 | a code-fence line renders as if absent |
| DocumentationViewer.RenderedParagraphsPlain | ViewModels/DocumentationViewerViewModel.cs:187-273 | every rendered paragraph is one plain run that is not all whitespace |
| DocumentationViewer.TextLinesJoin | ViewModels/DocumentationViewerViewModel.cs:187-198 | consecutive text lines render as one paragraph of their stripped texts joined by spaces |
| DocumentationViewer.Page | ViewModels/DocumentationViewerViewModel.cs:55-105 | no topic gives an empty page; a found document renders; a missing or failing one gives one message |
| DocumentationViewer.DocumentationViewerViewModel.constructor | ViewModels/DocumentationViewerViewModel.cs:22-25 | starts with an empty page and no document |
| DocumentationViewer.DocumentationViewerViewModel.SetCurrentDocumentId | ViewModels/DocumentationViewerViewModel.cs:27-43 | the same value changes nothing; a new value is stored, announced, loaded, and reported when non-null |
| DocumentationViewer.DocumentationViewerViewModel.LoadDocumentation | ViewModels/DocumentationViewerViewModel.cs:55-93 | the page becomes Page of the topic |
| DocumentationViewer.DocumentationViewerViewModel.ShowErrorMessage | ViewModels/DocumentationViewerViewModel.cs:95-105 | the page becomes the one message |
| DocumentationViewer.DocumentationViewerViewModel.DisplaySimpleMarkdown | ViewModels/DocumentationViewerViewModel.cs:107-199 | the page becomes the rendered content |
| DocumentationViewer.DocumentationViewerViewModel.Dispose | ViewModels/DocumentationViewerViewModel.cs:310-313 | the page is cleared |

## Left out

- Reading the registry never fails in the model. Only writes to a refused hive raise, as the `SecurityException` the catch clauses name.
- Key and value names are compared exactly; the real registry ignores case.
- Store.Registry.GetSubKeyNames: lists the children in the order `Store.Create` added them. The Windows registry documents no enumeration order (in practice it lists names sorted), so creation order is the model's choice. No proved property depends on it beyond listings following `GetSubKeyNames`.
- Catalog.ToInt32: a text value converts as in the invariant culture; the current culture's sign symbols are not modelled.
- The outer `catch (Exception)` around listing in `GetInstalledAddins` is left out; the model's reads do not throw.
- `RegistryManager` and the application `AddinManager` open the machine's registry themselves; here the registry is a constructor argument.
- The parameterless constructors of `AddinInfo` and `RegistryKeyInfo` are modelled; the notifications an object initializer raises before anyone listens are not.
- Drive-relative and UNC path forms in `Path.GetFileName` are not modelled; only '\' and '/' separate.
- `Guid.NewGuid()` is the `guid` argument and `File.Exists` the `fileExists` function; the file system and GUID generation are outside the model.
- The `IRegistryService` interface is not modelled separately; its one implementation is.
- `AddInInfoViewModel.CanOpenDllFolder` and the command handlers (message boxes, `Process.Start` of regedit and Explorer, the clipboard) are UI side effects and are left out. Their commands' `CanExecute` gating is modelled.
- `RelayCommand.CanExecuteChanged` is a WPF event and is left out.
- The DLL panel's dispatcher timer is left out. `UpdateLockStatusIfNeeded` is the step it runs, with the probe result as a parameter.
- DllInfoView.DllInfoViewModel.AssemblyArchitectureText: shows AssemblyInfo.Architecture, the corrected reading of the PE flags, instead of the exact-value switch of DllInfoViewModel.cs:411-419, so an ordinary x86 or x64 DLL reads "x86 (32-bit)" or "x64 (64-bit)" where the application shows "Unknown (...)". The as-written switch is AssemblyInfo.ArchitectureAsWritten (see Findings).
- DllInfoView.DllInfoViewModel.FileSizeText: shows FileSize.FileSizeOf, the corrected size bounded at TB, so a file above 512·1024^4 bytes shows a TB amount where the application's `FormatFileSize` throws `IndexOutOfRangeException`. The as-written loop is FileSize.FormatFileSizeAsWritten (see Findings).
- DllInfoView.DllInfoViewModel.NotAvailableGuards: ties the size and architecture to the application's texts only where those exist; above 512·1024^4 bytes, and for flag sets the switch misses, it states the corrected texts above, not the exception or "Unknown (...)".
- AddinInfoView.FindIgnoreCase: the case-insensitive name test folds only the ASCII letters 'a'-'z'; `StringComparison.OrdinalIgnoreCase` also folds other letters (so "Ä.AddIn" matches "ä.addin" in the application but not in the model).
- `FileSizeText` and `LastModifiedText` formatting (`n1`, `DateTime` format, culture) is left out. The size is an exact rational amount with its unit.
- FileSize.FormatFileSize: `decimal` precision is not modelled; the amounts are exact rationals.
- Reflection is the `AssemblyFacts` value. Only `GetTypes` may fail; other reflection exceptions and `FileInfo.Exists` caching are not modelled.
- Documentation pages come from a `string -> Lookup` function. The embedded resource, the file fallback and their I/O are merged into `Found`, and a read failure is `LoadFailed`.
- TextBlock styling, fonts and margins are left out. `AddHeader1`-`AddHeader3`, `AddListItem` and `AddParagraph` become element constructors.
- The `CollectionChanged` events of the page collection are left out, and so is the private `MarkdownContent` setter, which nothing calls.
- Paragraph text has its "**" markers removed before `AddParagraph` calls `ProcessBoldInlines`, so a paragraph never shows a bold run. `RenderedParagraphsPlain` proves this. The model keeps the behaviour as written.

## Findings

| source | as written | input that shows it | evidently intended | confidence | as-written member | corrected member |
|---|---|---|---|---|---|---|
| OneNoteAddinManager.App/ViewModels/DllInfoViewModel.cs:621-629 | the division loop is not bounded by the five units, so `sizes[order]` indexes past "TB" | a file of 1024^5 bytes (1 PiB); any size above 512·1024^4 bytes | stop at "TB" and show larger sizes in TB | not executed | FileSize.FormatFileSizeAsWritten | FileSize.FormatFileSize |
| OneNoteAddinManager.App/ViewModels/DllInfoViewModel.cs:411-419 | the switch matches exact flag values, but x86 and x64 assemblies carry two flags | `{ILOnly, Required32Bit}` on I386 and `{ILOnly, PE32Plus}` on AMD64 read "Unknown (...)" | test the flags, naming them x86 and x64 | not executed | AssemblyInfo.ArchitectureAsWritten | AssemblyInfo.Architecture |
