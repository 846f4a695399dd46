# HorneroZoneIdentifier core in Dafny

HorneroZoneIdentifier is a Windows tray agent. It strips the `Zone.Identifier` alternate data
stream, the "downloaded from the internet" marker, from files in a set of watched folders. This
project models two parts of it:

- **The cleaning engine (`ZoneIdentifierCleaner`)**, in module `ZoneIdentifier`. It has three parts:
  - a registry of monitored folders, each with at most one file-system watcher, and exactly one
    unless starting it threw (`AddPath`, `RemovePath`, `MonitoredPaths`, `Dispose`);
  - the decision `TryRemoveZoneIdentifier` makes for one file;
  - the bulk sweep `CleanFolder`, which counts successful removals.
- **The configuration dialog's list editing (`FolderManagerForm`)**, in module `FolderManager`. It
  covers adding and removing folders, normalising and adding extensions, removing extensions, the
  ListBox items that mirror both lists, and the copying getters.

Module `Text` models the .NET string operations these rely on:

- `String.Trim`, with the full `Char.IsWhiteSpace` set;
- `String.ToLowerInvariant`;
- the `OrdinalIgnoreCase` comparison, written as equality of a case-folded key `Fold`.

Module `Wrappers` holds an `Option` type.

The platform is an input value, `ZoneIdentifier.Platform`. It holds:

- the set of paths for which `Directory.Exists` holds;
- the set of paths for which `File.Exists` holds;
- the set of paths on which a `FileSystemWatcher` can be created and enabled without throwing;
- an oracle giving the outcome of kernel32 `DeleteFile` on a path: `Deleted`, or `Failed(code)`
  with the code `Marshal.GetLastWin32Error` would return.

The files `Directory.EnumerateFiles` yields are a `seq<string>` parameter of `CleanFolder`. The
events the cleaner raises (`FileProcessed`, `ErrorOccurred`) are appended to the cleaner's `log`
field. The dialog's inputs are also parameters or fields:

- the folder picked in the `FolderBrowserDialog` is an `Option` parameter (`None` when cancelled);
- the ListBox selection is an index parameter;
- the extension text box is the field `extensionInput`, which the user may assign.

The cleaner's state is a class:

- `watchers` is the `Path` of each `FileSystemWatcher`, in list order;
- `monitored` is the strings the case-insensitive `HashSet` holds;
- `disposed` is the `_disposed` flag;
- `log` is the events raised so far.

Its invariant `Registry` says three things:

- no two watcher paths are equal ignoring case;
- every watcher path is in the monitored set;
- the monitored set has no two strings equal ignoring case.

`AddPath` puts the path in the set before it creates the watcher, and nothing catches an exception
from the watcher's creation. A path can therefore be monitored without a watcher. `AddPath` reports
that case as `thrown`. The stronger state `Covered`, where the watcher paths are exactly the
monitored strings, holds after construction and after the first `Dispose`. `AddPath` and
`RemovePath` keep it whenever no watcher creation throws. Under `Covered`,
`RegistryCorrespondence` derives three facts:

- there are as many watchers as monitored paths;
- the monitored set has no case-insensitive duplicates;
- both sides have the same case-insensitive keys.

## Model

| member | source | states |
|---|---|---|
| `Text.SkipLeading` | HorneroZoneIdentifier/FolderManagerForm.cs:85 | the scan for the start of the trimmed text stops at the first character that is not white space, having passed only white space |
| `Text.SkipTrailing` | HorneroZoneIdentifier/FolderManagerForm.cs:85 | the scan for the end of the trimmed text stops after the last character that is not white space, having passed only white space |
| `Text.Trim` | HorneroZoneIdentifier/FolderManagerForm.cs:85 | the trimmed text is no longer than the input and neither starts nor ends with white space |
| `Text.TrimIsTheTrimmedSlice` | HorneroZoneIdentifier/FolderManagerForm.cs:85 | `Trim` returns exactly the slice that has no surrounding white space and outside which the input holds only white space |
| `Text.IsWhiteSpace` | HorneroZoneIdentifier/FolderManagerForm.cs:85 | `Char.IsWhiteSpace` as `Trim` uses it: among ASCII characters exactly space and tab through carriage return are white space, and no white space is a letter or '.' |
| `Text.TrimOfTrimmed` | HorneroZoneIdentifier/FolderManagerForm.cs:85 | trimming a string without surrounding white space returns it unchanged, so `Trim` is idempotent |
| `Text.Fold` | HorneroZoneIdentifier/ZoneIdentifierCleaner.cs:9 | the `OrdinalIgnoreCase` key, also used at ZoneIdentifierCleaner.cs line 58 and FolderManagerForm.cs lines 72 and 88: it keeps the length and contains no lower-case letter |
| `Text.FoldIdempotent` | HorneroZoneIdentifier/ZoneIdentifierCleaner.cs:9 | a key is its own key, so comparing keys ignoring case again changes nothing |
| `Text.ContainsIgnoreCase` | HorneroZoneIdentifier/FolderManagerForm.cs:72 | `Enumerable.Contains` with `OrdinalIgnoreCase` (also line 88): it holds for every listed string, for any entry equal to the argument ignoring case, and never for an empty list |
| `Text.ToLowerInvariant` | HorneroZoneIdentifier/FolderManagerForm.cs:85 | lower-casing keeps the length, leaves no upper-case letter, and keeps the string equal to the input ignoring case |
| `Text.ToLowerOfLower` | HorneroZoneIdentifier/FolderManagerForm.cs:85 | a string without upper-case letters is its own lower-case form, so lower-casing is idempotent |
| `Text.ToLowerKeepsTrimmed` | HorneroZoneIdentifier/FolderManagerForm.cs:85 | lower-casing a trimmed string leaves it trimmed |
| `ZoneIdentifier.StreamPath` | HorneroZoneIdentifier/ZoneIdentifierCleaner.cs:92 | the stream path is the file path followed by exactly the 16 characters `:Zone.Identifier` |
| `ZoneIdentifier.RemovalAttempt` | HorneroZoneIdentifier/ZoneIdentifierCleaner.cs:85-115 | it succeeds iff the file exists and deleting its stream succeeds, and then raises exactly one `FileProcessed(filePath)`; a missing file or error 2 fails with no event; any other code fails with exactly one `ErrorOccurred(filePath, code)`; nothing is thrown |
| `ZoneIdentifier.SweepCount` | HorneroZoneIdentifier/ZoneIdentifierCleaner.cs:122-128 | the number of successful removals in a sweep is at most the number of enumerated files |
| `ZoneIdentifier.SweepEvents` | HorneroZoneIdentifier/ZoneIdentifierCleaner.cs:122-128 | a sweep raises no more events than there are files, and every event names one of the enumerated files |
| `ZoneIdentifier.SweepCountIsProcessedEvents` | HorneroZoneIdentifier/ZoneIdentifierCleaner.cs:97-98 | the count a sweep returns equals the number of `FileProcessed` events it raised |
| `ZoneIdentifier.SweepCountAll` | HorneroZoneIdentifier/ZoneIdentifierCleaner.cs:122-128 | the count equals the number of files iff every file's stream was removed |
| `ZoneIdentifier.SweepCountNone` | HorneroZoneIdentifier/ZoneIdentifierCleaner.cs:122-128 | the count is 0 iff no file's stream was removed |
| `ZoneIdentifier.DebounceTarget` | HorneroZoneIdentifier/ZoneIdentifierCleaner.cs:72-83 | a watcher event with no path or about a directory schedules nothing; any other event schedules a removal attempt on exactly its path |
| `ZoneIdentifier.FirstIndexIgnoreCase` | HorneroZoneIdentifier/ZoneIdentifierCleaner.cs:57-58 | the watcher lookup returns the first position whose path equals the argument ignoring case, or the list length when there is none |
| `ZoneIdentifier.OneWatcherPerPath` | HorneroZoneIdentifier/ZoneIdentifierCleaner.cs:32-46 | in a watcher list without case-insensitive duplicates, a path equal ignoring case to some watcher's path matches exactly one watcher, and any other path matches none |
| `ZoneIdentifier.MonitoredPathHasOneWatcher` | HorneroZoneIdentifier/ZoneIdentifierCleaner.cs:32-46 | when no watcher creation has thrown, so that every monitored path has its watcher, a monitored path in any casing has exactly one watcher and any other path has none |
| `ZoneIdentifier.RegistryCorrespondence` | HorneroZoneIdentifier/ZoneIdentifierCleaner.cs:8-9 | when the watcher paths are duplicate-free ignoring case and are exactly the monitored strings, watcher count equals set size, the set has no case-insensitive duplicates, and folded watcher paths equal the folded monitored set |
| `ZoneIdentifier.ZoneIdentifierCleaner.constructor` | HorneroZoneIdentifier/ZoneIdentifierCleaner.cs:8-11 | a new cleaner has no watchers, no monitored paths and no events, is not disposed, and satisfies the registry invariant with every monitored path watched |
| `ZoneIdentifier.ZoneIdentifierCleaner.MonitoredPaths` | HorneroZoneIdentifier/ZoneIdentifierCleaner.cs:20-23 | the snapshot lists each monitored path exactly once, in some order |
| `ZoneIdentifier.ZoneIdentifierCleaner.AddPath` | HorneroZoneIdentifier/ZoneIdentifierCleaner.cs:25-48 | a non-directory or an already registered path (any casing) changes nothing; otherwise the path joins the set, then one watcher for it is appended, or its creation throws and the path stays in the set without a watcher; the invariant is kept, an existing directory is registered afterwards, and if every monitored path was watched and nothing threw, every one still is |
| `ZoneIdentifier.ZoneIdentifierCleaner.RemovePath` | HorneroZoneIdentifier/ZoneIdentifierCleaner.cs:50-70 | an unregistered path changes nothing; otherwise exactly the one stored string equal to it ignoring case leaves the set and every other string keeps its stored casing; the one watcher equal to it ignoring case, if there is one, is removed while the others keep their order, and with none (its creation threw) the watchers are unchanged; the invariant is kept, and so is "every monitored path is watched" |
| `ZoneIdentifier.ZoneIdentifierCleaner.Dispose` | HorneroZoneIdentifier/ZoneIdentifierCleaner.cs:131-146 | the first call empties both collections and sets the flag; a repeated call changes nothing; the invariant is kept |
| `ZoneIdentifier.ZoneIdentifierCleaner.TryRemoveZoneIdentifier` | HorneroZoneIdentifier/ZoneIdentifierCleaner.cs:85-115 | it returns the decision of `RemovalAttempt` and appends exactly that decision's events to the log |
| `ZoneIdentifier.ZoneIdentifierCleaner.CleanFolder` | HorneroZoneIdentifier/ZoneIdentifierCleaner.cs:117-129 | a missing folder returns 0 and raises nothing; otherwise it returns `SweepCount` of the enumerated files and appends their events in file order |
| `FolderManager.NormalizeExtension` | HorneroZoneIdentifier/FolderManagerForm.cs:85-87 | blank input gives nothing; otherwise the result starts with '.', has no upper-case letter and no surrounding white space, and equals (ignoring case) the trimmed input with a dot prepended when it lacked one |
| `FolderManager.NormalizeCanonical` | HorneroZoneIdentifier/FolderManagerForm.cs:85-87 | an extension already in stored form normalises to itself, so normalising is idempotent |
| `FolderManager.FolderManagerForm.constructor` | HorneroZoneIdentifier/FolderManagerForm.cs:14-17 | the backing lists are the given ones, the input box is empty, and each ListBox shows its list |
| `FolderManager.FolderManagerForm.BuildFoldersTab` | HorneroZoneIdentifier/FolderManagerForm.cs:38-39 | the new folder ListBox holds exactly the folder list |
| `FolderManager.FolderManagerForm.BuildExtensionsTab` | HorneroZoneIdentifier/FolderManagerForm.cs:52-53 | the new extension ListBox holds exactly the extension list |
| `FolderManager.FolderManagerForm.Folders` | HorneroZoneIdentifier/FolderManagerForm.cs:11 | the getter returns a newly allocated list with the folder list's contents |
| `FolderManager.FolderManagerForm.Extensions` | HorneroZoneIdentifier/FolderManagerForm.cs:12 | the getter returns a newly allocated list with the extension list's contents |
| `FolderManager.FolderManagerForm.OnAddFolder` | HorneroZoneIdentifier/FolderManagerForm.cs:66-75 | a cancelled dialog or an already listed folder (any casing) changes nothing; otherwise the path is appended to both lists; afterwards the path is listed, and a duplicate-free list stays duplicate-free |
| `FolderManager.FolderManagerForm.OnRemoveFolder` | HorneroZoneIdentifier/FolderManagerForm.cs:77-81 | with no selection nothing changes; otherwise exactly the selected entry leaves both lists and the others keep their order; no duplicates are introduced |
| `FolderManager.FolderManagerForm.OnAddExtension` | HorneroZoneIdentifier/FolderManagerForm.cs:83-91 | blank input changes nothing (the box is not cleared); otherwise the normalised extension is appended to both lists unless listed ignoring case, and the box is cleared; no duplicates are introduced, and a list of stored-form extensions stays so |
| `FolderManager.FolderManagerForm.OnRemoveExtension` | HorneroZoneIdentifier/FolderManagerForm.cs:93-97 | with no selection nothing changes; otherwise exactly the selected entry leaves both lists and the others keep their order; no duplicates are introduced |

## Left out

- Watcher callbacks and the debounce: the `FileSystemWatcher` subscription, its event wiring, and `OnFileEvent`'s `Task.Run` with its 500 ms delay are left out. They are OS callbacks and fire-and-forget concurrency. Only the guard that drops pathless and directory events is modelled, as `DebounceTarget`.
- The `_lock` field: it exists only for thread safety, so all operations are modelled as sequential calls.
- Watchers are represented by their `Path`. Enabling, disabling, detaching handlers and disposing a watcher have no observable state in the model. Removing a path from `watchers` stands for all of them. A watcher whose creation throws is modelled as never added. The exception itself is the `thrown` result of `AddPath`, and the caller's handling of it is not modelled.
- `DeleteFile` on an alternate-data-stream path is an oracle. NTFS stream semantics are not modelled. The oracle does not change after a deletion, so a repeated attempt on the same file is not related to the first one.
- `Directory.Exists` and `File.Exists` are the two path sets of `Platform`. The model does not capture how the file system matches paths.
- `Text.ToLowerInvariant`, `Text.Fold`: case mapping covers the ASCII letters only. `ToLowerInvariant` and `OrdinalIgnoreCase` also map non-ASCII letters; the model does not.
- `ZoneIdentifier.ZoneIdentifierCleaner.TryRemoveZoneIdentifier` does not model exceptions thrown by event subscribers. In the source, a throwing `FileProcessed` handler is caught: `ErrorOccurred` is raised and the result is false. An exception from an `ErrorOccurred` handler escapes.
- `ZoneIdentifier.ZoneIdentifierCleaner.CleanFolder` takes the enumeration as a finished sequence. In the source, `Directory.EnumerateFiles` is lazy and can throw, for example when a subdirectory is inaccessible. That exception is not caught and ends the sweep.
- Extension filtering: TrayApplicationContext.cs lines 59 and 116 call `SetAllowedExtensions`, which ZoneIdentifierCleaner.cs does not define. `CleanFolder` tries every enumerated file.
- `_disposed` guards only `Dispose`. `AddPath`, `RemovePath` and the removal operations still work after disposal, as in the source.
- Form widgets: the layout, the `FolderBrowserDialog`, the Enter-key handler and `Focus()` are left out. The dialog's result is a parameter of `OnAddFolder`.
- `FolderManager.FolderManagerForm.OnRemoveFolder` and `FolderManager.FolderManagerForm.OnRemoveExtension` require the index to be below the item count. A ListBox never reports a selected index outside its items.
- The tray application (`TrayApplicationContext.cs`), the settings file (`AppSettings.cs`) and the program entry (`Program.cs`) are not part of this model. They are UI glue, JSON file I/O and the single-instance bootstrap.
