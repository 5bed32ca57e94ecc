# Music-Player library core in Dafny

A model of the library logic of an Electron music player. It has two parts.

- **The main process (`main.js`).** It keeps the music library in
  `musicLibrary.json`. That file holds one JavaScript object that maps each
  folder name to an array of track records.
  - Five code paths re-validate this library, each with its own loop:
    - the `get-music-library`, `load-library` and `load-music-library` IPC handlers;
    - the block that runs when the app is ready;
    - `loadMusicLibrary`.
  - Each pass keeps the tracks whose file still passes an accessibility
    check. It keeps the folders that still hold a track, and reports the
    other folders in `accessErrors`. When some folder was dropped, it
    rewrites the file.
  - `import-project-music` scans the application's `music` folder
    recursively. It stores the audio files it finds under the key
    "Project Music".
  - `remove-music-folder` deletes one key.
  - `clear-music-library` deletes the file.
- **The preload script (`preload.js`).** It keeps a registry of listener
  subscriptions. Each subscription can be disposed of, and all of them are
  removed when the window unloads. It forwards `send` only on a whitelisted
  channel.

Modules:

- `Seqs`: two helper notions, distinct sequences and order-preserving subsequences.
- `Library`: the library record.
  - Track records.
  - The folder index. It is a sequence of (folder, tracks) entries with
    distinct keys in insertion order. That is how a JavaScript object
    enumerates its own string keys that are not array indices. The two
    exceptions are listed under "## Left out" and "## Findings".
  - `Put` for key assignment and `Delete` for `delete`.
  - The library file: missing, unparsable or holding an index.
- `Media`: the filesystem facts the passes check. `existsSync` is the
  lenient check and `accessSync(R_OK)` is the strict one.
- `Validation`: the pass as one specification function `Validate`, over an
  abstract path check. The two loop shapes of the source are methods proved
  equal to it:
  - `StrictPass`, a `filter` per folder;
  - `LenientPass`, a nested loop with a `folderAccessible` flag.
- `Handlers`: the five validating paths, `clear-music-library` and
  `remove-music-folder`, each over an abstract `Disk`.
- `Scanner`: `processDirectory` over an abstract directory tree.
  - `ProcessDirectory` and `ProcessEntry` are methods that mirror the
    recursive walk.
  - `Scan` is the function that specifies them.
- `ProjectImport`: the `import-project-music` handler.
- `Preload`: the subscription registry as a class. It holds the listener
  array of `ipcRenderer`, the `activeSubscriptions` set (in insertion order)
  and the messages sent.

Two behaviours of the code are easy to misread:

- A validating path rewrites the library file only when a whole folder was
  dropped. The comment at main.js:93 says "If library was changed, save the
  updated version", but the test at main.js:94 compares key counts. The
  tests at main.js:374, main.js:428-429, main.js:499 and main.js:548 likewise
  look only at dropped folders. So a folder that lost only some of its tracks
  is returned filtered, but it is not written back
  (`PartialLossIsNotPersisted`).
- When a subdirectory cannot be listed, `processDirectory` rethrows it
  (main.js:191-193). The per-entry `catch` of the parent directory
  (main.js:187-189) then swallows that error. So only the music folder itself
  failing to list makes the import fail (`ScanEntry`, `FailedEntryIsSkipped`).

## Model

| member | source | states |
|---|---|---|
| Library.Lookup | main.js:306 | `obj[name]` on own keys: none exactly when no entry has that key, otherwise the tracks of an entry with that key |
| Library.Put | main.js:227 | after `obj[name] = ts` the key maps to `ts`; an existing key keeps its place, a new key is appended after the others |
| Library.PutKeepsOthers | main.js:227 | assigning one key leaves every other key's value unchanged |
| Library.PutTwice | main.js:227 | assigning the same array to a key twice equals assigning it once |
| Library.Delete | main.js:307 | `delete obj[name]` removes exactly that own key: one key fewer when it was present, the rest in their order, no change otherwise |
| Library.DeleteKeepsOthers | main.js:307 | deleting one key leaves every other key's value unchanged |
| Validation.Surviving | main.js:76-84 | the tracks kept in a folder form an in-order subsequence of its tracks, and every kept track passes the check |
| Validation.SurvivingCounts | main.js:76-84 | a track occurs among the kept tracks as often as in the folder when it passes, and not at all when it fails |
| Validation.Validate | main.js:75-91 | one pass: as many folders kept and reported as are stored, and the kept keys and the reported names are both subsequences of the stored keys, in stored order (the partition itself is `ValidatePartition`) |
| Validation.ValidatePartition | main.js:86-90 | a folder with no surviving track is reported and absent from the result; any other folder is kept with exactly its surviving tracks and is not reported |
| Validation.ValidateReportsOnce | main.js:89 | each reported folder is reported once and is never also kept |
| Validation.ValidateNoDrops | main.js:86-90 | no folder is reported exactly when every folder keeps at least one track |
| Validation.EmptyFolderDropped | main.js:352-370 | a folder stored with an empty track array is reported, whatever the check |
| Validation.ValidateKeptPass | main.js:86-87 | every kept folder is non-empty and all of its tracks pass the check |
| Validation.ValidateAllPass | main.js:75-91 | an index whose folders are all non-empty and whose tracks all pass comes back unchanged, with no errors |
| Validation.ValidateIdempotent | main.js:75-91 | validating the validated index again with the same check drops nothing and returns it unchanged |
| Validation.SurvivingMonotone | main.js:78 | a stronger check keeps an in-order subsequence of the tracks a weaker check keeps |
| Validation.ValidateMonotone | main.js:75-91 | a stronger check keeps a subsequence of the folders a weaker check keeps, and reports a supersequence of the folders it reports |
| Validation.PassStep | main.js:347-371 | one loop iteration: the folder is not yet a kept key, and the pass either assigns it its surviving tracks or reports it |
| Validation.AssignAsWritten | main.js:87 | `validatedLibrary[folderName] = validTracks` as written: the name "__proto__" creates no own key, any other name is the ordinary assignment |
| Validation.ValidateAsWritten | main.js:75-91 | the pass as written reports the same folders as the intended one, and never keeps a folder named "__proto__" |
| Validation.ProtoFolderVanishes | main.js:86-96 | a library holding only "__proto__" with one passing track: as written the result is empty with no errors, while the intended pass returns it unchanged |
| Validation.StrictPass | main.js:72-91 | the `filter` loop computes exactly `Validate` of the stored index |
| Validation.FolderPass | main.js:348-364 | the inner loop pushes exactly the surviving tracks, and raises `folderAccessible` exactly when it pushes one |
| Validation.LenientPass | main.js:343-371 | the nested loop computes exactly `Validate` of the stored index |
| Handlers.Revalidate | main.js:93-96 | the pass shared by the five paths: no file, unparsable file, or the validated index; it is rewritten exactly when some folder was reported, and the rewrite fails exactly when the file cannot be written |
| Handlers.After | main.js:373-377 | the disk after a pass: only the library file can change, and only to the validated index after a successful rewrite |
| Handlers.Reply | main.js:98-109 | the reply of a validating handler: a failure (carrying that handler's error) exactly on an unparsable file or a failed rewrite; a listed reply carries exactly the validated index and `ErrorsField` of the reported names, or `{}` without a file, and `accessErrors` is never an empty list |
| Handlers.ErrorsField | main.js:101 | `accessErrors.length > 0 ? accessErrors : undefined`: absent exactly for no reported folder, otherwise the reported names |
| Handlers.SuccessListsValidated | main.js:98-102 | whenever the pass over a stored file does not fail, the handler replies with the validated index and the reported names, and `loadMusicLibrary` returns that index |
| Handlers.Outcome | main.js:554-557 | what `loadMusicLibrary` returns: `{error}` exactly on an unparsable file or a failed rewrite, otherwise the validated index |
| Handlers.GetMusicLibrary | main.js:56-110 | `get-music-library`: a missing file gives an empty library; a read or parse error gives its message; otherwise the strict pass result, with the rewrite happening when the key count shrank |
| Handlers.LoadLibrary | main.js:329-391 | `load-library`: the same with the lenient pass, rewriting when some folder was reported |
| Handlers.LoadMusicLibraryRequest | main.js:394-459 | `load-music-library`: the strict pass, with the fixed 'Could not parse' message for any failure once the file exists |
| Handlers.Startup | main.js:462-506 | the validation block at startup: the lenient pass; the file is rewritten when a folder was dropped and the write succeeds; failures are only logged |
| Handlers.LoadMusicLibrary | main.js:510-559 | `loadMusicLibrary`: the lenient pass result, `{}` without a file, `{error}` when reading, parsing or the rewrite throws |
| Handlers.MissingFileIsEmptyLibrary | main.js:61-66 | without a library file every validating path replies with the empty library and writes nothing |
| Handlers.RewriteOnlyWhenFolderDropped | main.js:93-96 | the library file changes exactly when it was readable, some folder was dropped and the write succeeds, and then it holds the validated index |
| Handlers.PartialLossIsNotPersisted | main.js:373-377 | when no folder is dropped, a folder that loses some but not all tracks comes back filtered while the stored file is left as it was |
| Handlers.RevalidateIsStable | main.js:93-96 | after a pass, the same pass over the same files drops nothing, reports nothing and writes nothing |
| Handlers.StrictWithinLenient | main.js:78 | since read permission implies existence, the strict handlers keep per folder a subsequence of the tracks the lenient handlers keep, keep only folders the lenient ones keep, and drop every folder the lenient ones drop |
| Handlers.ClearMusicLibrary | main.js:261-279 | `clear-music-library` succeeds exactly when the file is missing or can be deleted, and then leaves no file; otherwise it reports the error and changes nothing |
| Handlers.ClearIsIdempotent | main.js:267-269 | clearing twice is clearing once |
| Handlers.ClearThenLoadIsEmpty | main.js:261-279 | after a successful clear, every validating path replies with the empty library |
| Handlers.RemoveMusicFolder | main.js:282-326 | `remove-music-folder`: with no file 'Library file not found', an unreadable file its read error, a folder not held 'Folder not found in library'; it succeeds exactly when the folder is held and the write succeeds, and then it writes and returns the index without that key, one key shorter |
| Handlers.RemoveKeepsOtherFolders | main.js:306-308 | removing a folder leaves every other folder's tracks as they were |
| Handlers.RemoveTwiceIsNotFound | main.js:306-317 | removing the same folder a second time reports it not found and writes nothing |
| Handlers.RemoveMusicFolderAsWritten | main.js:306-312 | the guard as written agrees with the owned-key guard except on names inherited from Object.prototype |
| Handlers.InheritedNameSlipsThrough | main.js:306-312 | for a name such as "constructor" that the library does not hold, the handler as written reports success and rewrites the file unchanged |
| Scanner.LastDot | main.js:173 | the index of the last '.' of a name, or -1 when there is none |
| Scanner.ExtName | main.js:173 | `path.extname`: the extension is empty exactly when the name is ".." or has no '.' after its first character; otherwise it is a proper suffix of the name that starts with its only '.' |
| Scanner.Stem | main.js:177 | `path.parse(file).name`: the name with its extension taken off, so the stem followed by the extension is the name |
| Scanner.Supported | main.js:173-174 | the lower-cased extension is one of the six supported formats, which implies that the name has an extension |
| Scanner.Format | main.js:181 | `ext.substring(1).toUpperCase()`: for a supported file it is the file's own extension without the dot (lower-casing it gives back the lower-cased extension), and so one of "MP3", "WAV", "OGG", "M4A", "FLAC", "AAC" |
| Scanner.FormatRoundTrip | main.js:174-181 | each supported extension is its format lower-cased with the dot put back, so the format names the extension that was found |
| Scanner.Record | main.js:176-183 | the record pushed for an audio file: title, path, file name, "Project Music", format and size; its properties are stated in `RecordIsProjectRecord` |
| Scanner.Scan | main.js:159-195 | what `processDirectory` collects: a value exactly when the node is a directory that can be listed, and none (the rethrow) otherwise |
| Scanner.ScanEntries | main.js:164-190 | the loop over the listed entries: the records of each entry, in listing order; its properties are stated in `ScanEntriesAppend` and `ScanEntriesSplit` |
| Scanner.ScanEntry | main.js:165-189 | one iteration: a failing entry (stat throws, neither file nor directory, unlistable subdirectory) gives nothing, and a file contributes something exactly when it is supported; that the file's record is then collected is stated in `CollectsFileIffSupported` |
| Scanner.ProcessDirectory | main.js:159-195 | `processDirectory` throws exactly when its directory cannot be listed, and then it pushes nothing; otherwise it appends exactly `Scan` of the directory to `musicFiles` |
| Scanner.ProcessEntry | main.js:165-189 | one loop iteration appends exactly `ScanEntry` of the entry |
| Scanner.RecordIsProjectRecord | main.js:173-183 | a supported file's record has its name without extension as title, its path under the directory, folder "Project Music", the upper-case extension without the dot (one of the six formats) as format, and its size |
| Scanner.ScanRecords | main.js:159-195 | every record a scan collects is a well-formed audio record lying under the scanned directory |
| Scanner.ScanEntriesAppend | main.js:164-190 | scanning two listings one after the other collects the two scans in order |
| Scanner.ScanEntriesSplit | main.js:164-190 | a listing's scan is the scan before entry `i`, then entry `i`, then the scan after it |
| Scanner.CollectsFileIffSupported | main.js:172-174 | a file in a listed directory is collected exactly when its lower-cased extension is supported |
| Scanner.CollectsSubdirectory | main.js:169-171 | a listable subdirectory is scanned and all of its records are collected, whatever the depth |
| Scanner.FailedEntryIsSkipped | main.js:187-189 | an entry whose stat throws, that is neither file nor directory, or that is an unlistable subdirectory is skipped: the scan equals the scan without it |
| ProjectImport.Import | main.js:113-258 | only a successful import writes the library file, it writes exactly the index it returns, and that index holds a non-empty "Project Music" folder; each failure gives its own error: no window (before any folder work), folder not creatable, not readable, not listable, no audio file, write failed |
| ProjectImport.ImportProjectMusic | main.js:113-258 | the handler, with the recursive walk as a method, computes `Import` |
| ProjectImport.ImportStoresScan | main.js:197-236 | a successful import stores under "Project Music" exactly the scan of the music folder, every record a well-formed audio record from that folder |
| ProjectImport.ImportKeepsOtherFolders | main.js:215-230 | every other folder of a readable library file is kept as it was |
| ProjectImport.ImportOverCorruptLibrary | main.js:216-224 | a missing or unparsable library file is replaced by one holding only "Project Music" |
| ProjectImport.ImportSucceedsIff | main.js:113-258 | the import succeeds exactly when the window exists, the music folder exists or can be created, it is readable and listable, it holds an audio file, and the library file can be written |
| ProjectImport.ImportTwiceIsImportOnce | main.js:226-230 | importing again from an unchanged music folder leaves the library and the reply as the first import left them |
| Preload.RemoveLast | preload.js:13 | `removeListener` takes out one instance of the listener (the multiset loses exactly one copy), and changes nothing when the listener is absent |
| Preload.RemoveLastAt | preload.js:13 | the instance removed is the most recently added one: when the last occurrence is at `p`, the result is the array without position `p` |
| Preload.Without | preload.js:14 | `Set.delete` of a non-member changes nothing |
| Preload.WithoutKeepsOrder | preload.js:14 | `Set.delete` removes the element, keeps every other element in order and keeps them distinct |
| Preload.PairsWithout | preload.js:13-14 | deleting an active subscription takes exactly its one listener out of those the subscriptions registered |
| Preload.StaleDisposeIsNoop | preload.js:12-15 | a disposer whose listener no active subscription holds changes neither the listeners nor the set |
| Preload.DisposedIsUnshared | preload.js:12-15 | when listeners are not shared, after a dispose no remaining subscription holds the disposed listener, so calling the disposer again is a no-op |
| Preload.DisposeKeepsConsistent | preload.js:12-15 | disposing an active subscription, or a stale one whose (channel, callback) pair no active subscription shares, keeps the set and the listeners in step |
| Preload.Registry.CreateSubscription | preload.js:7-16 | one more listener and one fresh set entry, even for a pair that is already subscribed; the registry stays consistent |
| Preload.Registry.Dispose | preload.js:12-15 | the disposer removes its listener and its entry; the registry stays consistent for an active subscription, or a stale one whose (channel, callback) pair no active subscription shares |
| Preload.Registry.Unload | preload.js:19-24 | unload removes every active listener and clears the set, leaving no listener |
| Preload.Registry.Send | preload.js:99-107 | `send` forwards only on "splash-screen-ready" and otherwise sends nothing |
| Preload.Registry.OnMusicFilesUpdated | preload.js:110-112 | subscribes a fresh wrapper of `callback` on "music-files-updated"; listeners stay unshared |
| Preload.Registry.OnWindowStateChange | preload.js:115-119 | subscribes a fresh wrapper of `callback` on "window-state-change"; listeners stay unshared |

## Findings

| source | as written | input that shows it | evidently intended | confidence | as-written member | corrected member |
|---|---|---|---|---|---|---|
| main.js:306 | `musicByFolder[folderName]` is truthy for names inherited from Object.prototype, so the guard lets them through | `removeMusicFolder("constructor")` on a library without that folder: success, the file is rewritten unchanged | reply 'Folder not found in library' for any folder the library does not own | not executed | Handlers.InheritedNameSlipsThrough | Handlers.RemoveMusicFolder |
| main.js:87 | `validatedLibrary[folderName] = validTracks` (also at main.js:367, 421, 492 and 541) calls the inherited `__proto__` setter for a folder named "__proto__", which `JSON.parse` made an own key, so the folder leaves the result without being reported | a library file `{"__proto__": [t]}` with `t` readable: the reply holds no folder and `accessErrors` is empty, and get-music-library and load-music-library then rewrite the file without the folder (key counts 0 and 1 differ) | keep the folder with its surviving tracks, or report it | not executed | Validation.ProtoFolderVanishes | Validation.ValidatePartition |

## Left out

- JSON text: how the file is serialised and parsed is not modelled. A file is missing, fails to read or parse (`Corrupt`), or parses to an object with array values (`Present`). A file that parses to `null`, to an array, or to folders whose values are not arrays is not modelled.
- Handlers that throw in the outer `catch` for reasons other than the library file (for example `app.getPath`) are not modelled.
- Electron and IPC plumbing is left out: `ipcMain.handle`, `contextBridge`, `webContents.send` pushes, window creation, window controls, dialogs (`select-music-files` and folder selection) and app lifecycle events. These are I/O outside the library core.
- Asynchrony is left out (`await` of `readFile`/`writeFile`). The model treats every handler as running alone; concurrent handlers interleaving their reads and writes are not modelled.
- Logging to the console is left out.
- Scanner.ProcessDirectory: the `isRootDir` parameter is always `false` at every call site, so the model omits it.
- `path.relative` is computed by the scan and never used, so it is not modelled.
- `path.join` is modelled as `dir + "/" + name`. Normalisation is not modelled.
- Scanner.Lower and Scanner.Upper: they map only ASCII letters, not the full Unicode case mapping of `toLowerCase`/`toUpperCase`.
- ProjectImport.Ensured: a successful `mkdirSync` is modelled as creating an empty, readable, listable folder.
- Atomicity and partial writes of `writeFileSync` are not modelled. A write either succeeds completely or throws before changing the file.
- Preload: the event dispatch of `ipcRenderer` is not modelled, that is, which callbacks run when a message arrives, and their arguments. A callback is modelled by its object identity only.
- Preload.Registry.Dispose: the disposer closure is modelled as `Dispose(subscription)` on the registry. The model does not keep the closure as a value.
- Preload.Registry.Dispose: consistency after a dispose is guaranteed only for an active subscription or a stale one whose listener no active subscription holds. A stale disposer called while another subscription shares its exact (channel, callback) pair removes that one's listener, as the source does.
- Library.Put: a new key is appended after the others. A JavaScript object instead enumerates keys that are array indices (such as "1989") first, in ascending numeric order. At main.js:227 the key is "Project Music", and the passes rebuild keys in the order they read them, so this order is not modelled.
- Handlers.Disk: one `writable` flag stands for both `writeFileSync` and `unlinkSync` succeeding. A library file that can be deleted but not rewritten, or the reverse, cannot be expressed.
- Validation.Validate: the handlers use the intended pass, which keeps a folder named "__proto__" (see "## Findings"). The as-written pass is `ValidateAsWritten`.
- Scanner.Node: the directory tree is finite. `fs.statSync` follows symbolic links, so at main.js:167-171 a link to an ancestor directory makes `processDirectory` recurse until a path is too long to resolve, collecting the same files again on every pass. The model cannot express such a cycle.
- Preload.Without: its own contract states only the non-member case. What it removes and keeps is stated in `WithoutKeepsOrder`.
- The other preload methods are thin `ipcRenderer.invoke` wrappers whose catch returns `{success: false}`; they are not modelled (`windowControl`, `isMaximized`, `selectMusicFolders`, `importProjectMusic`, `clearLibrary`, `removeMusicFolder`, `loadMusicLibrary`).
