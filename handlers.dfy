/** The library handlers of main.js over an abstract disk: the three IPC
    handlers and the two startup paths that re-validate the stored library,
    and the remove-music-folder and clear-music-library handlers. */
module Handlers {
  import opened Seqs
  import opened Library
  import opened Media
  import opened Validation

  /** What the handlers see of the disk: the library file, the audio files
      its tracks point at, and whether writing or deleting the library file
      succeeds. */
  datatype Disk = Disk(library: Store, media: Media, writable: bool)

  /** The `error` strings the handlers return. */
  datatype LibError =
    | Threw                 // the message of whatever readFile, JSON.parse, writeFile or unlink threw
    | CouldNotParse         // load-music-library's fixed message for any failure after the file exists
    | NotInitialized        // import before the main window exists
    | CouldNotCreateFolder  // mkdirSync of the music folder threw
    | CannotAccessFolder    // accessSync(R_OK) of the music folder threw
    | NoMusicFiles          // the scan found no supported file
    | ProcessingFailed      // readdirSync of the music folder threw
    | SavingFailed          // writing the merged library threw
    | LibraryFileNotFound   // remove with no library file
    | ReadingFailed         // remove could not read or parse the library file
    | FolderNotFound        // remove of a folder the library does not hold

  /** A handler's reply: `{success: true, musicByFolder, accessErrors}`,
      `{success: true}`, or `{success: false, error}`. */
  datatype Response =
    | Listed(musicByFolder: Index, accessErrors: Option<seq<string>>)
    | Done
    | Failed(error: LibError)

  /** A reply together with the disk it leaves behind. */
  datatype Step = Step(response: Response, disk: Disk)

  /** `accessErrors.length > 0 ? accessErrors : undefined`. */
  function ErrorsField(errors: seq<string>): (field: Option<seq<string>>)
    ensures field.None? <==> errors == []
    ensures field.Some? ==> field.value == errors
  {
    if |errors| > 0 then Some(errors) else None
  }

  /** What one validation pass over the library file comes to. */
  datatype Revalidation =
    | NoLibrary                                  // the library file does not exist
    | Unparsable                                 // reading or parsing it threw
    | Validated(v: Validation, rewritten: bool)  // validated, rewritten or left as it was
    | WriteFailed(v: Validation)                 // validated, but the rewrite threw

  /** The pass common to all five validating paths, for a check `ok`: the
      file is rewritten with the validated index when a folder was dropped. */
  function Revalidate(d: Disk, ok: string -> bool): (r: Revalidation)
    ensures r.NoLibrary? <==> d.library.Absent?
    ensures r.Unparsable? <==> d.library.Corrupt?
    ensures r.Validated? || r.WriteFailed? ==> r.v == Validate(d.library.index, ok)
    ensures r.Validated? ==> (r.rewritten <==> r.v.errors != [])
    ensures r.WriteFailed? <==> d.library.Present? && !d.writable && Validate(d.library.index, ok).errors != []
  {
    match d.library
    case Absent => NoLibrary
    case Corrupt => Unparsable
    case Present(lib) =>
      var v := Validate(lib, ok);
      if v.errors == [] then Validated(v, false)
      else if d.writable then Validated(v, true)
      else WriteFailed(v)
  }

  /** The disk after a pass. */
  function After(d: Disk, r: Revalidation): (d': Disk)
    ensures d'.media == d.media && d'.writable == d.writable
    ensures d' != d ==> r.Validated? && r.rewritten && d'.library == Present(r.v.kept)
  {
    if r.Validated? && r.rewritten then d.(library := Present(r.v.kept)) else d
  }

  /** The reply of a validating IPC handler whose catch reports `failure`. */
  function Reply(r: Revalidation, failure: LibError): (resp: Response)
    ensures resp.Failed? <==> r.Unparsable? || r.WriteFailed?
    ensures resp.Failed? ==> resp.error == failure
    ensures resp.Listed? ==> resp.accessErrors != Some([])
    ensures !resp.Done?
    ensures r.NoLibrary? ==> resp == Listed([], None)
    ensures r.Validated? ==> resp.musicByFolder == r.v.kept && resp.accessErrors == ErrorsField(r.v.errors)
  {
    match r
    case NoLibrary => Listed([], None)
    case Unparsable => Failed(failure)
    case Validated(v, _) => Listed(v.kept, ErrorsField(v.errors))
    case WriteFailed(_) => Failed(failure)
  }

  /** The `get-music-library` handler: strict check, rewrite when the
      number of keys shrank, report thrown errors by their message. */
  method GetMusicLibrary(d: Disk) returns (resp: Response, d': Disk)
    ensures var r := Revalidate(d, StrictCheck(d.media));
            resp == Reply(r, Threw) && d' == After(d, r)
  {
    match d.library
    case Absent =>
      return Listed([], None), d;
    case Corrupt =>
      return Failed(Threw), d;
    case Present(library) =>
      var validatedLibrary, accessErrors := StrictPass(library, StrictCheck(d.media));
      d' := d;
      if |validatedLibrary| != |library| {
        if !d.writable {
          return Failed(Threw), d;
        }
        d' := d.(library := Present(validatedLibrary));
      }
      resp := Listed(validatedLibrary, if |accessErrors| > 0 then Some(accessErrors) else None);
  }

  /** The `load-library` handler: lenient check, rewrite when some folder
      was reported, report thrown errors by their message. */
  method LoadLibrary(d: Disk) returns (resp: Response, d': Disk)
    ensures var r := Revalidate(d, LenientCheck(d.media));
            resp == Reply(r, Threw) && d' == After(d, r)
  {
    match d.library
    case Absent =>
      return Listed([], None), d;
    case Corrupt =>
      return Failed(Threw), d;
    case Present(musicByFolder) =>
      var validatedMusicByFolder, accessErrors := LenientPass(musicByFolder, LenientCheck(d.media));
      d' := d;
      if |accessErrors| > 0 {
        if !d.writable {
          return Failed(Threw), d;
        }
        d' := d.(library := Present(validatedMusicByFolder));
      }
      resp := Listed(validatedMusicByFolder, if |accessErrors| > 0 then Some(accessErrors) else None);
  }

  /** The `load-music-library` handler: strict check, rewrite when the key
      count shrank or a folder was reported, one fixed message for any failure. */
  method LoadMusicLibraryRequest(d: Disk) returns (resp: Response, d': Disk)
    ensures var r := Revalidate(d, StrictCheck(d.media));
            resp == Reply(r, CouldNotParse) && d' == After(d, r)
  {
    if d.library.Absent? {
      return Listed([], None), d;
    }
    if d.library.Corrupt? {
      return Failed(CouldNotParse), d;
    }
    var library := d.library.index;
    var validatedLibrary, accessErrors := StrictPass(library, StrictCheck(d.media));
    d' := d;
    if |validatedLibrary| != |library| || |accessErrors| > 0 {
      if !d.writable {
        return Failed(CouldNotParse), d;
      }
      d' := d.(library := Present(validatedLibrary));
    }
    resp := Listed(validatedLibrary, if |accessErrors| > 0 then Some(accessErrors) else None);
  }

  /** The validation block run when main.js is loaded: lenient check, any
      error is only logged. */
  method Startup(d: Disk) returns (d': Disk)
    ensures d' == After(d, Revalidate(d, LenientCheck(d.media)))
  {
    d' := d;
    if d.library.Present? {
      var musicByFolder := d.library.index;
      var validatedMusicByFolder, accessErrors := LenientPass(musicByFolder, LenientCheck(d.media));
      if |accessErrors| > 0 && d.writable {
        d' := d.(library := Present(validatedMusicByFolder));
      }
    }
  }

  /** What `loadMusicLibrary` returns: `{validatedMusicByFolder}` or `{error}`. */
  datatype Loaded = Loaded(validatedMusicByFolder: Index) | LoadError

  function Outcome(r: Revalidation): (result: Loaded)
    ensures result.LoadError? <==> r.Unparsable? || r.WriteFailed?
    ensures r.Validated? ==> result.validatedMusicByFolder == r.v.kept
  {
    match r
    case NoLibrary => Loaded([])
    case Validated(v, _) => Loaded(v.kept)
    case _ => LoadError
  }

  /** `loadMusicLibrary`, run when the app is ready and when the window has loaded. */
  method LoadMusicLibrary(d: Disk) returns (result: Loaded, d': Disk)
    ensures var r := Revalidate(d, LenientCheck(d.media));
            result == Outcome(r) && d' == After(d, r)
  {
    var validatedMusicByFolder: Index := [];
    d' := d;
    if d.library.Corrupt? {
      return LoadError, d;
    }
    if d.library.Present? {
      var musicByFolder := d.library.index;
      var accessErrors;
      validatedMusicByFolder, accessErrors := LenientPass(musicByFolder, LenientCheck(d.media));
      if |accessErrors| > 0 {
        if !d.writable {
          return LoadError, d;
        }
        d' := d.(library := Present(validatedMusicByFolder));
      }
    }
    result := Loaded(validatedMusicByFolder);
  }

  /** Without a library file every validating path replies with the empty
      library and writes nothing. */
  lemma MissingFileIsEmptyLibrary(d: Disk, ok: string -> bool, failure: LibError)
    requires d.library.Absent?
    ensures Reply(Revalidate(d, ok), failure) == Listed([], None)
    ensures Outcome(Revalidate(d, ok)) == Loaded([])
    ensures After(d, Revalidate(d, ok)) == d
  {
  }

  /** When the pass succeeds the handler lists exactly the validated index
      and reports exactly the dropped folders, or none. */
  lemma SuccessListsValidated(d: Disk, ok: string -> bool, failure: LibError)
    requires d.library.Present?
    requires Validate(d.library.index, ok).errors == [] || d.writable
    ensures var v := Validate(d.library.index, ok);
            Reply(Revalidate(d, ok), failure) == Listed(v.kept, ErrorsField(v.errors))
    ensures var v := Validate(d.library.index, ok);
            Outcome(Revalidate(d, ok)) == Loaded(v.kept)
  {
  }

  /** The library file changes only when a folder was dropped, and then it
      holds the validated index. */
  lemma RewriteOnlyWhenFolderDropped(d: Disk, ok: string -> bool)
    ensures var r := Revalidate(d, ok);
            After(d, r) != d <==>
              d.library.Present? && Validate(d.library.index, ok).errors != [] && d.writable
    ensures var r := Revalidate(d, ok);
            After(d, r) != d ==> After(d, r).library == Present(Validate(d.library.index, ok).kept)
  {
    if d.library.Present? {
      var v := Validate(d.library.index, ok);
      if v.errors != [] {
        assert |v.kept| < |d.library.index|;
      }
    }
  }

  /** When no folder is dropped, a folder that lost some but not all of its
      tracks comes back filtered, while the stored record keeps the lost
      tracks. */
  lemma PartialLossIsNotPersisted(d: Disk, ok: string -> bool, i: nat)
    requires d.library.Present? && i < |d.library.index|
    requires forall j :: 0 <= j < |d.library.index| ==> Surviving(d.library.index[j].tracks, ok) != []
    requires Surviving(d.library.index[i].tracks, ok) != d.library.index[i].tracks
    ensures var r := Revalidate(d, ok);
            var v := Validate(d.library.index, ok);
            Reply(r, Threw) == Listed(v.kept, None) && v.kept != d.library.index && After(d, r) == d
  {
    var lib := d.library.index;
    ValidateNoDrops(lib, ok);
    ValidatePartition(lib, ok, i);
    LookupAt(lib, i);
  }

  /** After a pass, the same pass against the same files drops nothing,
      reports nothing and writes nothing. */
  lemma RevalidateIsStable(d: Disk, ok: string -> bool)
    requires Revalidate(d, ok).Validated?
    ensures var r := Revalidate(d, ok);
            var d2 := After(d, r);
            Revalidate(d2, ok) == Validated(Validation(r.v.kept, []), false)
            && After(d2, Revalidate(d2, ok)) == d2
            && Reply(Revalidate(d2, ok), Threw) == Listed(r.v.kept, None)
  {
    var r := Revalidate(d, ok);
    ValidateIdempotent(d.library.index, ok);
  }

  /** Read permission implies existence, so the strict handlers keep, folder
      by folder, an in-order subsequence of the tracks the lenient ones keep,
      keep a subsequence of their folders and drop a supersequence. */
  lemma StrictWithinLenient(lib: Index, m: Media)
    ensures var s, l := Validate(lib, StrictCheck(m)), Validate(lib, LenientCheck(m));
            Subsequence(Names(s.kept), Names(l.kept)) && Subsequence(l.errors, s.errors)
    ensures forall i :: 0 <= i < |lib| ==>
              Subsequence(Surviving(lib[i].tracks, StrictCheck(m)), Surviving(lib[i].tracks, LenientCheck(m)))
  {
    ValidateMonotone(lib, StrictCheck(m), LenientCheck(m));
    forall i | 0 <= i < |lib|
      ensures Subsequence(Surviving(lib[i].tracks, StrictCheck(m)), Surviving(lib[i].tracks, LenientCheck(m)))
    {
      SurvivingMonotone(lib[i].tracks, StrictCheck(m), LenientCheck(m));
    }
  }

  /** The `clear-music-library` handler: delete the file if it exists. */
  function ClearMusicLibrary(d: Disk): (s: Step)
    ensures s.response == Done <==> (d.library.Absent? || d.writable)
    ensures s.response == Done ==> s.disk == d.(library := Absent)
    ensures s.response != Done ==> s == Step(Failed(Threw), d)
  {
    if d.library.Absent? then Step(Done, d)
    else if d.writable then Step(Done, d.(library := Absent))
    else Step(Failed(Threw), d)
  }

  /** Clearing twice is clearing once. */
  lemma ClearIsIdempotent(d: Disk)
    ensures ClearMusicLibrary(ClearMusicLibrary(d).disk) == ClearMusicLibrary(d)
  {
  }

  /** After a successful clear every validating path sees the empty library. */
  lemma ClearThenLoadIsEmpty(d: Disk, ok: string -> bool, failure: LibError)
    requires ClearMusicLibrary(d).response == Done
    ensures Reply(Revalidate(ClearMusicLibrary(d).disk, ok), failure) == Listed([], None)
  {
  }

  /** The `remove-music-folder` handler, with the guard asking whether the
      library OWNS the key `folderName`. */
  function RemoveMusicFolder(d: Disk, folderName: string): (s: Step)
    ensures d.library.Absent? ==> s == Step(Failed(LibraryFileNotFound), d)
    ensures d.library.Corrupt? ==> s == Step(Failed(ReadingFailed), d)
    ensures d.library.Present? && !HasFolder(d.library.index, folderName) ==>
              s == Step(Failed(FolderNotFound), d)
    ensures s.response.Listed? <==>
              d.library.Present? && HasFolder(d.library.index, folderName) && d.writable
    ensures s.response.Listed? ==>
              && s.response.accessErrors == None
              && s.disk == d.(library := Present(s.response.musicByFolder))
              && !HasFolder(s.response.musicByFolder, folderName)
              && |s.response.musicByFolder| == |d.library.index| - 1
    ensures !s.response.Listed? ==> s.disk == d
  {
    match d.library
    case Absent => Step(Failed(LibraryFileNotFound), d)
    case Corrupt => Step(Failed(ReadingFailed), d)
    case Present(musicByFolder) =>
      if HasFolder(musicByFolder, folderName) then
        var rest := Delete(musicByFolder, folderName);
        if d.writable then Step(Listed(rest, None), d.(library := Present(rest)))
        else Step(Failed(Threw), d)
      else Step(Failed(FolderNotFound), d)
  }

  /** Removing a folder leaves every other folder's tracks as they were. */
  lemma RemoveKeepsOtherFolders(d: Disk, folderName: string, k: string)
    requires RemoveMusicFolder(d, folderName).response.Listed?
    requires k != folderName
    ensures Lookup(RemoveMusicFolder(d, folderName).response.musicByFolder, k) == Lookup(d.library.index, k)
  {
    DeleteKeepsOthers(d.library.index, folderName, k);
  }

  /** Removing the same folder again reports it missing and writes nothing. */
  lemma RemoveTwiceIsNotFound(d: Disk, folderName: string)
    requires RemoveMusicFolder(d, folderName).response.Listed?
    ensures var d2 := RemoveMusicFolder(d, folderName).disk;
            RemoveMusicFolder(d2, folderName) == Step(Failed(FolderNotFound), d2)
  {
  }

  /** Property names every parsed object inherits from Object.prototype;
      `obj[name]` is truthy for each of them. */
  const InheritedNames: set<string> := {
    "constructor", "__proto__", "__defineGetter__", "__defineSetter__",
    "__lookupGetter__", "__lookupSetter__", "hasOwnProperty", "isPrototypeOf",
    "propertyIsEnumerable", "toLocaleString", "toString", "valueOf"
  }

  /** `remove-music-folder` as written: the guard `musicByFolder[folderName]`
      is also truthy for inherited names, and deleting an inherited name
      removes no own key. */
  function RemoveMusicFolderAsWritten(d: Disk, folderName: string): (s: Step)
    ensures !(d.library.Present? && folderName in InheritedNames) ==> s == RemoveMusicFolder(d, folderName)
  {
    match d.library
    case Absent => Step(Failed(LibraryFileNotFound), d)
    case Corrupt => Step(Failed(ReadingFailed), d)
    case Present(musicByFolder) =>
      if HasFolder(musicByFolder, folderName) || folderName in InheritedNames then
        var rest := Delete(musicByFolder, folderName);
        if d.writable then Step(Listed(rest, None), d.(library := Present(rest)))
        else Step(Failed(Threw), d)
      else Step(Failed(FolderNotFound), d)
  }

  /** With a folder name such as "constructor" that the library does not
      hold, the handler as written rewrites the file and reports success,
      where the owned-key guard reports 'Folder not found in library'. */
  lemma InheritedNameSlipsThrough(d: Disk, folderName: string)
    requires d.library.Present? && d.writable
    requires folderName in InheritedNames && !HasFolder(d.library.index, folderName)
    ensures RemoveMusicFolderAsWritten(d, folderName) == Step(Listed(d.library.index, None), d)
    ensures RemoveMusicFolder(d, folderName) == Step(Failed(FolderNotFound), d)
  {
  }
}
