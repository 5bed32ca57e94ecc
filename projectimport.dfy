/** The import-project-music handler: make sure the application's `music`
    folder exists and is readable, scan it, and store what it holds under the
    "Project Music" key of the library file, next to the folders already
    there. */
module ProjectImport {
  import opened Seqs
  import opened Library
  import opened Scanner
  import opened Handlers

  /** The application's `music` folder: absent, or present with the result of
      `fs.accessSync(R_OK)` and what it contains. */
  datatype MusicFolder = NoFolder | Folder(readable: bool, node: Node)

  /** What the handler sees outside the library file: whether the main window
      exists, the music folder, and whether `fs.mkdirSync` of it succeeds. */
  datatype Project = Project(ready: bool, music: MusicFolder, canCreate: bool)

  /** The handler's reply, the disk it leaves and the music folder it leaves. */
  datatype Imported = Imported(step: Step, music: MusicFolder)

  /** `path.join(__dirname, 'music')`. */
  function MusicPath(appDir: string): string {
    Join(appDir, "music")
  }

  /** `existingLibrary`: the stored index, or `{}` when the file is missing
      or does not parse. */
  function Existing(s: Store): Index {
    if s.Present? then s.index else []
  }

  /** The music folder after the existence check: a missing one is created
      empty when `mkdirSync` succeeds. */
  function Ensured(p: Project): MusicFolder {
    if p.music.NoFolder? && p.canCreate then Folder(true, Dir(true, [])) else p.music
  }

  /** What the handler does. Only the success path writes the library file,
      and it writes exactly the index it returns. */
  function Import(appDir: string, p: Project, d: Disk): (out: Imported)
    ensures out.step.disk != d ==> out.step.response.Listed?
    ensures out.step.response.Listed? ==>
              && out.step.disk == d.(library := Present(out.step.response.musicByFolder))
              && out.step.response.accessErrors == None
    ensures out.step.response.Listed? ==>
              exists files :: files != [] && Lookup(out.step.response.musicByFolder, ProjectFolder) == Some(files)
    ensures !p.ready ==> out == Imported(Step(Failed(NotInitialized), d), p.music)
    ensures p.ready && Ensured(p).NoFolder? ==> out == Imported(Step(Failed(CouldNotCreateFolder), d), p.music)
    ensures p.ready && Ensured(p).Folder? && !Ensured(p).readable ==>
              out == Imported(Step(Failed(CannotAccessFolder), d), Ensured(p))
    ensures p.ready && Ensured(p).Folder? && Ensured(p).readable ==>
              var found := Scan(MusicPath(appDir), Ensured(p).node);
              && (found.None? ==> out == Imported(Step(Failed(ProcessingFailed), d), Ensured(p)))
              && (found == Some([]) ==> out == Imported(Step(Failed(NoMusicFiles), d), Ensured(p)))
              && (found.Some? && found.value != [] && !d.writable ==>
                    out == Imported(Step(Failed(SavingFailed), d), Ensured(p)))
  {
    if !p.ready then Imported(Step(Failed(NotInitialized), d), p.music)
    else
      var music := Ensured(p);
      if music.NoFolder? then Imported(Step(Failed(CouldNotCreateFolder), d), music)
      else if !music.readable then Imported(Step(Failed(CannotAccessFolder), d), music)
      else
        match Scan(MusicPath(appDir), music.node)
        case None => Imported(Step(Failed(ProcessingFailed), d), music)
        case Some(musicFiles) =>
          if |musicFiles| == 0 then Imported(Step(Failed(NoMusicFiles), d), music)
          else
            var existingLibrary := Put(Existing(d.library), ProjectFolder, musicFiles);
            if !d.writable then Imported(Step(Failed(SavingFailed), d), music)
            else Imported(Step(Listed(existingLibrary, None), d.(library := Present(existingLibrary))), music)
  }

  /** The handler, with the recursive scan as a method. */
  method ImportProjectMusic(appDir: string, p: Project, d: Disk) returns (resp: Response, d': Disk, music: MusicFolder)
    ensures Imported(Step(resp, d'), music) == Import(appDir, p, d)
  {
    d', music := d, p.music;
    if !p.ready {
      return Failed(NotInitialized), d', music;
    }
    var musicFolderPath := MusicPath(appDir);
    if music.NoFolder? {
      if !p.canCreate {
        return Failed(CouldNotCreateFolder), d', music;
      }
      music := Folder(true, Dir(true, []));
    }
    if !music.readable {
      return Failed(CannotAccessFolder), d', music;
    }
    var musicFiles, threw := ProcessDirectory(musicFolderPath, music.node, []);
    if threw {
      return Failed(ProcessingFailed), d', music;
    }
    assert musicFiles == Scan(musicFolderPath, music.node).value;
    if |musicFiles| == 0 {
      return Failed(NoMusicFiles), d', music;
    }
    var existingLibrary := Existing(d.library);
    existingLibrary := Put(existingLibrary, ProjectFolder, musicFiles);
    if !d.writable {
      return Failed(SavingFailed), d', music;
    }
    d' := d.(library := Present(existingLibrary));
    resp := Listed(existingLibrary, None);
  }

  /** A successful import stores under "Project Music" exactly what the scan
      of the music folder found, every record a well-formed audio record from
      that folder. */
  lemma ImportStoresScan(appDir: string, p: Project, d: Disk)
    requires Import(appDir, p, d).step.response.Listed?
    ensures var music := Import(appDir, p, d).music;
            && music.Folder?
            && Scan(MusicPath(appDir), music.node).Some?
            && Lookup(Import(appDir, p, d).step.response.musicByFolder, ProjectFolder)
               == Some(Scan(MusicPath(appDir), music.node).value)
            && forall t :: t in Scan(MusicPath(appDir), music.node).value ==> ProjectRecord(t, MusicPath(appDir))
  {
    var music := Import(appDir, p, d).music;
    ScanRecords(MusicPath(appDir), music.node);
  }

  /** The import replaces only the "Project Music" folder: every other folder
      of a readable library file is kept as it was. */
  lemma ImportKeepsOtherFolders(appDir: string, p: Project, d: Disk, k: string)
    requires d.library.Present? && k != ProjectFolder
    requires Import(appDir, p, d).step.response.Listed?
    ensures Lookup(Import(appDir, p, d).step.response.musicByFolder, k) == Lookup(d.library.index, k)
  {
    var music := Import(appDir, p, d).music;
    PutKeepsOthers(d.library.index, ProjectFolder, Scan(MusicPath(appDir), music.node).value, k);
  }

  /** An unreadable library file is replaced by one holding only the
      imported folder. */
  lemma ImportOverCorruptLibrary(appDir: string, p: Project, d: Disk)
    requires !d.library.Present?
    requires Import(appDir, p, d).step.response.Listed?
    ensures Names(Import(appDir, p, d).step.response.musicByFolder) == [ProjectFolder]
  {
    var music := Import(appDir, p, d).music;
    var r := Put([], ProjectFolder, Scan(MusicPath(appDir), music.node).value);
    assert Names(r) == [ProjectFolder];
  }

  /** The import fails exactly when the window is missing, the folder can be
      neither found nor created, cannot be read or listed, holds no audio
      file, or the library file cannot be written. */
  lemma ImportSucceedsIff(appDir: string, p: Project, d: Disk)
    ensures Import(appDir, p, d).step.response.Listed? <==>
              && p.ready
              && Ensured(p).Folder? && Ensured(p).readable
              && Scan(MusicPath(appDir), Ensured(p).node).Some?
              && Scan(MusicPath(appDir), Ensured(p).node).value != []
              && d.writable
  {
  }

  /** Importing again from an unchanged music folder leaves the library as
      the first import left it. */
  lemma ImportTwiceIsImportOnce(appDir: string, p: Project, d: Disk)
    requires Import(appDir, p, d).step.response.Listed?
    ensures var once := Import(appDir, p, d);
            var twice := Import(appDir, p.(music := once.music), once.step.disk);
            twice.step == once.step
  {
    var once := Import(appDir, p, d);
    var files := Scan(MusicPath(appDir), once.music.node).value;
    PutTwice(Existing(d.library), ProjectFolder, files);
  }
}
