/** `processDirectory` of the import-project-music handler: a recursive walk
    over the music folder that builds one track record per audio file. The
    directory tree is abstract: each entry's name and what `fs.statSync` and
    `fs.readdirSync` report for it. */
module Scanner {
  import opened Seqs
  import opened Library

  /** The `folderName` of every imported record and the key the import replaces. */
  const ProjectFolder := "Project Music"

  /** `supportedFormats`, compared with the lowercased extension. */
  const SupportedFormats: seq<string> := [".mp3", ".wav", ".ogg", ".m4a", ".flac", ".aac"]

  /** The `format` values the import can produce. */
  const FormatNames: set<string> := {"MP3", "WAV", "OGG", "M4A", "FLAC", "AAC"}

  /** What `fs.statSync` says of an entry: a regular file and its size, a
      directory (and whether `fs.readdirSync` can list it), something that is
      neither, or a stat that throws. */
  datatype Node =
    | File(size: nat)
    | Dir(listable: bool, children: seq<Child>)
    | Special
    | Unstattable

  /** One name returned by `fs.readdirSync`, with what it denotes. */
  datatype Child = Child(name: string, node: Node)

  /** `path.join(dir, name)` for a name without separators. */
  function Join(dir: string, name: string): string {
    dir + "/" + name
  }

  /** The index of the last '.' in `s`, or -1. */
  function LastDot(s: string): (i: int)
    ensures -1 <= i < |s|
    ensures 0 <= i ==> s[i] == '.'
    ensures forall j :: i < j < |s| ==> s[j] != '.'
  {
    if s == [] then -1
    else if s[|s| - 1] == '.' then |s| - 1
    else LastDot(s[..|s| - 1])
  }

  /** `path.extname(name)`: from the last '.' to the end, unless that '.' is
      the first character or the name is "..". */
  function ExtName(name: string): (ext: string)
    ensures ext != [] ==>
              && 0 < |name| - |ext|
              && ext == name[|name| - |ext|..]
              && ext[0] == '.'
              && forall k :: 0 < k < |ext| ==> ext[k] != '.'
    ensures ext == [] <==> name == ".." || forall k :: 0 < k < |name| ==> name[k] != '.'
  {
    var d := LastDot(name);
    if d <= 0 || name == ".." then "" else name[d..]
  }

  /** `path.parse(name).name`: the name without its extension. */
  function Stem(name: string): (stem: string)
    ensures stem + ExtName(name) == name
  {
    name[..|name| - |ExtName(name)|]
  }

  function LowerChar(c: char): char {
    if 'A' <= c <= 'Z' then (c as int + 32) as char else c
  }

  function UpperChar(c: char): char {
    if 'a' <= c <= 'z' then (c as int - 32) as char else c
  }

  /** `toLowerCase()` on ASCII letters. */
  function Lower(s: string): string {
    seq(|s|, i requires 0 <= i < |s| => LowerChar(s[i]))
  }

  /** `toUpperCase()` on ASCII letters. */
  function Upper(s: string): string {
    seq(|s|, i requires 0 <= i < |s| => UpperChar(s[i]))
  }

  /** The entry name has a supported audio extension, in any letter case. */
  predicate Supported(name: string)
    ensures Supported(name) ==> ExtName(name) != []
  {
    Lower(ExtName(name)) in SupportedFormats
  }

  /** `s.substring(1)`. */
  function DropFirst(s: string): string {
    if s == [] then [] else s[1..]
  }

  /** `ext.substring(1).toUpperCase()` of the lowercased extension. */
  function Format(name: string): (f: string)
    ensures Supported(name) ==> f in FormatNames
    ensures Supported(name) ==> "." + Lower(f) == Lower(ExtName(name))
  {
    var ext := Lower(ExtName(name));
    if ext in SupportedFormats then
      LowerUpperFormats(ext);
      FormatRoundTrip(ext);
      Upper(DropFirst(ext))
    else
      Upper(DropFirst(ext))
  }

  /** The record pushed for the audio file `name` found in `dirPath`. */
  function Record(dirPath: string, name: string, size: nat): Track {
    Track(Stem(name), Join(dirPath, name), name, ProjectFolder, Format(name), size)
  }

  /** What `processDirectory(dirPath)` pushes, or None when its
      `fs.readdirSync` throws (the error it rethrows). */
  function Scan(dirPath: string, node: Node): (found: Option<seq<Track>>)
    ensures found.Some? <==> node.Dir? && node.listable
    decreases node
  {
    match node
    case Dir(listable, children) => if listable then Some(ScanEntries(dirPath, children)) else None
    case _ => None
  }

  /** What the loop over the listed entries pushes, in listing order. */
  function ScanEntries(dirPath: string, entries: seq<Child>): seq<Track>
    decreases entries
  {
    if entries == [] then []
    else ScanEntries(dirPath, entries[..|entries| - 1]) + ScanEntry(dirPath, entries[|entries| - 1])
  }

  /** What one iteration of that loop pushes; every failure inside the
      iteration, a subdirectory's rethrow included, is caught and skipped. */
  function ScanEntry(dirPath: string, entry: Child): (found: seq<Track>)
    ensures Failing(entry) ==> found == []
    ensures entry.node.File? ==> (found != [] <==> Supported(entry.name))
    decreases entry
  {
    match entry.node
    case File(size) => if Supported(entry.name) then [Record(dirPath, entry.name, size)] else []
    case Dir(_, _) =>
      (match Scan(Join(dirPath, entry.name), entry.node)
       case Some(found) => found
       case None => [])
    case Special => []
    case Unstattable => []
  }

  /** `processDirectory(dirPath, false)`, pushing onto the shared `musicFiles`.
      Returns whether it threw; it then has pushed nothing. */
  method ProcessDirectory(dirPath: string, node: Node, musicFiles: seq<Track>)
    returns (files: seq<Track>, threw: bool)
    ensures threw <==> Scan(dirPath, node).None?
    ensures files == if threw then musicFiles else musicFiles + Scan(dirPath, node).value
    decreases node
  {
    files, threw := musicFiles, false;
    if !node.Dir? || !node.listable {
      return files, true;
    }
    var entries := node.children;
    var i := 0;
    while i < |entries|
      invariant 0 <= i <= |entries|
      invariant files == musicFiles + ScanEntries(dirPath, entries[..i])
    {
      files := ProcessEntry(dirPath, entries[i], files);
      ScanEntriesSnoc(dirPath, entries, i);
      assert (musicFiles + ScanEntries(dirPath, entries[..i])) + ScanEntry(dirPath, entries[i])
          == musicFiles + (ScanEntries(dirPath, entries[..i]) + ScanEntry(dirPath, entries[i]));
      i := i + 1;
    }
    assert entries[..i] == entries;
  }

  /** One iteration of that loop, inside its `try`: stat the entry, descend
      into a directory, or push the record of a supported file. */
  method ProcessEntry(dirPath: string, entry: Child, musicFiles: seq<Track>) returns (files: seq<Track>)
    ensures files == musicFiles + ScanEntry(dirPath, entry)
    decreases entry
  {
    files := musicFiles;
    var file := entry.name;
    var filePath := Join(dirPath, file);
    var stats := entry.node;
    match stats {
      case Dir(_, _) =>
        var sub, subThrew := ProcessDirectory(filePath, stats, files);
        if !subThrew {
          files := sub;
        }
      case File(size) =>
        var ext := Lower(ExtName(file));
        if ext in SupportedFormats {
          files := files + [Record(dirPath, file, size)];
        }
      case Special =>
      case Unstattable =>
    }
  }

  lemma ScanEntriesSnoc(dirPath: string, entries: seq<Child>, i: nat)
    requires i < |entries|
    ensures ScanEntries(dirPath, entries[..i + 1]) == ScanEntries(dirPath, entries[..i]) + ScanEntry(dirPath, entries[i])
  {
    assert entries[..i + 1][..i] == entries[..i];
  }

  lemma LowerUpperFormats(e: string)
    requires e in SupportedFormats
    ensures Upper(DropFirst(e)) in FormatNames
  {
    if e == ".mp3" {
      assert Upper(e[1..]) == "MP3";
    } else if e == ".wav" {
      assert Upper(e[1..]) == "WAV";
    } else if e == ".ogg" {
      assert Upper(e[1..]) == "OGG";
    } else if e == ".m4a" {
      assert Upper(e[1..]) == "M4A";
    } else if e == ".flac" {
      assert Upper(e[1..]) == "FLAC";
    } else {
      assert Upper(e[1..]) == "AAC";
    }
  }

  /** A supported extension is a '.' followed by lower-case letters and
      digits, so upper-casing its tail and lower-casing that gives it back. */
  lemma FormatRoundTrip(e: string)
    requires e in SupportedFormats
    ensures "." + Lower(Upper(DropFirst(e))) == e
  {
    assert e[0] == '.';
    assert forall k :: 0 <= k < |DropFirst(e)| ==> 'a' <= DropFirst(e)[k] <= 'z' || '0' <= DropFirst(e)[k] <= '9';
    LowerUpperPlain(DropFirst(e));
  }

  /** Upper-casing then lower-casing gives back a name made of lower-case
      letters and digits. */
  lemma LowerUpperPlain(s: string)
    requires forall k :: 0 <= k < |s| ==> 'a' <= s[k] <= 'z' || '0' <= s[k] <= '9'
    ensures Lower(Upper(s)) == s
  {
    forall k | 0 <= k < |s| ensures Lower(Upper(s))[k] == s[k] {
      assert Upper(s)[k] == UpperChar(s[k]);
    }
  }

  predicate EndsWith(s: string, suffix: string) {
    |suffix| <= |s| && s[|s| - |suffix|..] == suffix
  }

  /** What every imported record satisfies, for a scan rooted at `root`. */
  predicate ProjectRecord(t: Track, root: string) {
    && t.folderName == ProjectFolder
    && Supported(t.fileName)
    && t.format == Format(t.fileName)
    && t.format in FormatNames
    && t.title + ExtName(t.fileName) == t.fileName
    && root + "/" <= t.path
    && EndsWith(t.path, "/" + t.fileName)
  }

  /** The record built for a supported file carries its stem as title,
      its name, the project folder, the uppercased extension and its size. */
  lemma RecordIsProjectRecord(dirPath: string, name: string, size: nat)
    requires Supported(name)
    ensures ProjectRecord(Record(dirPath, name, size), dirPath)
    ensures Record(dirPath, name, size).fileName == name && Record(dirPath, name, size).size == size
  {
    var t := Record(dirPath, name, size);
    LowerUpperFormats(Lower(ExtName(name)));
    assert ExtName(name) != [];
    assert t.title + ExtName(name) == name;
    assert t.path == dirPath + "/" + name;
    assert t.path[|t.path| - |"/" + name|..] == "/" + name;
  }

  /** Every record a scan produces is an audio file record under the scanned
      directory. */
  lemma {:induction false} ScanRecords(dirPath: string, node: Node)
    requires Scan(dirPath, node).Some?
    ensures forall t :: t in Scan(dirPath, node).value ==> ProjectRecord(t, dirPath)
    decreases node
  {
    ScanEntriesRecords(dirPath, node.children);
  }

  lemma {:induction false} ScanEntriesRecords(dirPath: string, entries: seq<Child>)
    ensures forall t :: t in ScanEntries(dirPath, entries) ==> ProjectRecord(t, dirPath)
    decreases entries
  {
    if entries != [] {
      ScanEntriesRecords(dirPath, entries[..|entries| - 1]);
      ScanEntryRecords(dirPath, entries[|entries| - 1]);
    }
  }

  lemma {:induction false} ScanEntryRecords(dirPath: string, entry: Child)
    ensures forall t :: t in ScanEntry(dirPath, entry) ==> ProjectRecord(t, dirPath)
    decreases entry
  {
    match entry.node
    case File(size) =>
      if Supported(entry.name) {
        RecordIsProjectRecord(dirPath, entry.name, size);
      }
    case Dir(_, _) =>
      var sub := Join(dirPath, entry.name);
      if Scan(sub, entry.node).Some? {
        ScanRecords(sub, entry.node);
        forall t | t in Scan(sub, entry.node).value ensures ProjectRecord(t, dirPath) {
          ProjectRecordUnder(t, dirPath, entry.name);
        }
      }
    case Special =>
    case Unstattable =>
  }

  /** A record under a subdirectory lies under its parent too. */
  lemma ProjectRecordUnder(t: Track, dirPath: string, name: string)
    requires ProjectRecord(t, Join(dirPath, name))
    ensures ProjectRecord(t, dirPath)
  {
    assert dirPath + "/" <= Join(dirPath, name) + "/";
  }

  lemma {:induction false} ScanEntriesAppend(dirPath: string, a: seq<Child>, b: seq<Child>)
    ensures ScanEntries(dirPath, a + b) == ScanEntries(dirPath, a) + ScanEntries(dirPath, b)
    decreases b
  {
    if b == [] {
      assert a + b == a;
    } else {
      var b' := b[..|b| - 1];
      assert (a + b)[..|a + b| - 1] == a + b';
      ScanEntriesAppend(dirPath, a, b');
    }
  }

  /** The scan of a listing is the scan of the entries before `i`, then
      entry `i`, then the entries after it. */
  lemma ScanEntriesSplit(dirPath: string, entries: seq<Child>, i: nat)
    requires i < |entries|
    ensures ScanEntries(dirPath, entries)
            == ScanEntries(dirPath, entries[..i]) + ScanEntry(dirPath, entries[i])
               + ScanEntries(dirPath, entries[i + 1..])
  {
    assert entries == entries[..i + 1] + entries[i + 1..];
    ScanEntriesAppend(dirPath, entries[..i + 1], entries[i + 1..]);
    assert entries[..i + 1][..i] == entries[..i];
  }

  /** A supported file directly in a listed directory is collected, and an
      unsupported one is not. */
  lemma CollectsFileIffSupported(dirPath: string, entries: seq<Child>, i: nat)
    requires i < |entries| && entries[i].node.File?
    ensures Record(dirPath, entries[i].name, entries[i].node.size) in ScanEntries(dirPath, entries)
            <==> Supported(entries[i].name)
  {
    var r := Record(dirPath, entries[i].name, entries[i].node.size);
    ScanEntriesSplit(dirPath, entries, i);
    if r in ScanEntries(dirPath, entries) {
      ScanEntriesRecords(dirPath, entries);
    }
  }

  /** A listed subdirectory's records are all collected: its contents are
      scanned whatever the depth. */
  lemma CollectsSubdirectory(dirPath: string, entries: seq<Child>, i: nat)
    requires i < |entries| && entries[i].node.Dir? && entries[i].node.listable
    ensures var sub := Scan(Join(dirPath, entries[i].name), entries[i].node);
            sub.Some? && forall t :: t in sub.value ==> t in ScanEntries(dirPath, entries)
  {
    ScanEntriesSplit(dirPath, entries, i);
  }

  /** An entry whose stat throws, that is neither file nor directory, or is
      a subdirectory that cannot be listed, contributes no record. */
  predicate Failing(entry: Child) {
    entry.node.Unstattable? || entry.node.Special? || (entry.node.Dir? && !entry.node.listable)
  }

  /** A failing entry is skipped: the scan collects what it would collect
      without that entry. */
  lemma FailedEntryIsSkipped(dirPath: string, entries: seq<Child>, i: nat)
    requires i < |entries| && Failing(entries[i])
    ensures ScanEntries(dirPath, entries) == ScanEntries(dirPath, entries[..i] + entries[i + 1..])
  {
    var before, after := entries[..i], entries[i + 1..];
    ScanEntriesSplit(dirPath, entries, i);
    ScanEntriesAppend(dirPath, before, after);
  }
}
