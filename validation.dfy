/** The validation pass that main.js repeats in five handlers: keep the tracks
    whose path passes an accessibility check, keep the folders that still have
    a track, and list the folders that lost all of them in `accessErrors`.
    The check is an abstract predicate on paths; the handlers instantiate it
    with read permission or with existence (module Media). */
module Validation {
  import opened Seqs
  import opened Library

  /** The validated index and the `accessErrors` list of one pass. */
  datatype Validation = Validation(kept: Index, errors: seq<string>)

  /** The tracks of one folder whose path passes `ok`, in stored order. */
  function Surviving(ts: seq<Track>, ok: string -> bool): (r: seq<Track>)
    ensures Subsequence(r, ts)
    ensures forall i :: 0 <= i < |r| ==> ok(r[i].path)
  {
    if ts == [] then []
    else
      var t := ts[|ts| - 1];
      var init := ts[..|ts| - 1];
      var rest := Surviving(init, ok);
      assert ts == init + [t];
      if ok(t.path) then
        SubsequenceTake(rest, init, t);
        rest + [t]
      else
        SubsequenceSkip(rest, init, t);
        rest
  }

  /** Each track occurs in the survivors as often as in the folder when it
      passes, and not at all when it fails. */
  lemma {:induction false} SurvivingCounts(ts: seq<Track>, ok: string -> bool, t: Track)
    ensures multiset(Surviving(ts, ok))[t] == if ok(t.path) then multiset(ts)[t] else 0
  {
    if ts != [] {
      var init := ts[..|ts| - 1];
      SurvivingCounts(init, ok, t);
      assert ts == init + [ts[|ts| - 1]];
    }
  }

  lemma NamesSnoc(es: seq<Entry>, e: Entry)
    ensures Names(es + [e]) == Names(es) + [e.folder]
  {
  }

  lemma NamesPrefix(es: seq<Entry>, n: nat)
    requires n <= |es|
    ensures Names(es[..n]) == Names(es)[..n]
  {
  }

  /** The first `n` folders of an index, which is again an index. */
  function Prefix(lib: Index, n: nat): (r: Index)
    requires n <= |lib|
    ensures r == lib[..n]
  {
    NamesPrefix(lib, n);
    lib[..n]
  }

  /** A folder entry that a pass keeps as it is: non-empty, every track passing. */
  predicate AllPass(e: Entry, ok: string -> bool) {
    e.tracks != [] && forall i :: 0 <= i < |e.tracks| ==> ok(e.tracks[i].path)
  }

  /** The pass over a whole index, folder by folder in key order. */
  function Validate(lib: Index, ok: string -> bool): (v: Validation)
    ensures |v.kept| + |v.errors| == |lib|
    ensures Subsequence(Names(v.kept), Names(lib))
    ensures Subsequence(v.errors, Names(lib))
    decreases |lib|
  {
    if lib == [] then Validation([], [])
    else
      var n := |lib| - 1;
      var e := lib[n];
      NamesPrefix(lib, n);
      assert Names(lib) == Names(lib[..n]) + [e.folder];
      var init: Index := lib[..n];
      var rest := Validate(init, ok);
      var ts := Surviving(e.tracks, ok);
      SubsequenceMembers(Names(rest.kept), Names(init));
      assert e.folder !in Names(init) by {
        assert Names(lib)[n] == e.folder;
        forall i | 0 <= i < n ensures Names(init)[i] != e.folder {
          assert Names(init)[i] == Names(lib)[i];
        }
      }
      if ts == [] then
        SubsequenceSkip(Names(rest.kept), Names(init), e.folder);
        SubsequenceTake(rest.errors, Names(init), e.folder);
        Validation(rest.kept, rest.errors + [e.folder])
      else
        NamesSnoc(rest.kept, Entry(e.folder, ts));
        var kept: Index := rest.kept + [Entry(e.folder, ts)];
        SubsequenceTake(Names(rest.kept), Names(init), e.folder);
        SubsequenceSkip(rest.errors, Names(init), e.folder);
        Validation(kept, rest.errors)
  }

  /** One step of the pass, as the loops of the handlers take it. */
  lemma ValidateSnoc(lib: Index, ok: string -> bool, n: nat)
    requires n < |lib|
    ensures var init, next := Prefix(lib, n), Prefix(lib, n + 1);
            var ts := Surviving(lib[n].tracks, ok);
            var v, w := Validate(init, ok), Validate(next, ok);
            (ts == [] ==> w.kept == v.kept && w.errors == v.errors + [lib[n].folder])
            && (ts != [] ==> w.kept == v.kept + [Entry(lib[n].folder, ts)] && w.errors == v.errors)
  {
    NamesPrefix(lib, n);
    NamesPrefix(lib, n + 1);
    var next: Index := lib[..n + 1];
    assert next[..n] == lib[..n];
  }

  /** The partition: a folder with no surviving track is named in the
      errors and absent from the result; any other folder is in the result
      with exactly its surviving tracks and is not named in the errors. */
  lemma {:induction false} ValidatePartition(lib: Index, ok: string -> bool, i: nat)
    requires i < |lib|
    ensures var v := Validate(lib, ok);
            var ts := Surviving(lib[i].tracks, ok);
            (ts == [] ==> lib[i].folder in v.errors && !HasFolder(v.kept, lib[i].folder))
            && (ts != [] ==> Lookup(v.kept, lib[i].folder) == Some(ts) && lib[i].folder !in v.errors)
    decreases |lib|
  {
    var n := |lib| - 1;
    var e := lib[n];
    NamesPrefix(lib, n);
    assert Names(lib) == Names(lib[..n]) + [e.folder];
    var init: Index := lib[..n];
    assert lib[..n + 1] == lib;
    ValidateSnoc(lib, ok, n);
    var rest := Validate(init, ok);
    var ts := Surviving(e.tracks, ok);
    SubsequenceMembers(Names(rest.kept), Names(init));
    SubsequenceMembers(rest.errors, Names(init));
    assert e.folder !in Names(init);
    if i == n {
      if ts != [] {
        var kept: Index := rest.kept + [Entry(e.folder, ts)];
        LookupAt(kept, |rest.kept|);
      }
    } else {
      ValidatePartition(init, ok, i);
      var name := lib[i].folder;
      assert name == Names(lib)[i] && e.folder == Names(lib)[n];
      assert name != e.folder;
      if ts != [] {
        NamesSnoc(rest.kept, Entry(e.folder, ts));
        var kept: Index := rest.kept + [Entry(e.folder, ts)];
        assert kept == Put(rest.kept, e.folder, ts);
        PutKeepsOthers(rest.kept, e.folder, ts, name);
      }
    }
  }

  /** Each dropped folder is reported once, and never also kept. */
  lemma ValidateReportsOnce(lib: Index, ok: string -> bool)
    ensures var v := Validate(lib, ok);
            Distinct(v.errors) && forall name :: name in v.errors ==> !HasFolder(v.kept, name)
  {
    var v := Validate(lib, ok);
    SubsequenceDistinct(v.errors, Names(lib));
    SubsequenceMembers(v.errors, Names(lib));
    forall name | name in v.errors ensures !HasFolder(v.kept, name) {
      var i :| 0 <= i < |lib| && Names(lib)[i] == name;
      ValidatePartition(lib, ok, i);
    }
  }

  /** No folder is dropped exactly when every folder keeps at least one track. */
  lemma ValidateNoDrops(lib: Index, ok: string -> bool)
    ensures Validate(lib, ok).errors == [] <==>
            forall i :: 0 <= i < |lib| ==> Surviving(lib[i].tracks, ok) != []
  {
    var v := Validate(lib, ok);
    if v.errors == [] {
      forall i | 0 <= i < |lib| ensures Surviving(lib[i].tracks, ok) != [] {
        ValidatePartition(lib, ok, i);
      }
    } else {
      SubsequenceMembers(v.errors, Names(lib));
      assert v.errors[0] in Names(lib);
      var i :| 0 <= i < |lib| && Names(lib)[i] == v.errors[0];
      ValidatePartition(lib, ok, i);
    }
  }

  /** A folder stored with an empty track array is dropped, whatever the check. */
  lemma EmptyFolderDropped(lib: Index, ok: string -> bool, i: nat)
    requires i < |lib| && lib[i].tracks == []
    ensures lib[i].folder in Validate(lib, ok).errors
  {
    ValidatePartition(lib, ok, i);
  }

  lemma {:induction false} SurvivingAllPass(ts: seq<Track>, ok: string -> bool)
    requires forall i :: 0 <= i < |ts| ==> ok(ts[i].path)
    ensures Surviving(ts, ok) == ts
  {
    if ts != [] {
      var init := ts[..|ts| - 1];
      SurvivingAllPass(init, ok);
      assert ts == init + [ts[|ts| - 1]];
    }
  }

  /** An index whose every folder is non-empty and whose every track passes
      comes back unchanged with no errors. */
  lemma {:induction false} ValidateAllPass(lib: Index, ok: string -> bool)
    requires forall i :: 0 <= i < |lib| ==> AllPass(lib[i], ok)
    ensures Validate(lib, ok) == Validation(lib, [])
    decreases |lib|
  {
    if lib != [] {
      var n := |lib| - 1;
      ValidateAllPass(Prefix(lib, n), ok);
      AllPassStep(lib, ok, n);
      assert Prefix(lib, n + 1) == lib;
    }
  }

  lemma AllPassStep(lib: Index, ok: string -> bool, n: nat)
    requires n < |lib| && AllPass(lib[n], ok)
    requires Validate(Prefix(lib, n), ok) == Validation(Prefix(lib, n), [])
    ensures Validate(Prefix(lib, n + 1), ok) == Validation(Prefix(lib, n + 1), [])
  {
    var e := lib[n];
    SurvivingAllPass(e.tracks, ok);
    assert Surviving(e.tracks, ok) == e.tracks != [];
    ValidateSnoc(lib, ok, n);
    assert lib[..n + 1] == lib[..n] + [Entry(e.folder, e.tracks)];
  }

  /** Every folder a pass keeps is non-empty and all its tracks pass. */
  lemma {:induction false} ValidateKeptPass(lib: Index, ok: string -> bool)
    ensures var kept := Validate(lib, ok).kept;
            forall i :: 0 <= i < |kept| ==> AllPass(kept[i], ok)
    decreases |lib|
  {
    if lib != [] {
      var n := |lib| - 1;
      ValidateKeptPass(Prefix(lib, n), ok);
      KeptStep(lib, ok, n);
      assert Prefix(lib, n + 1) == lib;
    }
  }

  lemma KeptStep(lib: Index, ok: string -> bool, n: nat)
    requires n < |lib|
    requires var kept := Validate(Prefix(lib, n), ok).kept;
             forall i :: 0 <= i < |kept| ==> AllPass(kept[i], ok)
    ensures var kept := Validate(Prefix(lib, n + 1), ok).kept;
            forall i :: 0 <= i < |kept| ==> AllPass(kept[i], ok)
  {
    ValidateSnoc(lib, ok, n);
  }

  /** Validating an already validated index against the same check drops
      nothing and returns that index. */
  lemma ValidateIdempotent(lib: Index, ok: string -> bool)
    ensures var v := Validate(lib, ok);
            Validate(v.kept, ok) == Validation(v.kept, [])
  {
    ValidateKeptPass(lib, ok);
    ValidateAllPass(Validate(lib, ok).kept, ok);
  }

  /** A stronger check keeps an in-order subsequence of what a weaker one keeps. */
  lemma {:induction false} SurvivingMonotone(ts: seq<Track>, ok1: string -> bool, ok2: string -> bool)
    requires forall p :: ok1(p) ==> ok2(p)
    ensures Subsequence(Surviving(ts, ok1), Surviving(ts, ok2))
  {
    if ts == [] {
      SubsequenceEmpty<Track>([]);
    } else {
      var t := ts[|ts| - 1];
      var init := ts[..|ts| - 1];
      SurvivingMonotone(init, ok1, ok2);
      var r1, r2 := Surviving(init, ok1), Surviving(init, ok2);
      if ok1(t.path) {
        SubsequenceTake(r1, r2, t);
      } else if ok2(t.path) {
        SubsequenceSkip(r1, r2, t);
      }
    }
  }

  /** The appends of one step of two passes, the first keeping the folder
      only if the second does, preserve both sub-sequence relations. */
  lemma MonotoneStep(kept1: seq<string>, kept2: seq<string>, errors1: seq<string>, errors2: seq<string>,
                     x: string, keep1: bool, keep2: bool)
    requires Subsequence(kept1, kept2) && Subsequence(errors2, errors1) && (keep1 ==> keep2)
    ensures Subsequence(kept1 + (if keep1 then [x] else []), kept2 + (if keep2 then [x] else []))
    ensures Subsequence(errors2 + (if keep2 then [] else [x]), errors1 + (if keep1 then [] else [x]))
  {
    assert kept1 + [] == kept1 && kept2 + [] == kept2;
    assert errors1 + [] == errors1 && errors2 + [] == errors2;
    if keep1 {
      SubsequenceTake(kept1, kept2, x);
    } else if keep2 {
      SubsequenceSkip(kept1, kept2, x);
      SubsequenceSkip(errors2, errors1, x);
    } else {
      SubsequenceTake(errors2, errors1, x);
    }
  }

  /** A stronger check keeps a subsequence of the folders a weaker one keeps
      and drops a supersequence of the folders it drops. */
  lemma {:induction false} ValidateMonotone(lib: Index, ok1: string -> bool, ok2: string -> bool)
    requires forall p :: ok1(p) ==> ok2(p)
    ensures var v1, v2 := Validate(lib, ok1), Validate(lib, ok2);
            Subsequence(Names(v1.kept), Names(v2.kept)) && Subsequence(v2.errors, v1.errors)
    decreases |lib|
  {
    if lib == [] {
      SubsequenceEmpty<string>([]);
    } else {
      var n := |lib| - 1;
      var e := lib[n];
      ValidateMonotone(Prefix(lib, n), ok1, ok2);
      var ts1, ts2 := Surviving(e.tracks, ok1), Surviving(e.tracks, ok2);
      SurvivingMonotone(e.tracks, ok1, ok2);
      SubsequenceLength(ts1, ts2);
      StepNames(lib, ok1, n);
      StepNames(lib, ok2, n);
      var w1, w2 := Validate(Prefix(lib, n), ok1), Validate(Prefix(lib, n), ok2);
      MonotoneStep(Names(w1.kept), Names(w2.kept), w1.errors, w2.errors, e.folder, ts1 != [], ts2 != []);
      assert Prefix(lib, n + 1) == lib;
    }
  }

  /** One step of the pass, on the kept keys and the reported names. */
  lemma StepNames(lib: Index, ok: string -> bool, n: nat)
    requires n < |lib|
    ensures var v, w := Validate(Prefix(lib, n), ok), Validate(Prefix(lib, n + 1), ok);
            var keep := Surviving(lib[n].tracks, ok) != [];
            && Names(w.kept) == Names(v.kept) + (if keep then [lib[n].folder] else [])
            && w.errors == v.errors + (if keep then [] else [lib[n].folder])
  {
    ValidateSnoc(lib, ok, n);
    var v := Validate(Prefix(lib, n), ok);
    var ts := Surviving(lib[n].tracks, ok);
    NamesSnoc(v.kept, Entry(lib[n].folder, ts));
    assert Names(v.kept) + [] == Names(v.kept);
    assert v.errors + [] == v.errors;
  }

  /** One iteration of either pass: the folder at `n` is not yet among the
      kept keys, and it is either kept with its surviving tracks or reported. */
  lemma PassStep(lib: Index, ok: string -> bool, n: nat, kept: Index, errors: seq<string>)
    requires n < |lib|
    requires Validation(kept, errors) == Validate(Prefix(lib, n), ok)
    ensures !HasFolder(kept, lib[n].folder)
    ensures var ts := Surviving(lib[n].tracks, ok);
            Validate(Prefix(lib, n + 1), ok)
              == if ts == [] then Validation(kept, errors + [lib[n].folder])
                 else Validation(Put(kept, lib[n].folder, ts), errors)
  {
    ValidateSnoc(lib, ok, n);
    NamesPrefix(lib, n);
    var done: Index := lib[..n];
    assert lib[n].folder !in Names(done) by {
      assert Names(lib)[n] == lib[n].folder;
    }
    SubsequenceMembers(Names(kept), Names(done));
  }

  /** The one name for which `obj[name] = value` on a plain object creates no
      own key: it reaches the `__proto__` setter inherited from Object.prototype,
      while `JSON.parse` does make it an own key of the stored object. */
  const ProtoKey := "__proto__"

  /** `validatedLibrary[folderName] = validTracks` as written: for the name
      "__proto__" the object's prototype changes and its own keys do not. */
  function AssignAsWritten(idx: Index, name: string, ts: seq<Track>): (r: Index)
    ensures Names(r) == if name == ProtoKey || HasFolder(idx, name) then Names(idx) else Names(idx) + [name]
  {
    if name == ProtoKey then idx else Put(idx, name, ts)
  }

  /** The pass with that assignment: it reports the same folders, and a
      folder named "__proto__" is never among the kept keys. */
  function ValidateAsWritten(lib: Index, ok: string -> bool): (v: Validation)
    ensures v.errors == Validate(lib, ok).errors
    ensures !HasFolder(v.kept, ProtoKey)
    decreases |lib|
  {
    if lib == [] then Validation([], [])
    else
      var n := |lib| - 1;
      var rest := ValidateAsWritten(Prefix(lib, n), ok);
      var ts := Surviving(lib[n].tracks, ok);
      StepNames(lib, ok, n);
      assert Prefix(lib, n + 1) == lib;
      if ts == [] then Validation(rest.kept, rest.errors + [lib[n].folder])
      else
        AssignKeepsProtoOut(rest.kept, lib[n].folder, ts);
        Validation(AssignAsWritten(rest.kept, lib[n].folder, ts), rest.errors)
  }

  lemma AssignKeepsProtoOut(idx: Index, name: string, ts: seq<Track>)
    requires !HasFolder(idx, ProtoKey)
    ensures !HasFolder(AssignAsWritten(idx, name, ts), ProtoKey)
  {
  }

  /** A stored folder "__proto__" whose one track passes vanishes from the
      result as written without being reported, so the key-count test of
      get-music-library and load-music-library rewrites the file without it
      while `accessErrors` stays empty; the pass as intended keeps it. */
  lemma ProtoFolderVanishes(lib: Index, t: Track, ok: string -> bool)
    requires lib == [Entry(ProtoKey, [t])] && ok(t.path)
    ensures ValidateAsWritten(lib, ok) == Validation([], [])
    ensures Validate(lib, ok) == Validation(lib, [])
  {
    assert AllPass(lib[0], ok);
    ValidateAllPass(lib, ok);
    assert Prefix(lib, 0) == [];
  }

  /** The pass of get-music-library and load-music-library: `tracks.filter`
      over each folder, then keep the folder when the filtered array is non-empty. */
  method StrictPass(library: Index, ok: string -> bool) returns (validatedLibrary: Index, accessErrors: seq<string>)
    ensures Validation(validatedLibrary, accessErrors) == Validate(library, ok)
  {
    validatedLibrary, accessErrors := [], [];
    var i := 0;
    while i < |library|
      invariant 0 <= i <= |library|
      invariant Validation(validatedLibrary, accessErrors) == Validate(Prefix(library, i), ok)
    {
      var folderName, tracks := library[i].folder, library[i].tracks;
      var validTracks := Surviving(tracks, ok);
      PassStep(library, ok, i, validatedLibrary, accessErrors);
      if |validTracks| > 0 {
        validatedLibrary := Put(validatedLibrary, folderName, validTracks);
      } else {
        accessErrors := accessErrors + [folderName];
      }
      i := i + 1;
    }
    assert library[..i] == library;
  }

  /** One more track adds itself to the survivors exactly when it passes. */
  lemma SurvivingSnoc(ts: seq<Track>, ok: string -> bool, j: nat)
    requires j < |ts|
    ensures Surviving(ts[..j + 1], ok) == Surviving(ts[..j], ok) + if ok(ts[j].path) then [ts[j]] else []
  {
    assert ts[..j + 1][..j] == ts[..j];
  }

  /** The inner loop of the lenient pass over one folder's tracks: pushes
      each passing track and raises `folderAccessible` on the first. */
  method FolderPass(musicFiles: seq<Track>, ok: string -> bool) returns (validMusicFiles: seq<Track>, folderAccessible: bool)
    ensures validMusicFiles == Surviving(musicFiles, ok)
    ensures folderAccessible <==> validMusicFiles != []
  {
    validMusicFiles, folderAccessible := [], false;
    if |musicFiles| > 0 {
      var j := 0;
      while j < |musicFiles|
        invariant 0 <= j <= |musicFiles|
        invariant validMusicFiles == Surviving(musicFiles[..j], ok)
        invariant folderAccessible <==> validMusicFiles != []
      {
        SurvivingSnoc(musicFiles, ok, j);
        if ok(musicFiles[j].path) {
          folderAccessible := true;
          validMusicFiles := validMusicFiles + [musicFiles[j]];
        }
        j := j + 1;
      }
      assert musicFiles[..j] == musicFiles;
    }
  }

  /** The pass of load-library, the startup block and loadMusicLibrary: a
      nested loop that pushes each passing track and raises `folderAccessible`. */
  method LenientPass(musicByFolder: Index, ok: string -> bool) returns (validatedMusicByFolder: Index, accessErrors: seq<string>)
    ensures Validation(validatedMusicByFolder, accessErrors) == Validate(musicByFolder, ok)
  {
    validatedMusicByFolder, accessErrors := [], [];
    var i := 0;
    while i < |musicByFolder|
      invariant 0 <= i <= |musicByFolder|
      invariant Validation(validatedMusicByFolder, accessErrors) == Validate(Prefix(musicByFolder, i), ok)
    {
      var folderName, musicFiles := musicByFolder[i].folder, musicByFolder[i].tracks;
      var validMusicFiles, folderAccessible := FolderPass(musicFiles, ok);
      PassStep(musicByFolder, ok, i, validatedMusicByFolder, accessErrors);
      if folderAccessible && |validMusicFiles| > 0 {
        validatedMusicByFolder := Put(validatedMusicByFolder, folderName, validMusicFiles);
      } else {
        accessErrors := accessErrors + [folderName];
      }
      i := i + 1;
    }
    assert musicByFolder[..i] == musicByFolder;
  }
}
