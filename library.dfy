/** The music library record that main.js keeps in musicLibrary.json:
    track records, the folder index (a JavaScript object from folder name to
    track array) and the library file itself. */
module Library {
  import opened Seqs

  datatype Option<+T> = None | Some(value: T)

  /** One audio file entry, with the fields the import writes. */
  datatype Track = Track(
    title: string,
    path: string,
    fileName: string,
    folderName: string,
    format: string,
    size: nat)

  /** One own property of the library object: a folder name and its track array. */
  datatype Entry = Entry(folder: string, tracks: seq<Track>)

  function Names(es: seq<Entry>): seq<string> {
    seq(|es|, i requires 0 <= i < |es| => es[i].folder)
  }

  /** A JavaScript object: its own keys are distinct and enumerate in insertion order. */
  type Index = es: seq<Entry> | Distinct(Names(es))

  predicate HasFolder(es: seq<Entry>, name: string) {
    name in Names(es)
  }

  /** Where the key `name` sits among the own keys. */
  function Position(es: seq<Entry>, name: string): (p: nat)
    requires HasFolder(es, name)
    ensures p < |es| && es[p].folder == name
    ensures forall j :: 0 <= j < p ==> es[j].folder != name
  {
    if es[0].folder == name then 0
    else
      assert Names(es[1..]) == Names(es)[1..];
      1 + Position(es[1..], name)
  }

  /** `obj[name]` restricted to own properties. */
  function Lookup(es: seq<Entry>, name: string): (r: Option<seq<Track>>)
    ensures r.None? <==> forall i :: 0 <= i < |es| ==> es[i].folder != name
    ensures r.Some? ==> Entry(name, r.value) in es
  {
    if HasFolder(es, name) then
      var p := Position(es, name);
      assert es[p] == Entry(name, es[p].tracks);
      Some(es[p].tracks)
    else
      assert forall i :: 0 <= i < |es| ==> es[i].folder != name by {
        forall i | 0 <= i < |es| ensures es[i].folder != name {
          assert Names(es)[i] == es[i].folder;
        }
      }
      None
  }

  lemma LookupAt(idx: Index, i: nat)
    requires i < |idx|
    ensures Lookup(idx, idx[i].folder) == Some(idx[i].tracks)
  {
    assert Names(idx)[i] == idx[i].folder;
    var p := Position(idx, idx[i].folder);
    assert Names(idx)[p] == Names(idx)[i];
  }

  /** `obj[name] = ts`: an existing key keeps its place and takes the new
      array, a new key is appended after the others. */
  function Put(idx: Index, name: string, ts: seq<Track>): (r: Index)
    ensures Lookup(r, name) == Some(ts)
    ensures Names(r) == if HasFolder(idx, name) then Names(idx) else Names(idx) + [name]
    ensures !HasFolder(idx, name) ==> r == idx + [Entry(name, ts)]
  {
    if HasFolder(idx, name) then
      var p := Position(idx, name);
      var r := idx[p := Entry(name, ts)];
      assert Names(r) == Names(idx);
      LookupAt(r, p);
      r
    else
      var r := idx + [Entry(name, ts)];
      assert Names(r) == Names(idx) + [name];
      assert Distinct(Names(r));
      LookupAt(r, |idx|);
      r
  }

  /** Assigning one key leaves every other key's value as it was. */
  lemma PutKeepsOthers(idx: Index, name: string, ts: seq<Track>, k: string)
    requires k != name
    ensures Lookup(Put(idx, name, ts), k) == Lookup(idx, k)
  {
    var r := Put(idx, name, ts);
    if HasFolder(idx, k) {
      var p := Position(idx, k);
      LookupAt(idx, p);
      if HasFolder(idx, name) {
        assert r[p] == idx[p];
      } else {
        assert r[p] == idx[p];
      }
      LookupAt(r, p);
    } else {
      assert !HasFolder(r, k);
    }
  }

  /** Assigning the same array to a key twice is assigning it once. */
  lemma PutTwice(idx: Index, name: string, ts: seq<Track>)
    ensures Put(Put(idx, name, ts), name, ts) == Put(idx, name, ts)
  {
    var r := Put(idx, name, ts);
    assert HasFolder(r, name) by {
      assert Lookup(r, name).Some?;
    }
    var p := Position(r, name);
    assert r[p] == Entry(name, ts);
    assert r[p := Entry(name, ts)] == r;
  }

  /** `delete obj[name]`: removes that one own property, the rest keep their order. */
  function Delete(idx: Index, name: string): (r: Index)
    ensures !HasFolder(r, name)
    ensures HasFolder(idx, name) ==> |r| == |idx| - 1
    ensures HasFolder(idx, name) ==>
      r == idx[..Position(idx, name)] + idx[Position(idx, name) + 1..]
    ensures !HasFolder(idx, name) ==> r == idx
  {
    if HasFolder(idx, name) then
      var p := Position(idx, name);
      var r := idx[..p] + idx[p + 1..];
      assert Names(r) == Names(idx)[..p] + Names(idx)[p + 1..];
      assert Names(idx)[p] == name;
      DistinctRemoveAt(Names(idx), p);
      r
    else idx
  }

  /** Deleting one key leaves every other key's value as it was. */
  lemma DeleteKeepsOthers(idx: Index, name: string, k: string)
    requires k != name
    ensures Lookup(Delete(idx, name), k) == Lookup(idx, k)
  {
    var r := Delete(idx, name);
    if HasFolder(idx, name) {
      var p := Position(idx, name);
      if HasFolder(idx, k) {
        var q := Position(idx, k);
        LookupAt(idx, q);
        assert q != p;
        var q' := if q < p then q else q - 1;
        assert r[q'] == idx[q];
        LookupAt(r, q');
      } else {
        forall i | 0 <= i < |r| ensures r[i].folder != k {
          var i' := if i < p then i else i + 1;
          assert r[i] == idx[i'];
          assert Names(idx)[i'] == idx[i'].folder;
        }
        assert Lookup(r, k) == None;
      }
    }
  }

  /** The library file musicLibrary.json as a handler finds it: missing,
      present but failing `readFile` or `JSON.parse`, or holding an index. */
  datatype Store = Absent | Corrupt | Present(index: Index)
}
