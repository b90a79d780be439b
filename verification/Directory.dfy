/**
 One contract's directory: a bag of snapshot files. The store reads it sorted by
 file name, so a listing is a function of the directory.
 */
module Directory {
  import opened Orders
  import opened Snapshots

  /** `<nanos>-<extrinsic_hash>.json`, kept as its two parts. */
  datatype File = File(nanos: nat, hash: Hash)

  type Files = map<File, Snapshot>

  predicate FileLe(a: File, b: File) {
    a.nanos < b.nanos || (a.nanos == b.nanos && StringLe(a.hash, b.hash))
  }

  lemma FileOrder()
    ensures TotalOrder(FileLe)
  {
    StringOrder();
  }

  /** The file names, sorted. */
  function Names(files: Files): (r: seq<File>)
    ensures NoDup(r)
    ensures forall f :: f in r <==> f in files
  {
    FileOrder();
    SortedElements(files.Keys, FileLe)
  }

  function Contents(files: Files, names: seq<File>): (r: seq<Snapshot>)
    requires forall f :: f in names ==> f in files
    ensures |r| == |names|
    ensures forall i :: 0 <= i < |names| ==> r[i] == files[names[i]]
  {
    seq(|names|, i requires 0 <= i < |names| => files[names[i]])
  }

  /** `load_snapshots`, without the paths. */
  function Bag(files: Files): (r: seq<Snapshot>) {
    Contents(files, Names(files))
  }

  lemma BagSize(files: Files)
    ensures |Bag(files)| == |files|
  {
    hide Names;
    NoDupCardinality(Names(files));
    assert Elements(Names(files)) == files.Keys;
  }

  lemma BagMembers(files: Files)
    ensures forall s :: s in Bag(files) <==> exists f :: f in files && files[f] == s
  {
    hide Names;
    forall s ensures s in Bag(files) <==> exists f :: f in files && files[f] == s {
      if f :| f in files && files[f] == s {
        assert f in Names(files);
        var i :| 0 <= i < |Names(files)| && Names(files)[i] == f;
        assert Bag(files)[i] == s;
      }
      if s in Bag(files) {
        var i :| 0 <= i < |Bag(files)| && Bag(files)[i] == s;
        assert Names(files)[i] in files;
      }
    }
  }

  /** Every snapshot sits in a file that carries its hash. */
  ghost predicate NamedByHash(files: Files) {
    forall f :: f in files ==> f.hash == files[f].extrinsicHash
  }

  ghost predicate OnDisk(files: Files, h: Hash) {
    exists f :: f in files && files[f].extrinsicHash == h
  }

  ghost predicate OneFilePerHash(files: Files) {
    forall f, g :: f in files && g in files && files[f].extrinsicHash == files[g].extrinsicHash ==> f == g
  }

  lemma ContentsConcat(files: Files, a: seq<File>, b: seq<File>)
    requires forall f :: f in a + b ==> f in files
    ensures (forall f :: f in a ==> f in files) && (forall f :: f in b ==> f in files)
    ensures Contents(files, a + b) == Contents(files, a) + Contents(files, b)
  {
    assert forall f :: f in a || f in b ==> f in a + b;
  }

  lemma {:induction false} ContentsPermute(files: Files, a: seq<File>, b: seq<File>)
    requires multiset(a) == multiset(b)
    requires forall f :: f in a ==> f in files
    requires forall f :: f in b ==> f in files
    ensures multiset(Contents(files, a)) == multiset(Contents(files, b))
  {
    SameElements(a, b);
    if a != [] {
      var k := TakeOut(a, b);
      ContentsPermute(files, a[1..], b[..k] + b[k + 1..]);
      assert a == [a[0]] + a[1..] && b == b[..k] + ([b[k]] + b[k + 1..]);
      ContentsConcat(files, [a[0]], a[1..]);
      ContentsConcat(files, b[..k], [b[k]] + b[k + 1..]);
      ContentsConcat(files, [b[k]], b[k + 1..]);
      ContentsConcat(files, b[..k], b[k + 1..]);
      assert Contents(files, [a[0]]) == [files[a[0]]] == Contents(files, [b[k]]);
    }
  }

  /** Any listing of the directory holds the same bag. */
  lemma AnyListing(files: Files, names: seq<File>)
    requires NoDup(names) && forall f :: f in names <==> f in files
    ensures multiset(Contents(files, names)) == multiset(Bag(files))
  {
    NoDupSameElements(names, Names(files));
    ContentsPermute(files, names, Names(files));
  }

  lemma BagInsert(files: Files, f: File, s: Snapshot)
    requires f !in files
    ensures multiset(Bag(files[f := s])) == multiset(Bag(files)) + multiset{s}
  {
    hide Names;
    var names, after := Names(files), files[f := s];
    NoDupCons(f, names);
    AnyListing(after, [f] + names);
    ContentsConcat(after, [f], names);
    assert Contents(after, [f]) == [s];
    assert Contents(after, names) == Bag(files);
  }

  lemma BagRemove(files: Files, f: File)
    requires f in files
    ensures multiset(Bag(files)) == multiset(Bag(files - {f})) + multiset{files[f]}
  {
    var rest := files - {f};
    BagInsert(rest, f, files[f]);
    assert rest[f := files[f]] == files;
  }

  lemma BagReplace(files: Files, f: File, s: Snapshot)
    requires f in files
    ensures multiset(Bag(files[f := s])) + multiset{files[f]} == multiset(Bag(files)) + multiset{s}
  {
    BagRemove(files, f);
    ReplaceIsRemoveInsert(files, f, s);
    BagInsert(files - {f}, f, s);
  }

  lemma ReplaceIsRemoveInsert(files: Files, f: File, s: Snapshot)
    requires f in files
    ensures (files - {f})[f := s] == files[f := s]
  {
  }

  lemma OneFileDistinct(files: Files)
    ensures OneFilePerHash(files) <==> DistinctHashes(Bag(files))
  {
    hide Names;
    var names, bag := Names(files), Bag(files);
    if OneFilePerHash(files) {
      forall i, j | 0 <= i < j < |bag| ensures Hashes(bag)[i] != Hashes(bag)[j] {
        assert names[i] in names && names[j] in names;
      }
    }
    if DistinctHashes(bag) {
      forall f, g | f in files && g in files && files[f].extrinsicHash == files[g].extrinsicHash ensures f == g {
        assert f in names && g in names;
        var i :| 0 <= i < |names| && names[i] == f;
        var j :| 0 <= j < |names| && names[j] == g;
        assert Hashes(bag)[i] == Hashes(bag)[j];
      }
    }
  }

  /** The directory holds exactly the snapshots of `chain`, which is one chain. */
  ghost predicate Holds(files: Files, chain: seq<Snapshot>) {
    ChainOf(chain, Bag(files))
  }

  lemma HoldsMembers(files: Files, chain: seq<Snapshot>)
    requires Holds(files, chain)
    ensures forall s :: s in chain <==> exists f :: f in files && files[f] == s
    ensures |chain| == |files|
    ensures OneFilePerHash(files)
  {
    BagSize(files);
    BagMembers(files);
    SameElements(chain, Bag(files));
    DistinctPermutes(chain, Bag(files));
    OneFileDistinct(files);
  }
}
