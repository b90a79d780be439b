/** What an import leaves behind: on success, at every stop, and when it is run again. */
module ImportLaws {
  import opened Wrappers
  import opened Orders
  import opened Snapshots
  import opened FindLeaf
  import opened TopoSort
  import opened Directory
  import opened Journal
  import opened JournalLaws
  import opened Store
  import opened Import

  /** The directory of `a` after the first `n` entries have been written to their targets. */
  ghost function ApplyTo(files: Files, entries: seq<Entry>, targets: seq<Option<Path>>, a: Address, n: nat): (r: Files)
    requires n <= |entries| == |targets| && Located(targets)
  {
    if n == 0 then files
    else
      var rest := ApplyTo(files, entries, targets, a, n - 1);
      if entries[n - 1].address == a && targets[n - 1].Some?
      then rest[targets[n - 1].value.file := entries[n - 1].snapshot] else rest
  }

  /** The commit of one entry writes its snapshot to its target, or stops before that. */
  lemma CommitOneWrites(js: Journals, e: Entry, target: Option<Path>, io: EntryIo)
    requires target.Some? ==> target.value.At?
    ensures var (after, r) := CommitOne(js, e, target, io);
            var files := JournalAt(js, e.address).files;
            var written := if target.Some? then files[target.value.file := e.snapshot] else files;
            && Unrelated(js, after, e.address)
            && after.Keys == js.Keys + {e.address}
            && (JournalAt(after, e.address).files == files || JournalAt(after, e.address).files == written)
            && (r.Ok? ==> JournalAt(after, e.address).files == written)
  {
  }

  /** Wherever a commit stops, it has written a prefix of the payload. */
  lemma {:induction false} CommitWritesPrefix(
      js: Journals, entries: seq<Entry>, targets: seq<Option<Path>>, io: seq<EntryIo>, n: nat)
    returns (m: nat)
    requires n <= |entries| == |targets| == |io| && Located(targets)
    ensures m <= n && (Commit(js, entries, targets, io, n).1.Ok? ==> m == n)
    ensures forall a :: JournalAt(Commit(js, entries, targets, io, n).0, a).files
                        == ApplyTo(JournalAt(js, a).files, entries, targets, a, m)
  {
    hide CommitOne, JournalAt, Unrelated;
    m := 0;
    if n > 0 {
      m := CommitWritesPrefix(js, entries, targets, io, n - 1);
      var before := Commit(js, entries, targets, io, n - 1);
      if before.1.Ok? {
        CommitOneWrites(before.0, entries[n - 1], targets[n - 1], io[n - 1]);
        UnrelatedFiles(before.0, Commit(js, entries, targets, io, n).0, entries[n - 1].address);
      }
      if before.1.Ok? {
        var after := Commit(js, entries, targets, io, n);
        var a := entries[n - 1].address;
        if after.1.Ok? || (JournalAt(after.0, a).files != JournalAt(before.0, a).files) {
          m := n;
        }
      }
    }
  }

  lemma UnrelatedFiles(before: Journals, after: Journals, a: Address)
    requires Unrelated(before, after, a)
    ensures forall b :: b != a ==> JournalAt(after, b) == JournalAt(before, b)
  {
  }

  lemma {:induction false} OthersUnchanged(
      js: Journals, entries: seq<Entry>, targets: seq<Option<Path>>, io: seq<EntryIo>, n: nat, a: Address)
    requires n <= |entries| == |targets| == |io| && Located(targets)
    requires forall e :: e in entries ==> e.address != a
    ensures JournalAt(Commit(js, entries, targets, io, n).0, a) == JournalAt(js, a)
  {
    if n > 0 {
      OthersUnchanged(js, entries, targets, io, n - 1, a);
      assert entries[n - 1] in entries;
    }
  }

  // ---------------------------------------------------------------------------
  // The disk after an import.
  // ---------------------------------------------------------------------------

  /** An entry's target carries the entry's hash, and is new or the file that held it. */
  lemma TargetFile(js: Journals, e: Entry, conflict: ConflictStrategy, nanos: nat)
    requires NamedByHash(JournalAt(js, e.address).files)
    ensures var target, files := TargetOf(js, e, conflict, nanos), JournalAt(js, e.address).files;
            target.Some? ==>
              && target.value.file.hash == e.snapshot.extrinsicHash
              && (Existing(js, e).None? ==> target.value.file !in files)
              && (Existing(js, e).Some? ==> target.value.file == Existing(js, e).value && conflict == Overwrite)
  {
  }

  lemma {:induction false} AppliedNamed(
      js: Journals, entries: seq<Entry>, conflict: ConflictStrategy, clock: seq<nat>, a: Address, n: nat)
    requires n <= |entries| == |clock| && NamedByHash(JournalAt(js, a).files)
    ensures var files := JournalAt(js, a).files;
            var after := ApplyTo(files, entries, Targets(js, entries, conflict, clock), a, n);
            && NamedByHash(after) && files.Keys <= after.Keys
            && forall f :: f in after && f !in files ==> exists i :: 0 <= i < n && Key(entries[i]) == (a, f.hash)
  {
    hide TargetOf, JournalAt, Existing;
    if n > 0 {
      AppliedNamed(js, entries, conflict, clock, a, n - 1);
      if entries[n - 1].address == a {
        TargetFile(js, entries[n - 1], conflict, clock[n - 1]);
      }
    }
  }

  /** `view` is what the directory holds, hash by hash. */
  ghost predicate Shows(files: Files, view: map<Hash, Snapshot>) {
    && (forall f :: f in files ==> files[f].extrinsicHash in view && view[files[f].extrinsicHash] == files[f])
    && (forall h :: h in view ==> OnDisk(files, h))
  }

  lemma ViewShows(files: Files)
    requires OneFilePerHash(files)
    ensures Shows(files, ViewOf(files))
  {
    hide PathByHash;
  }

  lemma ShowsOnly(files: Files, view: map<Hash, Snapshot>)
    requires OneFilePerHash(files) && Shows(files, view)
    ensures view == ViewOf(files)
  {
    hide ViewOf, OneFilePerHash;
    ViewShows(files);
    var shown := ViewOf(files);
    forall h ensures h in view ==> h in shown && shown[h] == view[h] {
      if h in view {
        var f :| f in files && files[f].extrinsicHash == h;
      }
    }
    forall h ensures h in shown ==> h in view {
      if h in shown {
        var f :| f in files && files[f].extrinsicHash == h;
      }
    }
  }

  lemma NamedInsert(files: Files, f: File, s: Snapshot)
    requires NamedByHash(files) && OneFilePerHash(files) && f.hash == s.extrinsicHash
    requires f in files || !OnDisk(files, s.extrinsicHash)
    ensures NamedByHash(files[f := s]) && OneFilePerHash(files[f := s])
  {
  }

  lemma OnDiskInsert(files: Files, f: File, s: Snapshot, h: Hash)
    requires OnDisk(files, h) && (f in files ==> files[f].extrinsicHash == s.extrinsicHash)
    ensures OnDisk(files[f := s], h)
  {
    var after := files[f := s];
    var g :| g in files && files[g].extrinsicHash == h;
    assert g in after && after[g].extrinsicHash == h;
  }

  lemma ShowsInsert(files: Files, view: map<Hash, Snapshot>, f: File, s: Snapshot)
    requires NamedByHash(files) && OneFilePerHash(files) && Shows(files, view) && f.hash == s.extrinsicHash
    requires f in files || s.extrinsicHash !in view
    ensures NamedByHash(files[f := s]) && OneFilePerHash(files[f := s])
    ensures Shows(files[f := s], view[s.extrinsicHash := s])
  {
    NamedInsert(files, f, s);
    var after, shown := files[f := s], view[s.extrinsicHash := s];
    assert f in after && after[f].extrinsicHash == s.extrinsicHash;
    forall g | g in files && g != f ensures files[g].extrinsicHash != s.extrinsicHash {
      assert g in after && after[g] == files[g];
    }
    hide OneFilePerHash;
    forall h | h in view ensures OnDisk(after, h) {
      OnDiskInsert(files, f, s, h);
    }
  }

  /** Written out, the staged entries are the in-memory merge. */
  lemma {:induction false} AppliedShowsMerge(
      js: Journals, entries: seq<Entry>, conflict: ConflictStrategy, clock: seq<nat>, a: Address, n: nat)
    requires n <= |entries| == |clock| && NoRepeats(entries)
    requires NamedByHash(JournalAt(js, a).files) && OneFilePerHash(JournalAt(js, a).files)
    ensures var after := ApplyTo(JournalAt(js, a).files, entries, Targets(js, entries, conflict, clock), a, n);
            NamedByHash(after) && OneFilePerHash(after) && Shows(after, Merged(js, entries, conflict, a, n))
  {
    hide TargetOf, Existing, NamedByHash, OneFilePerHash, Shows, ViewOf;
    var files := JournalAt(js, a).files;
    if n == 0 {
      ViewShows(files);
    } else {
      AppliedShowsMerge(js, entries, conflict, clock, a, n - 1);
      var e, i: nat := entries[n - 1], n - 1;
      if e.address == a && Targets(js, entries, conflict, clock)[i].Some? {
        TargetFile(js, e, conflict, clock[i]);
        TargetFresh(js, entries, conflict, clock, i);
        TargetIsWrite(js, e, conflict, clock[i]);
        var rest := ApplyTo(files, entries, Targets(js, entries, conflict, clock), a, i);
        ShowsInsert(
          rest, Merged(js, entries, conflict, a, i), Targets(js, entries, conflict, clock)[i].value.file, e.snapshot);
      } else {
        TargetIsWrite(js, e, conflict, clock[i]);
      }
    }
  }

  lemma TargetIsWrite(js: Journals, e: Entry, conflict: ConflictStrategy, nanos: nat)
    ensures TargetOf(js, e, conflict, nanos).Some? <==> Existing(js, e).None? || conflict == Overwrite
  {
  }

  /** When an entry is written, its target is still the old file, or its hash is still new. */
  lemma TargetFresh(js: Journals, entries: seq<Entry>, conflict: ConflictStrategy, clock: seq<nat>, i: nat)
    requires i < |entries| == |clock| && NoRepeats(entries)
    requires NamedByHash(JournalAt(js, entries[i].address).files)
    ensures var e, a, targets := entries[i], entries[i].address, Targets(js, entries, conflict, clock);
            var rest := ApplyTo(JournalAt(js, a).files, entries, targets, a, i);
            targets[i].Some? ==>
              targets[i].value.file in JournalAt(js, a).files
              || (Existing(js, e).None? && targets[i].value.file !in rest
                  && e.snapshot.extrinsicHash !in Merged(js, entries, conflict, a, i))
    ensures JournalAt(js, entries[i].address).files.Keys
         <= ApplyTo(JournalAt(js, entries[i].address).files, entries, Targets(js, entries, conflict, clock),
                    entries[i].address, i).Keys
  {
    hide TargetOf, Existing, ViewOf, ApplyTo;
    var e := entries[i];
    TargetFile(js, e, conflict, clock[i]);
    AppliedNamed(js, entries, conflict, clock, e.address, i);
    if Existing(js, e).None? {
      assert forall k :: 0 <= k < i ==> Key(entries[k]) != Key(e);
      MergedHashes(js, entries, conflict, e.address, i, e.snapshot.extrinsicHash);
      NotExistingNotInView(js, e);
    }
  }

  lemma NotExistingNotInView(js: Journals, e: Entry)
    ensures Existing(js, e).Some? <==> e.snapshot.extrinsicHash in ViewOf(JournalAt(js, e.address).files)
  {
  }

  /** A hash of the merge was there before, or an entry brought it. */
  lemma {:induction false} MergedHashes(
      js: Journals, entries: seq<Entry>, conflict: ConflictStrategy, a: Address, n: nat, h: Hash)
    requires n <= |entries|
    ensures h in Merged(js, entries, conflict, a, n) && h !in ViewOf(JournalAt(js, a).files) ==>
              exists i :: 0 <= i < n && Key(entries[i]) == (a, h)
    ensures h in ViewOf(JournalAt(js, a).files) ==> h in Merged(js, entries, conflict, a, n)
    ensures (forall i :: 0 <= i < n ==> Key(entries[i]) != (a, h)) && h in Merged(js, entries, conflict, a, n) ==>
              h in ViewOf(JournalAt(js, a).files)
              && Merged(js, entries, conflict, a, n)[h] == ViewOf(JournalAt(js, a).files)[h]
  {
    hide ViewOf, Existing;
    if n > 0 {
      MergedHashes(js, entries, conflict, a, n - 1, h);
    }
  }

  lemma ShowsSameBag(files: Files, view: map<Hash, Snapshot>)
    requires OneFilePerHash(files) && Shows(files, view)
    requires forall h :: h in view ==> view[h].extrinsicHash == h
    ensures multiset(Bag(files)) == multiset(Values(view))
  {
    hide Bag, Values;
    ValuesHashes(view);
    BagMembers(files);
    OneFileDistinct(files);
    DistinctNoDup(Bag(files));
    DistinctNoDup(Values(view));
    forall s ensures s in Bag(files) <==> s in Values(view) {
      if s in Values(view) {
        var f :| f in files && files[f].extrinsicHash == s.extrinsicHash;
      }
    }
    NoDupSameElements(Bag(files), Values(view));
  }

  /** After an import that returns `Ok`, the disk is the in-memory merge that the fifth pass looked at. */
  lemma DiskIsMerge(
      js: Journals, entries: seq<Entry>, conflict: ConflictStrategy, clock: seq<nat>, io: seq<EntryIo>, a: Address)
    requires |clock| == |entries| == |io| && NoRepeats(entries)
    requires NamedByHash(JournalAt(js, a).files) && OneFilePerHash(JournalAt(js, a).files)
    requires Commit(js, entries, Targets(js, entries, conflict, clock), io, |entries|).1.Ok?
    ensures var targets := Targets(js, entries, conflict, clock);
            var after := JournalAt(Commit(js, entries, targets, io, |entries|).0, a).files;
            var merged := Merged(js, entries, conflict, a, |entries|);
            && NamedByHash(after) && OneFilePerHash(after)
            && ViewOf(after) == merged
            && multiset(Bag(after)) == multiset(Values(merged))
  {
    hide NamedByHash, OneFilePerHash, Shows, ViewOf, Bag, Values, ApplyTo, Merged;
    var m := CommitWritesPrefix(js, entries, Targets(js, entries, conflict, clock), io, |entries|);
    AppliedShowsMerge(js, entries, conflict, clock, a, m);
    var after := ApplyTo(JournalAt(js, a).files, entries, Targets(js, entries, conflict, clock), a, m);
    ShowsOnly(after, Merged(js, entries, conflict, a, m));
    ShowsSameBag(after, Merged(js, entries, conflict, a, m));
  }

  /**
   After an accepted import that returns `Ok`, each address of the payload holds
   one chain exactly when no hash had two files there before: the in-memory view
   keeps one of two such files, so the fifth pass cannot see the other.
   */
  lemma ImportedIsChain(
      js: Journals, entries: seq<Entry>, conflict: ConflictStrategy, clock: seq<nat>, io: seq<EntryIo>, e: Entry)
    requires |clock| == |entries| == |io| && Acceptable(js, entries, conflict) && e in entries
    requires NamedByHash(JournalAt(js, e.address).files)
    requires Commit(js, entries, Targets(js, entries, conflict, clock), io, |entries|).1.Ok?
    ensures var targets := Targets(js, entries, conflict, clock);
            var after := JournalAt(Commit(js, entries, targets, io, |entries|).0, e.address).files;
            (exists chain :: Holds(after, chain)) <==> OneFilePerHash(JournalAt(js, e.address).files)
  {
    hide Bag, Values, Commit, Merged, Refused, Leaf, Holds, NamedByHash, OneFilePerHash;
    var a, targets := e.address, Targets(js, entries, conflict, clock);
    var after := JournalAt(Commit(js, entries, targets, io, |entries|).0, a).files;
    if OneFilePerHash(JournalAt(js, a).files) {
      DiskIsMerge(js, entries, conflict, clock, io, a);
      assert MergesWell(js, entries, conflict, a);
      LeafPermutes(Values(Merged(js, entries, conflict, a, |entries|)), Bag(after));
      var chain := ChainOfHead(after);
    }
    if chain :| Holds(after, chain) {
      HoldsMembers(after, chain);
      var m := CommitWritesPrefix(js, entries, targets, io, |entries|);
      AppliedNamed(js, entries, conflict, clock, a, m);
      FewerFilesOnePerHash(JournalAt(js, a).files, after);
    }
  }

  lemma FewerFilesOnePerHash(before: Files, after: Files)
    requires NamedByHash(before) && NamedByHash(after) && before.Keys <= after.Keys && OneFilePerHash(after)
    ensures OneFilePerHash(before)
  {
    forall f, g | f in before && g in before && before[f].extrinsicHash == before[g].extrinsicHash ensures f == g {
      assert f in after && g in after;
    }
  }

  // ---------------------------------------------------------------------------
  // Counts
  // ---------------------------------------------------------------------------

  ghost function AllFiles(js: Journals): (r: set<(Address, File)>) {
    set a, f | a in js && f in js[a].files :: (a, f)
  }

  /** `imported + skipped + overwritten` is the payload, and the store grows by `imported` files. */
  lemma ImportCounts(
      js: Journals, entries: seq<Entry>, conflict: ConflictStrategy, clock: seq<nat>, io: seq<EntryIo>)
    requires |clock| == |entries| == |io| && NoRepeats(entries)
    requires forall a :: NamedByHash(JournalAt(js, a).files)
    requires Commit(js, entries, Targets(js, entries, conflict, clock), io, |entries|).1.Ok?
    ensures var r := Counts(js, entries, conflict, |entries|);
            var after := Commit(js, entries, Targets(js, entries, conflict, clock), io, |entries|).0;
            && r.imported + r.skipped + r.overwritten == |entries|
            && (conflict == Overwrite ==> r.skipped == 0) && (conflict != Overwrite ==> r.overwritten == 0)
            && |AllFiles(after)| == |AllFiles(js)| + r.imported
  {
    StoreGrows(js, entries, conflict, clock, io, |entries|);
  }

  lemma {:induction false} StoreGrows(
      js: Journals, entries: seq<Entry>, conflict: ConflictStrategy, clock: seq<nat>, io: seq<EntryIo>, n: nat)
    requires n <= |entries| == |clock| == |io| && NoRepeats(entries)
    requires forall a :: NamedByHash(JournalAt(js, a).files)
    requires Commit(js, entries, Targets(js, entries, conflict, clock), io, n).1.Ok?
    ensures |AllFiles(Commit(js, entries, Targets(js, entries, conflict, clock), io, n).0)|
         == |AllFiles(js)| + NewEntries(js, entries, n)
  {
    hide TargetOf, Existing, NamedByHash, ApplyTo, AllFiles, NoRepeats, Merged, CommitOne;
    if n > 0 {
      var targets, i: nat := Targets(js, entries, conflict, clock), n - 1;
      StoreGrows(js, entries, conflict, clock, io, i);
      var before, after := Commit(js, entries, targets, io, i).0, Commit(js, entries, targets, io, n).0;
      var e := entries[i];
      var m := CommitWritesPrefix(js, entries, targets, io, i);
      TargetFile(js, e, conflict, clock[i]);
      TargetFresh(js, entries, conflict, clock, i);
      TargetIsWrite(js, e, conflict, clock[i]);
      CommitOneWrites(before, e, targets[i], io[i]);
      WriteGrows(before, after, e.address, if targets[i].Some? then Some(targets[i].value.file) else None);
    }
  }

  lemma AllFilesHas(js: Journals)
    ensures forall p: (Address, File) :: p in AllFiles(js) <==> p.1 in JournalAt(js, p.0).files
  {
  }

  lemma FilesAfterWrite(before: Journals, after: Journals, a: Address, f: File)
    requires Unrelated(before, after, a)
    requires JournalAt(after, a).files.Keys == JournalAt(before, a).files.Keys + {f}
    ensures AllFiles(after) == AllFiles(before) + {(a, f)}
  {
    hide AllFiles, JournalAt, Unrelated;
    AllFilesHas(before);
    AllFilesHas(after);
    UnrelatedFiles(before, after, a);
    forall p: (Address, File) ensures p in AllFiles(after) <==> p in AllFiles(before) || p == (a, f) {
      FileAfterWrite(before, after, a, f, p.0, p.1);
    }
  }

  lemma FileAfterWrite(before: Journals, after: Journals, a: Address, f: File, b: Address, g: File)
    requires Unrelated(before, after, a)
    requires JournalAt(after, a).files.Keys == JournalAt(before, a).files.Keys + {f}
    ensures g in JournalAt(after, b).files <==> g in JournalAt(before, b).files || (b == a && g == f)
  {
    hide JournalAt;
    assert g in JournalAt(after, a).files <==> g in JournalAt(after, a).files.Keys;
  }

  lemma WriteGrows(before: Journals, after: Journals, a: Address, file: Option<File>)
    requires Unrelated(before, after, a)
    requires JournalAt(after, a).files.Keys
          == JournalAt(before, a).files.Keys + if file.Some? then {file.value} else {}
    ensures |AllFiles(after)|
         == |AllFiles(before)| + if file.Some? && file.value !in JournalAt(before, a).files then 1 else 0
  {
    hide AllFiles, JournalAt, Unrelated;
    AllFilesHas(before);
    if file.Some? {
      FilesAfterWrite(before, after, a, file.value);
      var p := (a, file.value);
      assert p in AllFiles(before) <==> file.value in JournalAt(before, a).files;
      if p in AllFiles(before) {
        assert AllFiles(before) + {p} == AllFiles(before);
      }
    } else {
      AllFilesHas(after);
      UnrelatedFiles(before, after, a);
      assert AllFiles(after) == AllFiles(before);
    }
  }

  // ---------------------------------------------------------------------------
  // Status
  // ---------------------------------------------------------------------------

  /** At every stop of an accepted import, no file is gone and no Confirmed snapshot is Pending again. */
  lemma {:induction false} ConfirmedStays(
      js: Journals, entries: seq<Entry>, conflict: ConflictStrategy, clock: seq<nat>, a: Address, n: nat, f: File)
    requires n <= |entries| == |clock| && NamedByHash(JournalAt(js, a).files) && f in JournalAt(js, a).files
    requires forall i :: 0 <= i < |entries| ==> !Refused(js, entries[i], conflict)
    ensures var files := JournalAt(js, a).files;
            var after := ApplyTo(files, entries, Targets(js, entries, conflict, clock), a, n);
            f in after && (files[f].status == Confirmed ==> after[f].status == Confirmed)
  {
    hide TargetOf, Existing, JournalAt;
    if n > 0 {
      ConfirmedStays(js, entries, conflict, clock, a, n - 1, f);
      if entries[n - 1].address == a {
        TargetFile(js, entries[n - 1], conflict, clock[n - 1]);
        assert !Refused(js, entries[n - 1], conflict);
      }
    }
  }
}
