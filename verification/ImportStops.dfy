/**
 Where an import can stop half-way, what that leaves behind, and why running it
 again finishes it.
 */
module ImportStops {
  import opened Wrappers
  import opened Snapshots
  import opened FindLeaf
  import opened TopoSort
  import opened Directory
  import opened Journal
  import opened JournalLaws
  import opened Store
  import opened Import
  import opened ImportLaws

  predicate MarkerMatches(js: Journals, a: Address) {
    var marker := JournalAt(js, a).marker;
    marker.None? || marker.value == a
  }

  ghost predicate MarkersMatch(js: Journals, entries: seq<Entry>, n: nat)
    requires n <= |entries|
  {
    forall i :: 0 <= i < n ==> MarkerMatches(js, entries[i].address)
  }

  /** Every write succeeds. */
  ghost predicate Healthy(io: seq<EntryIo>) {
    forall i :: 0 <= i < |io| ==> io[i] == EntryIo(Written, Written)
  }

  lemma {:induction false} CommitMarkers(
      js: Journals, entries: seq<Entry>, targets: seq<Option<Path>>, io: seq<EntryIo>, n: nat, a: Address)
    requires n <= |entries| == |targets| == |io| && Located(targets)
    requires Commit(js, entries, targets, io, n).1.Ok?
    ensures var after := JournalAt(Commit(js, entries, targets, io, n).0, a).marker;
            && (after == JournalAt(js, a).marker || (JournalAt(js, a).marker.None? && after == Some(a)))
            && ((exists i :: 0 <= i < n && entries[i].address == a) ==> after == Some(a))
  {
    if n > 0 {
      CommitMarkers(js, entries, targets, io, n - 1, a);
    }
  }

  /** On a healthy disk the commit fails exactly at a directory marked with another address. */
  lemma {:induction false} HealthyCommit(
      js: Journals, entries: seq<Entry>, targets: seq<Option<Path>>, io: seq<EntryIo>, n: nat)
    requires n <= |entries| == |targets| == |io| && Located(targets) && Healthy(io)
    ensures Commit(js, entries, targets, io, n).1.Ok? <==> MarkersMatch(js, entries, n)
  {
    if n > 0 {
      HealthyCommit(js, entries, targets, io, n - 1);
      if MarkersMatch(js, entries, n - 1) {
        CommitMarkers(js, entries, targets, io, n - 1, entries[n - 1].address);
      }
    }
  }

  ghost predicate SameStore(a: Journals, b: Journals) {
    forall address :: JournalAt(a, address) == JournalAt(b, address)
  }

  /** Committing the entry changes nothing: its marker is there, and so is its snapshot unless it is skipped. */
  ghost predicate Idle(js: Journals, e: Entry, target: Option<Path>) {
    var journal := JournalAt(js, e.address);
    && journal.marker == Some(e.address)
    && (target.Some? && target.value.At? ==>
          target.value.file in journal.files && journal.files[target.value.file] == e.snapshot)
  }

  /** The commit meets a directory with a wrong marker before it has changed anything. */
  ghost predicate IdleUntilMismatch(js: Journals, entries: seq<Entry>, targets: seq<Option<Path>>)
    requires |entries| == |targets|
  {
    exists m ::
      && 0 <= m < |entries|
      && !MarkerMatches(js, entries[m].address)
      && forall i :: 0 <= i < m ==> Idle(js, entries[i], targets[i])
  }

  lemma {:induction false} FirstMismatch(js: Journals, entries: seq<Entry>, n: nat) returns (m: nat)
    requires n <= |entries| && !MarkersMatch(js, entries, n)
    ensures m < n && MarkersMatch(js, entries, m) && !MarkerMatches(js, entries[m].address)
  {
    if MarkersMatch(js, entries, n - 1) {
      m := n - 1;
    } else {
      m := FirstMismatch(js, entries, n - 1);
    }
  }

  lemma {:induction false} IdlePrefix(
      js: Journals, entries: seq<Entry>, targets: seq<Option<Path>>, io: seq<EntryIo>, n: nat)
    requires n <= |entries| == |targets| == |io| && Located(targets) && Healthy(io)
    requires forall i :: 0 <= i < n ==> Idle(js, entries[i], targets[i])
    ensures Commit(js, entries, targets, io, n).1.Ok? && SameStore(Commit(js, entries, targets, io, n).0, js)
  {
    if n > 0 {
      IdlePrefix(js, entries, targets, io, n - 1);
      var before, e := Commit(js, entries, targets, io, n - 1).0, entries[n - 1];
      assert Idle(js, e, targets[n - 1]);
      assert JournalAt(before, e.address) == JournalAt(js, e.address);
      if targets[n - 1].Some? {
        SameWrite(JournalAt(js, e.address).files, targets[n - 1].value.file);
      }
    }
  }

  lemma SameWrite(files: Files, f: File)
    requires f in files
    ensures files[f := files[f]] == files
  {
  }

  /** What an entry wrote, no later entry of the payload touches. */
  lemma {:induction false} WrittenStays(
      js: Journals, entries: seq<Entry>, conflict: ConflictStrategy, clock: seq<nat>, n: nat, i: nat)
    requires i < n <= |entries| == |clock| && NoRepeats(entries)
    requires NamedByHash(JournalAt(js, entries[i].address).files)
    ensures var targets := Targets(js, entries, conflict, clock);
            targets[i].Some? ==>
              var after := ApplyTo(JournalAt(js, entries[i].address).files, entries, targets, entries[i].address, n);
              targets[i].value.file in after && after[targets[i].value.file] == entries[i].snapshot
  {
    hide TargetOf, Existing, JournalAt;
    var e := entries[i];
    TargetFile(js, e, conflict, clock[i]);
    if i < n - 1 {
      WrittenStays(js, entries, conflict, clock, n - 1, i);
      assert Key(e) != Key(entries[n - 1]);
      if entries[n - 1].address == e.address {
        TargetFile(js, entries[n - 1], conflict, clock[n - 1]);
      }
    }
  }

  /**
   The marker is checked in the commit pass, so even on a healthy disk an
   accepted import is all-or-nothing exactly when every marker matches, or the
   first wrong one is met before anything has changed.
   */
  lemma AllOrNothing(
      js: Journals, entries: seq<Entry>, conflict: ConflictStrategy, clock: seq<nat>, io: seq<EntryIo>)
    requires |clock| == |entries| == |io| && NoRepeats(entries) && Healthy(io)
    requires forall a :: NamedByHash(JournalAt(js, a).files)
    ensures var targets := Targets(js, entries, conflict, clock);
            var (after, r) := Commit(js, entries, targets, io, |entries|);
            r.Ok? || SameStore(after, js) <==>
              MarkersMatch(js, entries, |entries|) || IdleUntilMismatch(js, entries, targets)
  {
    hide Commit, Targets, SameStore, Idle, MarkerMatches;
    var targets, n := Targets(js, entries, conflict, clock), |entries|;
    HealthyCommit(js, entries, targets, io, n);
    if !MarkersMatch(js, entries, n) {
      if IdleUntilMismatch(js, entries, targets) {
        var m :| 0 <= m < |entries| && !MarkerMatches(js, entries[m].address)
                 && forall i :: 0 <= i < m ==> Idle(js, entries[i], targets[i]);
        IdlePrefix(js, entries, targets, io, m);
        StopsUnchanged(js, entries, targets, io, m);
      }
      if SameStore(Commit(js, entries, targets, io, n).0, js) {
        var m := FirstMismatch(js, entries, n);
        HealthyCommit(js, entries, targets, io, m);
        StopsUnchanged(js, entries, targets, io, m);
        forall i | 0 <= i < m ensures Idle(js, entries[i], targets[i]) {
          UnchangedIsIdle(js, entries, conflict, clock, io, m, i);
        }
      }
    }
  }

  lemma StopsUnchanged(js: Journals, entries: seq<Entry>, targets: seq<Option<Path>>, io: seq<EntryIo>, m: nat)
    requires m < |entries| == |targets| == |io| && Located(targets) && !MarkerMatches(js, entries[m].address)
    requires Commit(js, entries, targets, io, m).1.Ok?
    ensures SameStore(Commit(js, entries, targets, io, |entries|).0, Commit(js, entries, targets, io, m).0)
    ensures SameStore(Commit(js, entries, targets, io, m).0, js) <==>
              SameStore(Commit(js, entries, targets, io, |entries|).0, js)
  {
    CommitMarkers(js, entries, targets, io, m, entries[m].address);
    CommitStops(js, entries, targets, io, m + 1, |entries|);
    SameStoreCongruent(
      Commit(js, entries, targets, io, |entries|).0, Commit(js, entries, targets, io, m).0, js);
  }

  lemma SameStoreCongruent(a: Journals, b: Journals, c: Journals)
    requires SameStore(a, b)
    ensures SameStore(b, c) <==> SameStore(a, c)
  {
    if SameStore(a, c) {
      forall address ensures JournalAt(b, address) == JournalAt(c, address) {
        assert JournalAt(a, address) == JournalAt(b, address);
      }
    }
  }

  lemma UnchangedIsIdle(
      js: Journals, entries: seq<Entry>, conflict: ConflictStrategy, clock: seq<nat>, io: seq<EntryIo>, m: nat, i: nat)
    requires i < m <= |entries| == |clock| == |io| && NoRepeats(entries)
    requires NamedByHash(JournalAt(js, entries[i].address).files)
    requires Commit(js, entries, Targets(js, entries, conflict, clock), io, m).1.Ok?
    requires SameStore(Commit(js, entries, Targets(js, entries, conflict, clock), io, m).0, js)
    ensures Idle(js, entries[i], Targets(js, entries, conflict, clock)[i])
  {
    hide NamedByHash, ApplyTo, TargetOf, Commit;
    var targets, a := Targets(js, entries, conflict, clock), entries[i].address;
    CommitMarkers(js, entries, targets, io, m, a);
    var n := CommitWritesPrefix(js, entries, targets, io, m);
    WrittenStays(js, entries, conflict, clock, m, i);
  }

  /**
   Two entries, the second for a directory marked with another address: the
   import is accepted and the disk is healthy, yet the call fails with the first
   entry written.
   */
  lemma ImportIsNotAllOrNothing(a: Address, b: Address, other: Address, h: Hash, clock: seq<nat>)
    requires a != b && other != b && LowerHex(h) && |clock| == 2
    ensures var js := map[b := Journal(Some(other), map[])];
            var root := PendingSnapshot(h, None, []);
            var entries := [Entry(a, root), Entry(b, root)];
            var (after, r) := Commit(js, entries, Targets(js, entries, Skip, clock),
                                     [EntryIo(Written, Written), EntryIo(Written, Written)], 2);
            && Acceptable(js, entries, Skip)
            && r == Err(InvalidFormat(MarkerMismatch(other)))
            && JournalAt(js, a) == EMPTY_JOURNAL
            && JournalAt(after, a) == Journal(Some(a), map[File(clock[0], h) := root])
  {
    hide Leaf, TargetOf, Existing, MergesWell, Merged, CommitOne;
    var js: Journals := map[b := Journal(Some(other), map[])];
    var root := PendingSnapshot(h, None, []);
    var entries, written := [Entry(a, root), Entry(b, root)], EntryIo(Written, Written);
    var targets := Targets(js, entries, Skip, clock);
    IntoEmptyDirectory(js, entries[0], clock[0], written);
    IntoEmptyDirectory(js, entries[1], clock[1], written);
    RootMerges(js, entries, root, a);
    RootMerges(js, entries, root, b);
    var first := CommitOne(js, entries[0], targets[0], written);
    assert Commit(js, entries, targets, [written, written], 1) == first;
    WrongMarker(first.0, entries[1], targets[1], written);
  }

  lemma IntoEmptyDirectory(js: Journals, e: Entry, nanos: nat, io: EntryIo)
    requires JournalAt(js, e.address).files == map[]
    ensures !Refused(js, e, Skip)
    ensures TargetOf(js, e, Skip, nanos) == Some(At(File(nanos, e.snapshot.extrinsicHash)))
    ensures JournalAt(js, e.address).marker == None && io == EntryIo(Written, Written) ==>
              CommitOne(js, e, TargetOf(js, e, Skip, nanos), io)
              == (js[e.address := Journal(Some(e.address), map[File(nanos, e.snapshot.extrinsicHash) := e.snapshot])],
                  Ok(()))
  {
  }

  lemma WrongMarker(js: Journals, e: Entry, target: Option<Path>, io: EntryIo)
    requires JournalAt(js, e.address).marker.Some? && JournalAt(js, e.address).marker.value != e.address
    requires target.Some? ==> target.value.At?
    ensures CommitOne(js, e, target, io)
         == (js[e.address := JournalAt(js, e.address)],
             Err(InvalidFormat(MarkerMismatch(JournalAt(js, e.address).marker.value))))
  {
  }

  lemma RootMerges(js: Journals, entries: seq<Entry>, root: Snapshot, a: Address)
    requires |entries| == 2 && root.dependsOn == None && JournalAt(js, a).files == map[]
    requires entries[0].snapshot == entries[1].snapshot == root
    requires entries[0].address == a || entries[1].address == a
    ensures MergesWell(js, entries, Skip, a)
  {
    hide Leaf;
    var h := root.extrinsicHash;
    assert Merged(js, entries, Skip, a, 2) == map[h := root] by {
      assert Merged(js, entries, Skip, a, 0) == map[];
      var one := Merged(js, entries, Skip, a, 1);
    }
    OneRootHasHead(Merged(js, entries, Skip, a, 2), root);
  }

  lemma OneRootHasHead(view: map<Hash, Snapshot>, root: Snapshot)
    requires root.dependsOn == None && view == map[root.extrinsicHash := root]
    ensures Leaf(Values(view)).Ok?
  {
    hide Leaf;
    ValuesHashes(view);
    var values := Values(view);
    DistinctNoDup(values);
    assert root in values;
    OnlyElement(values, root);
    assert Chain([root]);
    ChainImpliesLeaf([root], values);
  }

  /** One root entry into an empty journal, or over the one snapshot of its hash, merges to a journal with a head. */
  lemma OneEntryMerges(js: Journals, e: Entry, conflict: ConflictStrategy)
    requires e.snapshot.dependsOn == None
    requires forall h :: h in ViewOf(JournalAt(js, e.address).files) ==> h == e.snapshot.extrinsicHash
    requires Existing(js, e).None? || conflict == Overwrite
    ensures MergesWell(js, [e], conflict, e.address)
  {
    hide Leaf, Existing, ViewOf, Values;
    var entries := [e];
    assert Merged(js, entries, conflict, e.address, 0) == ViewOf(JournalAt(js, e.address).files);
    assert Merged(js, entries, conflict, e.address, 1) == map[e.snapshot.extrinsicHash := e.snapshot];
    OneRootHasHead(Merged(js, entries, conflict, e.address, 1), e.snapshot);
  }

  /** A directory with one root snapshot in two files. */
  ghost function TwoFiles(a: Address, root: Snapshot, m: nat, n: nat): (j: Journal) {
    Journal(Some(a), map[File(m, root.extrinsicHash) := root, File(n, root.extrinsicHash) := root])
  }

  lemma MarkedTwoFiles(a: Address, root: Snapshot, m: nat, n: nat)
    ensures TwoFiles(a, root, m, n).marker == Some(a)
  {
  }

  lemma TwoFilesOneHash(a: Address, root: Snapshot, m: nat, n: nat)
    requires m != n
    ensures NamedByHash(TwoFiles(a, root, m, n).files) && !OneFilePerHash(TwoFiles(a, root, m, n).files)
  {
    var files, h := TwoFiles(a, root, m, n).files, root.extrinsicHash;
    assert File(m, h) in files && File(n, h) in files;
  }

  lemma NoHeadOfTwoFiles(a: Address, root: Snapshot, m: nat, n: nat)
    requires m != n
    ensures Head(TwoFiles(a, root, m, n).files).Err?
  {
    hide Leaf, Head, TwoFiles, OneFilePerHash;
    TwoFilesOneHash(a, root, m, n);
    var files := TwoFiles(a, root, m, n).files;
    if Head(files).Ok? {
      var chain := ChainOfHead(files);
      HoldsMembers(files, chain);
    }
  }

  /** A directory whose files all hold one snapshot shows that snapshot. */
  lemma OneSnapshotView(files: Files, root: Snapshot)
    requires files != map[] && forall f :: f in files ==> files[f] == root
    ensures ViewOf(files) == map[root.extrinsicHash := root]
  {
    hide PathByHash;
    var f :| f in files;
    assert files[f].extrinsicHash in PathByHash(files);
  }

  lemma TwoFilesMerge(js: Journals, a: Address, root: Snapshot, m: nat, n: nat)
    requires root.dependsOn == None && JournalAt(js, a) == TwoFiles(a, root, m, n)
    ensures Existing(js, Entry(a, root)).Some?
    ensures MergesWell(js, [Entry(a, root)], Skip, a)
  {
    hide Leaf, Existing, ViewOf, Values, NamedByHash, OneFilePerHash;
    var files, e := JournalAt(js, a).files, Entry(a, root);
    assert File(m, root.extrinsicHash) in files;
    OneSnapshotView(files, root);
    NotExistingNotInView(js, e);
    assert Merged(js, [e], Skip, a, 0) == ViewOf(files);
    assert Merged(js, [e], Skip, a, 1) == Merged(js, [e], Skip, a, 0);
    OneRootHasHead(Merged(js, [e], Skip, a, 1), root);
  }

  /**
   A directory with one root snapshot in two files, and a payload that brings the
   same snapshot: every pass accepts it, a healthy import returns `Ok`, and the
   journal still has no head, because the in-memory view saw one of the two files.
   */
  lemma ImportAcceptsTwoFiles(a: Address, h: Hash, m: nat, n: nat, clock: seq<nat>)
    requires m != n && LowerHex(h) && |clock| == 1
    ensures var root := PendingSnapshot(h, None, []);
            var js, entries := map[a := TwoFiles(a, root, m, n)], [Entry(a, root)];
            var (after, r) := Commit(js, entries, Targets(js, entries, Skip, clock), [EntryIo(Written, Written)], 1);
            && Acceptable(js, entries, Skip) && r == Ok(())
            && NamedByHash(JournalAt(after, a).files)
            && Head(JournalAt(after, a).files).Err?
  {
    hide Leaf, Head, Existing, MergesWell, Merged, NamedByHash, TwoFiles;
    var root := PendingSnapshot(h, None, []);
    var js: Journals := map[a := TwoFiles(a, root, m, n)];
    var entries, io := [Entry(a, root)], [EntryIo(Written, Written)];
    TwoFilesOneHash(a, root, m, n);
    TwoFilesMerge(js, a, root, m, n);
    MarkedTwoFiles(a, root, m, n);
    var targets := Targets(js, entries, Skip, clock);
    assert Commit(js, entries, targets, io, 1) == CommitOne(js, entries[0], None, io[0]);
    assert JournalAt(Commit(js, entries, targets, io, 1).0, a).files == JournalAt(js, a).files;
    NoHeadOfTwoFiles(a, root, m, n);
  }

  /** What an append of a root leaves in a directory that was not there. */
  lemma AppendLands(a: Address, h: Hash, nanos: nat, io: AppendIo)
    requires io.marker == Written && io.snapshot == Written
    ensures Append(EMPTY_JOURNAL, a, h, None, [], nanos, io)
         == (Journal(Some(a), map[File(nanos, h) := PendingSnapshot(h, None, [])]), Ok(()))
  {
    hide FindPath, Head;
    EmptyWellFormed();
    HeadOfChain(EMPTY_JOURNAL.files, []);
    var found := FindPath(EMPTY_JOURNAL.files, h);
  }

  /** The commit of a staged root, over a directory that meanwhile holds the same root in another file. */
  lemma CommitBeside(a: Address, root: Snapshot, m: nat, n: nat, io: EntryIo)
    requires m != n && io == EntryIo(Written, Written)
    ensures var js := map[a := Journal(Some(a), map[File(m, root.extrinsicHash) := root])];
            CommitOne(js, Entry(a, root), Some(At(File(n, root.extrinsicHash))), io)
            == (js[a := TwoFiles(a, root, m, n)], Ok(()))
  {
  }

  /**
   How two files of one hash arise. Import takes no lock: an append that lands
   after its third pass has read the empty directory, and before its sixth writes
   there, leaves a file of its own beside the staged one. The call returns `Ok`,
   and the journal has no head.
   */
  lemma AppendBetweenPasses(a: Address, h: Hash, m: nat, n: nat, io: AppendIo)
    requires m != n && LowerHex(h) && io.marker == Written && io.snapshot == Written
    ensures var root := PendingSnapshot(h, None, []);
            var loaded, entries := map[], [Entry(a, root)];
            var landed := Append(EMPTY_JOURNAL, a, h, None, [], m, io);
            var (after, r) := Commit(
              map[a := landed.0], entries, Targets(loaded, entries, Skip, [n]), [EntryIo(Written, Written)], 1);
            && Acceptable(loaded, entries, Skip) && landed.1 == Ok(()) && r == Ok(())
            && JournalAt(after, a) == TwoFiles(a, root, m, n)
            && Head(JournalAt(after, a).files).Err?
  {
    hide Leaf, Head, Existing, MergesWell, Merged, Append, TargetOf, Refused, TwoFiles, CommitOne;
    var root := PendingSnapshot(h, None, []);
    var loaded: Journals := map[];
    var entries, written := [Entry(a, root)], EntryIo(Written, Written);
    AppendLands(a, h, m, io);
    IntoEmptyDirectory(loaded, entries[0], n, written);
    OneEntryMerges(loaded, entries[0], Skip);
    var targets := Targets(loaded, entries, Skip, [n]);
    var js: Journals := map[a := Append(EMPTY_JOURNAL, a, h, None, [], m, io).0];
    assert Commit(js, entries, targets, [written], 0) == (js, Ok(()));
    assert Commit(js, entries, targets, [written], 1) == CommitOne(js, entries[0], targets[0], written);
    CommitBeside(a, root, m, n, written);
    NoHeadOfTwoFiles(a, root, m, n);
  }

  // ---------------------------------------------------------------------------
  // Running a stopped import again.
  // ---------------------------------------------------------------------------

  /** The store after a commit that stopped, seen by a second run. */
  ghost predicate Stopped(
      js: Journals, now: Journals, entries: seq<Entry>, conflict: ConflictStrategy, m: nat)
    requires m <= |entries|
  {
    forall a :: ViewOf(JournalAt(now, a).files) == Merged(js, entries, conflict, a, m)
  }

  lemma ExistingAfterStop(
      js: Journals, now: Journals, entries: seq<Entry>, conflict: ConflictStrategy, m: nat, i: nat)
    requires m <= |entries| && i < |entries| && NoRepeats(entries) && Stopped(js, now, entries, conflict, m)
    ensures Existing(now, entries[i]).Some? <==> i < m || Existing(js, entries[i]).Some?
    ensures Existing(now, entries[i]).Some? ==>
      var e := entries[i];
      JournalAt(now, e.address).files[Existing(now, e).value]
      == Merged(js, entries, conflict, e.address, m)[e.snapshot.extrinsicHash]
  {
    hide Existing;
    var e := entries[i];
    var h := e.snapshot.extrinsicHash;
    NotExistingNotInView(js, e);
    NotExistingNotInView(now, e);
    MergedHashes(js, entries, conflict, e.address, m, h);
    if i < m {
      MergedHolds(js, entries, conflict, m, i);
    } else {
      assert forall k :: 0 <= k < m ==> Key(entries[k]) != Key(e);
    }
    ViewAtExisting(now, e);
  }

  lemma ViewAtExisting(js: Journals, e: Entry)
    ensures Existing(js, e).Some? ==>
              e.snapshot.extrinsicHash in ViewOf(JournalAt(js, e.address).files)
              && JournalAt(js, e.address).files[Existing(js, e).value]
                 == ViewOf(JournalAt(js, e.address).files)[e.snapshot.extrinsicHash]
  {
  }

  /** The merge holds the hash of every entry it has seen, and its snapshot if it was to be written. */
  lemma {:induction false} MergedHolds(
      js: Journals, entries: seq<Entry>, conflict: ConflictStrategy, m: nat, i: nat)
    requires i < m <= |entries| && NoRepeats(entries)
    ensures var e := entries[i];
            var merged := Merged(js, entries, conflict, e.address, m);
            && e.snapshot.extrinsicHash in merged
            && (Existing(js, e).None? || conflict == Overwrite ==> merged[e.snapshot.extrinsicHash] == e.snapshot)
  {
    hide Existing, ViewOf;
    var e := entries[i];
    if i < m - 1 {
      MergedHolds(js, entries, conflict, m - 1, i);
      assert Key(e) != Key(entries[m - 1]);
    } else if Existing(js, e).Some? {
      NotExistingNotInView(js, e);
      MergedHashes(js, entries, conflict, e.address, m, e.snapshot.extrinsicHash);
    }
  }

  /** Run again, the merge goes through what the first run wrote and then on to the same end. */
  lemma {:induction false} MergedAgain(
      js: Journals, now: Journals, entries: seq<Entry>, conflict: ConflictStrategy, m: nat, a: Address, n: nat)
    requires m <= |entries| && n <= |entries| && NoRepeats(entries) && conflict != Error
    requires Stopped(js, now, entries, conflict, m)
    ensures Merged(now, entries, conflict, a, n) == Merged(js, entries, conflict, a, if n <= m then m else n)
  {
    hide Existing, ViewOf;
    if n > 0 {
      MergedAgain(js, now, entries, conflict, m, a, n - 1);
      ExistingAfterStop(js, now, entries, conflict, m, n - 1);
      if n - 1 < m {
        MergedHolds(js, entries, conflict, m, n - 1);
      }
    }
  }

  lemma StoppedAfterCommit(
      js: Journals, entries: seq<Entry>, conflict: ConflictStrategy, clock: seq<nat>, io: seq<EntryIo>)
    returns (m: nat)
    requires |clock| == |entries| == |io| && NoRepeats(entries)
    requires forall a :: NamedByHash(JournalAt(js, a).files) && OneFilePerHash(JournalAt(js, a).files)
    ensures m <= |entries|
    ensures var now := Commit(js, entries, Targets(js, entries, conflict, clock), io, |entries|).0;
            && Stopped(js, now, entries, conflict, m)
            && forall a :: NamedByHash(JournalAt(now, a).files) && OneFilePerHash(JournalAt(now, a).files)
  {
    hide NamedByHash, OneFilePerHash, ViewOf, Merged, ApplyTo, Commit, Targets, Shows;
    var targets := Targets(js, entries, conflict, clock);
    m := CommitWritesPrefix(js, entries, targets, io, |entries|);
    var now := Commit(js, entries, targets, io, |entries|).0;
    forall a
      ensures ViewOf(JournalAt(now, a).files) == Merged(js, entries, conflict, a, m)
      ensures NamedByHash(JournalAt(now, a).files) && OneFilePerHash(JournalAt(now, a).files)
    {
      AppliedShowsMerge(js, entries, conflict, clock, a, m);
      ShowsOnly(JournalAt(now, a).files, Merged(js, entries, conflict, a, m));
    }
  }

  /**
   Wherever the commit of an accepted Skip or Overwrite import stops, the same
   payload is accepted again, and leads to the merge the first run was after.
   */
  lemma ImportRerunFinishes(
      js: Journals, entries: seq<Entry>, conflict: ConflictStrategy, clock: seq<nat>, io: seq<EntryIo>)
    requires |clock| == |entries| == |io| && conflict != Error && Acceptable(js, entries, conflict)
    requires forall a :: NamedByHash(JournalAt(js, a).files) && OneFilePerHash(JournalAt(js, a).files)
    ensures var now := Commit(js, entries, Targets(js, entries, conflict, clock), io, |entries|).0;
            && Acceptable(now, entries, conflict)
            && forall a :: Merged(now, entries, conflict, a, |entries|) == Merged(js, entries, conflict, a, |entries|)
  {
    hide Existing, ViewOf, Merged, Commit, Targets, Stopped, Leaf, Values;
    var m := StoppedAfterCommit(js, entries, conflict, clock, io);
    var now := Commit(js, entries, Targets(js, entries, conflict, clock), io, |entries|).0;
    forall a ensures Merged(now, entries, conflict, a, |entries|) == Merged(js, entries, conflict, a, |entries|) {
      MergedAgain(js, now, entries, conflict, m, a, |entries|);
    }
    forall i | 0 <= i < |entries| ensures !Refused(now, entries[i], conflict) {
      assert !Refused(js, entries[i], conflict);
      StillAdmitted(js, now, entries, conflict, m, i);
    }
    forall e | e in entries ensures MergesWell(now, entries, conflict, e.address) {
      assert MergesWell(js, entries, conflict, e.address);
    }
  }

  lemma StillAdmitted(
      js: Journals, now: Journals, entries: seq<Entry>, conflict: ConflictStrategy, m: nat, i: nat)
    requires m <= |entries| && i < |entries| && NoRepeats(entries) && conflict != Error
    requires Stopped(js, now, entries, conflict, m) && !Refused(js, entries[i], conflict)
    ensures !Refused(now, entries[i], conflict)
  {
    hide Existing, ViewOf, Merged, Stopped;
    var e := entries[i];
    var h := e.snapshot.extrinsicHash;
    ExistingAfterStop(js, now, entries, conflict, m, i);
    if i < m {
      MergedHolds(js, entries, conflict, m, i);
    } else {
      assert forall k :: 0 <= k < m ==> Key(entries[k]) != Key(e);
      MergedHashes(js, entries, conflict, e.address, m, h);
      ViewAtExisting(js, e);
      if Existing(js, e).Some? {
        MergedHasExisting(js, entries, conflict, m, e);
      }
    }
  }

  lemma MergedHasExisting(js: Journals, entries: seq<Entry>, conflict: ConflictStrategy, m: nat, e: Entry)
    requires m <= |entries| && Existing(js, e).Some?
    ensures e.snapshot.extrinsicHash in Merged(js, entries, conflict, e.address, m)
  {
    hide Existing, Merged, ViewOf;
    NotExistingNotInView(js, e);
    MergedHashes(js, entries, conflict, e.address, m, e.snapshot.extrinsicHash);
  }
}
