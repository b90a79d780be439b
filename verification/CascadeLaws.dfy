/**
 `cascade_drop`: what it removes, what every stop point leaves behind, and that
 a re-run finishes the drop.
 */
module CascadeLaws {
  import opened Wrappers
  import opened Orders
  import opened Snapshots
  import opened Walk
  import opened FindLeaf
  import opened Directory
  import opened Journal
  import opened JournalLaws

  /** The snapshots that depend on `start`, itself among them. */
  ghost predicate DependsOnStart(files: Files, start: Hash, h: Hash) {
    Reachable(Bag(files), [start], h)
  }

  lemma OnDiskHashes(files: Files)
    ensures forall h :: OnDisk(files, h) <==> h in Hashes(Bag(files))
    ensures forall h :: OnDisk(files, h) <==> FindPath(files, h).Some?
  {
    hide Bag, FindPath;
    BagMembers(files);
    HashesIn(Bag(files));
    forall h ensures OnDisk(files, h) <==> h in Hashes(Bag(files)) {
      if OnDisk(files, h) {
        var f :| f in files && files[f].extrinsicHash == h;
        assert files[f] in Bag(files);
      }
    }
  }

  /** An edge is a file on disk. */
  lemma EdgeOnDisk(files: Files, parent: Hash, child: Hash)
    ensures Edge(Bag(files), parent, child) <==>
              exists f :: f in files && files[f].extrinsicHash == child && files[f].dependsOn == Some(parent)
  {
    hide Bag;
    BagMembers(files);
    if f :| f in files && files[f].extrinsicHash == child && files[f].dependsOn == Some(parent) {
      assert files[f] in Bag(files);
    }
  }

  /** The walk of a cascade stays on disk, once it starts there. */
  lemma DoomedOnDisk(files: Files, start: Hash)
    requires OnDisk(files, start)
    ensures NoDup(Doomed(files, start))
    ensures forall h :: h in Doomed(files, start) <==> DependsOnStart(files, start, h)
    ensures forall h :: h in Doomed(files, start) ==> OnDisk(files, h)
    ensures |Doomed(files, start)| > 0 && Doomed(files, start)[0] == start
  {
    hide Bag, Edge;
    WalkOrderCorrect(Bag(files), [start]);
    forall h | h in Doomed(files, start) ensures OnDisk(files, h) {
      var path :| Path(Bag(files), path) && path[0] in [start] && path[|path| - 1] == h;
      if |path| > 1 {
        EdgeOnDisk(files, path[|path| - 2], h);
      }
    }
  }

  /** With one file per hash the removed files are those of the last `done` hashes. */
  lemma RemovedFiles(files: Files, start: Hash, done: nat)
    requires OneFilePerHash(files)
    ensures var doomed := Doomed(files, start);
            var kept := if done <= |doomed| then |doomed| - done else 0;
            AfterRemovals(files, start, done)
            == map f | f in files && files[f].extrinsicHash !in doomed[kept..] :: files[f]
  {
    hide Doomed, PathByHash;
    var doomed, paths := Doomed(files, start), PathByHash(files);
    var kept := if done <= |doomed| then |doomed| - done else 0;
    forall f | f in files
      ensures (exists h :: h in doomed[kept..] && h in paths && paths[h] == f)
              <==> files[f].extrinsicHash in doomed[kept..]
    {
      if files[f].extrinsicHash in doomed[kept..] {
        assert paths[files[f].extrinsicHash] == f;
      }
    }
  }

  /** Removals leave the other files as they are. */
  lemma RemovalsOnlyRemove(j: Journal, address: Address, start: Hash, io: DropIo)
    ensures var after := Rollback(j, address, start, io).0.files;
            after.Keys <= j.files.Keys && forall f :: f in after ==> after[f] == j.files[f]
  {
    hide FindPath, Doomed, PathByHash;
  }

  /** A full cascade removes exactly the snapshots that depend on the start. */
  lemma CascadeRemovesSubtree(files: Files, start: Hash, done: nat)
    requires OneFilePerHash(files) && OnDisk(files, start)
    requires done >= |Doomed(files, start)|
    ensures AfterRemovals(files, start, done)
         == map f | f in files && !DependsOnStart(files, start, files[f].extrinsicHash) :: files[f]
  {
    hide Doomed, DependsOnStart, AfterRemovals;
    RemovedFiles(files, start, done);
    DoomedOnDisk(files, start);
    var doomed := Doomed(files, start);
    assert doomed[0..] == doomed;
  }

  /** A stop before the end: the first `kept` hashes of the walk are still on disk, and only they of the doomed. */
  lemma StopPoint(files: Files, start: Hash, done: nat) returns (kept: nat)
    requires OneFilePerHash(files) && OnDisk(files, start)
    requires done < |Doomed(files, start)|
    ensures kept == |Doomed(files, start)| - done
    ensures AfterRemovals(files, start, done)
         == map f | f in files && files[f].extrinsicHash !in Doomed(files, start)[kept..] :: files[f]
    ensures forall h :: h in Doomed(files, start) ==>
              (OnDisk(AfterRemovals(files, start, done), h) <==> h in Doomed(files, start)[..kept])
    ensures forall h :: h !in Doomed(files, start) ==>
              (OnDisk(AfterRemovals(files, start, done), h) <==> OnDisk(files, h))
    ensures OneFilePerHash(AfterRemovals(files, start, done))
  {
    hide Doomed, AfterRemovals;
    RemovedFiles(files, start, done);
    DoomedOnDisk(files, start);
    var doomed, after := Doomed(files, start), AfterRemovals(files, start, done);
    kept := |doomed| - done;
    assert doomed == doomed[..kept] + doomed[kept..];
    forall h ensures OnDisk(after, h) <==> OnDisk(files, h) && h !in doomed[kept..] {
      if OnDisk(files, h) && h !in doomed[kept..] {
        var f :| f in files && files[f].extrinsicHash == h;
        assert f in after && after[f].extrinsicHash == h;
      }
    }
    forall h | h in doomed[..kept] ensures h !in doomed[kept..] {
      var i :| 0 <= i < kept && doomed[i] == h;
    }
  }

  /**
   Child first: at every stop point before the end the start is still on disk,
   and so is the parent of every other doomed snapshot that is.
   */
  lemma CascadeStopsRecoverable(files: Files, start: Hash, done: nat, f: File)
    requires OneFilePerHash(files) && OnDisk(files, start)
    requires done < |Doomed(files, start)|
    ensures OnDisk(AfterRemovals(files, start, done), start)
    ensures f in AfterRemovals(files, start, done) && DependsOnStart(files, start, files[f].extrinsicHash)
              && files[f].extrinsicHash != start ==>
              files[f].dependsOn.Some? && OnDisk(AfterRemovals(files, start, done), files[f].dependsOn.value)
  {
    hide Bag, AfterRemovals, OnDisk, DependsOnStart;
    var kept := StopPoint(files, start, done);
    DoomedOnDisk(files, start);
    var doomed, after := Doomed(files, start), AfterRemovals(files, start, done);
    assert doomed[..kept][0] == start;
    if f in after && DependsOnStart(files, start, files[f].extrinsicHash) && files[f].extrinsicHash != start {
      FileOnDisk(after, f);
      var h := files[f].extrinsicHash;
      var i :| 0 <= i < kept && doomed[i] == h;
      BagMembers(files);
      OneFileDistinct(files);
      WalkParentBefore(Bag(files), [start], i, files[f]);
      assert files[f].dependsOn.value in doomed[..i];
      var j :| 0 <= j < i && doomed[j] == files[f].dependsOn.value;
      assert doomed[..kept][j] == doomed[j];
    }
  }

  lemma FileOnDisk(files: Files, f: File)
    requires f in files
    ensures OnDisk(files, files[f].extrinsicHash)
  {
  }

  // ---------------------------------------------------------------------------
  // Re-runs
  // ---------------------------------------------------------------------------

  /** What is left of the subtree after a stop still hangs together below the start. */
  lemma {:induction false} PrefixStillReachable(files: Files, start: Hash, done: nat, i: nat)
    requires OneFilePerHash(files) && OnDisk(files, start)
    requires done < |Doomed(files, start)| && i < |Doomed(files, start)| - done
    ensures DependsOnStart(AfterRemovals(files, start, done), start, Doomed(files, start)[i])
  {
    hide Bag, AfterRemovals, OnDisk, Doomed;
    var kept := StopPoint(files, start, done);
    DoomedOnDisk(files, start);
    var doomed, rest := Doomed(files, start), AfterRemovals(files, start, done);
    if doomed[i] == start {
      assert Path(Bag(rest), [start]) && [start][0] in [start];
    } else {
      assert doomed[..kept][i] == doomed[i];
      var f := FileOf(rest, doomed[i]);
      var j := ParentIndex(files, start, i, f);
      PrefixStillReachable(files, start, done, j);
      var path :| Path(Bag(rest), path) && path[0] in [start] && path[|path| - 1] == doomed[j];
      EdgeOnDisk(rest, doomed[j], doomed[i]);
      var longer := path + [doomed[i]];
      assert Path(Bag(rest), longer) && longer[0] in [start] && longer[|longer| - 1] == doomed[i];
    }
  }

  lemma FileOf(files: Files, h: Hash) returns (f: File)
    requires OnDisk(files, h)
    ensures f in files && files[f].extrinsicHash == h
  {
    f :| f in files && files[f].extrinsicHash == h;
  }

  /** In the walk the parent of a doomed snapshot other than the start stands before it. */
  lemma ParentIndex(files: Files, start: Hash, i: nat, f: File) returns (j: nat)
    requires OneFilePerHash(files) && f in files
    requires i < |Doomed(files, start)| && Doomed(files, start)[i] == files[f].extrinsicHash != start
    ensures j < i && files[f].dependsOn == Some(Doomed(files, start)[j])
  {
    hide Bag;
    BagMembers(files);
    OneFileDistinct(files);
    var doomed := Doomed(files, start);
    WalkParentBefore(Bag(files), [start], i, files[f]);
    j :| 0 <= j < i && doomed[..i][j] == files[f].dependsOn.value;
  }

  lemma RestIsSubset(files: Files, rest: Files, start: Hash, h: Hash)
    requires rest.Keys <= files.Keys && forall f :: f in rest ==> rest[f] == files[f]
    requires DependsOnStart(rest, start, h)
    ensures DependsOnStart(files, start, h)
  {
    hide Bag, Edge;
    var path :| Path(Bag(rest), path) && path[0] in [start] && path[|path| - 1] == h;
    forall i | 0 < i < |path| ensures Edge(Bag(files), path[i - 1], path[i]) {
      EdgeOnDisk(rest, path[i - 1], path[i]);
      EdgeOnDisk(files, path[i - 1], path[i]);
    }
  }

  ghost function Dropped(files: Files, start: Hash): (r: Files) {
    AfterRemovals(files, start, |Doomed(files, start)|)
  }

  /** After a stop the same snapshots are still doomed, so a re-run ends where one run would have. */
  lemma RerunFinishes(files: Files, start: Hash, done: nat)
    requires OneFilePerHash(files) && OnDisk(files, start)
    requires done < |Doomed(files, start)|
    ensures OnDisk(AfterRemovals(files, start, done), start)
    ensures OneFilePerHash(AfterRemovals(files, start, done))
    ensures Dropped(AfterRemovals(files, start, done), start) == Dropped(files, start)
  {
    hide AfterRemovals, OnDisk, Doomed, DependsOnStart;
    var kept := StopPoint(files, start, done);
    DoomedOnDisk(files, start);
    var doomed, rest := Doomed(files, start), AfterRemovals(files, start, done);
    assert doomed[..kept][0] == start;
    CascadeRemovesSubtree(files, start, |doomed|);
    CascadeRemovesSubtree(rest, start, |Doomed(rest, start)|);
    forall f | f in rest
      ensures DependsOnStart(rest, start, files[f].extrinsicHash)
              <==> DependsOnStart(files, start, files[f].extrinsicHash)
    {
      var h := files[f].extrinsicHash;
      if DependsOnStart(rest, start, h) {
        RestIsSubset(files, rest, start, h);
      }
      if DependsOnStart(files, start, h) {
        FileOnDisk(rest, f);
        var i :| 0 <= i < kept && doomed[..kept][i] == h;
        PrefixStillReachable(files, start, done, i);
      }
    }
    forall f | f in files && f !in rest ensures DependsOnStart(files, start, files[f].extrinsicHash) {
      var i :| 0 <= i < |doomed| - kept && doomed[kept..][i] == files[f].extrinsicHash;
      assert doomed[kept + i] == files[f].extrinsicHash;
    }
  }

  /** The directory after attempts that each stop early, by the removals each one did. */
  ghost function Attempts(files: Files, start: Hash, removals: seq<nat>): (r: Files)
    decreases |removals|
  {
    hide *;
    if removals == [] || !OnDisk(files, start) then files
    else Attempts(AfterRemovals(files, start, removals[0]), start, removals[1..])
  }

  /**
   However often a cascade stops, on any journal without repeated hashes: either
   the start is still on disk and one full run ends where an undisturbed run
   would have, or the drop is already complete.
   */
  lemma {:induction false} RerunsFinish(files: Files, start: Hash, removals: seq<nat>)
    requires OneFilePerHash(files) && OnDisk(files, start)
    ensures var now := Attempts(files, start, removals);
            if OnDisk(now, start) then Dropped(now, start) == Dropped(files, start) else now == Dropped(files, start)
    decreases |removals|
  {
    hide AfterRemovals, OnDisk, Doomed, Dropped;
    if removals != [] {
      var rest := AfterRemovals(files, start, removals[0]);
      if removals[0] < |Doomed(files, start)| {
        RerunFinishes(files, start, removals[0]);
        RerunsFinish(rest, start, removals[1..]);
      } else {
        FullRun(files, start, removals[0]);
      }
    }
  }

  lemma FullRun(files: Files, start: Hash, done: nat)
    requires OneFilePerHash(files) && OnDisk(files, start)
    requires done >= |Doomed(files, start)|
    ensures AfterRemovals(files, start, done) == Dropped(files, start)
    ensures !OnDisk(AfterRemovals(files, start, done), start)
  {
    hide AfterRemovals, Doomed, DependsOnStart;
    CascadeRemovesSubtree(files, start, done);
    CascadeRemovesSubtree(files, start, |Doomed(files, start)|);
    DoomedOnDisk(files, start);
  }

  // ---------------------------------------------------------------------------
  // On a chain
  // ---------------------------------------------------------------------------

  /** On a chain the walk from position `k` is the rest of the chain, in order. */
  lemma {:induction false} DoomedOnChain(files: Files, chain: seq<Snapshot>, k: nat, j: nat)
    requires Holds(files, chain) && k < |chain|
    requires j < |Doomed(files, chain[k].extrinsicHash)|
    ensures k + j < |chain| && Doomed(files, chain[k].extrinsicHash)[j] == chain[k + j].extrinsicHash
  {
    hide Bag, Doomed, OnDisk, Holds;
    HoldsMembers(files, chain);
    assert chain[k] in chain;
    var g :| g in files && files[g] == chain[k];
    FileOnDisk(files, g);
    var start := chain[k].extrinsicHash;
    DoomedOnDisk(files, start);
    var doomed := Doomed(files, start);
    if j > 0 {
      assert doomed[j] in doomed;
      var f := FileOf(files, doomed[j]);
      assert doomed[j] != doomed[0];
      var p := ParentIndex(files, start, j, f);
      DoomedOnChain(files, chain, k, p);
      DoomedOnChain(files, chain, k, j - 1);
      assert files[f] in chain;
      var m :| 0 <= m < |chain| && chain[m] == files[f];
      NextOnChain(files, chain, k + p, m);
      if p != j - 1 {
        DoomedOnChain(files, chain, k, p + 1);
      }
    }
  }

  /** On a chain a snapshot that names position `i` is at `i + 1`. */
  lemma NextOnChain(files: Files, chain: seq<Snapshot>, i: nat, m: nat)
    requires Holds(files, chain) && i < |chain| && m < |chain|
    requires chain[m].dependsOn == Some(chain[i].extrinsicHash)
    ensures m == i + 1
  {
    LinkedParent(chain, m);
    SameHashSamePosition(chain, i, m - 1);
  }

  lemma {:induction false} ChainTailDoomed(files: Files, chain: seq<Snapshot>, k: nat, i: nat)
    requires Holds(files, chain) && k <= i < |chain|
    ensures DependsOnStart(files, chain[k].extrinsicHash, chain[i].extrinsicHash)
  {
    hide Bag, Holds;
    var start := chain[k].extrinsicHash;
    if i == k {
      assert Path(Bag(files), [start]) && [start][0] in [start];
    } else {
      ChainTailDoomed(files, chain, k, i - 1);
      var path :| Path(Bag(files), path) && path[0] in [start] && path[|path| - 1] == chain[i - 1].extrinsicHash;
      ChainEdge(files, chain, i);
      var longer := path + [chain[i].extrinsicHash];
      assert Path(Bag(files), longer) && longer[0] in [start] && longer[|longer| - 1] == chain[i].extrinsicHash;
    }
  }

  lemma ChainEdge(files: Files, chain: seq<Snapshot>, i: nat)
    requires Holds(files, chain) && 0 < i < |chain|
    ensures Edge(Bag(files), chain[i - 1].extrinsicHash, chain[i].extrinsicHash)
  {
    hide Bag, Edge;
    LinkedParent(chain, i);
    HoldsMembers(files, chain);
    assert chain[i] in chain;
    EdgeOnDisk(files, chain[i - 1].extrinsicHash, chain[i].extrinsicHash);
  }

  /**
   On a chain a cascade from position `k` cuts the tail off from the end: every
   stop point is a shorter chain, and the full run leaves the first `k`.
   */
  lemma CascadeOnChain(files: Files, chain: seq<Snapshot>, k: nat, done: nat)
    requires Holds(files, chain) && k < |chain|
    ensures |Doomed(files, chain[k].extrinsicHash)| == |chain| - k
    ensures Holds(AfterRemovals(files, chain[k].extrinsicHash, done),
                  chain[..if done <= |chain| - k then |chain| - done else k])
  {
    hide AfterRemovals, Doomed, Holds;
    var start := chain[k].extrinsicHash;
    DoomedLength(files, chain, k);
    var doomed := Doomed(files, start);
    var kept: nat := if done <= |doomed| then |doomed| - done else 0;
    HoldsMembers(files, chain);
    RemovedFiles(files, start, done);
    forall i | 0 <= i < |chain| ensures chain[i].extrinsicHash in doomed[kept..] <==> i >= k + kept {
      TailHash(files, chain, k, kept, i);
    }
    CutTail(files, chain, k + kept, doomed[kept..]);
  }

  /** Without the files of its last hashes the directory holds the rest of the chain. */
  lemma CutTail(files: Files, chain: seq<Snapshot>, n: nat, gone: seq<Hash>)
    requires Holds(files, chain) && n <= |chain|
    requires forall i :: 0 <= i < |chain| ==> (chain[i].extrinsicHash in gone <==> i >= n)
    ensures Holds(map f | f in files && files[f].extrinsicHash !in gone :: files[f], chain[..n])
  {
    hide Holds;
    HoldsMembers(files, chain);
    HoldsIsChain(files, chain);
    ChainPrefix(chain, n);
    var after := map f | f in files && files[f].extrinsicHash !in gone :: files[f];
    forall s ensures s in chain[..n] <==> exists f :: f in after && after[f] == s {
      if s in chain[..n] {
        var i :| 0 <= i < n && chain[i] == s;
        assert s in chain;
        var f :| f in files && files[f] == s;
        assert f in after;
      }
      if f :| f in after && after[f] == s {
        assert s in chain;
        var i :| 0 <= i < |chain| && chain[i] == s;
        assert chain[..n][i] == s;
      }
    }
    HoldsByMembers(after, chain[..n]);
  }

  lemma DoomedLength(files: Files, chain: seq<Snapshot>, k: nat)
    requires Holds(files, chain) && k < |chain|
    ensures |Doomed(files, chain[k].extrinsicHash)| == |chain| - k
    ensures forall j :: 0 <= j < |chain| - k ==>
                          Doomed(files, chain[k].extrinsicHash)[j] == chain[k + j].extrinsicHash
  {
    hide Doomed, Holds, OnDisk, DependsOnStart;
    var start := chain[k].extrinsicHash;
    HoldsMembers(files, chain);
    assert chain[k] in chain;
    var g :| g in files && files[g] == chain[k];
    FileOnDisk(files, g);
    DoomedOnDisk(files, start);
    var doomed := Doomed(files, start);
    DoomedOnChain(files, chain, k, |doomed| - 1);
    var last := |chain| - 1;
    ChainTailDoomed(files, chain, k, last);
    var j :| 0 <= j < |doomed| && doomed[j] == chain[last].extrinsicHash;
    DoomedOnChain(files, chain, k, j);
    HoldsIsChain(files, chain);
    SameHashSamePosition(chain, k + j, last);
    forall i | 0 <= i < |chain| - k ensures doomed[i] == chain[k + i].extrinsicHash {
      DoomedOnChain(files, chain, k, i);
    }
  }

  lemma TailHash(files: Files, chain: seq<Snapshot>, k: nat, kept: nat, i: nat)
    requires Holds(files, chain) && k < |chain| && kept <= |chain| - k && i < |chain|
    requires |Doomed(files, chain[k].extrinsicHash)| == |chain| - k
    ensures chain[i].extrinsicHash in Doomed(files, chain[k].extrinsicHash)[kept..] <==> i >= k + kept
  {
    hide Doomed, Holds;
    var doomed := Doomed(files, chain[k].extrinsicHash);
    DoomedLength(files, chain, k);
    if i >= k + kept {
      assert doomed[kept..][i - k - kept] == chain[i].extrinsicHash;
    }
    if chain[i].extrinsicHash in doomed[kept..] {
      var j :| 0 <= j < |doomed| - kept && doomed[kept..][j] == chain[i].extrinsicHash;
      HoldsIsChain(files, chain);
      SameHashSamePosition(chain, i, k + kept + j);
    }
  }

  /** What was cut off a chain is not on disk. */
  lemma CutOffIsGone(files: Files, all: seq<Snapshot>, k: nat, i: nat)
    requires Chain(all) && k <= i < |all| && Holds(files, all[..k])
    ensures !OnDisk(files, all[i].extrinsicHash)
  {
    hide Holds;
    HoldsMembers(files, all[..k]);
    forall f | f in files ensures files[f].extrinsicHash != all[i].extrinsicHash {
      assert files[f] in all[..k];
      var m :| 0 <= m < k && all[..k][m] == files[f];
      assert Hashes(all)[m] != Hashes(all)[i];
    }
  }
}
