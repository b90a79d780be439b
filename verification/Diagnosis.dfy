/**
 The diagnosis of unreachable snapshots. For one directory it is fixed, because
 files are read in name order. With a repeated hash the same snapshots under other
 file names can be diagnosed differently; this module says exactly when.
 */
module Diagnosis {
  import opened Wrappers
  import opened Orders
  import opened Snapshots
  import opened Walk
  import opened FindLeaf
  import opened Directory
  import opened Journal

  /** The snapshot names no parent, or one whose hash is in the bag. */
  ghost predicate HasParent(snaps: seq<Snapshot>, s: Snapshot) {
    s.dependsOn.None? || s.dependsOn.value in Hashes(snaps)
  }

  /** Every snapshot of some unreached hash lacks its parent. */
  ghost predicate SurelyOrphan(snaps: seq<Snapshot>) {
    exists h :: h in Unvisited(snaps) && forall s :: s in snaps && s.extrinsicHash == h ==> !HasParent(snaps, s)
  }

  /** No snapshot of any unreached hash lacks its parent. */
  ghost predicate SurelyCycle(snaps: seq<Snapshot>) {
    forall s :: s in snaps && s.extrinsicHash in Unvisited(snaps) ==> HasParent(snaps, s)
  }

  ghost predicate Diagnosed(snaps: seq<Snapshot>) {
    Leaf(snaps).Err? && Leaf(snaps).error.Unreachable?
  }

  ghost function Reason(snaps: seq<Snapshot>): (r: UnreachableReason)
    requires Diagnosed(snaps)
  {
    Leaf(snaps).error.reason
  }

  /** The diagnosis looks, for each unreached hash, at the snapshot the map by hash kept. */
  lemma ReasonReads(snaps: seq<Snapshot>)
    requires Diagnosed(snaps)
    ensures Reason(snaps) == Cycle <==>
              forall h :: h in Unvisited(snaps) ==> h in ByHash(snaps) && HasParent(snaps, ByHash(snaps)[h])
  {
    hide ByHash, LeavesAmong, Referenced, ReachableFromRoots;
    var byHash, unvisited := ByHash(snaps), Unvisited(snaps);
    assert forall h :: h in byHash <==> h in Hashes(snaps);
    assert forall h :: h in unvisited ==> h in byHash;
    assert ParentsPresent(byHash, unvisited) <==>
           forall h :: h in unvisited ==> h in byHash && HasParent(snaps, byHash[h]);
  }

  /** Two orders of one bag are both diagnosed, and alike but for the reason. */
  lemma OrdersDiffer(a: seq<Snapshot>, b: seq<Snapshot>)
    requires multiset(a) == multiset(b) && Diagnosed(a)
    ensures Diagnosed(b) && Unvisited(a) == Unvisited(b)
    ensures Leaf(a) == Leaf(b) <==> Reason(a) == Reason(b)
    ensures forall s :: s in a <==> s in b
    ensures forall s :: HasParent(a, s) <==> HasParent(b, s)
  {
    hide Leaf, Unvisited, Hashes;
    LeafErrorPermutes(a, b);
    ReachablePermutes(a, b);
    SameElements(a, b);
    HashesPermute(a, b);
    SameElements(Hashes(a), Hashes(b));
  }

  /** What is sure of one order holds of every order. */
  lemma SureReason(a: seq<Snapshot>, b: seq<Snapshot>)
    requires multiset(a) == multiset(b) && Diagnosed(a) && Diagnosed(b)
    ensures SurelyOrphan(a) ==> Reason(b) == OrphanChain
    ensures SurelyCycle(a) ==> Reason(b) == Cycle
  {
    hide Leaf, Unvisited, HasParent, ByHash;
    OrdersDiffer(a, b);
    ReasonReads(b);
    UnvisitedHasHash(b);
  }

  lemma UnvisitedHasHash(snaps: seq<Snapshot>)
    ensures forall h :: h in Unvisited(snaps) ==> h in ByHash(snaps)
  {
  }

  /** Of a bag laid out as `a` and then `b`, the map by hash keeps what `b` has. */
  lemma {:induction false} LaterStays(a: seq<Snapshot>, b: seq<Snapshot>, h: Hash)
    requires h in Hashes(b)
    ensures h in ByHash(a + b) && ByHash(a + b)[h] in b && ByHash(a + b)[h].extrinsicHash == h
  {
    hide ByHash;
    var m := |b| - 1;
    assert a + b == (a + b[..m]) + [b[m]];
    ByHashAppend(a + b[..m], b[m]);
    if b[m].extrinsicHash != h {
      assert Hashes(b) == Hashes(b[..m]) + [b[m].extrinsicHash];
      LaterStays(a, b[..m], h);
    }
  }

  lemma ByHashAppend(front: seq<Snapshot>, s: Snapshot)
    ensures ByHash(front + [s]) == ByHash(front)[s.extrinsicHash := s]
  {
    assert (front + [s])[..|front|] == front;
  }

  /** The bag with the snapshots that satisfy `late` moved to the end. */
  ghost function MovedBack(snaps: seq<Snapshot>, late: Snapshot -> bool): (r: seq<Snapshot>) {
    Filter(snaps, (s: Snapshot) => !late(s)) + Filter(snaps, late)
  }

  lemma MovedBackPermutes(snaps: seq<Snapshot>, late: Snapshot -> bool)
    ensures multiset(MovedBack(snaps, late)) == multiset(snaps)
  {
    forall s ensures multiset(MovedBack(snaps, late))[s] == multiset(snaps)[s] {
      FilterCount(snaps, late, s);
      FilterCount(snaps, (t: Snapshot) => !late(t), s);
    }
  }

  /** Moved to the end, a snapshot of the hash is what the map keeps. */
  lemma MovedBackStays(snaps: seq<Snapshot>, late: Snapshot -> bool, s: Snapshot)
    requires s in snaps && late(s)
    ensures var byHash := ByHash(MovedBack(snaps, late));
            s.extrinsicHash in byHash && late(byHash[s.extrinsicHash])
  {
    hide ByHash;
    FilterMembers(snaps, late);
    HashIn(Filter(snaps, late), s.extrinsicHash);
    LaterStays(Filter(snaps, (t: Snapshot) => !late(t)), Filter(snaps, late), s.extrinsicHash);
  }

  /** When nothing is sure, one order reads as a cycle and another as an orphan chain. */
  lemma UnsureReads(snaps: seq<Snapshot>) returns (cycle: seq<Snapshot>, orphan: seq<Snapshot>)
    requires Diagnosed(snaps) && !SurelyOrphan(snaps) && !SurelyCycle(snaps)
    ensures multiset(cycle) == multiset(snaps) == multiset(orphan)
    ensures Diagnosed(cycle) && Reason(cycle) == Cycle
    ensures Diagnosed(orphan) && Reason(orphan) == OrphanChain
  {
    hide Leaf, Unvisited, ByHash, MovedBack;
    var good := (s: Snapshot) => HasParent(snaps, s);
    var bad := (s: Snapshot) => !HasParent(snaps, s);
    cycle, orphan := MovedBack(snaps, good), MovedBack(snaps, bad);
    MovedBackPermutes(snaps, good);
    MovedBackPermutes(snaps, bad);
    OrdersDiffer(snaps, cycle);
    OrdersDiffer(snaps, orphan);
    ReasonReads(cycle);
    ReasonReads(orphan);
    forall h | h in Unvisited(snaps) ensures h in ByHash(cycle) && HasParent(cycle, ByHash(cycle)[h]) {
      var s :| s in snaps && s.extrinsicHash == h && HasParent(snaps, s);
      MovedBackStays(snaps, good, s);
    }
    var s :| s in snaps && s.extrinsicHash in Unvisited(snaps) && !HasParent(snaps, s);
    MovedBackStays(snaps, bad, s);
  }

  /**
   The diagnosis of a bag is the same in every order exactly when every snapshot of
   some unreached hash lacks its parent, or no snapshot of an unreached hash does.
   */
  lemma DiagnosisIsFixed(snaps: seq<Snapshot>)
    requires Diagnosed(snaps)
    ensures (forall other :: multiset(other) == multiset(snaps) ==> Leaf(other) == Leaf(snaps))
            <==> SurelyOrphan(snaps) || SurelyCycle(snaps)
  {
    hide Leaf, SurelyOrphan, SurelyCycle;
    if SurelyOrphan(snaps) || SurelyCycle(snaps) {
      SureReason(snaps, snaps);
      forall other | multiset(other) == multiset(snaps) ensures Leaf(other) == Leaf(snaps) {
        OrdersDiffer(snaps, other);
        SureReason(snaps, other);
      }
    } else {
      var cycle, orphan := UnsureReads(snaps);
      assert Leaf(cycle) != Leaf(orphan);
    }
  }

  // ---------------------------------------------------------------------------
  // File names
  // ---------------------------------------------------------------------------

  function Numbers(snaps: seq<Snapshot>): (names: seq<File>)
    ensures |names| == |snaps|
    ensures forall i :: 0 <= i < |snaps| ==> names[i] == File(i, snaps[i].extrinsicHash)
  {
    seq(|snaps|, i requires 0 <= i < |snaps| => File(i, snaps[i].extrinsicHash))
  }

  /** A directory that lists exactly `snaps`, in this order. */
  function Numbered(snaps: seq<Snapshot>): (files: Files) {
    map f | f in Numbers(snaps) && f.nanos < |snaps| :: snaps[f.nanos]
  }

  /** Every order of a bag is the listing of some directory. */
  lemma ListsInOrder(snaps: seq<Snapshot>)
    ensures Bag(Numbered(snaps)) == snaps && NamedByHash(Numbered(snaps))
  {
    hide Names;
    var files, numbers, names := Numbered(snaps), Numbers(snaps), Names(Numbered(snaps));
    FileOrder();
    assert NoDup(numbers) && SortedBy(numbers, FileLe);
    assert forall f :: f in numbers <==> f in files;
    NamesSorted(files);
    NoDupSameElements(names, numbers);
    SortedUnique(names, numbers, FileLe);
    assert Contents(files, numbers) == snaps;
  }

  lemma NamesSorted(files: Files)
    ensures SortedBy(Names(files), FileLe)
  {
    FileOrder();
  }

  /**
   The head of a directory, or its diagnosis, is the same for every directory with
   the same snapshots, whatever their file names, exactly when that diagnosis is
   sure.
   */
  lemma DiagnosisByFileNames(files: Files)
    requires Diagnosed(Bag(files))
    ensures (forall other: Files :: multiset(Bag(other)) == multiset(Bag(files)) ==> Head(other) == Head(files))
            <==> SurelyOrphan(Bag(files)) || SurelyCycle(Bag(files))
  {
    hide Leaf, SurelyOrphan, SurelyCycle, Bag;
    DiagnosisIsFixed(Bag(files));
    if forall other: Files :: multiset(Bag(other)) == multiset(Bag(files)) ==> Head(other) == Head(files) {
      forall snaps | multiset(snaps) == multiset(Bag(files)) ensures Leaf(snaps) == Leaf(Bag(files)) {
        ListsInOrder(snaps);
        assert Head(Numbered(snaps)) == Head(files);
      }
    }
  }

  // ---------------------------------------------------------------------------
  // Four snapshots, two directories
  // ---------------------------------------------------------------------------

  ghost function Link(h: Hash, parent: Option<Hash>): (s: Snapshot) {
    Snapshot(Pending, h, None, None, parent, [])
  }

  /** A healthy snapshot `l` beside `y`, which names `x`, and two snapshots with hash `x`. */
  ghost function TwiceX(l: Hash, x: Hash, y: Hash, first: Hash, second: Hash): (snaps: seq<Snapshot>) {
    [Link(l, None), Link(y, Some(x)), Link(x, Some(first)), Link(x, Some(second))]
  }

  /**
   The same four snapshots in two directories: two of them have one hash, and
   whichever file name comes later decides between an orphan chain and a cycle.
   */
  lemma SameSnapshotsOtherNames(l: Hash, x: Hash, y: Hash, z: Hash)
    requires l != x && l != y && l != z && x != y && x != z && y != z
    ensures var one, two := Numbered(TwiceX(l, x, y, y, z)), Numbered(TwiceX(l, x, y, z, y));
            && multiset(Bag(one)) == multiset(Bag(two)) && NamedByHash(one) && NamedByHash(two)
            && Head(one) == Err(Unreachable(3, OrphanChain, SortedPair(x, y)))
            && Head(two) == Err(Unreachable(3, Cycle, SortedPair(x, y)))
  {
    hide Leaf, Bag, Unreached;
    ListsInOrder(TwiceX(l, x, y, y, z));
    ListsInOrder(TwiceX(l, x, y, z, y));
    TwiceXUnreached(l, x, y, y, z);
    TwiceXUnreached(l, x, y, z, y);
    TwiceXDiagnosis(l, x, y, y, z);
    TwiceXDiagnosis(l, x, y, z, y);
    TwiceXSwap(l, x, y, z);
  }

  lemma TwiceXSwap(l: Hash, x: Hash, y: Hash, z: Hash)
    ensures multiset(TwiceX(l, x, y, y, z)) == multiset(TwiceX(l, x, y, z, y))
  {
    var a, b, front := Link(x, Some(y)), Link(x, Some(z)), [Link(l, None), Link(y, Some(x))];
    assert TwiceX(l, x, y, y, z) == front + [a, b];
    assert TwiceX(l, x, y, z, y) == front + [b, a];
    assert multiset([a, b]) == multiset([b, a]);
  }

  ghost function SortedPair(x: Hash, y: Hash): (r: seq<Hash>) {
    StringOrder();
    SortedElements({x, y}, StringLe)
  }

  lemma TwiceXLeaf(l: Hash, x: Hash, y: Hash, first: Hash, second: Hash)
    requires l != x && l != y && x != y && first != l && second != l && (first == y || second == y)
    ensures |LeavesAmong(TwiceX(l, x, y, first, second), Referenced(TwiceX(l, x, y, first, second)))| == 1
  {
    var snaps := TwiceX(l, x, y, first, second);
    var referenced := Referenced(snaps);
    ReferencedMembers(snaps);
    assert snaps[1] in snaps && snaps[2] in snaps && snaps[3] in snaps;
    assert l !in referenced && x in referenced && y in referenced;
    var keep := (s: Snapshot) => s.extrinsicHash !in referenced;
    assert Filter(snaps[3..], keep) == [];
    assert Filter(snaps[2..], keep) == [];
    assert Filter(snaps[1..], keep) == [];
    assert Filter(snaps, keep) == [snaps[0]];
  }

  lemma TwiceXReached(l: Hash, x: Hash, y: Hash, first: Hash, second: Hash)
    requires l != x && l != y && first != l && second != l
    ensures ReachableFromRoots(TwiceX(l, x, y, first, second)) == [l]
  {
    var snaps := TwiceX(l, x, y, first, second);
    var order := ReachableFromRoots(snaps);
    WalkOrderCorrect(snaps, Roots(snaps));
    assert snaps[0] in snaps;
    assert RootHash(snaps, l);
    assert Path(snaps, [l]) && [l][0] in Roots(snaps);
    forall h | h in order ensures h == l {
      var path :| Path(snaps, path) && path[0] in Roots(snaps) && path[|path| - 1] == h;
      ClosedHoldsPath(snaps, [l], path);
    }
    OnlyElement(order, l);
  }

  lemma LeafUnreached(snaps: seq<Snapshot>)
    requires |LeavesAmong(snaps, Referenced(snaps))| == 1
    requires |ReachableFromRoots(snaps)| != |snaps|
    ensures Leaf(snaps) == Err(Unreached(snaps))
  {
  }

  lemma TwiceXUnvisited(l: Hash, x: Hash, y: Hash, first: Hash, second: Hash)
    requires l != x && l != y && first != l && second != l
    ensures Unvisited(TwiceX(l, x, y, first, second)) == {x, y}
  {
    TwiceXReached(l, x, y, first, second);
    assert Hashes(TwiceX(l, x, y, first, second)) == [l, y, x, x];
  }

  lemma TwiceXDiagnosis(l: Hash, x: Hash, y: Hash, first: Hash, second: Hash)
    requires l != x && l != y && x != y && first != l && second != l && second != x
    ensures Unreached(TwiceX(l, x, y, first, second))
         == Unreachable(3, if second == y then Cycle else OrphanChain, SortedPair(x, y))
  {
    TwiceXReached(l, x, y, first, second);
    TwiceXUnvisited(l, x, y, first, second);
    TwiceXReason(l, x, y, first, second);
  }

  lemma TwiceXUnreached(l: Hash, x: Hash, y: Hash, first: Hash, second: Hash)
    requires l != x && l != y && x != y && first != l && second != l && (first == y || second == y)
    ensures Leaf(TwiceX(l, x, y, first, second)) == Err(Unreached(TwiceX(l, x, y, first, second)))
  {
    TwiceXLeaf(l, x, y, first, second);
    TwiceXReached(l, x, y, first, second);
    LeafUnreached(TwiceX(l, x, y, first, second));
  }

  lemma ByHashLast(snaps: seq<Snapshot>)
    requires snaps != []
    ensures var s := snaps[|snaps| - 1];
            s.extrinsicHash in ByHash(snaps) && ByHash(snaps)[s.extrinsicHash] == s
  {
  }

  lemma TwiceXReason(l: Hash, x: Hash, y: Hash, first: Hash, second: Hash)
    requires l != x && l != y && x != y && second != l && second != x
    ensures ParentsPresent(ByHash(TwiceX(l, x, y, first, second)), {x, y}) <==> second == y
  {
    hide ByHash;
    var snaps := TwiceX(l, x, y, first, second);
    ByHashLast(snaps);
    assert Hashes(snaps) == [l, y, x, x];
    assert ByHash(snaps)[y] == snaps[1];
  }
}
