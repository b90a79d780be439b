/** What `find_leaf` reports of a journal without a head: which error, with which hashes and which count. */
module NoHead {
  import opened Wrappers
  import opened Orders
  import opened Snapshots
  import opened Walk
  import opened FindLeaf

  /** No snapshot of the bag depends on the one at `i`. */
  ghost predicate LeafAt(snaps: seq<Snapshot>, i: nat) {
    i < |snaps| && forall t :: t in snaps ==> t.dependsOn != Some(snaps[i].extrinsicHash)
  }

  lemma LeavesAreUnnamed(snaps: seq<Snapshot>, i: nat)
    requires i < |snaps|
    ensures LeafAt(snaps, i) <==> snaps[i].extrinsicHash !in Referenced(snaps)
  {
    ReferencedMembers(snaps);
  }

  /** A filter keeps nothing, one element, or more, as many as there are positions to keep. */
  lemma {:induction false} FilterSizes<T(!new)>(s: seq<T>, keep: T -> bool)
    ensures Filter(s, keep) == [] <==> forall i :: 0 <= i < |s| ==> !keep(s[i])
    ensures |Filter(s, keep)| > 1 <==> exists i, j :: 0 <= i < j < |s| && keep(s[i]) && keep(s[j])
  {
    if s != [] {
      var rest := s[1..];
      FilterSizes(rest, keep);
      assert forall i :: 0 < i < |s| ==> s[i] == rest[i - 1];
      if i, j :| 0 <= i < j < |s| && keep(s[i]) && keep(s[j]) {
        assert keep(rest[j - 1]);
        assert i > 0 ==> keep(rest[i - 1]) && keep(rest[j - 1]);
      }
      if i, j :| 0 <= i < j < |rest| && keep(rest[i]) && keep(rest[j]) {
        assert keep(s[i + 1]) && keep(s[j + 1]);
      }
      if keep(s[0]) && Filter(rest, keep) != [] {
        var j :| 0 <= j < |rest| && keep(rest[j]);
        assert keep(s[0]) && keep(s[j + 1]);
      }
    }
  }

  lemma LeafCount(snaps: seq<Snapshot>)
    ensures LeavesAmong(snaps, Referenced(snaps)) == [] <==> forall i :: 0 <= i < |snaps| ==> !LeafAt(snaps, i)
    ensures |LeavesAmong(snaps, Referenced(snaps))| > 1 <==>
              exists i, j :: 0 <= i < j < |snaps| && LeafAt(snaps, i) && LeafAt(snaps, j)
  {
    hide LeafAt, Referenced;
    var referenced := Referenced(snaps);
    FilterSizes(snaps, (s: Snapshot) => s.extrinsicHash !in referenced);
    forall i | 0 <= i < |snaps| ensures LeafAt(snaps, i) <==> snaps[i].extrinsicHash !in referenced {
      LeavesAreUnnamed(snaps, i);
    }
  }

  /**
   The three refusals. No leaf: the bag is not empty and every hash is depended on.
   Branching: two files hold a snapshot nothing depends on. Otherwise, with exactly
   one such file, the bag is refused as unreachable, or it is a chain.
   */
  lemma RefusalIsKnown(snaps: seq<Snapshot>)
    ensures Leaf(snaps) == Err(NoLeaf) <==> snaps != [] && forall i :: 0 <= i < |snaps| ==> !LeafAt(snaps, i)
    ensures (Leaf(snaps).Err? && Leaf(snaps).error.Branching?) <==>
              exists i, j :: 0 <= i < j < |snaps| && LeafAt(snaps, i) && LeafAt(snaps, j)
    ensures (Leaf(snaps).Err? && Leaf(snaps).error.Unreachable?) <==>
              && !(exists chain :: ChainOf(chain, snaps))
              && (exists i :: 0 <= i < |snaps| && LeafAt(snaps, i))
              && !(exists i, j :: 0 <= i < j < |snaps| && LeafAt(snaps, i) && LeafAt(snaps, j))
  {
    hide LeafAt, Referenced, LeavesAmong, ReachableFromRoots, ChainOf;
    LeafCount(snaps);
    OkIsChain(snaps);
  }

  lemma OkIsChain(snaps: seq<Snapshot>)
    ensures Leaf(snaps).Ok? <==> exists chain :: ChainOf(chain, snaps)
  {
    hide Leaf;
    LeafIsChainEnd(snaps);
    if Leaf(snaps).Ok? {
      if snaps == [] {
        assert ChainOf([], snaps);
      } else {
        var s := Leaf(snaps).value;
        if s.Some? {
          var chain :| chain != [] && ChainOf(chain, snaps) && chain[|chain| - 1] == s.value;
        }
      }
    }
    if chain :| ChainOf(chain, snaps) {
      SameElements(chain, snaps);
      if chain != [] {
        ChainImpliesLeaf(chain, snaps);
      } else {
        assert snaps == [];
      }
    }
  }

  /** The leaves a branching journal reports: their hashes, sorted, each as often as files hold it. */
  lemma BranchingNamesLeaves(snaps: seq<Snapshot>)
    requires Leaf(snaps).Err? && Leaf(snaps).error.Branching?
    ensures var leaves := Leaf(snaps).error.leaves;
            && SortedBy(leaves, StringLe) && |leaves| > 1
            && forall h :: h in leaves <==>
                 exists i :: 0 <= i < |snaps| && LeafAt(snaps, i) && snaps[i].extrinsicHash == h
  {
    hide LeafAt, Referenced, ReachableFromRoots;
    StringOrder();
    var found := LeavesAmong(snaps, Referenced(snaps));
    SortSorted(Hashes(found), StringLe);
    SortPermutes(Hashes(found), StringLe);
    SameElements(Sort(Hashes(found), StringLe), Hashes(found));
    assert |multiset(Sort(Hashes(found), StringLe))| == |multiset(Hashes(found))|;
    HashesIn(found);
    forall h ensures h in Hashes(found) <==>
                     exists i :: 0 <= i < |snaps| && LeafAt(snaps, i) && snaps[i].extrinsicHash == h
    {
      LeafHash(snaps, found, h);
    }
  }

  lemma LeafHash(snaps: seq<Snapshot>, found: seq<Snapshot>, h: Hash)
    requires found == LeavesAmong(snaps, Referenced(snaps))
    ensures h in Hashes(found) <==> exists i :: 0 <= i < |snaps| && LeafAt(snaps, i) && snaps[i].extrinsicHash == h
  {
    hide LeafAt, Referenced, LeavesAmong;
    HashIn(found, h);
    if h in Hashes(found) {
      var s :| s in found && s.extrinsicHash == h;
      assert s in snaps;
      var i :| 0 <= i < |snaps| && snaps[i] == s;
      LeavesAreUnnamed(snaps, i);
    }
    if i :| 0 <= i < |snaps| && LeafAt(snaps, i) && snaps[i].extrinsicHash == h {
      LeavesAreUnnamed(snaps, i);
      assert snaps[i] in snaps && snaps[i] in found;
    }
  }

  /**
   What an unreachable journal reports: the hashes on disk that no path from a root
   reaches, sorted and once each, and how many files there are beyond one for every
   hash that is reached.
   */
  lemma UnreachableNamesUnreached(snaps: seq<Snapshot>, reached: set<Hash>)
    requires Leaf(snaps).Err? && Leaf(snaps).error.Unreachable?
    requires forall h :: h in reached <==> Reachable(snaps, Roots(snaps), h)
    ensures var report := Leaf(snaps).error;
            && SortedBy(report.hashes, StringLe) && NoDup(report.hashes)
            && (forall h :: h in report.hashes <==>
                  (exists s :: s in snaps && s.extrinsicHash == h) && !Reachable(snaps, Roots(snaps), h))
            && report.count + |reached| == |snaps|
  {
    hide Reachable, LeavesAmong, Referenced, ByHash, ParentsPresent;
    StringOrder();
    var order := ReachableFromRoots(snaps);
    WalkOrderCorrect(snaps, Roots(snaps));
    WalkStaysInBag(snaps);
    NoDupCardinality(order);
    assert Elements(order) == reached by {
      assert forall h :: h in Elements(order) <==> h in order;
    }
    HashesIn(snaps);
  }
}
