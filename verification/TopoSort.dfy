/** `topo_sort`: the causal listing of a journal, roots first. */
module TopoSort {
  import opened Wrappers
  import opened Orders
  import opened Snapshots
  import opened Walk
  import opened FindLeaf

  /** The snapshots at `hashes`, in that order. */
  function Select(byHash: map<Hash, Snapshot>, hashes: seq<Hash>): (r: seq<Snapshot>)
    requires forall h :: h in hashes ==> h in byHash
  {
    seq(|hashes|, i requires 0 <= i < |hashes| => byHash[hashes[i]])
  }

  /** The values of the map by hash, in hash order. */
  ghost function Values(byHash: map<Hash, Snapshot>): (r: seq<Snapshot>) {
    StringOrder();
    Select(byHash, SortedElements(byHash.Keys, StringLe))
  }

  ghost function SortedRoots(snaps: seq<Snapshot>): (r: seq<Hash>) {
    Sort(Roots(snaps), StringLe)
  }

  lemma SameRoots(snaps: seq<Snapshot>)
    ensures forall h :: h in SortedRoots(snaps) <==> h in Roots(snaps)
  {
    SortPermutes(Roots(snaps), StringLe);
    SameElements(SortedRoots(snaps), Roots(snaps));
  }

  /** The walk of the listing: from the roots, in hash order. */
  ghost function Listed(snaps: seq<Snapshot>): (order: seq<Hash>) {
    WalkOrder(Values(ByHash(snaps)), SortedRoots(Values(ByHash(snaps))))
  }

  ghost function Orphans(snaps: seq<Snapshot>): (r: seq<Hash>) {
    StringOrder();
    SortedElements(ByHash(snaps).Keys - Elements(Listed(snaps)), StringLe)
  }

  lemma ValuesHashes(byHash: map<Hash, Snapshot>)
    requires forall h :: h in byHash ==> byHash[h].extrinsicHash == h
    ensures DistinctHashes(Values(byHash))
    ensures forall h :: h in Hashes(Values(byHash)) <==> h in byHash
    ensures forall s :: s in Values(byHash) <==> s.extrinsicHash in byHash && byHash[s.extrinsicHash] == s
  {
    StringOrder();
    var keys := SortedElements(byHash.Keys, StringLe);
    assert Hashes(Values(byHash)) == keys;
    forall s ensures s in Values(byHash) <==> s.extrinsicHash in byHash && byHash[s.extrinsicHash] == s {
      if s.extrinsicHash in byHash && byHash[s.extrinsicHash] == s {
        assert s.extrinsicHash in keys;
        var i :| 0 <= i < |keys| && keys[i] == s.extrinsicHash;
        assert Values(byHash)[i] == s;
      }
    }
  }

  lemma ListedInMap(snaps: seq<Snapshot>)
    ensures forall h :: h in Listed(snaps) ==> h in ByHash(snaps)
  {
    var byHash := ByHash(snaps);
    var values := Values(byHash);
    ValuesHashes(byHash);
    var roots := SortedRoots(values);
    SameRoots(values);
    WalkOrderCorrect(values, roots);
    HashesIn(values);
    forall h | h in Listed(snaps) ensures h in byHash {
      var path :| Path(values, path) && path[0] in roots && path[|path| - 1] == h;
      if |path| > 1 {
        assert Edge(values, path[|path| - 2], h);
      }
      assert h in Hashes(values);
    }
  }

  lemma SelectHashes(byHash: map<Hash, Snapshot>, hashes: seq<Hash>)
    requires forall h :: h in hashes ==> h in byHash
    requires forall h :: h in byHash ==> byHash[h].extrinsicHash == h
    ensures Hashes(Select(byHash, hashes)) == hashes
  {
  }

  /** The listing by hash: what the walk reached, then the rest. */
  ghost function TopoHashes(snaps: seq<Snapshot>): (r: seq<Hash>) {
    Listed(snaps) + Orphans(snaps)
  }

  lemma ListedOnce(snaps: seq<Snapshot>)
    ensures NoDup(Listed(snaps))
  {
    var values := Values(ByHash(snaps));
    WalkOrderCorrect(values, SortedRoots(values));
  }

  lemma TopoHashesCover(snaps: seq<Snapshot>)
    ensures NoDup(TopoHashes(snaps))
    ensures forall h :: h in TopoHashes(snaps) <==> h in ByHash(snaps)
  {
    hide Listed, ByHash;
    ListedInMap(snaps);
    ListedOnce(snaps);
    var order, orphans := Listed(snaps), Orphans(snaps);
    forall h ensures h in order + orphans <==> h in ByHash(snaps) {
      assert h in order <==> h in Elements(order);
    }
    forall i, j | 0 <= i < |order| && 0 <= j < |orphans| ensures order[i] != orphans[j] {
      assert orphans[j] in orphans && order[i] in Elements(order);
    }
  }

  /** What `topo_sort` returns. */
  ghost function TopoOrder(snaps: seq<Snapshot>): (out: seq<Snapshot>) {
    TopoHashesCover(snaps);
    Select(ByHash(snaps), TopoHashes(snaps))
  }

  /** The values of a `HashMap`, in whatever order it iterates. */
  method MapValues(byHash: map<Hash, Snapshot>) returns (values: seq<Snapshot>)
    requires forall h :: h in byHash ==> byHash[h].extrinsicHash == h
    ensures multiset(values) == multiset(Values(byHash))
  {
    values := [];
    var left := byHash.Keys;
    while left != {}
      invariant left <= byHash.Keys
      invariant NoDup(values)
      invariant forall s :: s in values <==>
                              s.extrinsicHash in byHash.Keys - left && byHash[s.extrinsicHash] == s
    {
      var h :| h in left;
      left := left - {h};
      values := values + [byHash[h]];
    }
    ValuesHashes(byHash);
    DistinctNoDup(Values(byHash));
    NoDupSameElements(values, Values(byHash));
  }

  /** Moves the snapshots at `order` out of the map. */
  method Drain(byHash: map<Hash, Snapshot>, order: seq<Hash>)
    returns (out: seq<Snapshot>, left: map<Hash, Snapshot>)
    requires NoDup(order) && forall h :: h in order ==> h in byHash
    ensures out == Select(byHash, order)
    ensures left == byHash - Elements(order)
  {
    out, left := [], byHash;
    for i := 0 to |order|
      invariant |out| == i && forall k :: 0 <= k < i ==> out[k] == byHash[order[k]]
      invariant forall h :: h in left <==> h in byHash && h !in order[..i]
      invariant forall h :: h in left ==> left[h] == byHash[h]
    {
      assert forall h :: h in order[..i + 1] <==> h in order[..i] || h == order[i];
      out := out + [left[order[i]]];
      left := left - {order[i]};
    }
    assert order[..|order|] == order;
  }

  method TopoSort(snaps: seq<Snapshot>) returns (out: seq<Snapshot>)
    ensures out == TopoOrder(snaps)
  {
    var byHash := ByHash(snaps);
    var values := MapValues(byHash);
    var roots := Sort(Roots(values), StringLe);
    var order := WalkChildren(values, roots);
    AnyIterationListsTheSame(snaps, values);
    ListedInMap(snaps);
    ListedOnce(snaps);
    var reached, left := Drain(byHash, order);
    StringOrder();
    assert left.Keys == byHash.Keys - Elements(order);
    TopoHashesCover(snaps);
    SelectConcat(byHash, left, order, SortedElements(left.Keys, StringLe));
    out := reached + Select(left, SortedElements(left.Keys, StringLe));
  }

  lemma AnyIterationListsTheSame(snaps: seq<Snapshot>, values: seq<Snapshot>)
    requires multiset(values) == multiset(Values(ByHash(snaps)))
    ensures WalkOrder(values, SortedRoots(values)) == Listed(snaps)
  {
    SortedRootsPermute(values, Values(ByHash(snaps)));
    BfsPermutes(values, Values(ByHash(snaps)), SortedRoots(values), {});
  }

  lemma SelectConcat(byHash: map<Hash, Snapshot>, left: map<Hash, Snapshot>, a: seq<Hash>, b: seq<Hash>)
    requires forall h :: h in a ==> h in byHash
    requires left.Keys <= byHash.Keys && forall h :: h in left ==> left[h] == byHash[h]
    requires forall h :: h in b ==> h in left
    ensures forall h :: h in a + b ==> h in byHash
    ensures Select(byHash, a) + Select(left, b) == Select(byHash, a + b)
  {
    assert forall i :: 0 <= i < |b| ==> b[i] in b;
  }

  lemma SortedRootsPermute(a: seq<Snapshot>, b: seq<Snapshot>)
    requires multiset(a) == multiset(b)
    ensures SortedRoots(a) == SortedRoots(b)
  {
    var keep := (s: Snapshot) => s.dependsOn == None;
    FilterPermutes(a, b, keep);
    HashesPermute(Filter(a, keep), Filter(b, keep));
    StringOrder();
    SortCanonical(Roots(a), Roots(b), StringLe);
  }

  // ---------------------------------------------------------------------------
  // What the listing promises.
  // ---------------------------------------------------------------------------

  lemma ValuesPermute(snaps: seq<Snapshot>)
    requires DistinctHashes(snaps)
    ensures multiset(Values(ByHash(snaps))) == multiset(snaps)
  {
    var values := Values(ByHash(snaps));
    ValuesHashes(ByHash(snaps));
    forall s ensures s in values <==> s in snaps {
      if s in snaps {
        ByHashDistinct(snaps, s);
      }
    }
    DistinctNoDup(values);
    DistinctNoDup(snaps);
    NoDupSameElements(values, snaps);
  }

  lemma ListedWalk(snaps: seq<Snapshot>)
    requires DistinctHashes(snaps)
    ensures Listed(snaps) == WalkOrder(snaps, SortedRoots(snaps))
    ensures forall h :: h in Listed(snaps) <==> Reachable(snaps, Roots(snaps), h)
  {
    var values := Values(ByHash(snaps));
    ValuesPermute(snaps);
    SortedRootsPermute(values, snaps);
    BfsPermutes(values, snaps, SortedRoots(snaps), {});
    SameRoots(snaps);
    WalkOrderCorrect(snaps, SortedRoots(snaps));
    forall h ensures Reachable(snaps, SortedRoots(snaps), h) <==> Reachable(snaps, Roots(snaps), h) {}
  }

  lemma TopoOrderHashes(snaps: seq<Snapshot>)
    ensures Hashes(TopoOrder(snaps)) == TopoHashes(snaps)
    ensures DistinctHashes(TopoOrder(snaps))
  {
    TopoHashesCover(snaps);
    SelectHashes(ByHash(snaps), TopoHashes(snaps));
  }

  /** With distinct hashes the listing loses no snapshot and repeats none. */
  lemma TopoPermutation(snaps: seq<Snapshot>)
    requires DistinctHashes(snaps)
    ensures multiset(TopoOrder(snaps)) == multiset(snaps)
  {
    var out := TopoOrder(snaps);
    TopoOrderHashes(snaps);
    forall s ensures s in out <==> s in snaps {
      TopoMember(snaps, s);
    }
    DistinctNoDup(out);
    DistinctNoDup(snaps);
    NoDupSameElements(out, snaps);
  }

  lemma TopoMember(snaps: seq<Snapshot>, s: Snapshot)
    requires DistinctHashes(snaps)
    ensures s in TopoOrder(snaps) <==> s in snaps
  {
    TopoHashesCover(snaps);
    if s in snaps {
      ByHashDistinct(snaps, s);
      var i :| 0 <= i < |TopoHashes(snaps)| && TopoHashes(snaps)[i] == s.extrinsicHash;
      assert TopoOrder(snaps)[i] == s;
    }
  }

  /**
   The reachable snapshots come first, each after its parent; the unreachable
   ones follow in hash order.
   */
  lemma TopoOrdered(snaps: seq<Snapshot>)
    requires DistinctHashes(snaps)
    ensures |Listed(snaps)| <= |TopoOrder(snaps)| == |snaps|
    ensures forall i :: 0 <= i < |snaps| ==>
                          (i < |Listed(snaps)| <==> Reachable(snaps, Roots(snaps), TopoOrder(snaps)[i].extrinsicHash))
    ensures ParentsBefore(TopoOrder(snaps)[..|Listed(snaps)|])
    ensures SortedBy(Hashes(TopoOrder(snaps))[|Listed(snaps)|..], StringLe)
  {
    var out, order := TopoOrder(snaps), Listed(snaps);
    TopoPermutation(snaps);
    SameElements(out, snaps);
    TopoOrderHashes(snaps);
    ListedWalk(snaps);
    SplitHashes(out, order, Orphans(snaps));
    OrphansUnlisted(snaps);
    SameRoots(snaps);
    ReachedParentsBefore(snaps, out[..|order|], SortedRoots(snaps));
  }

  lemma SplitHashes(out: seq<Snapshot>, front: seq<Hash>, back: seq<Hash>)
    requires Hashes(out) == front + back
    ensures |out| == |front| + |back|
    ensures forall i :: 0 <= i < |front| ==> out[i].extrinsicHash in front
    ensures forall i :: |front| <= i < |out| ==> out[i].extrinsicHash in back
    ensures Hashes(out[..|front|]) == front
    ensures Hashes(out)[|front|..] == back
  {
    var h := Hashes(out);
    forall i | 0 <= i < |front| ensures out[i].extrinsicHash == front[i] { assert h[i] == (front + back)[i]; }
    forall i | |front| <= i < |out| ensures out[i].extrinsicHash == back[i - |front|] {
      assert h[i] == (front + back)[i];
    }
  }

  lemma OrphansUnlisted(snaps: seq<Snapshot>)
    ensures forall h :: h in Orphans(snaps) ==> h !in Listed(snaps)
    ensures SortedBy(Orphans(snaps), StringLe)
  {
    assert forall h :: h in Listed(snaps) ==> h in Elements(Listed(snaps));
  }

  /** Snapshots in walk order from the roots stand after their parents. */
  lemma ReachedParentsBefore(snaps: seq<Snapshot>, reached: seq<Snapshot>, starts: seq<Hash>)
    requires DistinctHashes(snaps)
    requires forall h :: h in starts <==> h in Roots(snaps)
    requires Hashes(reached) == WalkOrder(snaps, starts)
    requires forall s :: s in reached ==> s in snaps
    ensures ParentsBefore(reached)
  {
    forall i | 0 <= i < |reached| && reached[i].dependsOn.Some?
      ensures exists j :: 0 <= j < i && reached[j].extrinsicHash == reached[i].dependsOn.value
    {
      assert Hashes(reached)[i] == reached[i].extrinsicHash;
      RootHashIsRoot(snaps, reached[i]);
      WalkParentBefore(snaps, starts, i, reached[i]);
      var j :| 0 <= j < i && Hashes(reached)[..i][j] == reached[i].dependsOn.value;
      assert Hashes(reached)[j] == reached[j].extrinsicHash;
    }
  }

  /** The listing does not depend on the order in which the files were read. */
  lemma TopoPermutes(a: seq<Snapshot>, b: seq<Snapshot>)
    requires multiset(a) == multiset(b) && DistinctHashes(a)
    ensures TopoOrder(a) == TopoOrder(b)
  {
    ByHashPermutes(a, b);
  }

  /** A journal with a head is listed as the one chain it is. */
  lemma TopoIsChain(snaps: seq<Snapshot>, chain: seq<Snapshot>)
    requires ChainOf(chain, snaps)
    ensures TopoOrder(snaps) == chain
  {
    DistinctPermutes(chain, snaps);
    SameElements(chain, snaps);
    TopoPermutation(snaps);
    var out := TopoOrder(snaps);
    SameElements(out, snaps);
    if chain != [] {
      TopoOrderHashes(snaps);
      ListedAll(snaps, chain);
      TopoOrdered(snaps);
      assert out[..|out|] == out;
      ChainLeaves(chain, snaps);
      OneLeafLast(snaps, out);
      ParentsBeforeLinked(out);
      ChainUnique(out, chain);
    }
  }

  lemma ListedAll(snaps: seq<Snapshot>, chain: seq<Snapshot>)
    requires ChainOf(chain, snaps)
    ensures |Listed(snaps)| == |snaps|
  {
    DistinctPermutes(chain, snaps);
    ListedWalk(snaps);
    WalkOrderCorrect(snaps, SortedRoots(snaps));
    ChainReachesAll(chain, snaps);
    WalkOrderCorrect(snaps, Roots(snaps));
    NoDupSameElements(Listed(snaps), ReachableFromRoots(snaps));
    SameElements(Listed(snaps), ReachableFromRoots(snaps));
  }
}
