/**
 `find_leaf`: the journal stores no head, so every read recomputes it from the
 bag of files. It answers exactly when the bag is one chain.
 */
module FindLeaf {
  import opened Wrappers
  import opened Orders
  import opened Snapshots
  import opened Walk

  datatype UnreachableReason = Cycle | OrphanChain

  /** Why a non-empty journal has no head. */
  datatype Malformed =
    | NoLeaf
    | Branching(leaves: seq<Hash>)
    | Unreachable(count: nat, reason: UnreachableReason, hashes: seq<Hash>)

  /** The hashes some snapshot depends on. */
  ghost function Referenced(snaps: seq<Snapshot>): (r: set<Hash>) {
    if snaps == [] then {}
    else
      var last := |snaps| - 1;
      Referenced(snaps[..last]) + if snaps[last].dependsOn.Some? then {snaps[last].dependsOn.value} else {}
  }

  lemma {:induction false} ReferencedMembers(snaps: seq<Snapshot>)
    ensures forall h :: h in Referenced(snaps) <==> exists s :: s in snaps && s.dependsOn == Some(h)
  {
    if snaps != [] {
      var last := |snaps| - 1;
      ReferencedMembers(snaps[..last]);
      assert snaps == snaps[..last] + [snaps[last]];
      forall h ensures h in Referenced(snaps) <==> exists s :: s in snaps && s.dependsOn == Some(h) {
        if s :| s in snaps && s.dependsOn == Some(h) {
          assert s in snaps[..last] || s == snaps[last];
        }
        if s :| s in snaps[..last] && s.dependsOn == Some(h) {
          assert s in snaps;
        }
      }
    }
  }

  /** The snapshots whose hash is in no `depends_on`. */
  function LeavesAmong(snaps: seq<Snapshot>, referenced: set<Hash>): (r: seq<Snapshot>)
    ensures forall s :: s in r <==> s in snaps && s.extrinsicHash !in referenced
  {
    FilterMembers(snaps, (s: Snapshot) => s.extrinsicHash !in referenced);
    Filter(snaps, (s: Snapshot) => s.extrinsicHash !in referenced)
  }

  /** Some snapshot of the bag has hash `h` and depends on nothing. */
  ghost predicate RootHash(snaps: seq<Snapshot>, h: Hash) {
    exists s :: s in snaps && s.extrinsicHash == h && s.dependsOn == None
  }

  function Roots(snaps: seq<Snapshot>): (r: seq<Hash>)
    ensures forall h :: h in r <==> RootHash(snaps, h)
  {
    var roots := Filter(snaps, (s: Snapshot) => s.dependsOn == None);
    FilterMembers(snaps, (s: Snapshot) => s.dependsOn == None);
    HashesIn(roots);
    Hashes(roots)
  }

  /** A `HashMap` collected from the bag: of two snapshots with one hash, the later stays. */
  function ByHash(snaps: seq<Snapshot>): (m: map<Hash, Snapshot>)
    ensures m.Keys == Elements(Hashes(snaps))
    ensures forall h :: h in m ==> m[h] in snaps && m[h].extrinsicHash == h
  {
    if snaps == [] then
      assert Hashes(snaps) == [];
      map[]
    else
      var s := snaps[|snaps| - 1];
      var front := snaps[..|snaps| - 1];
      assert snaps == front + [s] && Hashes(snaps) == Hashes(front) + [s.extrinsicHash];
      ByHash(front)[s.extrinsicHash := s]
  }

  ghost function ReachableFromRoots(snaps: seq<Snapshot>): (order: seq<Hash>) {
    WalkOrder(snaps, Roots(snaps))
  }

  ghost function Unvisited(snaps: seq<Snapshot>): (r: set<Hash>) {
    Elements(Hashes(snaps)) - Elements(ReachableFromRoots(snaps))
  }

  ghost predicate ParentsPresent(byHash: map<Hash, Snapshot>, hashes: set<Hash>) {
    forall h :: h in hashes && h in byHash ==>
      byHash[h].dependsOn.None? || byHash[h].dependsOn.value in byHash
  }

  ghost function Unreached(snaps: seq<Snapshot>): (r: Malformed) {
    StringOrder();
    Unreachable(
      if |ReachableFromRoots(snaps)| <= |snaps| then |snaps| - |ReachableFromRoots(snaps)| else 0,
      if ParentsPresent(ByHash(snaps), Unvisited(snaps)) then Cycle else OrphanChain,
      SortedElements(Unvisited(snaps), StringLe))
  }

  /** What `find_leaf` answers. */
  ghost function Leaf(snaps: seq<Snapshot>): (r: Result<Option<Snapshot>, Malformed>) {
    var leaves := LeavesAmong(snaps, Referenced(snaps));
    if snaps == [] then Ok(None)
    else if leaves == [] then Err(NoLeaf)
    else if |leaves| > 1 then Err(Branching(Sort(Hashes(leaves), StringLe)))
    else if |ReachableFromRoots(snaps)| != |snaps| then Err(Unreached(snaps))
    else Ok(Some(leaves[0]))
  }

  method CollectReferenced(snaps: seq<Snapshot>) returns (referenced: set<Hash>)
    ensures referenced == Referenced(snaps)
  {
    referenced := {};
    for i := 0 to |snaps|
      invariant referenced == Referenced(snaps[..i])
    {
      assert snaps[..i + 1][..i] == snaps[..i];
      if snaps[i].dependsOn.Some? {
        referenced := referenced + {snaps[i].dependsOn.value};
      }
    }
    assert snaps[..|snaps|] == snaps;
  }

  method AllParentsPresent(byHash: map<Hash, Snapshot>, orphans: set<Hash>) returns (present: bool)
    requires orphans <= byHash.Keys
    ensures present <==> ParentsPresent(byHash, orphans)
  {
    present := true;
    var unchecked := orphans;
    while unchecked != {}
      invariant unchecked <= orphans
      invariant present <==> ParentsPresent(byHash, orphans - unchecked)
    {
      var h :| h in unchecked;
      unchecked := unchecked - {h};
      if byHash[h].dependsOn.Some? && byHash[h].dependsOn.value !in byHash {
        present := false;
      }
    }
    assert orphans - unchecked == orphans;
  }

  method FindLeaf(snaps: seq<Snapshot>) returns (r: Result<Option<Snapshot>, Malformed>)
    ensures r == Leaf(snaps)
  {
    hide WalkOrder, Roots, Referenced, LeavesAmong, ByHash, Unvisited, ParentsPresent, Sort, SortedElements, StringLe;
    if |snaps| == 0 {
      return Ok(None);
    }
    var referenced := CollectReferenced(snaps);
    var leaves := LeavesAmong(snaps, referenced);
    if |leaves| == 0 {
      return Err(NoLeaf);
    }
    if |leaves| > 1 {
      return Err(Branching(Sort(Hashes(leaves), StringLe)));
    }
    var order := WalkChildren(snaps, Roots(snaps));
    var reachable := set h | h in order;
    ReachableSize(snaps);
    if |reachable| != |snaps| {
      var byHash := ByHash(snaps);
      var orphans := byHash.Keys - reachable;
      var present := AllParentsPresent(byHash, orphans);
      StringOrder();
      return Err(Unreachable(
        |snaps| - |reachable|,
        if present then Cycle else OrphanChain,
        SortedElements(orphans, StringLe)));
    }
    return Ok(Some(leaves[0]));
  }

  lemma ReachableSize(snaps: seq<Snapshot>)
    ensures |set h | h in ReachableFromRoots(snaps)| == |ReachableFromRoots(snaps)| <= |snaps|
    ensures ByHash(snaps).Keys - (set h | h in ReachableFromRoots(snaps)) == Unvisited(snaps)
  {
    var order := ReachableFromRoots(snaps);
    WalkStaysInBag(snaps);
    WalkOrderCorrect(snaps, Roots(snaps));
    NoDupCardinality(order);
    assert (set h | h in order) == Elements(order);
  }

  /** Every hash a walk from the roots visits is the hash of some snapshot. */
  lemma WalkStaysInBag(snaps: seq<Snapshot>)
    ensures forall h :: h in ReachableFromRoots(snaps) ==> h in Hashes(snaps)
    ensures |ReachableFromRoots(snaps)| <= |snaps|
    ensures |ReachableFromRoots(snaps)| == |snaps| ==>
      DistinctHashes(snaps) && Elements(ReachableFromRoots(snaps)) == Elements(Hashes(snaps))
  {
    var order := ReachableFromRoots(snaps);
    WalkOrderCorrect(snaps, Roots(snaps));
    forall h | h in order ensures h in Hashes(snaps) {
      HashIn(snaps, h);
      var path :| Path(snaps, path) && path[0] in Roots(snaps) && path[|path| - 1] == h;
      if |path| > 1 {
        assert Edge(snaps, path[|path| - 2], h);
      }
    }
    NoDupCardinality(order);
    CardinalityNoDup(Hashes(snaps));
    SubsetCardinality(Elements(order), Elements(Hashes(snaps)));
    if |order| == |snaps| {
      EqualCardinality(Elements(order), Elements(Hashes(snaps)));
    }
  }

  lemma EqualCardinality<T>(a: set<T>, b: set<T>)
    requires a <= b && |a| == |b|
    ensures a == b
  {
    if b - a != {} {
      var x :| x in b - a;
      SubsetCardinality(a, b - {x});
    }
  }

  // ---------------------------------------------------------------------------
  // A head implies one chain.
  // ---------------------------------------------------------------------------

  /** The bag in the order of the walk. */
  ghost function Arranged(snaps: seq<Snapshot>): (chain: seq<Snapshot>)
  {
    var order := ReachableFromRoots(snaps);
    seq(|order|, i requires 0 <= i < |order| =>
      if order[i] in ByHash(snaps) then ByHash(snaps)[order[i]] else Snapshot(Pending, "", None, None, None, []))
  }

  lemma ByHashDistinct(snaps: seq<Snapshot>, s: Snapshot)
    requires DistinctHashes(snaps) && s in snaps
    ensures s.extrinsicHash in ByHash(snaps) && ByHash(snaps)[s.extrinsicHash] == s
  {
    HashIn(snaps, s.extrinsicHash);
    DistinctByHash(snaps, s, ByHash(snaps)[s.extrinsicHash]);
  }

  lemma ArrangedHashes(snaps: seq<Snapshot>)
    requires |ReachableFromRoots(snaps)| == |snaps|
    ensures DistinctHashes(snaps) && DistinctHashes(Arranged(snaps))
    ensures Hashes(Arranged(snaps)) == ReachableFromRoots(snaps)
    ensures forall i :: 0 <= i < |Arranged(snaps)| ==> Arranged(snaps)[i] in snaps
    ensures forall h :: h in Hashes(snaps) <==> h in ReachableFromRoots(snaps)
  {
    hide ReachableFromRoots, Reachable;
    var order, chain := ReachableFromRoots(snaps), Arranged(snaps);
    WalkStaysInBag(snaps);
    ReachedOnce(snaps);
    forall h ensures h in Hashes(snaps) <==> h in order {
      assert h in Elements(Hashes(snaps)) <==> h in Elements(order);
    }
    assert forall i :: 0 <= i < |order| ==> order[i] in order && order[i] in ByHash(snaps);
    assert Hashes(chain) == order;
  }

  lemma ReachedOnce(snaps: seq<Snapshot>)
    ensures NoDup(ReachableFromRoots(snaps))
  {
    WalkOrderCorrect(snaps, Roots(snaps));
  }

  lemma ArrangedPermutes(snaps: seq<Snapshot>)
    requires |ReachableFromRoots(snaps)| == |snaps|
    ensures DistinctHashes(snaps)
    ensures Hashes(Arranged(snaps)) == ReachableFromRoots(snaps)
    ensures multiset(Arranged(snaps)) == multiset(snaps)
    ensures forall i :: 0 <= i < |Arranged(snaps)| ==> Arranged(snaps)[i] in snaps
  {
    var chain := Arranged(snaps);
    ArrangedHashes(snaps);
    hide Arranged, ReachableFromRoots;
    DistinctNoDup(chain);
    DistinctNoDup(snaps);
    forall s ensures s in chain <==> s in snaps {
      if s in snaps {
        HashIn(snaps, s.extrinsicHash);
        var i :| 0 <= i < |chain| && Hashes(chain)[i] == s.extrinsicHash;
        DistinctByHash(snaps, s, chain[i]);
      }
    }
    NoDupSameElements(chain, snaps);
  }

  /** Each snapshot that names a parent stands after it. */
  ghost predicate ParentsBefore(chain: seq<Snapshot>) {
    forall i :: 0 <= i < |chain| && chain[i].dependsOn.Some? ==>
      exists j :: 0 <= j < i && chain[j].extrinsicHash == chain[i].dependsOn.value
  }

  /** Position `i` has a child: the snapshot at `k`. */
  ghost predicate ChildAt(chain: seq<Snapshot>, i: int, k: int) {
    0 <= i < |chain| && 0 <= k < |chain| && chain[k].dependsOn == Some(chain[i].extrinsicHash)
  }

  ghost predicate HasChild(chain: seq<Snapshot>, i: int) {
    exists k :: ChildAt(chain, i, k)
  }

  ghost predicate AllButLastHaveChild(chain: seq<Snapshot>) {
    forall j :: 0 <= j < |chain| - 1 ==> HasChild(chain, j)
  }

  lemma ChildStandsAfter(chain: seq<Snapshot>, i: int, k: int)
    requires DistinctHashes(chain) && ParentsBefore(chain) && ChildAt(chain, i, k)
    ensures i < k
  {
    var j :| 0 <= j < k && chain[j].extrinsicHash == chain[k].dependsOn.value;
    assert Hashes(chain)[i] == Hashes(chain)[j];
  }

  lemma SameHashSamePosition(chain: seq<Snapshot>, i: nat, j: nat)
    requires DistinctHashes(chain) && i < |chain| && j < |chain|
    requires chain[i].extrinsicHash == chain[j].extrinsicHash
    ensures i == j
  {
    assert Hashes(chain)[i] == Hashes(chain)[j];
  }

  /** When every position but the last has a child, the child of `i` is at `i + 1`. */
  lemma {:induction false} ChildIsNext(chain: seq<Snapshot>, i: nat)
    requires DistinctHashes(chain) && ParentsBefore(chain)
    requires AllButLastHaveChild(chain)
    requires i + 1 < |chain|
    ensures ChildAt(chain, i, i + 1)
    decreases |chain| - i
  {
    assert HasChild(chain, i);
    var k :| ChildAt(chain, i, k);
    ChildStandsAfter(chain, i, k);
    var before: nat := k - 1;
    if before != i {
      ChildIsNext(chain, before);
      SameHashSamePosition(chain, i, before);
    }
  }

  lemma ParentsBeforeLinked(chain: seq<Snapshot>)
    requires DistinctHashes(chain) && ParentsBefore(chain)
    requires AllButLastHaveChild(chain)
    ensures Linked(chain)
  {
    forall i, j | 0 <= i && j == i + 1 < |chain| ensures chain[j].dependsOn == Some(chain[i].extrinsicHash) {
      ChildIsNext(chain, i);
    }
  }

  lemma RootHashIsRoot(snaps: seq<Snapshot>, s: Snapshot)
    requires DistinctHashes(snaps) && s in snaps
    ensures s.extrinsicHash in Roots(snaps) <==> s.dependsOn == None
  {
    if s.extrinsicHash in Roots(snaps) {
      var t :| t in snaps && t.extrinsicHash == s.extrinsicHash && t.dependsOn == None;
      DistinctByHash(snaps, s, t);
    }
  }

  lemma ArrangedParentsBefore(snaps: seq<Snapshot>)
    requires |ReachableFromRoots(snaps)| == |snaps|
    ensures ParentsBefore(Arranged(snaps))
  {
    var order, chain := ReachableFromRoots(snaps), Arranged(snaps);
    ArrangedPermutes(snaps);
    forall i | 0 <= i < |chain| && chain[i].dependsOn.Some?
      ensures exists j :: 0 <= j < i && chain[j].extrinsicHash == chain[i].dependsOn.value
    {
      var s := chain[i];
      RootHashIsRoot(snaps, s);
      assert Hashes(chain)[i] == s.extrinsicHash;
      WalkParentBefore(snaps, Roots(snaps), i, s);
      var j :| 0 <= j < i && order[..i][j] == s.dependsOn.value;
      assert Hashes(chain)[j] == order[j];
    }
  }

  lemma ReferencedHasChild(snaps: seq<Snapshot>, chain: seq<Snapshot>, i: nat)
    requires (forall s :: s in chain <==> s in snaps) && i < |chain|
    ensures chain[i].extrinsicHash in Referenced(snaps) <==> HasChild(chain, i)
  {
    ReferencedMembers(snaps);
    if chain[i].extrinsicHash in Referenced(snaps) {
      var s :| s in snaps && s.dependsOn == Some(chain[i].extrinsicHash);
      assert s in chain;
      var k :| 0 <= k < |chain| && chain[k] == s;
      assert ChildAt(chain, i, k);
    }
    if HasChild(chain, i) {
      var k :| ChildAt(chain, i, k);
      assert chain[k] in chain;
    }
  }

  /** The last snapshot is a leaf when parents stand before children. */
  lemma LastIsLeaf(snaps: seq<Snapshot>, chain: seq<Snapshot>)
    requires (forall s :: s in chain <==> s in snaps) && chain != []
    requires DistinctHashes(chain) && ParentsBefore(chain)
    ensures chain[|chain| - 1] in LeavesAmong(snaps, Referenced(snaps))
  {
    var last := |chain| - 1;
    ReferencedHasChild(snaps, chain, last);
    forall k | ChildAt(chain, last, k) ensures false {
      ChildStandsAfter(chain, last, k);
    }
    assert chain[last] in chain;
  }

  /** With one leaf, every position but the last has a child. */
  lemma OneLeafLast(snaps: seq<Snapshot>, chain: seq<Snapshot>)
    requires (forall s :: s in chain <==> s in snaps) && chain != []
    requires DistinctHashes(chain) && ParentsBefore(chain)
    requires |LeavesAmong(snaps, Referenced(snaps))| == 1
    ensures LeavesAmong(snaps, Referenced(snaps))[0] == chain[|chain| - 1]
    ensures AllButLastHaveChild(chain)
  {
    hide Referenced, LeavesAmong, HasChild;
    var leaves, last := LeavesAmong(snaps, Referenced(snaps)), |chain| - 1;
    LastIsLeaf(snaps, chain);
    forall j | 0 <= j < last ensures HasChild(chain, j) {
      ReferencedHasChild(snaps, chain, j);
      assert Hashes(chain)[j] != Hashes(chain)[last];
      assert chain[j] in chain;
    }
  }

  /** A head means the bag, in walk order, is one chain that ends in the head. */
  lemma LeafImpliesChain(snaps: seq<Snapshot>, s: Snapshot)
    requires Leaf(snaps) == Ok(Some(s))
    ensures ChainOf(Arranged(snaps), snaps)
    ensures |Arranged(snaps)| == |snaps| > 0 && Arranged(snaps)[|snaps| - 1] == s
    ensures Hashes(Arranged(snaps)) == ReachableFromRoots(snaps)
  {
    var chain := Arranged(snaps);
    ArrangedPermutes(snaps);
    ArrangedParentsBefore(snaps);
    DistinctPermutes(snaps, chain);
    SameElements(snaps, chain);
    OneLeafLast(snaps, chain);
    ParentsBeforeLinked(chain);
  }

  // ---------------------------------------------------------------------------
  // One chain implies a head.
  // ---------------------------------------------------------------------------

  lemma {:induction false} ChainReachable(chain: seq<Snapshot>, snaps: seq<Snapshot>, i: nat)
    requires ChainOf(chain, snaps) && i < |chain|
    ensures Reachable(snaps, Roots(snaps), chain[i].extrinsicHash)
  {
    SameElements(chain, snaps);
    assert chain[0] in snaps;
    assert RootHash(snaps, chain[0].extrinsicHash);
    var path := Hashes(chain)[..i + 1];
    forall k | 0 < k < |path| ensures Edge(snaps, path[k - 1], path[k]) {
      LinkedParent(chain, k);
      assert chain[k] in snaps;
    }
    assert Path(snaps, path) && path[0] in Roots(snaps) && path[|path| - 1] == chain[i].extrinsicHash;
  }

  lemma ChainParentsBefore(chain: seq<Snapshot>)
    requires Linked(chain)
    ensures ParentsBefore(chain)
    ensures AllButLastHaveChild(chain)
  {
    forall i | 0 <= i < |chain| && chain[i].dependsOn.Some?
      ensures exists j :: 0 <= j < i && chain[j].extrinsicHash == chain[i].dependsOn.value
    {
      LinkedParent(chain, i);
      assert chain[i - 1].extrinsicHash == chain[i].dependsOn.value;
    }
    forall j | 0 <= j < |chain| - 1 ensures HasChild(chain, j) {
      assert ChildAt(chain, j, j + 1);
    }
  }

  lemma ChainLeaves(chain: seq<Snapshot>, snaps: seq<Snapshot>)
    requires ChainOf(chain, snaps) && chain != []
    ensures LeavesAmong(snaps, Referenced(snaps)) == [chain[|chain| - 1]]
  {
    SameElements(chain, snaps);
    ChainParentsBefore(chain);
    LastIsLeaf(snaps, chain);
    var leaves := LeavesAmong(snaps, Referenced(snaps));
    forall s | s in leaves ensures s == chain[|chain| - 1] {
      assert s in chain;
      var i :| 0 <= i < |chain| && chain[i] == s;
      ReferencedHasChild(snaps, chain, i);
    }
    DistinctPermutes(chain, snaps);
    DistinctNoDup(snaps);
    FilterNoDup(snaps, (s: Snapshot) => s.extrinsicHash !in Referenced(snaps));
    OnlyElement(leaves, chain[|chain| - 1]);
  }

  lemma OnlyElement<T>(s: seq<T>, x: T)
    requires NoDup(s) && x in s && forall y :: y in s ==> y == x
    ensures s == [x]
  {
    NoDupCardinality(s);
    assert Elements(s) == {x};
  }

  lemma ChainReachesAll(chain: seq<Snapshot>, snaps: seq<Snapshot>)
    requires ChainOf(chain, snaps)
    ensures |ReachableFromRoots(snaps)| == |snaps|
  {
    var order := ReachableFromRoots(snaps);
    SameElements(chain, snaps);
    DistinctPermutes(chain, snaps);
    WalkOrderCorrect(snaps, Roots(snaps));
    WalkStaysInBag(snaps);
    forall h ensures h in order <==> h in Hashes(snaps) {
      if h in Hashes(snaps) {
        HashIn(snaps, h);
        var s :| s in snaps && s.extrinsicHash == h;
        var i :| 0 <= i < |chain| && chain[i] == s;
        ChainReachable(chain, snaps, i);
      }
    }
    NoDupSameElements(order, Hashes(snaps));
    SameElements(order, Hashes(snaps));
  }

  lemma ChainImpliesLeaf(chain: seq<Snapshot>, snaps: seq<Snapshot>)
    requires ChainOf(chain, snaps) && chain != []
    ensures Leaf(snaps) == Ok(Some(chain[|chain| - 1]))
  {
    SameElements(chain, snaps);
    ChainLeaves(chain, snaps);
    ChainReachesAll(chain, snaps);
  }

  // ---------------------------------------------------------------------------
  // The contract of `find_leaf`.
  // ---------------------------------------------------------------------------

  /**
   `find_leaf` answers `Ok(None)` exactly for an empty journal, and `Ok(Some(s))`
   exactly when some chain without a repeated hash arranges the bag and ends in `s`.
   Distinct hashes are a conclusion of the answer, not a hypothesis.
   */
  lemma LeafIsChainEnd(snaps: seq<Snapshot>)
    ensures Leaf(snaps) == Ok(None) <==> snaps == []
    ensures forall s :: Leaf(snaps) == Ok(Some(s)) <==>
                          exists chain :: chain != [] && ChainOf(chain, snaps) && chain[|chain| - 1] == s
  {
    forall s ensures Leaf(snaps) == Ok(Some(s)) <==>
                       exists chain :: chain != [] && ChainOf(chain, snaps) && chain[|chain| - 1] == s
    {
      if Leaf(snaps) == Ok(Some(s)) {
        LeafImpliesChain(snaps, s);
        var chain := Arranged(snaps);
        assert chain != [] && ChainOf(chain, snaps) && chain[|chain| - 1] == s;
      }
      if chain :| chain != [] && ChainOf(chain, snaps) && chain[|chain| - 1] == s {
        ChainImpliesLeaf(chain, snaps);
      }
    }
  }

  // ---------------------------------------------------------------------------
  // Independence of the order in which the files are read.
  // ---------------------------------------------------------------------------

  /** The head does not depend on the order of the bag. */
  lemma LeafPermutes(a: seq<Snapshot>, b: seq<Snapshot>)
    requires multiset(a) == multiset(b)
    ensures Leaf(a).Ok? <==> Leaf(b).Ok?
    ensures Leaf(a).Ok? ==> Leaf(a) == Leaf(b)
  {
    LeafIsChainEnd(a);
    LeafIsChainEnd(b);
    SameElements(a, b);
    if Leaf(a).Ok? && a != [] {
      LeafOfPermuted(a, b);
    }
    if Leaf(b).Ok? && b != [] {
      LeafOfPermuted(b, a);
    }
  }

  lemma LeafOfPermuted(a: seq<Snapshot>, b: seq<Snapshot>)
    requires multiset(a) == multiset(b) && a != [] && Leaf(a).Ok?
    ensures Leaf(b) == Leaf(a)
  {
    LeafIsChainEnd(a);
    LeafImpliesChain(a, Leaf(a).value.value);
    ChainImpliesLeaf(Arranged(a), b);
  }

  lemma LeavesPermute(a: seq<Snapshot>, b: seq<Snapshot>)
    requires multiset(a) == multiset(b)
    ensures Referenced(a) == Referenced(b)
    ensures |LeavesAmong(a, Referenced(a))| == |LeavesAmong(b, Referenced(b))|
    ensures Sort(Hashes(LeavesAmong(a, Referenced(a))), StringLe)
         == Sort(Hashes(LeavesAmong(b, Referenced(b))), StringLe)
  {
    SameElements(a, b);
    ReferencedMembers(a);
    ReferencedMembers(b);
    assert Referenced(a) == Referenced(b);
    var la, lb := LeavesAmong(a, Referenced(a)), LeavesAmong(b, Referenced(b));
    var referenced := Referenced(a);
    FilterPermutes(a, b, (s: Snapshot) => s.extrinsicHash !in referenced);
    SameElements(la, lb);
    HashesPermute(la, lb);
    StringOrder();
    SortCanonical(Hashes(la), Hashes(lb), StringLe);
  }

  lemma ReachablePermutes(a: seq<Snapshot>, b: seq<Snapshot>)
    requires multiset(a) == multiset(b)
    ensures |ReachableFromRoots(a)| == |ReachableFromRoots(b)|
    ensures Unvisited(a) == Unvisited(b)
  {
    SameElements(a, b);
    HashesPermute(a, b);
    SameElements(Hashes(a), Hashes(b));
    WalkOrderCorrect(a, Roots(a));
    WalkOrderCorrect(b, Roots(b));
    BfsPermutes(a, b, Roots(a), {});
    WalkOrderCorrect(b, Roots(a));
    assert forall h :: h in Roots(a) <==> h in Roots(b);
    var x, y := ReachableFromRoots(a), ReachableFromRoots(b);
    forall h ensures h in x <==> h in y {
      assert Reachable(b, Roots(a), h) <==> Reachable(b, Roots(b), h);
    }
    NoDupSameElements(x, y);
    SameElements(x, y);
  }

  /**
   The errors agree too, up to the diagnosis of the unreachable snapshots; with
   distinct hashes that diagnosis agrees as well.
   */
  lemma LeafErrorPermutes(a: seq<Snapshot>, b: seq<Snapshot>)
    requires multiset(a) == multiset(b) && Leaf(a).Err?
    ensures Leaf(b).Err?
    ensures !Leaf(a).error.Unreachable? ==> Leaf(b) == Leaf(a)
    ensures Leaf(a).error.Unreachable? ==>
      && Leaf(b).error.Unreachable?
      && Leaf(b).error.count == Leaf(a).error.count
      && Leaf(b).error.hashes == Leaf(a).error.hashes
    ensures DistinctHashes(a) ==> Leaf(b) == Leaf(a)
  {
    hide Unvisited, ReachableFromRoots, LeavesAmong, Referenced, ByHash;
    SameElements(a, b);
    LeavesPermute(a, b);
    ReachablePermutes(a, b);
    if DistinctHashes(a) {
      ByHashPermutes(a, b);
    }
  }

  lemma ByHashPermutes(a: seq<Snapshot>, b: seq<Snapshot>)
    requires multiset(a) == multiset(b) && DistinctHashes(a)
    ensures ByHash(a) == ByHash(b)
  {
    SameElements(a, b);
    DistinctPermutes(a, b);
    HashesPermute(a, b);
    SameElements(Hashes(a), Hashes(b));
    hide ByHash, DistinctHashes;
    assert ByHash(a).Keys == ByHash(b).Keys;
    forall h | h in ByHash(a) ensures ByHash(a)[h] == ByHash(b)[h] {
      ByHashDistinct(b, ByHash(a)[h]);
    }
  }
}
