/**
 `walk_children`: the breadth-first walk along child edges that the leaf test,
 the listing and the cascade rest on. It must cope with any bag of snapshots:
 cycles, orphans, branches and repeated hashes.
 */
module Walk {
  import opened Wrappers
  import opened Orders
  import opened Snapshots

  /** The hashes of the snapshots that name `parent`, in bag order. */
  function ChildHashes(snaps: seq<Snapshot>, parent: Hash): (r: seq<Hash>)
    ensures forall h :: h in r <==> Edge(snaps, parent, h)
  {
    var named := Filter(snaps, (s: Snapshot) => s.dependsOn == Some(parent));
    FilterMembers(snaps, (s: Snapshot) => s.dependsOn == Some(parent));
    HashesIn(named);
    Hashes(named)
  }

  /** The children of `parent`, siblings in hash order. */
  function Children(snaps: seq<Snapshot>, parent: Hash): (r: seq<Hash>)
    ensures forall h :: h in r <==> Edge(snaps, parent, h)
  {
    var r := Sort(ChildHashes(snaps, parent), StringLe);
    SortPermutes(ChildHashes(snaps, parent), StringLe);
    SameElements(r, ChildHashes(snaps, parent));
    r
  }

  ghost function Universe(snaps: seq<Snapshot>, queue: seq<Hash>): (r: set<Hash>) {
    Elements(Hashes(snaps)) + Elements(queue)
  }

  lemma UniverseShrinks(snaps: seq<Snapshot>, queue: seq<Hash>, visited: set<Hash>)
    requires queue != []
    ensures Universe(snaps, queue[1..]) <= Universe(snaps, queue)
    ensures |Universe(snaps, queue[1..]) - visited| <= |Universe(snaps, queue) - visited|
    ensures queue[0] !in visited ==>
      |Universe(snaps, queue[1..] + Children(snaps, queue[0])) - (visited + {queue[0]})|
        < |Universe(snaps, queue) - visited|
  {
    var before := Universe(snaps, queue);
    assert Universe(snaps, queue[1..]) <= before;
    SubsetCardinality(Universe(snaps, queue[1..]) - visited, before - visited);
    if queue[0] !in visited {
      var next := queue[1..] + Children(snaps, queue[0]);
      forall h | h in Universe(snaps, next) ensures h in before {
        if h in Children(snaps, queue[0]) {
          var s :| s in snaps && s.extrinsicHash == h && s.dependsOn == Some(queue[0]);
          var i :| 0 <= i < |snaps| && snaps[i] == s;
          assert Hashes(snaps)[i] == h;
        }
      }
      var after := Universe(snaps, next) - (visited + {queue[0]});
      assert queue[0] in before - visited;
      SubsetCardinality(after, before - visited - {queue[0]});
    }
  }

  lemma {:induction false} SubsetCardinality<T>(a: set<T>, b: set<T>)
    requires a <= b
    ensures |a| <= |b|
  {
    if a != {} {
      var x :| x in a;
      SubsetCardinality(a - {x}, b - {x});
    }
  }

  /** The rest of a walk: what `queue` still adds once `visited` is done. */
  function Bfs(snaps: seq<Snapshot>, queue: seq<Hash>, visited: set<Hash>): (order: seq<Hash>)
    decreases |Universe(snaps, queue) - visited|, |queue|
  {
    if queue == [] then []
    else
      UniverseShrinks(snaps, queue, visited);
      if queue[0] in visited then Bfs(snaps, queue[1..], visited)
      else [queue[0]] + Bfs(snaps, queue[1..] + Children(snaps, queue[0]), visited + {queue[0]})
  }

  function WalkOrder(snaps: seq<Snapshot>, starts: seq<Hash>): (order: seq<Hash>) {
    Bfs(snaps, starts, {})
  }

  /** `children` groups the hashes of `snaps` by the parent they name. */
  ghost predicate Grouped(children: map<Hash, seq<Hash>>, snaps: seq<Snapshot>) {
    forall p :: (if p in children then children[p] else []) == ChildHashes(snaps, p)
  }

  lemma GroupedExtends(children: map<Hash, seq<Hash>>, snaps: seq<Snapshot>, s: Snapshot)
    requires Grouped(children, snaps)
    ensures s.dependsOn == None ==> Grouped(children, snaps + [s])
    ensures s.dependsOn.Some? ==>
      var parent := s.dependsOn.value;
      var siblings := if parent in children then children[parent] else [];
      Grouped(children[parent := siblings + [s.extrinsicHash]], snaps + [s])
  {
    forall p ensures ChildHashes(snaps + [s], p)
                  == ChildHashes(snaps, p) + if s.dependsOn == Some(p) then [s.extrinsicHash] else []
    {
      ChildHashesAppend(snaps, s, p);
    }
  }

  method GroupByParent(snaps: seq<Snapshot>) returns (children: map<Hash, seq<Hash>>)
    ensures Grouped(children, snaps)
  {
    children := map[];
    for i := 0 to |snaps|
      invariant Grouped(children, snaps[..i])
    {
      assert snaps[..i + 1] == snaps[..i] + [snaps[i]];
      GroupedExtends(children, snaps[..i], snaps[i]);
      if snaps[i].dependsOn.Some? {
        var parent := snaps[i].dependsOn.value;
        var siblings := if parent in children then children[parent] else [];
        children := children[parent := siblings + [snaps[i].extrinsicHash]];
      }
    }
    assert snaps[..|snaps|] == snaps;
  }

  method ChildLists(snaps: seq<Snapshot>) returns (children: map<Hash, seq<Hash>>)
    ensures forall p :: (if p in children then children[p] else []) == Children(snaps, p)
  {
    var grouped := GroupByParent(snaps);
    children := SortSiblings(grouped);
    forall p ensures (if p in children then children[p] else []) == Sort(ChildHashes(snaps, p), StringLe) {
      assert (if p in grouped then grouped[p] else []) == ChildHashes(snaps, p);
    }
  }

  lemma WalkEnds(snaps: seq<Snapshot>)
    ensures forall visited :: Bfs(snaps, [], visited) == []
  {
  }

  /** One turn of the walk. */
  lemma BfsTurn(snaps: seq<Snapshot>, queue: seq<Hash>, visited: set<Hash>)
    requires queue != []
    ensures Bfs(snaps, queue, visited)
         == if queue[0] in visited then Bfs(snaps, queue[1..], visited)
            else [queue[0]] + Bfs(snaps, queue[1..] + Children(snaps, queue[0]), visited + {queue[0]})
  {
  }

  /** `walk_children` as the program runs it. */
  method WalkChildren(snaps: seq<Snapshot>, starts: seq<Hash>) returns (order: seq<Hash>)
    ensures order == WalkOrder(snaps, starts)
  {
    hide Children, Universe, Bfs, Edge;
    var children := ChildLists(snaps);
    var visited: set<Hash> := {};
    var queue := starts;
    order := [];
    ghost var rest := WalkOrder(snaps, starts);
    WalkEnds(snaps);
    while queue != []
      invariant rest == Bfs(snaps, queue, visited)
      invariant WalkOrder(snaps, starts) == order + rest
      decreases |Universe(snaps, queue) - visited|, |queue|
    {
      UniverseShrinks(snaps, queue, visited);
      BfsTurn(snaps, queue, visited);
      var hash := queue[0];
      queue := queue[1..];
      if hash in visited {
        continue;
      }
      visited := visited + {hash};
      order, rest := order + [hash], rest[1..];
      queue := queue + if hash in children then children[hash] else [];
    }
  }

  method SortSiblings(children: map<Hash, seq<Hash>>) returns (sorted: map<Hash, seq<Hash>>)
    ensures sorted.Keys == children.Keys
    ensures forall p :: p in children ==> sorted[p] == Sort(children[p], StringLe)
  {
    sorted := children;
    var unsorted := children.Keys;
    while unsorted != {}
      invariant unsorted <= children.Keys == sorted.Keys
      invariant forall p :: p in unsorted ==> sorted[p] == children[p]
      invariant forall p :: p in children.Keys - unsorted ==> sorted[p] == Sort(children[p], StringLe)
    {
      var p :| p in unsorted;
      sorted := sorted[p := Sort(sorted[p], StringLe)];
      unsorted := unsorted - {p};
    }
  }

  lemma ChildHashesAppend(snaps: seq<Snapshot>, s: Snapshot, parent: Hash)
    ensures ChildHashes(snaps + [s], parent)
         == ChildHashes(snaps, parent) + if s.dependsOn == Some(parent) then [s.extrinsicHash] else []
  {
    FilterConcat(snaps, [s], (s: Snapshot) => s.dependsOn == Some(parent));
  }

  // ---------------------------------------------------------------------------
  // What the walk visits, and in which order.
  // ---------------------------------------------------------------------------

  /** A path along child edges. */
  ghost predicate Path(snaps: seq<Snapshot>, path: seq<Hash>) {
    && path != []
    && forall i :: 0 < i < |path| ==> Edge(snaps, path[i - 1], path[i])
  }

  ghost predicate Reachable(snaps: seq<Snapshot>, starts: seq<Hash>, h: Hash) {
    exists path :: Path(snaps, path) && path[0] in starts && path[|path| - 1] == h
  }

  /** Each hash of `order` is a start, or one of its parents stands before it. */
  ghost predicate ParentsFirst(snaps: seq<Snapshot>, starts: seq<Hash>, order: seq<Hash>) {
    forall i :: 0 <= i < |order| ==>
      order[i] in starts || exists j :: 0 <= j < i && Edge(snaps, order[j], order[i])
  }

  lemma {:induction false} BfsVisitsOnce(snaps: seq<Snapshot>, queue: seq<Hash>, visited: set<Hash>)
    ensures NoDup(Bfs(snaps, queue, visited))
    ensures forall h :: h in Bfs(snaps, queue, visited) ==> h !in visited
    decreases |Universe(snaps, queue) - visited|, |queue|
  {
    if queue != [] {
      UniverseShrinks(snaps, queue, visited);
      if queue[0] in visited {
        BfsVisitsOnce(snaps, queue[1..], visited);
      } else {
        var next := queue[1..] + Children(snaps, queue[0]);
        BfsVisitsOnce(snaps, next, visited + {queue[0]});
        NoDupCons(queue[0], Bfs(snaps, next, visited + {queue[0]}));
      }
    }
  }

  lemma {:induction false} BfsParentsFirst(snaps: seq<Snapshot>, queue: seq<Hash>, visited: set<Hash>)
    ensures ParentsFirst(snaps, queue, Bfs(snaps, queue, visited))
    decreases |Universe(snaps, queue) - visited|, |queue|
  {
    var order := Bfs(snaps, queue, visited);
    if queue != [] {
      UniverseShrinks(snaps, queue, visited);
      if queue[0] in visited {
        BfsParentsFirst(snaps, queue[1..], visited);
      } else {
        var next := queue[1..] + Children(snaps, queue[0]);
        BfsParentsFirst(snaps, next, visited + {queue[0]});
        forall i | 0 <= i < |order|
          ensures order[i] in queue || exists j :: 0 <= j < i && Edge(snaps, order[j], order[i])
        {
          if i > 0 {
            var rest := order[1..];
            assert rest[i - 1] == order[i];
            if order[i] in next {
              if order[i] !in queue {
                assert Edge(snaps, order[0], order[i]);
              }
            } else {
              var j :| 0 <= j < i - 1 && Edge(snaps, rest[j], rest[i - 1]);
              assert Edge(snaps, order[j + 1], order[i]);
            }
          }
        }
      }
    }
  }

  /** The walk leaves no start and no child behind. */
  lemma {:induction false} BfsCloses(snaps: seq<Snapshot>, queue: seq<Hash>, visited: set<Hash>)
    ensures forall h :: h in queue ==> h in visited || h in Bfs(snaps, queue, visited)
    ensures forall p, h :: p in Bfs(snaps, queue, visited) && Edge(snaps, p, h) ==>
                             (h in visited || h in Bfs(snaps, queue, visited))
    decreases |Universe(snaps, queue) - visited|, |queue|
  {
    if queue != [] {
      UniverseShrinks(snaps, queue, visited);
      if queue[0] in visited {
        BfsCloses(snaps, queue[1..], visited);
      } else {
        BfsCloses(snaps, queue[1..] + Children(snaps, queue[0]), visited + {queue[0]});
      }
    }
  }

  lemma {:induction false} ParentsFirstReaches(snaps: seq<Snapshot>, starts: seq<Hash>, order: seq<Hash>, i: nat)
    requires ParentsFirst(snaps, starts, order) && i < |order|
    ensures Reachable(snaps, starts, order[i])
  {
    if order[i] in starts {
      var path := [order[i]];
      assert Path(snaps, path) && path[0] in starts && path[|path| - 1] == order[i];
    } else {
      var j :| 0 <= j < i && Edge(snaps, order[j], order[i]);
      ParentsFirstReaches(snaps, starts, order, j);
      var path :| Path(snaps, path) && path[0] in starts && path[|path| - 1] == order[j];
      var longer := path + [order[i]];
      assert Path(snaps, longer) && longer[0] in starts && longer[|longer| - 1] == order[i];
    }
  }

  lemma {:induction false} ClosedHoldsPath(snaps: seq<Snapshot>, order: seq<Hash>, path: seq<Hash>)
    requires Path(snaps, path) && path[0] in order
    requires forall p, h :: p in order && Edge(snaps, p, h) ==> h in order
    ensures path[|path| - 1] in order
  {
    if |path| > 1 {
      ClosedHoldsPath(snaps, order, path[..|path| - 1]);
      assert Edge(snaps, path[|path| - 2], path[|path| - 1]);
    }
  }

  /**
   The walk's contract, for every bag of snapshots: each hash once, exactly the
   reachable hashes, and every hash that is no start after one of its parents.
   */
  lemma WalkOrderCorrect(snaps: seq<Snapshot>, starts: seq<Hash>)
    ensures NoDup(WalkOrder(snaps, starts))
    ensures forall h :: h in WalkOrder(snaps, starts) <==> Reachable(snaps, starts, h)
    ensures ParentsFirst(snaps, starts, WalkOrder(snaps, starts))
  {
    var order := WalkOrder(snaps, starts);
    BfsVisitsOnce(snaps, starts, {});
    BfsParentsFirst(snaps, starts, {});
    BfsCloses(snaps, starts, {});
    forall h ensures h in order <==> Reachable(snaps, starts, h) {
      if h in order {
        var i :| 0 <= i < |order| && order[i] == h;
        ParentsFirstReaches(snaps, starts, order, i);
      }
      if Reachable(snaps, starts, h) {
        var path :| Path(snaps, path) && path[0] in starts && path[|path| - 1] == h;
        ClosedHoldsPath(snaps, order, path);
      }
    }
  }

  /** With distinct hashes a snapshot has one parent, and it stands before it. */
  lemma WalkParentBefore(snaps: seq<Snapshot>, starts: seq<Hash>, i: nat, s: Snapshot)
    requires DistinctHashes(snaps) && s in snaps
    requires i < |WalkOrder(snaps, starts)| && WalkOrder(snaps, starts)[i] == s.extrinsicHash
    requires s.extrinsicHash !in starts
    ensures s.dependsOn.Some? && s.dependsOn.value in WalkOrder(snaps, starts)[..i]
  {
    var order := WalkOrder(snaps, starts);
    WalkOrderCorrect(snaps, starts);
    var j :| 0 <= j < i && Edge(snaps, order[j], order[i]);
    var t :| t in snaps && t.extrinsicHash == order[i] && t.dependsOn == Some(order[j]);
    DistinctByHash(snaps, s, t);
    assert order[..i][j] == order[j];
  }

  /** The walk ignores the order of the bag. */
  lemma {:induction false} BfsPermutes(a: seq<Snapshot>, b: seq<Snapshot>, queue: seq<Hash>, visited: set<Hash>)
    requires multiset(a) == multiset(b)
    ensures Bfs(a, queue, visited) == Bfs(b, queue, visited)
    decreases |Universe(a, queue) - visited|, |queue|
  {
    if queue != [] {
      UniverseShrinks(a, queue, visited);
      if queue[0] in visited {
        BfsPermutes(a, b, queue[1..], visited);
      } else {
        ChildrenPermute(a, b, queue[0]);
        BfsPermutes(a, b, queue[1..] + Children(a, queue[0]), visited + {queue[0]});
      }
    }
  }

  lemma ChildrenPermute(a: seq<Snapshot>, b: seq<Snapshot>, parent: Hash)
    requires multiset(a) == multiset(b)
    ensures Children(a, parent) == Children(b, parent)
  {
    var keep := (s: Snapshot) => s.dependsOn == Some(parent);
    FilterPermutes(a, b, keep);
    HashesPermute(Filter(a, keep), Filter(b, keep));
    StringOrder();
    SortCanonical(ChildHashes(a, parent), ChildHashes(b, parent), StringLe);
  }
}
