/** The walk is breadth first: no hash comes before one that is nearer to the starts. */
module BreadthFirst {
  import opened Wrappers
  import opened Orders
  import opened Snapshots
  import opened Walk

  /** Some path from a start reaches `h` in at most `k` edges. */
  ghost predicate Within(snaps: seq<Snapshot>, starts: seq<Hash>, h: Hash, k: nat) {
    exists path :: Path(snaps, path) && path[0] in starts && path[|path| - 1] == h && |path| <= k + 1
  }

  lemma OneEdgeFurther(snaps: seq<Snapshot>, starts: seq<Hash>, p: Hash, h: Hash, k: nat)
    requires Within(snaps, starts, p, k) && Edge(snaps, p, h)
    ensures Within(snaps, starts, h, k + 1)
  {
    hide Edge;
    var path :| Path(snaps, path) && path[0] in starts && path[|path| - 1] == p && |path| <= k + 1;
    var longer := path + [h];
    assert Path(snaps, longer) && longer[0] in starts && longer[|longer| - 1] == h;
  }

  /** What is within one edge more is a start, or the child of something nearer. */
  lemma OneEdgeNearer(snaps: seq<Snapshot>, starts: seq<Hash>, h: Hash, k: nat) returns (p: Hash)
    requires Within(snaps, starts, h, k)
    ensures h in starts || (k > 0 && Within(snaps, starts, p, k - 1) && Edge(snaps, p, h))
  {
    hide Edge;
    var path :| Path(snaps, path) && path[0] in starts && path[|path| - 1] == h && |path| <= k + 1;
    p := h;
    if |path| > 1 {
      var front := path[..|path| - 1];
      p := path[|path| - 2];
      assert Path(snaps, front) && front[0] in starts && front[|front| - 1] == p && |front| <= k;
      assert Edge(snaps, path[|path| - 2], path[|path| - 1]);
    }
  }

  /**
   The walk is between two levels: the first `m` hashes of the queue are within `k`
   edges and the others within `k + 1`; all that is within `k` is visited or among
   the first; all that is nearer is visited; no child of a visited hash is missing.
   */
  ghost predicate OnLevel(
      snaps: seq<Snapshot>, starts: seq<Hash>, queue: seq<Hash>, visited: set<Hash>, m: nat, k: nat)
  {
    && m <= |queue|
    && (forall i :: 0 <= i < |queue| ==> Within(snaps, starts, queue[i], if i < m then k else k + 1))
    && (forall h :: Within(snaps, starts, h, k) ==> h in visited || h in queue[..m])
    && (k > 0 ==> forall h :: Within(snaps, starts, h, k - 1) ==> h in visited)
    && (forall p, h :: p in visited && Edge(snaps, p, h) ==> h in visited || h in queue)
  }

  /** With nothing left on the level the next one begins. */
  lemma NextLevel(snaps: seq<Snapshot>, starts: seq<Hash>, queue: seq<Hash>, visited: set<Hash>, k: nat)
    requires OnLevel(snaps, starts, queue, visited, 0, k)
    ensures OnLevel(snaps, starts, queue, visited, |queue|, k + 1)
  {
    hide Within, Edge;
    assert queue[..|queue|] == queue && queue[..0] == [];
    forall h | Within(snaps, starts, h, k + 1) ensures h in visited || h in queue {
      var p := OneEdgeNearer(snaps, starts, h, k + 1);
      if h in starts {
        StartIsNear(snaps, starts, h, k);
      }
    }
  }

  lemma StartIsNear(snaps: seq<Snapshot>, starts: seq<Hash>, h: Hash, k: nat)
    requires h in starts
    ensures Within(snaps, starts, h, k)
  {
    assert Path(snaps, [h]) && [h][0] in starts;
  }

  /** A visited hash at the front of the queue is dropped. */
  lemma LevelDrops(
      snaps: seq<Snapshot>, starts: seq<Hash>, queue: seq<Hash>, visited: set<Hash>, m: nat, k: nat)
    requires OnLevel(snaps, starts, queue, visited, m, k) && m > 0 && queue[0] in visited
    ensures OnLevel(snaps, starts, queue[1..], visited, m - 1, k)
  {
    hide Within, Edge;
    var rest := queue[1..];
    assert queue == [queue[0]] + rest && queue[..m] == [queue[0]] + rest[..m - 1];
    forall i | 0 <= i < |rest| ensures Within(snaps, starts, rest[i], if i < m - 1 then k else k + 1) {
      assert rest[i] == queue[i + 1];
    }
  }

  /** A new hash is visited, and its children are put behind the queue. */
  lemma LevelVisits(
      snaps: seq<Snapshot>, starts: seq<Hash>, queue: seq<Hash>, visited: set<Hash>, m: nat, k: nat)
    requires OnLevel(snaps, starts, queue, visited, m, k) && m > 0
    ensures OnLevel(snaps, starts, queue[1..] + Children(snaps, queue[0]), visited + {queue[0]}, m - 1, k)
  {
    hide Within, Edge;
    var children, rest := Children(snaps, queue[0]), queue[1..];
    var next := rest + children;
    assert queue == [queue[0]] + rest && queue[..m] == [queue[0]] + next[..m - 1];
    forall i | 0 <= i < |next| ensures Within(snaps, starts, next[i], if i < m - 1 then k else k + 1) {
      if i < |rest| {
        assert next[i] == queue[i + 1];
      } else {
        assert children[i - |rest|] in children;
        OneEdgeFurther(snaps, starts, queue[0], next[i], k);
      }
    }
  }

  /** From any point of the walk on, the hashes come in the order of their distance. */
  lemma {:induction false} RestIsBreadthFirst(
      snaps: seq<Snapshot>, starts: seq<Hash>, queue: seq<Hash>, visited: set<Hash>, m: nat, k: nat, i: nat, j: nat,
      d: nat)
    requires OnLevel(snaps, starts, queue, visited, m, k)
    requires i < j < |Bfs(snaps, queue, visited)| && Within(snaps, starts, Bfs(snaps, queue, visited)[j], d)
    ensures Within(snaps, starts, Bfs(snaps, queue, visited)[i], d)
    decreases |Universe(snaps, queue) - visited|, |queue|, if m == 0 then 1 else 0
  {
    hide OnLevel, Within, Universe, Children, Edge;
    UniverseShrinks(snaps, queue, visited);
    if m == 0 {
      NextLevel(snaps, starts, queue, visited, k);
      RestIsBreadthFirst(snaps, starts, queue, visited, |queue|, k + 1, i, j, d);
    } else if queue[0] in visited {
      LevelDrops(snaps, starts, queue, visited, m, k);
      RestIsBreadthFirst(snaps, starts, queue[1..], visited, m - 1, k, i, j, d);
    } else {
      var next, seen := queue[1..] + Children(snaps, queue[0]), visited + {queue[0]};
      if i > 0 {
        LevelVisits(snaps, starts, queue, visited, m, k);
        RestIsBreadthFirst(snaps, starts, next, seen, m - 1, k, i - 1, j - 1, d);
      } else {
        BfsVisitsOnce(snaps, queue, visited);
        FirstIsNearest(snaps, starts, queue, visited, m, k, Bfs(snaps, queue, visited)[j], d);
      }
    }
  }

  /** What is not visited yet is no nearer than the front of the queue. */
  lemma FirstIsNearest(
      snaps: seq<Snapshot>, starts: seq<Hash>, queue: seq<Hash>, visited: set<Hash>, m: nat, k: nat, h: Hash, d: nat)
    requires OnLevel(snaps, starts, queue, visited, m, k) && m > 0
    requires h !in visited && Within(snaps, starts, h, d)
    ensures Within(snaps, starts, queue[0], d)
  {
    hide Edge;
    if d < k {
      FurtherStillWithin(snaps, starts, h, d, k - 1);
    } else {
      FurtherStillWithin(snaps, starts, queue[0], k, d);
    }
  }

  lemma FurtherStillWithin(snaps: seq<Snapshot>, starts: seq<Hash>, h: Hash, d: nat, k: nat)
    requires Within(snaps, starts, h, d) && d <= k
    ensures Within(snaps, starts, h, k)
  {
  }

  /** Of two hashes of the walk, the earlier is no further from the starts than the later. */
  lemma WalkIsBreadthFirst(snaps: seq<Snapshot>, starts: seq<Hash>, i: nat, j: nat)
    requires i < j < |WalkOrder(snaps, starts)|
    ensures forall d: nat :: Within(snaps, starts, WalkOrder(snaps, starts)[j], d) ==>
              Within(snaps, starts, WalkOrder(snaps, starts)[i], d)
  {
    forall d: nat | Within(snaps, starts, WalkOrder(snaps, starts)[j], d)
      ensures Within(snaps, starts, WalkOrder(snaps, starts)[i], d)
    {
      StartLevel(snaps, starts);
      RestIsBreadthFirst(snaps, starts, starts, {}, |starts|, 0, i, j, d);
    }
  }

  lemma StartLevel(snaps: seq<Snapshot>, starts: seq<Hash>)
    ensures OnLevel(snaps, starts, starts, {}, |starts|, 0)
  {
    hide Edge;
    assert starts[..|starts|] == starts;
    forall h | h in starts ensures Within(snaps, starts, h, 0) {
      StartIsNear(snaps, starts, h, 0);
    }
    forall h | Within(snaps, starts, h, 0) ensures h in starts {
      var p := OneEdgeNearer(snaps, starts, h, 0);
    }
  }

  /** Siblings come in hash order, as often as snapshots name them. */
  lemma SiblingsInOrder(snaps: seq<Snapshot>, parent: Hash)
    ensures SortedBy(Children(snaps, parent), StringLe)
    ensures |Children(snaps, parent)| == |Filter(snaps, (s: Snapshot) => s.dependsOn == Some(parent))|
  {
    StringOrder();
    SortSorted(ChildHashes(snaps, parent), StringLe);
    SortPermutes(ChildHashes(snaps, parent), StringLe);
    assert |multiset(Children(snaps, parent))| == |multiset(ChildHashes(snaps, parent))|;
  }
}
