/**
 The journal's data: snapshots linked by `depends_on`, and the chain every
 well-formed journal is.
 */
module Snapshots {
  import opened Wrappers
  import opened Orders

  newtype byte = x: int | 0 <= x < 0x100
  newtype u64 = x: int | 0 <= x < 0x1_0000_0000_0000_0000

  /** A hash as the store keeps it: hex text. A file on disk can hold any text. */
  type Hash = string
  type Address = string
  type Bytes = seq<byte>

  /** ASCII lower case. */
  function Lower(c: char): (l: char) {
    if 'A' <= c <= 'Z' then (c as int + 32) as char else c
  }

  datatype SnapshotStatus = Pending | Confirmed

  datatype Snapshot = Snapshot(
    status: SnapshotStatus,
    extrinsicHash: Hash,
    blockHash: Option<Hash>,
    blockHeight: Option<u64>,
    dependsOn: Option<Hash>,
    data: Bytes)

  function Hashes(snaps: seq<Snapshot>): (r: seq<Hash>)
    ensures |r| == |snaps|
    ensures forall i :: 0 <= i < |snaps| ==> r[i] == snaps[i].extrinsicHash
  {
    seq(|snaps|, i requires 0 <= i < |snaps| => snaps[i].extrinsicHash)
  }

  ghost predicate DistinctHashes(snaps: seq<Snapshot>) {
    NoDup(Hashes(snaps))
  }

  /** Some snapshot of the bag has hash `child` and names `parent`. */
  ghost predicate Edge(snaps: seq<Snapshot>, parent: Hash, child: Hash) {
    exists s :: s in snaps && s.extrinsicHash == child && s.dependsOn == Some(parent)
  }

  /** Each snapshot names the one before it; the first names none. */
  ghost predicate Linked(chain: seq<Snapshot>) {
    && (chain != [] ==> chain[0].dependsOn == None)
    && (forall i, j | 0 <= i && j == i + 1 < |chain| :: chain[j].dependsOn == Some(chain[i].extrinsicHash))
  }

  /** A journal with one history: linked, and no hash twice. */
  ghost predicate Chain(chain: seq<Snapshot>) {
    Linked(chain) && DistinctHashes(chain)
  }

  /** `chain` arranges the bag `snaps`. */
  ghost predicate ChainOf(chain: seq<Snapshot>, snaps: seq<Snapshot>) {
    Chain(chain) && multiset(chain) == multiset(snaps)
  }

  lemma DistinctByHash(snaps: seq<Snapshot>, s: Snapshot, t: Snapshot)
    requires DistinctHashes(snaps) && s in snaps && t in snaps
    requires s.extrinsicHash == t.extrinsicHash
    ensures s == t
  {
    var i :| 0 <= i < |snaps| && snaps[i] == s;
    var j :| 0 <= j < |snaps| && snaps[j] == t;
    assert Hashes(snaps)[i] == Hashes(snaps)[j];
  }

  lemma DistinctNoDup(snaps: seq<Snapshot>)
    requires DistinctHashes(snaps)
    ensures NoDup(snaps)
  {
    forall i, j | 0 <= i < j < |snaps| ensures snaps[i] != snaps[j] {
      assert Hashes(snaps)[i] != Hashes(snaps)[j];
    }
  }

  lemma {:induction false} HashesPermute(a: seq<Snapshot>, b: seq<Snapshot>)
    requires multiset(a) == multiset(b)
    ensures multiset(Hashes(a)) == multiset(Hashes(b))
  {
    SameElements(a, b);
    if a != [] {
      var k := TakeOut(a, b);
      var rest := b[..k] + b[k + 1..];
      HashesPermute(a[1..], rest);
      assert Hashes(a) == [a[0].extrinsicHash] + Hashes(a[1..]);
      assert Hashes(b) == Hashes(b[..k]) + [b[k].extrinsicHash] + Hashes(b[k + 1..]);
      assert Hashes(rest) == Hashes(b[..k]) + Hashes(b[k + 1..]);
    } else {
      assert Hashes(a) == Hashes(b);
    }
  }

  lemma DistinctPermutes(a: seq<Snapshot>, b: seq<Snapshot>)
    requires multiset(a) == multiset(b) && DistinctHashes(a)
    ensures DistinctHashes(b)
  {
    HashesPermute(a, b);
    NoDupPermutes(Hashes(a), Hashes(b));
  }

  /** A bag is arranged by at most one chain. */
  lemma {:induction false} ChainUnique(a: seq<Snapshot>, b: seq<Snapshot>)
    requires Chain(a) && Chain(b) && multiset(a) == multiset(b)
    ensures a == b
  {
    SameElements(a, b);
    forall i | 0 <= i < |a| ensures a[i] == b[i] {
      ChainUniqueAt(a, b, i);
    }
  }

  lemma {:induction false} ChainUniqueAt(a: seq<Snapshot>, b: seq<Snapshot>, i: nat)
    requires Chain(a) && Chain(b) && multiset(a) == multiset(b) && |a| == |b| && i < |a|
    ensures a[i] == b[i]
  {
    SameElements(a, b);
    assert a[i] in b;
    var k :| 0 <= k < |b| && b[k] == a[i];
    LinkedParent(a, i);
    LinkedParent(b, k);
    if i > 0 {
      ChainUniqueAt(a, b, i - 1);
      assert Hashes(b)[k - 1] == Hashes(b)[i - 1];
    }
  }

  lemma LinkedParent(chain: seq<Snapshot>, i: nat)
    requires Linked(chain) && i < |chain|
    ensures chain[i].dependsOn == if i == 0 then None else Some(chain[i - 1].extrinsicHash)
  {
  }

  lemma HashIn(snaps: seq<Snapshot>, h: Hash)
    ensures h in Hashes(snaps) <==> exists s :: s in snaps && s.extrinsicHash == h
  {
    if h in Hashes(snaps) {
      var i :| 0 <= i < |snaps| && Hashes(snaps)[i] == h;
      assert snaps[i] in snaps;
    }
    if s :| s in snaps && s.extrinsicHash == h {
      var i :| 0 <= i < |snaps| && snaps[i] == s;
      assert Hashes(snaps)[i] == h;
    }
  }

  lemma HashesIn(snaps: seq<Snapshot>)
    ensures forall h :: h in Hashes(snaps) <==> exists s :: s in snaps && s.extrinsicHash == h
  {
    forall h ensures h in Hashes(snaps) <==> exists s :: s in snaps && s.extrinsicHash == h {
      HashIn(snaps, h);
    }
  }
}
