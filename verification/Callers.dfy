/**
 What the clients that race on one journal get back from their appends.
 */
module Callers {
  import opened Wrappers
  import opened Snapshots
  import opened FindLeaf
  import opened Directory
  import opened Journal
  import opened Store
  import opened Interleaving

  /** At step `k` an append of client `c` on parent `d` of `a` writes its snapshot for good: it returns `Ok`. */
  ghost predicate Succeeds(s: State, steps: seq<Step>, k: nat, c: Client, a: Address, d: Option<Hash>)
    requires k < |steps|
  {
    var before, after := PhaseOf(Run(s, steps, k), c), PhaseOf(Run(s, steps, k + 1), c);
    && before.Inside? && before.call.AppendCall? && before.call.address == a && before.call.dependsOn == d
    && before.spot != Finished(true) && after == Inside(before.call, Finished(true))
  }

  /** At step `k` client `c`, at the leaf check of an append on parent `d` of `a`, is refused. */
  ghost predicate Refused(s: State, steps: seq<Step>, k: nat, c: Client, a: Address, d: Option<Hash>)
    requires k < |steps|
  {
    var before, after := PhaseOf(Run(s, steps, k), c), PhaseOf(Run(s, steps, k + 1), c);
    && before.Inside? && before.call.AppendCall? && before.call.address == a && before.call.dependsOn == d
    && before.spot == HashIsFree && after == Inside(before.call, Finished(false))
  }

  /** A success is a landed event, at that step. */
  lemma SuccessLands(s: State, steps: seq<Step>, k: nat, c: Client, a: Address, d: Option<Hash>)
    requires Start(s) && k < |steps| && Succeeds(s, steps, k, c, a, d)
    ensures var h := PhaseOf(Run(s, steps, k), c).call.hash;
            Run(s, steps, k + 1).log == Run(s, steps, k).log + [Landed(a, h, d)]
  {
    hide Run, FindPath, Leaf;
    RunStep(s, steps, k);
  }

  /**
   Of all the appends on one parent, whoever makes them, at most one returns `Ok`
   unless a snapshot of that address was removed between two that do.
   */
  lemma AtMostOneOk(
      s: State, steps: seq<Step>, i: nat, j: nat, c: Client, e: Client, a: Address, d: Option<Hash>)
    requires Start(s) && i < j < |steps|
    requires Succeeds(s, steps, i, c, a, d) && Succeeds(s, steps, j, e, a, d)
    ensures !NoneRemovedSince(Run(s, steps, j).log, |Run(s, steps, i).log|, a)
    ensures RemovedAfter(Run(s, steps, j).log, |Run(s, steps, i).log|, a, PhaseOf(Run(s, steps, i), c).call.hash)
  {
    hide Run;
    var h := PhaseOf(Run(s, steps, i), c).call.hash;
    hide Succeeds;
    SuccessLands(s, steps, i, c, a, d);
    SuccessLands(s, steps, j, e, a, d);
    LogPrefix(s, steps, i + 1, j);
    LogPrefix(s, steps, j, j + 1);
    var first, second := |Run(s, steps, i).log|, |Run(s, steps, j).log|;
    var log := Run(s, steps, j + 1).log;
    assert Run(s, steps, j).log[..first + 1][first] == Landed(a, h, d);
    assert log[..second][first] == Landed(a, h, d);
    OneChildPerLeaf(s, steps, j + 1, first, second);
    var k :| first < k < second && log[k] == Removed(a, h);
    assert Run(s, steps, j).log[k] == log[k];
  }

  /**
   A caller that read `d` as the leaf and is then refused for its parent, with
   nothing removed in between, lost to another append: one with another hash has
   landed on `d` since.
   */
  lemma RefusedLostToAnother(
      s: State, steps: seq<Step>, m: nat, n: nat, c: Client, a: Address, d: Option<Hash>)
    requires Start(s) && m <= n < |steps|
    requires LeafIs(FilesOf(Run(s, steps, m), a), d)
    requires NoneRemovedSince(Run(s, steps, n).log, |Run(s, steps, m).log|, a)
    requires Refused(s, steps, n, c, a, d)
    ensures var log, mine := Run(s, steps, n).log, PhaseOf(Run(s, steps, n), c).call.hash;
            exists k :: |Run(s, steps, m).log| <= k < |log| && log[k].Landed? && log[k].hash != mine
                        && log[k].address == a && log[k].parent == d
  {
    hide Run, LeafIs, FilesOf, Invariant, OnDisk;
    RefusedIsMoved(s, steps, n, c, a, d);
    LeafStaysOrLands(s, steps, m, n, a, d);
    RunKeepsInvariant(s, steps, n);
    var now, from := Run(s, steps, n), |Run(s, steps, m).log|;
    var mine := PhaseOf(now, c).call.hash;
    var k :| from <= k < |now.log| && now.log[k].Landed? && now.log[k].address == a && now.log[k].parent == d;
    LandedIsOnDisk(now, k);
    HashIsFreeHere(now, c);
  }

  lemma RefusedIsMoved(s: State, steps: seq<Step>, n: nat, c: Client, a: Address, d: Option<Hash>)
    requires n < |steps| && Refused(s, steps, n, c, a, d)
    ensures !LeafIs(FilesOf(Run(s, steps, n), a), d)
  {
    hide Run, Leaf, FindPath;
    RunStep(s, steps, n);
  }

  /** What landed and was not removed since is on disk. */
  lemma LandedIsOnDisk(s: State, k: nat)
    requires Invariant(s) && k < |s.log| && s.log[k].Landed?
    ensures (forall i :: k < i < |s.log| ==> s.log[i] != Removed(s.log[k].address, s.log[k].hash)) ==>
              OnDisk(FilesOf(s, s.log[k].address), s.log[k].hash)
  {
    hide WellFormed, ClientOk, FilesOf;
    if HasLink(FilesOf(s, s.log[k].address), s.log[k].hash, s.log[k].parent) {
      var f :| f in FilesOf(s, s.log[k].address)
               && FilesOf(s, s.log[k].address)[f].extrinsicHash == s.log[k].hash
               && FilesOf(s, s.log[k].address)[f].dependsOn == s.log[k].parent;
    }
  }

  lemma HashIsFreeHere(s: State, c: Client)
    requires Invariant(s) && PhaseOf(s, c).Inside? && PhaseOf(s, c).spot == HashIsFree
    ensures PhaseOf(s, c).call.AppendCall? ==> !OnDisk(FilesOf(s, PhaseOf(s, c).call.address), PhaseOf(s, c).call.hash)
  {
    hide WellFormed, LogOk, OnDisk;
    assert ClientOk(s, c);
  }
}
