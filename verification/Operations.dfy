/** The operations of a run, performed on the store in place. */
module Operations {
  import opened Wrappers
  import opened Snapshots
  import opened Journal
  import opened Store
  import opened Import
  import opened History

  ghost predicate SameJournals(a: Journals, b: Journals) {
    forall address :: JournalAt(a, address) == JournalAt(b, address)
  }

  /** One operation; the store holds afterwards what the step of a run says. */
  method Perform(provider: FsPrivateStateProvider, op: Operation)
    requires op.ImportOp? ==> |op.clock| == |op.entries| == |op.io|
    modifies provider
    ensures SameJournals(provider.journals, Step(old(provider.journals), op))
  {
    hide Append, Confirm, Rollback, Acceptable, Commit, Targets, RefusedWith, Counts;
    match op {
      case AppendOp(a, hash, dependsOn, data, nanos, io) =>
        var r := provider.AppendPending(a, hash, dependsOn, data, nanos, io);
      case ConfirmOp(a, hash, height, blockHash, fate) =>
        var r := provider.ConfirmSnapshotOf(a, hash, height, blockHash, fate);
      case RollbackOp(a, hash, io) =>
        var r := provider.RollbackFrom(a, hash, io);
      case ForgetOp(a) => provider.Forget(a);
      case ForgetAllOp => provider.ForgetAll();
      case ImportOp(entries, conflict, clock, io) =>
        var r := ApplyImportEntries(provider, entries, conflict, clock, io);
    }
  }

  // ---------------------------------------------------------------------------
  // A directory that is not there and an empty one without a marker are the same.
  // ---------------------------------------------------------------------------

  lemma SameUpdate(js: Journals, other: Journals, a: Address, j: Journal)
    requires SameJournals(js, other)
    ensures JournalAt(js, a) == JournalAt(other, a)
    ensures SameJournals(js[a := j], other[a := j])
  {
    var left, right := js[a := j], other[a := j];
    forall b ensures JournalAt(left, b) == JournalAt(right, b) {
      assert JournalAt(js, b) == JournalAt(other, b);
    }
  }

  lemma SameEntries(js: Journals, other: Journals, e: Entry, conflict: ConflictStrategy)
    requires SameJournals(js, other)
    ensures Existing(js, e) == Existing(other, e) && (Refused(js, e, conflict) <==> Refused(other, e, conflict))
    ensures forall nanos :: TargetOf(js, e, conflict, nanos) == TargetOf(other, e, conflict, nanos)
  {
    hide PathByHash;
    assert JournalAt(js, e.address) == JournalAt(other, e.address);
  }

  lemma {:induction false} SameMerge(
      js: Journals, other: Journals, entries: seq<Entry>, conflict: ConflictStrategy, a: Address, n: nat)
    requires SameJournals(js, other) && n <= |entries|
    ensures Merged(js, entries, conflict, a, n) == Merged(other, entries, conflict, a, n)
  {
    hide Existing, ViewOf;
    if n == 0 {
      assert JournalAt(js, a) == JournalAt(other, a);
    } else {
      SameMerge(js, other, entries, conflict, a, n - 1);
      SameEntries(js, other, entries[n - 1], conflict);
    }
  }

  lemma SameAcceptance(js: Journals, other: Journals, entries: seq<Entry>, conflict: ConflictStrategy)
    requires SameJournals(js, other)
    ensures Acceptable(js, entries, conflict) <==> Acceptable(other, entries, conflict)
  {
    hide Refused, Merged, Existing, AllValid, NoRepeats;
    forall e | e in entries
      ensures MergesWell(js, entries, conflict, e.address) == MergesWell(other, entries, conflict, e.address)
    {
      SameMerge(js, other, entries, conflict, e.address, |entries|);
    }
    forall i | 0 <= i < |entries| ensures Refused(js, entries[i], conflict) == Refused(other, entries[i], conflict) {
      SameEntries(js, other, entries[i], conflict);
    }
  }

  lemma SameTargets(
      js: Journals, other: Journals, entries: seq<Entry>, conflict: ConflictStrategy, clock: seq<nat>)
    requires SameJournals(js, other) && |clock| == |entries|
    ensures Targets(js, entries, conflict, clock) == Targets(other, entries, conflict, clock)
  {
    hide TargetOf, Existing;
    forall i | 0 <= i < |entries|
      ensures TargetOf(js, entries[i], conflict, clock[i]) == TargetOf(other, entries[i], conflict, clock[i])
    {
      SameEntries(js, other, entries[i], conflict);
    }
    assert Targets(js, entries, conflict, clock) == Targets(other, entries, conflict, clock);
  }

  lemma SameCommitOne(js: Journals, other: Journals, e: Entry, target: Option<Path>, io: EntryIo)
    requires SameJournals(js, other) && (target.Some? ==> target.value.At?)
    ensures SameJournals(CommitOne(js, e, target, io).0, CommitOne(other, e, target, io).0)
    ensures CommitOne(js, e, target, io).1 == CommitOne(other, e, target, io).1
  {
    hide EnsureMarker;
    SameUpdate(js, other, e.address, JournalAt(CommitOne(js, e, target, io).0, e.address));
  }

  lemma {:induction false} SameCommit(
      js: Journals, other: Journals, entries: seq<Entry>, targets: seq<Option<Path>>, io: seq<EntryIo>, n: nat)
    requires SameJournals(js, other) && n <= |entries| == |targets| == |io| && Located(targets)
    ensures SameJournals(Commit(js, entries, targets, io, n).0, Commit(other, entries, targets, io, n).0)
    ensures Commit(js, entries, targets, io, n).1 == Commit(other, entries, targets, io, n).1
  {
    hide CommitOne;
    if n > 0 {
      SameCommit(js, other, entries, targets, io, n - 1);
      var e := entries[n - 1];
      var before, twin := Commit(js, entries, targets, io, n - 1).0, Commit(other, entries, targets, io, n - 1).0;
      SameCommitOne(before, twin, e, targets[n - 1], io[n - 1]);
    }
  }

  /** Every operation does the same to both. */
  lemma StepIsExtensional(js: Journals, other: Journals, op: Operation)
    requires SameJournals(js, other)
    ensures SameJournals(Step(js, op), Step(other, op))
  {
    hide Append, Confirm, Rollback, Acceptable, Commit, Targets;
    if op.AppendOp? || op.ConfirmOp? || op.RollbackOp? {
      SameUpdate(js, other, op.address, JournalAt(Step(js, op), op.address));
    } else if op.ForgetOp? {
      forall b ensures JournalAt(js - {op.address}, b) == JournalAt(other - {op.address}, b) {
        assert JournalAt(js, b) == JournalAt(other, b);
      }
    } else if op.ImportOp? && |op.clock| == |op.entries| == |op.io| {
      SameAcceptance(js, other, op.entries, op.conflict);
      SameTargets(js, other, op.entries, op.conflict, op.clock);
      SameCommit(js, other, op.entries, Targets(js, op.entries, op.conflict, op.clock), op.io, |op.entries|);
    }
  }

  /** A run, performed operation by operation, ends in the state the laws of runs are about. */
  method PerformAll(provider: FsPrivateStateProvider, ops: seq<Operation>)
    requires forall k :: 0 <= k < |ops| && ops[k].ImportOp? ==> |ops[k].clock| == |ops[k].entries| == |ops[k].io|
    modifies provider
    ensures SameJournals(provider.journals, StateAt(old(provider.journals), ops, |ops|))
  {
    hide Step;
    ghost var start := provider.journals;
    for i := 0 to |ops|
      invariant SameJournals(provider.journals, StateAt(start, ops, i))
    {
      ghost var before := provider.journals;
      Perform(provider, ops[i]);
      StepIsExtensional(before, StateAt(start, ops, i), ops[i]);
    }
  }
}
