/**
 A call with no other client about: its steps, one after the other, are the
 operation of `Journal`.
 */
module Undisturbed {
  import opened Wrappers
  import opened Snapshots
  import opened FindLeaf
  import opened Directory
  import opened Journal
  import opened CascadeLaws
  import opened Store
  import opened Interleaving

  /** The effects of one call, one after the other. */
  ghost function Alone(call: Call, spot: Spot, j: Journal, answers: seq<StepIo>): (r: (Spot, Journal))
    decreases |answers|
  {
    if answers == [] then (spot, j)
    else
      var e := EffectOf(call, spot, j, answers[0]);
      Alone(call, e.spot, e.journal, answers[1..])
  }

  /** The answers of the file system to the steps of an append, in order. */
  function AppendAnswers(io: AppendIo, nanos: nat): (answers: seq<StepIo>) {
    [StepIo(io.marker, false, 0), StepIo(Written, false, 0), StepIo(Written, false, 0),
     StepIo(io.snapshot, false, nanos), StepIo(Written, io.cleanup, 0)]
  }

  lemma {:induction false} FinishedStays(call: Call, ok: bool, j: Journal, answers: seq<StepIo>)
    ensures Alone(call, Finished(ok), j, answers) == (Finished(ok), j)
    decreases |answers|
  {
    if answers != [] {
      FinishedStays(call, ok, j, answers[1..]);
    }
  }

  lemma AloneNext(call: Call, spot: Spot, j: Journal, io: StepIo, rest: seq<StepIo>)
    ensures var e := EffectOf(call, spot, j, io);
            Alone(call, spot, j, [io] + rest) == Alone(call, e.spot, e.journal, rest)
  {
    assert ([io] + rest)[1..] == rest;
  }

  /** The two last steps of an append: the write, and the clean-up of one that failed. */
  lemma WriteStepsAreWrite(call: Call, j: Journal, io: AppendIo, nanos: nat)
    requires call.AppendCall?
    ensures var s := PendingSnapshot(call.hash, call.dependsOn, call.data);
            var (files, r) := WriteNew(j.files, File(nanos, call.hash), s, io);
            Alone(call, OnLeaf, j, [StepIo(io.snapshot, false, nanos), StepIo(Written, io.cleanup, 0)])
            == (Finished(r.Ok?), j.(files := files))
  {
    var first, second := StepIo(io.snapshot, false, nanos), StepIo(Written, io.cleanup, 0);
    assert [first, second] == [first] + [second] && [second] == [second] + [];
    AloneNext(call, OnLeaf, j, first, [second]);
    var e := EffectOf(call, OnLeaf, j, first);
    AloneNext(call, e.spot, e.journal, second, []);
    var end := EffectOf(call, e.spot, e.journal, second);
    NothingMore(call, end.spot, end.journal);
    var file := File(nanos, call.hash);
    assert file !in j.files ==> j.files - {file} == j.files;
    var s := PendingSnapshot(call.hash, call.dependsOn, call.data);
    assert j.files[file := s] - {file} == j.files - {file};
  }

  /** The steps of an append, undisturbed, are the compare-and-swap. */
  lemma AppendStepsAreAppend(call: Call, j: Journal, nanos: nat, io: AppendIo)
    requires call.AppendCall?
    ensures var (after, r) := Append(j, call.address, call.hash, call.dependsOn, call.data, nanos, io);
            Alone(call, Entered, j, AppendAnswers(io, nanos)) == (Finished(r.Ok?), after)
  {
    hide Alone, FindPath, Leaf, Bag;
    var answers := AppendAnswers(io, nanos);
    assert answers == [answers[0]] + ([answers[1]] + ([answers[2]] + [answers[3], answers[4]]));
    AloneNext(call, Entered, j, answers[0], [answers[1]] + ([answers[2]] + [answers[3], answers[4]]));
    var marked := EffectOf(call, Entered, j, answers[0]);
    if marked.spot == Marked {
      AloneNext(call, Marked, marked.journal, answers[1], [answers[2]] + [answers[3], answers[4]]);
      var free := EffectOf(call, Marked, marked.journal, answers[1]);
      if free.spot == HashIsFree {
        AloneNext(call, HashIsFree, free.journal, answers[2], [answers[3], answers[4]]);
        if EffectOf(call, HashIsFree, free.journal, answers[2]).spot == OnLeaf {
          WriteStepsAreWrite(call, free.journal, io, nanos);
        } else {
          FinishedStays(call, false, free.journal, [answers[3], answers[4]]);
        }
      } else {
        FinishedStays(call, false, free.journal, [answers[2]] + [answers[3], answers[4]]);
      }
    } else {
      FinishedStays(call, false, marked.journal, [answers[1]] + ([answers[2]] + [answers[3], answers[4]]));
    }
  }

  /** The steps of a confirm, undisturbed, are the confirm. */
  lemma ConfirmStepsAreConfirm(call: Call, j: Journal, fate: WriteFate)
    requires call.ConfirmCall?
    ensures var (after, r) := Confirm(j, call.address, call.hash, call.height, call.blockHash, fate);
            Alone(call, Entered, j, [StepIo(Written, false, 0), StepIo(fate, false, 0)]) == (Finished(r.Ok?), after)
  {
    hide Alone, FindPath;
    var first, second := StepIo(Written, false, 0), StepIo(fate, false, 0);
    assert [first, second] == [first] + [second] && [second] == [second] + [];
    AloneNext(call, Entered, j, first, [second]);
    var e := EffectOf(call, Entered, j, first);
    AloneNext(call, e.spot, e.journal, second, []);
    var end := EffectOf(call, e.spot, e.journal, second);
    NothingMore(call, end.spot, end.journal);
  }

  lemma NothingMore(call: Call, spot: Spot, j: Journal)
    ensures Alone(call, spot, j, []) == (spot, j)
  {
  }

  /** The steps of a cascade from `left` hashes to go, with the first failed removal after `io.removals` in all. */
  ghost function DropAlone(call: Call, base: Files, left: nat, done: nat, j: Journal, io: DropIo): (r: (Spot, Journal))
    requires call.DropCall?
    decreases left
  {
    var answer := StepIo(if io.synced then Written else Unsynced, done < io.removals, 0);
    var e := DropEffect(call, Dropping(base, left), j, answer);
    if left > 0 && e.spot == Dropping(base, left - 1) then DropAlone(call, base, left - 1, done + 1, e.journal, io)
    else (e.spot, e.journal)
  }

  /** The steps of a cascade, undisturbed, leave the journal the rollback leaves, wherever it stops. */
  lemma {:induction false} DropStepsRemove(call: Call, base: Files, left: nat, j: Journal, io: DropIo)
    requires call.DropCall? && WellFormed(base) && OnDisk(base, call.hash)
    requires left <= |Doomed(base, call.hash)| && |Doomed(base, call.hash)| - left <= io.removals
    requires j.files == AfterRemovals(base, call.hash, |Doomed(base, call.hash)| - left)
    ensures var total := |Doomed(base, call.hash)|;
            DropAlone(call, base, left, total - left, j, io)
            == (Finished(io.removals >= total && io.synced),
                j.(files := AfterRemovals(base, call.hash, if io.removals < total then io.removals else total)))
    decreases left
  {
    hide WellFormed, Doomed, AfterRemovals, OnDisk, DropEffect;
    var total := |Doomed(base, call.hash)|;
    var answer := StepIo(if io.synced then Written else Unsynced, total - left < io.removals, 0);
    if left > 0 {
      DropStep(call, base, left, j, answer);
      if total - left < io.removals {
        DropStepsRemove(
          call, base, left - 1, j.(files := AfterRemovals(base, call.hash, total - (left - 1))), io);
      }
    } else {
      DropEnds(call, base, j, answer);
    }
  }

  lemma DropEnds(call: Call, base: Files, j: Journal, io: StepIo)
    requires call.DropCall?
    ensures DropEffect(call, Dropping(base, 0), j, io) == Effect(Finished(io.fate == Written), j, [])
  {
  }

  lemma DropStepsAreRollback(call: Call, j: Journal, io: DropIo)
    requires call.DropCall? && WellFormed(j.files) && FindPath(j.files, call.hash).Some?
    ensures DropEffect(call, Entered, j, StepIo(Written, true, 0))
         == Effect(Dropping(j.files, |Doomed(j.files, call.hash)|), j, [])
    ensures var (after, r) := Rollback(j, call.address, call.hash, io);
            DropAlone(call, j.files, |Doomed(j.files, call.hash)|, 0, j, io) == (Finished(r.Ok?), after)
  {
    hide WellFormed, FindPath, Doomed, AfterRemovals, OnDisk, DropAlone;
    DropStarts(j.files, call.hash);
    var total := |Doomed(j.files, call.hash)|;
    assert total - total == 0;
    DropStepsRemove(call, j.files, total, j, io);
    if io.removals >= total {
      AllRemoved(j.files, call.hash, io.removals);
    }
  }

  /** A drop of a hash that is not on disk ends at once, with the answer of the rollback. */
  lemma MissingDropIsRollback(call: Call, j: Journal, io: DropIo, answer: StepIo)
    requires call.DropCall? && !OnDisk(j.files, call.hash)
    ensures Rollback(j, call.address, call.hash, io) == (j, Err(SnapshotNotFound(call.address, call.hash)))
    ensures DropEffect(call, Entered, j, answer) == Effect(Finished(false), j, [])
  {
    hide FindPath;
    OnDiskHashes(j.files);
  }

  lemma AllRemoved(files: Files, start: Hash, done: nat)
    requires done >= |Doomed(files, start)|
    ensures AfterRemovals(files, start, done) == AfterRemovals(files, start, |Doomed(files, start)|)
  {
    hide Doomed, Without;
  }
}
