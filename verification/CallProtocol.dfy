/**
 A contract call and its private state: read the head, run the witnesses, append
 a Pending snapshot, submit, wait for the verdict, settle.
 */
module CallProtocol {
  import opened Wrappers
  import opened Snapshots
  import opened FindLeaf
  import opened Directory
  import opened Journal
  import opened JournalLaws
  import opened CascadeLaws
  import opened Store

  datatype PrivateStatePersist = Unchanged | Persist

  /** What a call changes: the buffer its witnesses started from, the one they left, and the head it was read from. */
  datatype PrivateStateChange = PrivateStateChange(baseline: Bytes, after: Bytes, dependsOn: Option<Hash>)

  datatype SubmitAnswer = Accepted | SubmissionFailed | OtherFailure

  /** How the wait for finality ends. */
  datatype Waited = Applied(blockHash: Hash) | NotApplied | NoVerdict

  datatype CallError =
    | NoHead(head: StoreError)
    | WitnessFailed
    | DecodeFailed
    | PendingSnapshotFailed(hash: Hash, source: StoreError)
    | SubmissionWait(pendingHash: Hash, snapshotWritten: bool)
    | ProviderFailed
    | TransactionFailed
    | PrivateState(settle: StoreError)

  /** How the file system answers the settle of a call. */
  datatype SettleIo = SettleIo(confirm: WriteFate, drop: DropIo)

  /** One call: its extrinsic hash, its witnesses as a function of the baseline, and how the world answers. */
  datatype Call = Call(
    hash: Hash, run: Bytes -> Option<Bytes>, decodes: bool, submit: SubmitAnswer, waited: Waited,
    nanos: nat, appendIo: AppendIo, settleIo: SettleIo)

  function PersistOf(change: PrivateStateChange): (persist: PrivateStatePersist) {
    if change.after == change.baseline then Unchanged else Persist
  }

  function SubmitResult(hash: Hash, answer: SubmitAnswer, written: bool): (r: Result<bool, CallError>) {
    match answer
    case Accepted => Ok(written)
    case SubmissionFailed => Err(SubmissionWait(hash, written))
    case OtherFailure => Err(ProviderFailed)
  }

  // ---------------------------------------------------------------------------
  // The steps on one journal
  // ---------------------------------------------------------------------------

  /** The journal after the record, what the caller gets, and whether the inputs were handed back. */
  datatype Recorded = Recorded(journal: Journal, r: Result<bool, CallError>, released: bool)

  ghost function Record(
      j: Journal, address: Address, hash: Hash, change: PrivateStateChange, submit: SubmitAnswer, nanos: nat,
      io: AppendIo)
    : (rec: Recorded)
  {
    if PersistOf(change).Unchanged? then Recorded(j, SubmitResult(hash, submit, false), false)
    else
      var (after, appended) := Append(j, address, hash, change.dependsOn, change.after, nanos, io);
      if appended.Err? then Recorded(after, Err(PendingSnapshotFailed(hash, appended.error)), true)
      else Recorded(after, SubmitResult(hash, submit, true), false)
  }

  ghost function SettleSnapshot(j: Journal, address: Address, hash: Hash, waited: Waited, io: SettleIo)
    : (r: (Journal, Result<(), StoreError>))
  {
    match waited
    case Applied(block) => Confirm(j, address, hash, None, block, io.confirm)
    case NotApplied => Rollback(j, address, hash, io.drop)
    case NoVerdict => (j, Ok(()))
  }

  ghost function Settle(j: Journal, address: Address, hash: Hash, written: bool, waited: Waited, io: SettleIo)
    : (r: (Journal, Result<Hash, CallError>))
  {
    var (after, settled) := if written then SettleSnapshot(j, address, hash, waited, io) else (j, Ok(()));
    (after,
     if settled.Err? then Err(PrivateState(settled.error))
     else match waited
       case Applied(block) => Ok(block)
       case NotApplied => Err(TransactionFailed)
       case NoVerdict => Err(SubmissionWait(hash, written)))
  }

  function DataOf(head: Option<Snapshot>): (data: Bytes) {
    if head.Some? then head.value.data else []
  }

  /** Head, witnesses, decode: what the call would record, or why it stops before anything is written. */
  function Prepare(head: Result<Option<Snapshot>, Malformed>, call: Call): (r: Result<PrivateStateChange, CallError>) {
    if head.Err? then Err(NoHead(InvalidFormat(MalformedJournal(head.error))))
    else
      var baseline := DataOf(head.value);
      var post := call.run(baseline);
      if post.None? then Err(WitnessFailed)
      else if !call.decodes then Err(DecodeFailed)
      else Ok(PrivateStateChange(baseline, post.value, HashOf(head.value)))
  }

  /** The journal while the call is in flight, and whether it is. */
  ghost function Flight(j: Journal, address: Address, call: Call): (r: (Journal, Result<bool, CallError>)) {
    var prepared := Prepare(Head(j.files), call);
    if prepared.Err? then (j, Err(prepared.error))
    else
      var rec := Record(j, address, call.hash, prepared.value, call.submit, call.nanos, call.appendIo);
      (rec.journal, rec.r)
  }

  /** The journal after the whole call, and what the caller gets. */
  ghost function CallStep(j: Journal, address: Address, call: Call): (r: (Journal, Result<Hash, CallError>)) {
    var (mid, sent) := Flight(j, address, call);
    if sent.Err? then (mid, Err(sent.error))
    else Settle(mid, address, call.hash, sent.value, call.waited, call.settleIo)
  }

  // ---------------------------------------------------------------------------
  // The steps as the program runs them
  // ---------------------------------------------------------------------------

  /** `record_and_submit`; the store is `null` when the provider has none. */
  method RecordAndSubmit(
      store: FsPrivateStateProvider?, address: Address, hash: Hash, change: PrivateStateChange, submit: SubmitAnswer,
      nanos: nat, io: AppendIo)
    returns (r: Result<bool, CallError>, released: bool)
    modifies store
    ensures store == null ==> r == SubmitResult(hash, submit, false) && !released
    ensures store != null ==>
              var rec := Record(JournalAt(old(store.journals), address), address, hash, change, submit, nanos, io);
              && JournalAt(store.journals, address) == rec.journal && r == rec.r && released == rec.released
              && Unrelated(old(store.journals), store.journals, address)
    ensures released <==> r.Err? && r.error.PendingSnapshotFailed?
    ensures var written := store != null && PersistOf(change).Persist? && !released;
            && (r.Ok? ==> submit == Accepted && r.value == written)
            && (r.Err? && r.error.SubmissionWait? ==> submit == SubmissionFailed && r.error.snapshotWritten == written)
    ensures store != null && PersistOf(change).Persist? && !released ==>
              exists f :: f in JournalAt(store.journals, address).files
                          && JournalAt(store.journals, address).files[f]
                             == PendingSnapshot(hash, change.dependsOn, change.after)
  {
    hide Append;
    var written := false;
    ghost var before := if store != null then store.journals else map[];
    if store != null {
      match PersistOf(change) {
        case Unchanged =>
        case Persist =>
          var appended := store.AppendPending(address, hash, change.dependsOn, change.after, nanos, io);
          if appended.Err? {
            return Err(PendingSnapshotFailed(hash, appended.error)), true;
          }
          AppendedIsThere(JournalAt(before, address), address, hash, change, nanos, io);
          written := true;
      }
    }
    return SubmitResult(hash, submit, written), false;
  }

  /** A successful append leaves its snapshot in a file. */
  lemma AppendedIsThere(
      j: Journal, address: Address, hash: Hash, change: PrivateStateChange, nanos: nat, io: AppendIo)
    requires Append(j, address, hash, change.dependsOn, change.after, nanos, io).1.Ok?
    ensures var files := Append(j, address, hash, change.dependsOn, change.after, nanos, io).0.files;
            File(nanos, hash) in files
            && files[File(nanos, hash)] == PendingSnapshot(hash, change.dependsOn, change.after)
  {
    hide FindPath, Leaf;
  }

  method SettleSnapshotOf(store: FsPrivateStateProvider, address: Address, hash: Hash, waited: Waited, io: SettleIo)
    returns (r: Result<(), StoreError>)
    modifies store
    ensures (JournalAt(store.journals, address), r)
         == SettleSnapshot(JournalAt(old(store.journals), address), address, hash, waited, io)
    ensures Unrelated(old(store.journals), store.journals, address)
  {
    hide Confirm, Rollback;
    match waited {
      case Applied(block) => r := store.ConfirmSnapshotOf(address, hash, None, block, io.confirm);
      case NotApplied => r := store.MarkFailed(address, hash, io.drop);
      case NoVerdict => r := Ok(());
    }
  }

  /** `settle_call`; the store is `null` when the call recorded no snapshot. */
  method SettleCall(store: FsPrivateStateProvider?, address: Address, hash: Hash, waited: Waited, io: SettleIo)
    returns (r: Result<Hash, CallError>)
    modifies store
    ensures store == null ==> r == Settle(EMPTY_JOURNAL, address, hash, false, waited, io).1
    ensures store != null ==>
              && (JournalAt(store.journals, address), r)
                 == Settle(JournalAt(old(store.journals), address), address, hash, true, waited, io)
              && Unrelated(old(store.journals), store.journals, address)
    ensures r.Ok? ==> waited == Applied(r.value)
    ensures waited.NoVerdict? ==> r == Err(SubmissionWait(hash, store != null))
    ensures waited.NoVerdict? && store != null ==>
              JournalAt(store.journals, address) == JournalAt(old(store.journals), address)
  {
    if store != null {
      var settled := SettleSnapshotOf(store, address, hash, waited, io);
      if settled.Err? {
        return Err(PrivateState(settled.error));
      }
    }
    match waited {
      case Applied(block) => r := Ok(block);
      case NotApplied => r := Err(TransactionFailed);
      case NoVerdict => r := Err(SubmissionWait(hash, store != null));
    }
  }

  /** One call against a store, from the read of the head to the settle. */
  method RunCall(store: FsPrivateStateProvider, address: Address, call: Call) returns (r: Result<Hash, CallError>)
    modifies store
    ensures (JournalAt(store.journals, address), r) == CallStep(JournalAt(old(store.journals), address), address, call)
    ensures Unrelated(old(store.journals), store.journals, address)
  {
    hide Leaf, Bag, Record, Settle;
    var head := store.HeadSnapshot(address);
    if head.Err? {
      return Err(NoHead(head.error));
    }
    var baseline := DataOf(head.value);
    var post := call.run(baseline);
    if post.None? {
      return Err(WitnessFailed);
    }
    if !call.decodes {
      return Err(DecodeFailed);
    }
    var change := PrivateStateChange(baseline, post.value, HashOf(head.value));
    var sent, released := RecordAndSubmit(store, address, call.hash, change, call.submit, call.nanos, call.appendIo);
    if sent.Err? {
      return Err(sent.error);
    }
    SettleUnwritten(JournalAt(store.journals, address), address, call.hash, call.waited, call.settleIo);
    r := SettleCall(if sent.value then store else null, address, call.hash, call.waited, call.settleIo);
  }

  lemma SettleUnwritten(j: Journal, address: Address, hash: Hash, waited: Waited, io: SettleIo)
    ensures Settle(j, address, hash, false, waited, io)
         == (j, Settle(EMPTY_JOURNAL, address, hash, false, waited, io).1)
  {
  }

  // ---------------------------------------------------------------------------
  // One call
  // ---------------------------------------------------------------------------

  ghost predicate AllConfirmed(chain: seq<Snapshot>) {
    forall i :: 0 <= i < |chain| ==> chain[i].status == Confirmed
  }

  function HeadData(chain: seq<Snapshot>): (data: Bytes) {
    if chain == [] then [] else chain[|chain| - 1].data
  }

  /** The call was sent and the chain applied it. */
  ghost predicate WasApplied(j: Journal, address: Address, call: Call) {
    Flight(j, address, call).1.Ok? && call.waited.Applied?
  }

  /** The call leaves a snapshot on disk before it is submitted. */
  ghost predicate Records(j: Journal, address: Address, call: Call) {
    Flight(j, address, call).0.files != j.files
  }

  /**
   A call that records a snapshot is submitted and gets a verdict, the settle's
   writes succeed, and its append is not one that failed and left its file. A call
   that records nothing may end in any way.
   */
  ghost predicate Orderly(j: Journal, address: Address, call: Call) {
    Records(j, address, call) ==>
      && call.submit == Accepted
      && !call.waited.NoVerdict?
      && call.settleIo.confirm == Written
      && call.settleIo.drop.removals > 0 && call.settleIo.drop.synced
      && (call.appendIo.snapshot == Unsynced ==> call.appendIo.cleanup)
  }

  /** Every call of the run is orderly where it starts. */
  ghost predicate OrderlyRun(j: Journal, address: Address, calls: seq<Call>) {
    forall k :: 0 <= k < |calls| ==> Orderly(After(j, address, calls, k), address, calls[k])
  }

  function ConfirmedSnapshot(hash: Hash, block: Hash, parent: Option<Hash>, data: Bytes): (s: Snapshot) {
    Snapshot(Confirmed, hash, Some(block), None, parent, data)
  }

  /** The chain a call leaves, from the chain before it and whether the call was applied. */
  ghost function ChainAfter(chain: seq<Snapshot>, call: Call, applied: bool): (after: seq<Snapshot>) {
    var post := call.run(HeadData(chain));
    if applied && call.waited.Applied? && post.Some? && post.value != HeadData(chain)
    then chain + [ConfirmedSnapshot(call.hash, call.waited.blockHash, LastHash(chain), post.value)]
    else chain
  }

  lemma HeadOfHeld(j: Journal, chain: seq<Snapshot>)
    requires Holds(j.files, chain)
    ensures Head(j.files).Ok? && HashOf(Head(j.files).value) == LastHash(chain)
    ensures DataOf(Head(j.files).value) == HeadData(chain)
  {
    hide Leaf, Holds;
    HeadOfChain(j.files, chain);
  }

  /** An append fails and still leaves its snapshot exactly when the directory sync and then the clean-up fail. */
  lemma FailedAppendLeavesFile(
      j: Journal, chain: seq<Snapshot>, address: Address, hash: Hash, dependsOn: Option<Hash>, data: Bytes, nanos: nat,
      io: AppendIo)
    requires Holds(j.files, chain) && NamedByHash(j.files)
    ensures var (after, r) := Append(j, address, hash, dependsOn, data, nanos, io);
            r.Err? && after.files != j.files <==>
              && (j.marker == Some(address) || (j.marker == None && io.marker == Written))
              && !Taken(chain, hash) && dependsOn == LastHash(chain)
              && io.snapshot == Unsynced && !io.cleanup
  {
    hide Append, Holds;
    var head := AppendOnChain(j, chain, address, hash, dependsOn, data, nanos, io);
    if !Taken(chain, hash) {
      UntakenIsNew(j.files, chain, nanos, hash);
      var file := File(nanos, hash);
      assert j.files - {file} == j.files;
      assert file in j.files[file := PendingSnapshot(hash, dependsOn, data)];
    }
  }

  /** In flight the journal is the chain before the call, or that chain and one Pending leaf. */
  lemma FlightIsChain(j: Journal, chain: seq<Snapshot>, address: Address, call: Call)
    requires Holds(j.files, chain) && NamedByHash(j.files) && Orderly(j, address, call)
    ensures var (mid, sent) := Flight(j, address, call);
            var post := call.run(HeadData(chain));
            var pending := PendingSnapshot(call.hash, LastHash(chain), if post.Some? then post.value else []);
            && NamedByHash(mid.files)
            && (sent.Err? || !sent.value ==> mid.files == j.files)
            && (sent.Ok? ==> post.Some? && (sent.value <==> post.value != HeadData(chain)))
            && (sent.Ok? && sent.value ==> Landed(j.files, mid.files, chain, File(call.nanos, call.hash), pending))
  {
    hide Holds, Append, Leaf, Landed;
    HeadOfHeld(j, chain);
    var prepared := Prepare(Head(j.files), call);
    if prepared.Ok? {
      var change := prepared.value;
      AppendIsCas(j, chain, address, call.hash, change.dependsOn, change.after, call.nanos, call.appendIo);
      FailedAppendLeavesFile(
        j, chain, address, call.hash, change.dependsOn, change.after, call.nanos, call.appendIo);
      var (after, r) := Append(j, address, call.hash, change.dependsOn, change.after, call.nanos, call.appendIo);
      if PersistOf(change).Persist? {
        assert Flight(j, address, call).0 == after;
      }
    }
  }

  /** An applied call confirms its leaf. */
  lemma ConfirmsLeaf(
      mid: Journal, chain: seq<Snapshot>, address: Address, pending: Snapshot, block: Hash)
    requires NamedByHash(mid.files) && Holds(mid.files, chain + [pending])
    requires pending.status == Pending
    ensures var (after, r) := Confirm(mid, address, pending.extrinsicHash, None, block, Written);
            && r.Ok? && NamedByHash(after.files)
            && Holds(after.files,
                     chain + [pending.(status := Confirmed, blockHeight := None, blockHash := Some(block))])
  {
    hide Holds, Confirm;
    var longer := chain + [pending];
    var i, after := ConfirmKeepsChain(mid, longer, address, pending.extrinsicHash, None, block, Written);
    assert longer[|chain|] in longer;
    HoldsIsChain(mid.files, longer);
    SameHashSamePosition(longer, i, |chain|);
    assert after == longer[|chain| := after[|chain|]];
    assert longer[|chain| := after[|chain|]] == chain + [after[|chain|]];
  }

  /** A call the chain did not apply leaves the directory exactly as it found it. */
  lemma DropRestores(
      before: Files, mid: Journal, chain: seq<Snapshot>, address: Address, file: File, pending: Snapshot, io: DropIo)
    requires Holds(before, chain) && Landed(before, mid.files, chain, file, pending)
    requires io.removals > 0 && io.synced
    ensures Rollback(mid, address, pending.extrinsicHash, io) == (mid.(files := before), Ok(()))
  {
    hide Holds, AfterRemovals, FindPath, Doomed;
    var longer := chain + [pending];
    var start := pending.extrinsicHash;
    HoldsMembers(mid.files, longer);
    OnDiskHashes(mid.files);
    assert mid.files[file].extrinsicHash == start;
    assert longer[|chain|] == pending;
    DoomedLength(mid.files, longer, |chain|);
    RemovedFiles(mid.files, start, io.removals);
    var doomed := Doomed(mid.files, start);
    assert doomed[0..] == doomed == [start];
    forall f | f in before ensures before[f].extrinsicHash != start {
      assert mid.files[f] == before[f];
    }
    assert AfterRemovals(mid.files, start, io.removals) == before;
  }

  /**
   One orderly call on a journal of Confirmed snapshots: an applied call that
   changed the state adds its Confirmed snapshot, any other call leaves the
   snapshots as they were.
   */
  lemma CallAgrees(j: Journal, chain: seq<Snapshot>, address: Address, call: Call)
    requires Holds(j.files, chain) && NamedByHash(j.files) && AllConfirmed(chain) && Orderly(j, address, call)
    ensures var (after, r) := CallStep(j, address, call);
            var applied := WasApplied(j, address, call);
            && NamedByHash(after.files)
            && Holds(after.files, ChainAfter(chain, call, applied))
            && (r.Ok? <==> applied)
            && (!applied ==> after.files == j.files)
  {
    hide Holds, NamedByHash, Confirm, Rollback, Flight;
    FlightIsChain(j, chain, address, call);
    var (mid, sent) := Flight(j, address, call);
    if sent.Ok? && sent.value {
      var post := call.run(HeadData(chain));
      var pending := PendingSnapshot(call.hash, LastHash(chain), post.value);
      if call.waited.Applied? {
        ConfirmsLeaf(mid, chain, address, pending, call.waited.blockHash);
      } else {
        DropRestores(j.files, mid, chain, address, File(call.nanos, call.hash), pending, call.settleIo.drop);
      }
    }
  }

  // ---------------------------------------------------------------------------
  // Runs of calls
  // ---------------------------------------------------------------------------

  /** The journal after `n` calls, each settled before the next starts. */
  ghost function After(j: Journal, address: Address, calls: seq<Call>, n: nat): (after: Journal)
    requires n <= |calls|
  {
    if n == 0 then j else CallStep(After(j, address, calls, n - 1), address, calls[n - 1]).0
  }

  /** The private state as the applied calls make it, each run on what the one before it left. */
  ghost function AppliedState(j: Journal, address: Address, calls: seq<Call>, start: Bytes, n: nat): (state: Bytes)
    requires n <= |calls|
  {
    if n == 0 then start
    else
      var before := AppliedState(j, address, calls, start, n - 1);
      var post := calls[n - 1].run(before);
      if WasApplied(After(j, address, calls, n - 1), address, calls[n - 1]) && post.Some? then post.value else before
  }

  /** The confirmed chain after `n` calls: one snapshot for each applied call that changed the state, in order. */
  ghost function AppliedChain(j: Journal, address: Address, calls: seq<Call>, chain: seq<Snapshot>, n: nat)
    : (after: seq<Snapshot>)
    requires n <= |calls|
  {
    if n == 0 then chain
    else
      ChainAfter(AppliedChain(j, address, calls, chain, n - 1), calls[n - 1],
                 WasApplied(After(j, address, calls, n - 1), address, calls[n - 1]))
  }

  /**
   Between calls the journal is the chain of the applied calls, all Confirmed, and
   its head data is the post-state of the last applied call, including calls that
   left the state unchanged and recorded nothing.
   */
  lemma {:induction false} JournalAgreesWithCalls(
      j: Journal, address: Address, calls: seq<Call>, chain: seq<Snapshot>, n: nat)
    requires n <= |calls| && Holds(j.files, chain) && NamedByHash(j.files) && AllConfirmed(chain)
    requires OrderlyRun(j, address, calls)
    ensures var now, held := After(j, address, calls, n), AppliedChain(j, address, calls, chain, n);
            && NamedByHash(now.files)
            && Holds(now.files, held) && AllConfirmed(held)
            && HeadData(held) == AppliedState(j, address, calls, HeadData(chain), n)
  {
    hide Holds, NamedByHash, CallStep, WasApplied, Orderly;
    if n > 0 {
      JournalAgreesWithCalls(j, address, calls, chain, n - 1);
      var now, held := After(j, address, calls, n - 1), AppliedChain(j, address, calls, chain, n - 1);
      CallAgrees(now, held, address, calls[n - 1]);
      StateFollows(now, held, address, calls[n - 1]);
    }
  }

  lemma StateFollows(j: Journal, chain: seq<Snapshot>, address: Address, call: Call)
    requires AllConfirmed(chain)
    ensures var applied := WasApplied(j, address, call);
            var post := call.run(HeadData(chain));
            && AllConfirmed(ChainAfter(chain, call, applied))
            && HeadData(ChainAfter(chain, call, applied))
               == if applied && post.Some? then post.value else HeadData(chain)
  {
    hide Flight;
  }

  /** During call `n` the journal is the chain of the applied calls, or that and one Pending leaf. */
  lemma AtMostOnePending(j: Journal, address: Address, calls: seq<Call>, chain: seq<Snapshot>, n: nat)
    requires n < |calls| && Holds(j.files, chain) && NamedByHash(j.files) && AllConfirmed(chain)
    requires OrderlyRun(j, address, calls)
    ensures var mid := Flight(After(j, address, calls, n), address, calls[n]).0;
            var held := AppliedChain(j, address, calls, chain, n);
            && AllConfirmed(held)
            && (Holds(mid.files, held) ||
                exists pending: Snapshot :: pending.status == Pending && Holds(mid.files, held + [pending]))
  {
    hide Holds, NamedByHash, Flight, Orderly;
    JournalAgreesWithCalls(j, address, calls, chain, n);
    var now, held := After(j, address, calls, n), AppliedChain(j, address, calls, chain, n);
    FlightIsChain(now, held, address, calls[n]);
    var (mid, sent) := Flight(now, address, calls[n]);
    if sent.Ok? && sent.value {
      var post := calls[n].run(HeadData(held));
      var pending := PendingSnapshot(calls[n].hash, LastHash(held), post.value);
      assert Holds(mid.files, held + [pending]);
    }
  }

  // ---------------------------------------------------------------------------
  // Overlapping calls
  // ---------------------------------------------------------------------------

  /**
   Why the verdict must come first: a second call that starts on the Pending leaf
   of a first one is dropped with it. Its own confirm then finds nothing, although
   the chain applied it, and the journal is back at the head before both.
   */
  lemma OverlapLosesAppliedCall(
      j: Journal, chain: seq<Snapshot>, address: Address, first: Snapshot, second: Snapshot, block: Hash, io: DropIo)
    requires Holds(j.files, chain + [first, second])
    requires io.removals >= 2 && io.synced
    ensures var (dropped, r) := Rollback(j, address, first.extrinsicHash, io);
            && r.Ok? && Holds(dropped.files, chain)
            && Confirm(dropped, address, second.extrinsicHash, None, block, Written)
               == (dropped, Err(SnapshotNotFound(address, second.extrinsicHash)))
  {
    hide Holds, AfterRemovals, FindPath, Doomed;
    var all, k := chain + [first, second], |chain|;
    assert all[k] == first && all[k + 1] == second && all[..k] == chain;
    HoldsMembers(j.files, all);
    OnDiskHashes(j.files);
    assert all[k] in all;
    CascadeOnChain(j.files, all, k, io.removals);
    var dropped := AfterRemovals(j.files, first.extrinsicHash, io.removals);
    HoldsIsChain(j.files, all);
    CutOffIsGone(dropped, all, k, k + 1);
    OnDiskHashes(dropped);
  }
}
