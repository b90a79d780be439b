/** When a call is sent, and how it ends, on any journal and whatever the world answers. */
module CallOutcomes {
  import opened Wrappers
  import opened Snapshots
  import opened FindLeaf
  import opened Directory
  import opened Journal
  import opened JournalLaws
  import opened CascadeLaws
  import opened Answers
  import opened CallProtocol

  /** The journal takes the call's snapshot: marker, hash and disk allow it. The head is the one it was read from. */
  ghost predicate Recordable(j: Journal, chain: seq<Snapshot>, address: Address, call: Call) {
    && (j.marker == Some(address) || (j.marker == None && call.appendIo.marker == Written))
    && !Taken(chain, call.hash)
    && call.appendIo.snapshot == Written
  }

  /** The witnesses run, their result decodes, and what they changed is recorded. */
  ghost predicate Ready(j: Journal, chain: seq<Snapshot>, address: Address, call: Call) {
    var post := call.run(HeadData(chain));
    && post.Some? && call.decodes
    && (post.value == HeadData(chain) || Recordable(j, chain, address, call))
  }

  ghost predicate Changes(chain: seq<Snapshot>, call: Call) {
    call.run(HeadData(chain)).Some? && call.run(HeadData(chain)).value != HeadData(chain)
  }

  /** The journal while a call that is ready is in flight. */
  lemma ReadyFlight(j: Journal, chain: seq<Snapshot>, address: Address, call: Call)
    requires Holds(j.files, chain) && NamedByHash(j.files) && Ready(j, chain, address, call)
    ensures var (mid, sent) := Flight(j, address, call);
            && sent == SubmitResult(call.hash, call.submit, Changes(chain, call))
            && (if Changes(chain, call) then
                  Landed(j.files, mid.files, chain, File(call.nanos, call.hash),
                         PendingSnapshot(call.hash, LastHash(chain), call.run(HeadData(chain)).value))
                  && NamedByHash(mid.files)
                else mid == j)
  {
    hide Holds, NamedByHash, Append, Leaf, Landed;
    HeadOfHeld(j, chain);
    var post := call.run(HeadData(chain)).value;
    AppendIsCas(j, chain, address, call.hash, LastHash(chain), post, call.nanos, call.appendIo);
    AppendSucceeds(j, chain, address, call.hash, LastHash(chain), post, call.nanos, call.appendIo);
  }

  /** A call that is not ready ends with its error, and nothing of it is on disk unless a failed append left it. */
  lemma UnreadyCall(j: Journal, chain: seq<Snapshot>, address: Address, call: Call)
    requires Holds(j.files, chain) && NamedByHash(j.files) && !Ready(j, chain, address, call)
    ensures var (after, r) := CallStep(j, address, call);
            var post := call.run(HeadData(chain));
            && Flight(j, address, call).1.Err?
            && (post.None? ==> after == j && r == Err(WitnessFailed))
            && (post.Some? && !call.decodes ==> after == j && r == Err(DecodeFailed))
            && (post.Some? && call.decodes ==>
                  r == Err(PendingSnapshotFailed(
                    call.hash,
                    if j.marker.Some? && j.marker != Some(address) then InvalidFormat(MarkerMismatch(j.marker.value))
                    else if j.marker.Some? && Taken(chain, call.hash) then SnapshotAlreadyExists(address, call.hash)
                    else if j.marker.None? && call.appendIo.marker == Written && Taken(chain, call.hash) then
                      SnapshotAlreadyExists(address, call.hash)
                    else Io)))
  {
    hide Holds, NamedByHash, Append, Leaf;
    HeadOfHeld(j, chain);
    var post := call.run(HeadData(chain));
    if post.Some? {
      AppendSucceeds(j, chain, address, call.hash, LastHash(chain), post.value, call.nanos, call.appendIo);
      AppendAnswer(j, chain, address, call.hash, LastHash(chain), post.value, call.nanos, call.appendIo);
    }
  }

  /**
   A call is sent exactly when its witnesses run, their result decodes, the node
   accepts it, and the state is unchanged or the journal takes the new snapshot,
   which then stands right after the leaf the witnesses started from.
   */
  lemma CallIsSent(j: Journal, chain: seq<Snapshot>, address: Address, call: Call)
    requires Holds(j.files, chain) && NamedByHash(j.files)
    ensures var post := call.run(HeadData(chain));
            var (mid, sent) := Flight(j, address, call);
            && (sent.Ok? <==>
                  && post.Some? && call.decodes && call.submit == Accepted
                  && (|| post.value == HeadData(chain)
                      || (&& (j.marker == Some(address) || (j.marker == None && call.appendIo.marker == Written))
                          && !Taken(chain, call.hash) && call.appendIo.snapshot == Written)))
            && (sent.Ok? && post.value != HeadData(chain) ==>
                  Landed(j.files, mid.files, chain, File(call.nanos, call.hash),
                         PendingSnapshot(call.hash, LastHash(chain), post.value)))
            && (sent.Ok? && post.value == HeadData(chain) ==> mid == j)
  {
    hide Holds, NamedByHash, Landed, Flight;
    if Ready(j, chain, address, call) {
      ReadyFlight(j, chain, address, call);
    } else {
      UnreadyCall(j, chain, address, call);
    }
  }

  /** The snapshot in flight, at the settle: its file, and the one file of its hash. */
  lemma InFlight(before: Files, mid: Files, chain: seq<Snapshot>, file: File, pending: Snapshot)
    requires Landed(before, mid, chain, file, pending)
    ensures file in mid && mid[file] == pending && OneFilePerHash(mid) && OnDisk(mid, pending.extrinsicHash)
  {
    hide Holds;
    HoldsMembers(mid, chain + [pending]);
  }

  /**
   How a ready call ends. A node that does not accept it, and a wait without a
   verdict, leave its snapshot Pending; an applied call returns its block once the
   confirm is written; one that was not applied fails, once its snapshot is gone.
   */
  lemma ReadyCallEnds(j: Journal, chain: seq<Snapshot>, address: Address, call: Call)
    requires Holds(j.files, chain) && NamedByHash(j.files) && Ready(j, chain, address, call)
    ensures var (after, r) := CallStep(j, address, call);
            var changed := Changes(chain, call);
            match call.submit
            case SubmissionFailed => r == Err(SubmissionWait(call.hash, changed))
            case OtherFailure => r == Err(ProviderFailed)
            case Accepted =>
              match call.waited
              case NoVerdict => r == Err(SubmissionWait(call.hash, changed))
              case Applied(block) =>
                r == if changed && call.settleIo.confirm != Written then Err(PrivateState(Io)) else Ok(block)
              case NotApplied =>
                r == if changed && !(call.settleIo.drop.removals > 0 && call.settleIo.drop.synced)
                     then Err(PrivateState(Io)) else Err(TransactionFailed)
    ensures (call.submit != Accepted || call.waited.NoVerdict?) ==>
              CallStep(j, address, call).0 == Flight(j, address, call).0
  {
    hide Holds, NamedByHash, Landed, Flight, Confirm, Rollback;
    ReadyFlight(j, chain, address, call);
    if call.submit == Accepted && Changes(chain, call) {
      SettledCallEnds(j, chain, address, call);
    }
  }

  lemma SettledCallEnds(j: Journal, chain: seq<Snapshot>, address: Address, call: Call)
    requires Holds(j.files, chain) && NamedByHash(j.files) && Ready(j, chain, address, call)
    requires call.submit == Accepted && Changes(chain, call)
    ensures var mid := Flight(j, address, call).0;
            && (call.waited.Applied? ==>
                  Confirm(mid, address, call.hash, None, call.waited.blockHash, call.settleIo.confirm).1
                  == if call.settleIo.confirm != Written then Err(Io) else Ok(()))
            && (call.waited.NotApplied? ==>
                  Rollback(mid, address, call.hash, call.settleIo.drop).1
                  == if call.settleIo.drop.removals > 0 && call.settleIo.drop.synced then Ok(()) else Err(Io))
  {
    hide Holds, NamedByHash, Landed, Flight, Confirm, Rollback, Doomed, OnDisk, OneFilePerHash, DependsOnStart;
    ReadyFlight(j, chain, address, call);
    var mid, file := Flight(j, address, call).0, File(call.nanos, call.hash);
    var pending := PendingSnapshot(call.hash, LastHash(chain), call.run(HeadData(chain)).value);
    InFlight(j.files, mid.files, chain, file, pending);
    if call.waited.Applied? {
      ConfirmAnswer(mid, address, file, None, call.waited.blockHash, call.settleIo.confirm);
    } else {
      RollbackAnswer(mid, address, call.hash, call.settleIo.drop);
      LandedIsLast(j.files, mid.files, chain, file, pending);
    }
  }

  lemma LandedIsLast(before: Files, mid: Files, chain: seq<Snapshot>, file: File, pending: Snapshot)
    requires Landed(before, mid, chain, file, pending)
    ensures |Doomed(mid, pending.extrinsicHash)| == 1
  {
    hide Holds, Doomed;
    var longer := chain + [pending];
    assert longer[|chain|] == pending;
    DoomedLength(mid, longer, |chain|);
  }

  /** An applied call on a healthy disk returns its block, and its snapshot is the confirmed leaf. */
  lemma AppliedCallIsOk(j: Journal, chain: seq<Snapshot>, address: Address, call: Call)
    requires Holds(j.files, chain) && NamedByHash(j.files)
    requires call.run(HeadData(chain)).Some? && call.decodes && call.submit == Accepted && call.waited.Applied?
    requires j.marker == Some(address) || (j.marker == None && call.appendIo.marker == Written)
    requires !Taken(chain, call.hash) && call.appendIo.snapshot == Written && call.settleIo.confirm == Written
    ensures var (after, r) := CallStep(j, address, call);
            var post := call.run(HeadData(chain)).value;
            && r == Ok(call.waited.blockHash)
            && Holds(after.files,
                     if post == HeadData(chain) then chain
                     else chain + [ConfirmedSnapshot(call.hash, call.waited.blockHash, LastHash(chain), post)])
  {
    hide Holds, NamedByHash, Flight, Confirm, Rollback;
    ReadyFlight(j, chain, address, call);
    ReadyCallEnds(j, chain, address, call);
    var post := call.run(HeadData(chain)).value;
    if Changes(chain, call) {
      ConfirmsLeaf(Flight(j, address, call).0, chain, address, PendingSnapshot(call.hash, LastHash(chain), post),
                   call.waited.blockHash);
    }
  }

  /** On a journal that is no chain no call runs its witnesses, and nothing changes. */
  lemma MalformedStopsCall(j: Journal, address: Address, call: Call)
    requires !(exists chain :: Holds(j.files, chain))
    ensures Head(j.files).Err?
    ensures CallStep(j, address, call) == (j, Err(NoHead(InvalidFormat(MalformedJournal(Head(j.files).error)))))
  {
    hide Holds, Head;
    NoChainNoHead(j.files);
  }

  // ---------------------------------------------------------------------------
  // Overlapping calls
  // ---------------------------------------------------------------------------

  /**
   A second call that started on the Pending leaf of a first one, which was dropped:
   applied or not, its settle finds no snapshot, the store's error comes before the
   verdict, and the journal stays at the head before both.
   */
  lemma OverlapHidesVerdict(
      j: Journal, chain: seq<Snapshot>, address: Address, first: Snapshot, second: Snapshot, waited: Waited,
      drop: DropIo, io: SettleIo)
    requires Holds(j.files, chain + [first, second])
    requires drop.removals >= 2 && drop.synced
    ensures var (dropped, r) := Rollback(j, address, first.extrinsicHash, drop);
            && r.Ok? && Holds(dropped.files, chain)
            && (!waited.NoVerdict? ==>
                  Settle(dropped, address, second.extrinsicHash, true, waited, io)
                  == (dropped, Err(PrivateState(SnapshotNotFound(address, second.extrinsicHash)))))
  {
    hide Holds, AfterRemovals, FindPath, Doomed, Rollback, Confirm;
    OverlapLosesAppliedCall(j, chain, address, first, second, "", drop);
    var dropped := Rollback(j, address, first.extrinsicHash, drop).0;
    DroppedIsGone(j, chain, address, first, second, drop);
    MissingAnswer(dropped, address, second.extrinsicHash, None, if waited.Applied? then waited.blockHash else "",
                  io.confirm, io.drop);
  }

  lemma DroppedIsGone(
      j: Journal, chain: seq<Snapshot>, address: Address, first: Snapshot, second: Snapshot, drop: DropIo)
    requires Holds(j.files, chain + [first, second])
    requires Holds(Rollback(j, address, first.extrinsicHash, drop).0.files, chain)
    ensures !OnDisk(Rollback(j, address, first.extrinsicHash, drop).0.files, second.extrinsicHash)
  {
    hide Holds, Rollback;
    var all, k := chain + [first, second], |chain|;
    assert all[k] == first && all[k + 1] == second && all[..k] == chain;
    HoldsIsChain(j.files, all);
    CutOffIsGone(Rollback(j, address, first.extrinsicHash, drop).0.files, all, k, k + 1);
  }
}
