/**
 The hand-back of a build's inputs: `HeldInputs`, `PreparedTx`, `Reservation`
 and `PendingTx` each disarm the one before, so one build hands its inputs back
 at most once, and never while its transaction may still land.
 */
module Reservation {
  import opened Wrappers
  import opened Inputs

  datatype Verdict = Success | PartialSuccess | Failure

  /** One item of the watch stream. A block's verdict is `None` when its events cannot be read. */
  datatype Status =
    | Validated
    | Broadcasted
    | NoLongerInBestBlock
    | InBestBlock(best: Option<Verdict>)
    | InFinalizedBlock(final: Option<Verdict>)
    | Invalid
    | Dropped
    | NodeError
    | StreamError

  datatype Awaiting = Best | Final

  datatype SubmitError = InvalidTx | DroppedTx | NodeErrorTx | WatchStream | VerdictFetch

  /** How a wait ends; `Cut` is a wait future that its caller dropped. */
  datatype WaitEnd = Landed | NotApplied(verdict: Verdict) | Failed(error: SubmitError) | Cut

  function FromTerminalStatus(s: Status): (error: Option<SubmitError>) {
    match s
    case Invalid => Some(InvalidTx)
    case Dropped => Some(DroppedTx)
    case NodeError => Some(NodeErrorTx)
    case _ => None
  }

  predicate RejectionIsDefinitive(e: SubmitError) {
    e == InvalidTx
  }

  /** The block a wait was for, with what is known of its verdict. */
  function LandedIn(s: Status, awaiting: Awaiting): (verdict: Option<Option<Verdict>>) {
    match s
    case InBestBlock(v) => if awaiting == Best then Some(v) else None
    case InFinalizedBlock(v) => Some(v)
    case _ => None
  }

  function AppliedEnd(verdict: Option<Verdict>): (end: WaitEnd) {
    match verdict
    case None => Failed(VerdictFetch)
    case Some(Success) => Landed
    case Some(v) => NotApplied(v)
  }

  // ---------------------------------------------------------------------------
  // The objects
  // ---------------------------------------------------------------------------

  /** The wallet, as the record of what was handed back to it. */
  class Wallet {
    var released: seq<SpentInputs>

    constructor ()
      ensures released == []
    {
      released := [];
    }

    method Release(spent: SpentInputs)
      modifies this
      ensures released == old(released) + [spent]
    {
      released := released + [spent];
    }
  }

  /** `hand_back`; an empty reservation reaches no wallet. */
  method HandBack(wallet: Wallet, spent: SpentInputs)
    modifies wallet
    ensures wallet.released == old(wallet.released) + if IsEmpty(spent) then [] else [spent]
  {
    if IsEmpty(spent) {
      return;
    }
    wallet.Release(spent);
  }

  class HeldInputs {
    var wallet: Wallet?
    var spent: SpentInputs

    constructor (spent: SpentInputs, wallet: Wallet?)
      ensures this.spent == spent && this.wallet == wallet
    {
      this.spent := spent;
      this.wallet := wallet;
    }

    /** Afterwards the guard names what it named and what it absorbed, each input under its own stamp. */
    method Absorb(other: SpentInputs)
      modifies this
      ensures forall input, stamp ::
                Names(spent, input, stamp) <==> Names(old(spent), input, stamp) || Names(other, input, stamp)
      ensures IsEmpty(spent) <==> IsEmpty(old(spent)) && IsEmpty(other)
      ensures spent == Merge(old(spent), other) && wallet == old(wallet)
    {
      forall input, stamp
        ensures Names(Merge(spent, other), input, stamp) <==> Names(spent, input, stamp) || Names(other, input, stamp)
      {
        MergeKeepsStamps(spent, other, input, stamp);
      }
      spent := Merge(spent, other);
    }

    /** Hands the inputs back and disarms the guard, so a second call hands back nothing. */
    method Release()
      modifies this, wallet
      ensures wallet == null && spent == NOTHING
      ensures old(wallet) != null ==>
                old(wallet).released == old(wallet.released) + if IsEmpty(old(spent)) then [] else [old(spent)]
    {
      var taken := spent;
      spent := NOTHING;
      if wallet != null {
        var w := wallet;
        wallet := null;
        HandBack(w, taken);
      }
    }

    /** The `Drop` of an armed guard: a release under a runtime, nothing without one. */
    method Drop(runtime: bool)
      modifies this, wallet
      ensures wallet == null
      ensures old(wallet) != null ==>
                old(wallet).released
                == old(wallet.released) + if IsEmpty(old(spent)) || !runtime then [] else [old(spent)]
    {
      if wallet == null {
        return;
      }
      var w, taken := wallet, spent;
      wallet, spent := null, NOTHING;
      if IsEmpty(taken) {
        return;
      }
      if runtime {
        w.Release(taken);
      }
    }

    /** `keep_on_ok` on the result of the rest of the build. */
    method KeepOnOk(ok: bool)
      modifies this, wallet
      ensures wallet == null && spent == NOTHING
      ensures old(wallet) != null ==>
                old(wallet).released
                == old(wallet.released) + if ok || IsEmpty(old(spent)) then [] else [old(spent)]
    {
      var w, taken := wallet, spent;
      wallet, spent := null, NOTHING;
      if !ok && w != null {
        HandBack(w, taken);
      }
    }

    method IntoReservation() returns (r: HeldReservation?)
      modifies this
      ensures wallet == null
      ensures r != null <==> old(wallet) != null
      ensures r != null ==> fresh(r) && r.wallet == old(wallet) && r.spent == old(spent)
    {
      if wallet == null {
        return null;
      }
      r := new HeldReservation(wallet, spent);
      wallet, spent := null, NOTHING;
    }
  }

  /** `Reservation`: kept for a transaction that the node can hold. */
  class HeldReservation {
    const wallet: Wallet
    const spent: SpentInputs

    constructor (wallet: Wallet, spent: SpentInputs)
      ensures this.wallet == wallet && this.spent == spent
    {
      this.wallet := wallet;
      this.spent := spent;
    }

    method Release()
      modifies wallet
      ensures wallet.released == old(wallet.released) + if IsEmpty(spent) then [] else [spent]
    {
      HandBack(wallet, spent);
    }
  }

  /** The stop of a wait: the first status that ends it. */
  predicate Stops(s: Status, awaiting: Awaiting) {
    s == StreamError || FromTerminalStatus(s).Some? || LandedIn(s, awaiting).Some?
  }

  /** The wait, dropped after `polls` statuses, reads `Invalid` before anything else ends it. */
  ghost predicate ReadsInvalid(stream: seq<Status>, awaiting: Awaiting, polls: nat) {
    exists k :: 0 <= k < |stream| && k < polls && stream[k] == Invalid
                && forall m :: 0 <= m < k ==> !Stops(stream[m], awaiting)
  }

  /** How a wait over the stream ends: the first status that stops it decides. */
  ghost function EndOf(stream: seq<Status>, awaiting: Awaiting, polls: nat): (end: WaitEnd)
    decreases |stream|
  {
    if polls == 0 then Cut
    else if stream == [] then Failed(WatchStream)
    else if stream[0] == StreamError then Failed(WatchStream)
    else if FromTerminalStatus(stream[0]).Some? then Failed(FromTerminalStatus(stream[0]).value)
    else if LandedIn(stream[0], awaiting).Some? then AppliedEnd(LandedIn(stream[0], awaiting).value)
    else EndOf(stream[1..], awaiting, polls - 1)
  }

  /** The status is the block the wait is for, a finalized one in any case, with the whole transaction applied. */
  predicate LandsApplied(s: Status, awaiting: Awaiting) {
    s == InFinalizedBlock(Some(Success)) || (awaiting == Best && s == InBestBlock(Some(Success)))
  }

  /**
   A wait returns `Ok` exactly when the first status that stops it is a block it
   waits for, with the verdict Success: a partial success is not applied.
   */
  lemma {:induction false} LandedMeansApplied(stream: seq<Status>, awaiting: Awaiting, polls: nat)
    ensures EndOf(stream, awaiting, polls) == Landed <==>
              exists k :: 0 <= k < |stream| && k < polls && LandsApplied(stream[k], awaiting)
                          && forall m :: 0 <= m < k ==> !Stops(stream[m], awaiting)
    decreases |stream|
  {
    if polls > 0 && stream != [] && !Stops(stream[0], awaiting) {
      var rest := stream[1..];
      LandedMeansApplied(rest, awaiting, polls - 1);
      if EndOf(rest, awaiting, polls - 1) == Landed {
        var k :| 0 <= k < |rest| && k < polls - 1 && LandsApplied(rest[k], awaiting)
                 && forall m :: 0 <= m < k ==> !Stops(rest[m], awaiting);
        assert stream[k + 1] == rest[k];
        assert forall m :: 0 <= m < k + 1 ==> !Stops(stream[m], awaiting) by {
          forall m | 0 < m < k + 1 ensures !Stops(stream[m], awaiting) {
            assert stream[m] == rest[m - 1];
          }
        }
      }
      forall k | 0 <= k < |stream| && k < polls && LandsApplied(stream[k], awaiting)
                 && forall m :: 0 <= m < k ==> !Stops(stream[m], awaiting)
        ensures EndOf(stream, awaiting, polls) == Landed
      {
        assert k > 0;
        assert rest[k - 1] == stream[k];
        assert forall m :: 0 <= m < k - 1 ==> rest[m] == stream[m + 1];
      }
    }
  }

  // ---------------------------------------------------------------------------
  // How a wait ends
  // ---------------------------------------------------------------------------

  /** The status is the block the wait is for, a finalized one in any case, with this verdict. */
  predicate IsAwaited(s: Status, awaiting: Awaiting, verdict: Option<Verdict>) {
    s == InFinalizedBlock(verdict) || (awaiting == Best && s == InBestBlock(verdict))
  }

  /** The status ends the wait: the stream breaks, the node gives the transaction up, or the block is there. */
  ghost predicate Ends(s: Status, awaiting: Awaiting) {
    || s in {StreamError, Invalid, Dropped, NodeError}
    || exists verdict :: IsAwaited(s, awaiting, verdict)
  }

  /** The first status that ends the wait is at `k`, and the wait gets there. */
  ghost predicate EndsAt(stream: seq<Status>, awaiting: Awaiting, polls: nat, k: nat) {
    k < |stream| && k < polls && Ends(stream[k], awaiting) && forall m :: 0 <= m < k ==> !Ends(stream[m], awaiting)
  }

  lemma StopsIsEnds(s: Status, awaiting: Awaiting)
    ensures Stops(s, awaiting) <==> Ends(s, awaiting)
  {
    match s
    case InBestBlock(v) => assert awaiting == Best ==> IsAwaited(s, awaiting, v);
    case InFinalizedBlock(v) => assert IsAwaited(s, awaiting, v);
    case _ =>
  }

  /** The end a status gives the wait it ends. */
  lemma EndOfFirst(stream: seq<Status>, awaiting: Awaiting, polls: nat)
    requires polls > 0 && stream != [] && Ends(stream[0], awaiting)
    ensures var end, s := EndOf(stream, awaiting, polls), stream[0];
            && (end == Failed(WatchStream) <==> s == StreamError)
            && (end == Failed(InvalidTx) <==> s == Invalid)
            && (end == Failed(DroppedTx) <==> s == Dropped)
            && (end == Failed(NodeErrorTx) <==> s == NodeError)
            && (end == Failed(VerdictFetch) <==> IsAwaited(s, awaiting, None))
            && (end == Landed <==> IsAwaited(s, awaiting, Some(Success)))
            && (forall v :: end == NotApplied(v) <==> v != Success && IsAwaited(s, awaiting, Some(v)))
            && end != Cut
  {
    StopsIsEnds(stream[0], awaiting);
  }

  /** The wait goes by every status that does not end it, up to one that does, or to its own end or the stream's. */
  lemma {:induction false} EndOfRest(stream: seq<Status>, awaiting: Awaiting, polls: nat)
    returns (k: nat)
    ensures k <= |stream| && k <= polls && forall m :: 0 <= m < k ==> !Ends(stream[m], awaiting)
    ensures EndOf(stream, awaiting, polls) == EndOf(stream[k..], awaiting, polls - k)
    ensures EndsAt(stream, awaiting, polls, k) || k == |stream| || k == polls
    decreases |stream|
  {
    k := 0;
    assert stream[0..] == stream;
    if polls > 0 && stream != [] {
      StopsIsEnds(stream[0], awaiting);
      if !Ends(stream[0], awaiting) {
        var rest := stream[1..];
        var j := EndOfRest(rest, awaiting, polls - 1);
        k := j + 1;
        assert stream[k..] == rest[j..];
        assert forall m :: 0 < m < k ==> stream[m] == rest[m - 1];
      }
    }
  }

  /** No two statuses are the first that ends a wait. */
  lemma EndsAtOne(stream: seq<Status>, awaiting: Awaiting, polls: nat, j: nat, k: nat)
    requires EndsAt(stream, awaiting, polls, j) && EndsAt(stream, awaiting, polls, k)
    ensures j == k
  {
    hide Ends;
  }

  /**
   How a wait ends, over the statuses of its stream. Only the first that ends it
   counts: a block whose verdict cannot be read is no verdict, a block with any
   verdict but Success is one that the chain did not apply, and every other end
   leaves the fate of the transaction open.
   */
  lemma WaitIsDecided(stream: seq<Status>, awaiting: Awaiting, polls: nat)
    ensures var end := EndOf(stream, awaiting, polls);
            && (forall v :: end == NotApplied(v) <==>
                  v != Success
                  && exists k: nat :: EndsAt(stream, awaiting, polls, k) && IsAwaited(stream[k], awaiting, Some(v)))
            && (end == Landed <==>
                  exists k: nat :: EndsAt(stream, awaiting, polls, k) && IsAwaited(stream[k], awaiting, Some(Success)))
            && (end == Failed(VerdictFetch) <==>
                  exists k: nat :: EndsAt(stream, awaiting, polls, k) && IsAwaited(stream[k], awaiting, None))
            && (end == Failed(InvalidTx) <==>
                  exists k: nat :: EndsAt(stream, awaiting, polls, k) && stream[k] == Invalid)
            && (end == Failed(DroppedTx) <==>
                  exists k: nat :: EndsAt(stream, awaiting, polls, k) && stream[k] == Dropped)
            && (end == Failed(NodeErrorTx) <==>
                  exists k: nat :: EndsAt(stream, awaiting, polls, k) && stream[k] == NodeError)
            && (end == Failed(WatchStream) <==>
                  || (exists k: nat :: EndsAt(stream, awaiting, polls, k) && stream[k] == StreamError)
                  || (|stream| < polls && forall k: nat :: !EndsAt(stream, awaiting, polls, k)))
            && (end == Cut <==> polls <= |stream| && forall k: nat :: !EndsAt(stream, awaiting, polls, k))
  {
    hide Ends, EndOf, IsAwaited;
    var k := EndOfRest(stream, awaiting, polls);
    if EndsAt(stream, awaiting, polls, k) {
      EndOfFirst(stream[k..], awaiting, polls - k);
      assert stream[k..][0] == stream[k];
      forall j: nat | EndsAt(stream, awaiting, polls, j) ensures j == k {
        EndsAtOne(stream, awaiting, polls, j, k);
      }
    } else {
      NothingEnds(stream, awaiting, polls, k);
    }
  }

  lemma NothingEnds(stream: seq<Status>, awaiting: Awaiting, polls: nat, k: nat)
    requires k <= |stream| && k <= polls && (k == |stream| || k == polls)
    requires forall m :: 0 <= m < k ==> !Ends(stream[m], awaiting)
    requires EndOf(stream, awaiting, polls) == EndOf(stream[k..], awaiting, polls - k)
    ensures forall j: nat :: !EndsAt(stream, awaiting, polls, j)
    ensures EndOf(stream, awaiting, polls) == if polls <= |stream| then Cut else Failed(WatchStream)
  {
    hide Ends;
    assert k == |stream| ==> stream[k..] == [];
  }

  class PendingTx {
    var reservation: HeldReservation?
    var progress: seq<Status>

    constructor (reservation: HeldReservation?, progress: seq<Status>)
      ensures this.reservation == reservation && this.progress == progress
    {
      this.reservation := reservation;
      this.progress := progress;
    }

    /** `wait_for`, polled `polls` times; a wait that needs more is dropped. */
    method WaitFor(awaiting: Awaiting, polls: nat) returns (end: WaitEnd)
      modifies this, if reservation == null then {} else {reservation.wallet}
      ensures end == EndOf(old(progress), awaiting, polls)
      ensures ReadsInvalid(old(progress), awaiting, polls) <==> end == Failed(InvalidTx)
      ensures end == Failed(InvalidTx) ==> reservation == null
      ensures end != Failed(InvalidTx) ==> reservation == old(reservation)
      ensures old(reservation) != null ==>
                var r := old(reservation);
                r.wallet.released
                == old(reservation.wallet.released)
                   + if end == Failed(InvalidTx) && !IsEmpty(r.spent) then [r.spent] else []
      ensures RestAfter(old(progress), Wait(awaiting, polls)) == if end == Landed then Some(progress) else None
    {
      ghost var stream := progress;
      var i := 0;
      while i < polls && progress != []
        invariant 0 <= i <= polls && i <= |stream| && progress == stream[i..]
        invariant forall m :: 0 <= m < i ==> !Stops(stream[m], awaiting)
        invariant RestAfter(stream, Wait(awaiting, polls)) == RestAfter(progress, Wait(awaiting, polls - i))
        invariant EndOf(stream, awaiting, polls) == EndOf(progress, awaiting, polls - i)
        invariant reservation == old(reservation)
        invariant reservation != null ==> reservation.wallet.released == old(reservation.wallet.released)
        decreases |progress|
      {
        var status := progress[0];
        assert status == stream[i];
        progress := progress[1..];
        i := i + 1;
        if status == StreamError {
          return Failed(WatchStream);
        }
        var error := FromTerminalStatus(status);
        if error.Some? {
          if RejectionIsDefinitive(error.value) && reservation != null {
            var taken := reservation;
            reservation := null;
            taken.Release();
          }
          return Failed(error.value);
        }
        var landed := LandedIn(status, awaiting);
        if landed.Some? {
          return AppliedEnd(landed.value);
        }
      }
      return if progress == [] && i < polls then Failed(WatchStream) else Cut;
    }
  }

  /** What becomes of the submit call. */
  datatype SubmitFate = SubmitRpcFails | SubmitCut | Accepted(progress: seq<Status>)

  class PreparedTx {
    var held: HeldInputs?

    constructor (held: HeldInputs?)
      ensures this.held == held
    {
      this.held := held;
    }

    /** Disarms the guard before the call, whatever becomes of it. */
    method Submit(fate: SubmitFate) returns (pending: PendingTx?)
      modifies this, held
      ensures held == null
      ensures old(held) != null ==> old(held).wallet == null
      ensures pending != null <==> fate.Accepted?
      ensures pending != null ==> fresh(pending) && pending.progress == fate.progress
      ensures pending != null ==>
                (pending.reservation != null <==> old(held) != null && old(held.wallet) != null)
      ensures pending != null && pending.reservation != null ==>
                pending.reservation.wallet == old(held.wallet) && pending.reservation.spent == old(held.spent)
    {
      var guard := held;
      held := null;
      var reservation: HeldReservation? := null;
      if guard != null {
        reservation := guard.IntoReservation();
      }
      match fate {
        case SubmitRpcFails => return null;
        case SubmitCut => return null;
        case Accepted(progress) => pending := new PendingTx(reservation, progress);
      }
    }
  }

  // ---------------------------------------------------------------------------
  // Every path of one build
  // ---------------------------------------------------------------------------

  /** One wait on the handle: what it waits for, and after how many statuses its caller drops it. */
  datatype Wait = Wait(awaiting: Awaiting, polls: nat)

  /**
   The path of one build. A build can fail or be cut; its result can be left
   unprepared, or released by its caller; the prepare can fail or be cut; what it
   made can be dropped, released or submitted.
   */
  datatype Path =
    | BuildFails
    | BuildCut
    | NeverPrepared
    | ReleasedByCaller
    | PrepareFails
    | PrepareCut
    | Abandoned
    | Released
    | Submitted(fate: SubmitFate, waits: seq<Wait>)

  /** The statuses a wait leaves for the next, when the handle comes back. */
  ghost function RestAfter(stream: seq<Status>, wait: Wait): (rest: Option<seq<Status>>)
    decreases |stream|, wait.polls
  {
    if stream == [] || wait.polls == 0 then None
    else if Stops(stream[0], wait.awaiting) then
      if LandedIn(stream[0], wait.awaiting) == Some(Some(Success)) then Some(stream[1..]) else None
    else RestAfter(stream[1..], wait.(polls := wait.polls - 1))
  }

  /** Some wait of the sequence reads `Invalid`, each one starting where the last came back. */
  ghost predicate SomeWaitReadsInvalid(stream: seq<Status>, waits: seq<Wait>)
    decreases |waits|
  {
    waits != [] &&
    (|| ReadsInvalid(stream, waits[0].awaiting, waits[0].polls)
     || (RestAfter(stream, waits[0]).Some? && SomeWaitReadsInvalid(RestAfter(stream, waits[0]).value, waits[1..])))
  }

  ghost predicate SubmitStarted(path: Path) {
    path.Submitted?
  }

  /** The path is a caller that drops a guard, so only a runtime can run the release. */
  ghost predicate DropsGuard(path: Path) {
    path == BuildCut || path == PrepareCut || path == Abandoned
  }

  ghost predicate RejectedForGood(path: Path) {
    path.Submitted? && path.fate.Accepted? && SomeWaitReadsInvalid(path.fate.progress, path.waits)
  }

  /** How often the inputs of a build on this path go back to the wallet. */
  ghost function HandBacks(path: Path, spent: SpentInputs, runtime: bool): (count: nat) {
    if path == NeverPrepared then 0
    else if path == ReleasedByCaller then 1
    else if IsEmpty(spent) then 0
    else if SubmitStarted(path) then if RejectedForGood(path) then 1 else 0
    else if DropsGuard(path) && !runtime then 0
    else 1
  }

  method RunWaits(pending: PendingTx, waits: seq<Wait>)
    modifies pending, if pending.reservation == null then {} else {pending.reservation.wallet}
    ensures old(pending.reservation) != null ==>
              var r := old(pending.reservation);
              r.wallet.released
              == old(pending.reservation.wallet.released)
                 + if SomeWaitReadsInvalid(old(pending.progress), waits) && !IsEmpty(r.spent) then [r.spent] else []
  {
    ghost var reservation := pending.reservation;
    ghost var stream := pending.progress;
    for i := 0 to |waits|
      invariant pending.reservation == reservation
      invariant reservation != null ==> reservation.wallet.released == old(pending.reservation.wallet.released)
      invariant SomeWaitReadsInvalid(stream, waits) <==> SomeWaitReadsInvalid(pending.progress, waits[i..])
    {
      assert waits[i..][1..] == waits[i + 1..];
      var end := pending.WaitFor(waits[i].awaiting, waits[i].polls);
      if end != Landed {
        return;
      }
    }
  }

  /**
   One build, from its reservation to the end of its path, through the objects
   above. The wallet gets the inputs back exactly as often as `HandBacks` says.
   */
  method RunPath(wallet: Wallet, first: SpentInputs, second: SpentInputs, path: Path, runtime: bool)
    modifies wallet
    ensures var spent := Merge(first, second);
            wallet.released == old(wallet.released) + seq(HandBacks(path, spent, runtime), _ => spent)
    ensures |wallet.released| <= |old(wallet.released)| + 1
    ensures !SubmitStarted(path) && path != NeverPrepared && runtime && !(IsEmpty(first) && IsEmpty(second)) ==>
              |wallet.released| == |old(wallet.released)| + 1
    ensures SubmitStarted(path) && !RejectedForGood(path) ==> wallet.released == old(wallet.released)
  {
    var guard := new HeldInputs(first, wallet);
    guard.Absorb(second);
    var spent := guard.spent;
    if path == BuildCut {
      guard.Drop(runtime);
      return;
    }
    guard.KeepOnOk(path != BuildFails);
    if path == BuildFails {
      return;
    }
    if path == NeverPrepared {
      return;
    }
    if path == ReleasedByCaller {
      wallet.Release(spent);
      return;
    }
    var held := new HeldInputs(spent, wallet);
    if path == PrepareFails {
      held.Release();
      return;
    }
    if path == PrepareCut {
      held.Drop(runtime);
      return;
    }
    var prepared := new PreparedTx(held);
    match path {
      case Abandoned => prepared.held.Drop(runtime);
      case Released => prepared.held.Release();
      case Submitted(fate, waits) =>
        var pending := prepared.Submit(fate);
        if pending != null {
          RunWaits(pending, waits);
        }
    }
  }

  // ---------------------------------------------------------------------------
  // What the paths promise
  // ---------------------------------------------------------------------------

  /** The first status that ends a wait decides: no block, drop, node error or cut wait hands anything back. */
  lemma OnlyInvalidHandsBack(stream: seq<Status>, wait: Wait, k: nat)
    requires k < |stream| && k < wait.polls && Stops(stream[k], wait.awaiting)
    requires forall m :: 0 <= m < k ==> !Stops(stream[m], wait.awaiting)
    ensures ReadsInvalid(stream, wait.awaiting, wait.polls) <==> stream[k] == Invalid
  {
    forall j | 0 <= j < |stream| && j < wait.polls && stream[j] == Invalid
               && forall m :: 0 <= m < j ==> !Stops(stream[m], wait.awaiting)
      ensures j == k
    {
      assert Stops(stream[j], wait.awaiting);
    }
  }

  /** Once the submit starts, the inputs come back only if it was accepted and its stream holds an `Invalid`. */
  lemma SubmittedComesBackOnlyIfInvalid(path: Path, spent: SpentInputs, runtime: bool)
    requires SubmitStarted(path) && !IsEmpty(spent)
    ensures HandBacks(path, spent, runtime) == 1 ==>
              path.fate.Accepted? && Invalid in path.fate.progress
  {
    if RejectedForGood(path) {
      InvalidInStream(path.fate.progress, path.waits);
    }
  }

  lemma {:induction false} InvalidInStream(stream: seq<Status>, waits: seq<Wait>)
    requires SomeWaitReadsInvalid(stream, waits)
    ensures Invalid in stream
    decreases |waits|
  {
    if !ReadsInvalid(stream, waits[0].awaiting, waits[0].polls) {
      var rest := RestAfter(stream, waits[0]).value;
      InvalidInStream(rest, waits[1..]);
      RestIsSuffix(stream, waits[0]);
    }
  }

  lemma {:induction false} RestIsSuffix(stream: seq<Status>, wait: Wait)
    requires RestAfter(stream, wait).Some?
    ensures forall s :: s in RestAfter(stream, wait).value ==> s in stream
    decreases |stream|
  {
    if !Stops(stream[0], wait.awaiting) {
      RestIsSuffix(stream[1..], wait.(polls := wait.polls - 1));
    }
  }
}
