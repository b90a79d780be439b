/**
 From the events of a block to the settle of a call: how the verdict is read, how
 the wait hands it on, and that nothing else settles the call's snapshot.
 */
module Verdicts {
  import opened Wrappers
  import opened Snapshots
  import opened Journal
  import opened Reservation
  import opened CallProtocol

  /** An event of the transaction's extrinsic, as far as the verdict goes. */
  datatype Event = TxApplied | TxPartialSuccess | OtherEvent | Undecodable

  /** The first event that decides is at `i`. */
  ghost predicate DecidedAt(events: seq<Event>, i: nat) {
    i < |events| && events[i] != OtherEvent && forall k :: 0 <= k < i ==> events[k] == OtherEvent
  }

  /**
   `tx_in_block_with_verdict`. The first event that is no other decides, and one
   that cannot be decoded before it leaves no verdict; with none the dispatch failed.
   */
  method ReadVerdict(events: Option<seq<Event>>) returns (verdict: Option<Verdict>)
    ensures verdict == None <==>
              events.None? || exists i: nat :: DecidedAt(events.value, i) && events.value[i] == Undecodable
    ensures verdict == Some(Success) <==>
              events.Some? && exists i: nat :: DecidedAt(events.value, i) && events.value[i] == TxApplied
    ensures verdict == Some(PartialSuccess) <==>
              events.Some? && exists i: nat :: DecidedAt(events.value, i) && events.value[i] == TxPartialSuccess
    ensures verdict == Some(Failure) <==>
              events.Some? && forall k :: 0 <= k < |events.value| ==> events.value[k] == OtherEvent
  {
    if events.None? {
      return None;
    }
    for i := 0 to |events.value|
      invariant forall k :: 0 <= k < i ==> events.value[k] == OtherEvent
    {
      assert events.value[i] != OtherEvent ==> DecidedAt(events.value, i);
      match events.value[i] {
        case Undecodable => return None;
        case TxApplied => return Some(Success);
        case TxPartialSuccess => return Some(PartialSuccess);
        case OtherEvent =>
      }
    }
    return Some(Failure);
  }

  /** What the settle of a call makes of the end of its wait; a wait that is cut short is a deadline that passed. */
  function WaitedOf(end: WaitEnd, blockHash: Hash): (waited: Waited) {
    match end
    case Landed => Applied(blockHash)
    case NotApplied(_) => Waited.NotApplied
    case Failed(_) => NoVerdict
    case Cut => NoVerdict
  }

  /**
   A call's snapshot is touched only when the first status that ends the wait is a
   finalized block whose verdict was read: Success confirms it, any other verdict
   drops it. Whatever else ends the wait, the journal stays as it was.
   */
  lemma OnlyVerdictsSettle(
      j: Journal, address: Address, hash: Hash, stream: seq<Status>, polls: nat, blockHash: Hash, io: SettleIo)
    ensures var (after, r) := Settle(j, address, hash, true, WaitedOf(EndOf(stream, Final, polls), blockHash), io);
            && ((exists k: nat :: EndsAt(stream, Final, polls, k) && stream[k] == InFinalizedBlock(Some(Success))) ==>
                  after == Confirm(j, address, hash, None, blockHash, io.confirm).0)
            && ((exists k: nat, v :: EndsAt(stream, Final, polls, k) && stream[k] == InFinalizedBlock(Some(v))
                                     && v != Success) ==>
                  after == Rollback(j, address, hash, io.drop).0)
            && ((forall k: nat, v :: EndsAt(stream, Final, polls, k) ==> stream[k] != InFinalizedBlock(Some(v))) ==>
                  after == j && r == Err(SubmissionWait(hash, true)))
  {
    hide EndOf, Ends, Confirm, Rollback;
    WaitIsDecided(stream, Final, polls);
    var end := EndOf(stream, Final, polls);
    if k: nat, v :| EndsAt(stream, Final, polls, k) && stream[k] == InFinalizedBlock(Some(v)) {
      assert IsAwaited(stream[k], Final, Some(v));
      assert if v == Success then end == Landed else end == WaitEnd.NotApplied(v);
    } else {
      forall k: nat, v | EndsAt(stream, Final, polls, k) ensures !IsAwaited(stream[k], Final, Some(v)) {
      }
    }
  }
}
