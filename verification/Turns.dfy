/**
 The address lock as its callers meet it: who gets it, when it is free again, and
 that clients who wait for it all get their turn and all succeed.
 */
module Turns {
  import opened Wrappers
  import opened Snapshots
  import opened FindLeaf
  import opened Directory
  import opened Journal
  import opened JournalLaws
  import opened Store
  import opened Interleaving

  /** A free lock goes to the client that asks for it, and nobody else's call moves. */
  lemma FreeLockIsTaken(s: State, d: Client)
    requires PhaseOf(s, d).Waiting? && PhaseOf(s, d).waitingCall.address !in s.locks
    ensures var call, t := PhaseOf(s, d).waitingCall, Next(s, Acquire(d));
            && PhaseOf(t, d) == Inside(call, Entered) && t.locks == s.locks[call.address := d]
            && t.journals == s.journals && t.log == s.log
            && forall e :: e != d ==> PhaseOf(t, e) == PhaseOf(s, e)
  {
  }

  /**
   A lock that is held stays where it is: nobody enters, and its holder keeps it
   until the call is finished.
   */
  lemma HeldLockStays(s: State, c: Client, d: Client)
    ensures PhaseOf(s, d).Waiting? && PhaseOf(s, d).waitingCall.address in s.locks ==> Next(s, Acquire(d)) == s
    ensures PhaseOf(s, c).Inside? && !PhaseOf(s, c).spot.Finished? ==> Next(s, Release(c)) == s
  {
  }

  /** The end of a call frees its address, and a client that waits there enters next. */
  lemma LockIsHandedOn(s: State, c: Client, d: Client)
    requires PhaseOf(s, c).Inside? && PhaseOf(s, c).spot.Finished?
    requires PhaseOf(s, d).Waiting? && PhaseOf(s, d).waitingCall.address == PhaseOf(s, c).call.address
    ensures var a, t := PhaseOf(s, c).call.address, Next(s, Release(c));
            && PhaseOf(t, c) == Outside && a !in t.locks && t.journals == s.journals && t.log == s.log
            && PhaseOf(Next(t, Acquire(d)), d) == Inside(PhaseOf(s, d).waitingCall, Entered)
            && Next(t, Acquire(d)).locks == t.locks[a := d]
  {
    FreeLockIsTaken(Next(s, Release(c)), d);
  }

  /** A crash ends every call and frees every lock, and leaves the files as they are. */
  lemma CrashFreesLocks(s: State, d: Client, call: Call)
    ensures var t := Next(s, Crash);
            && t.locks == map[] && t.journals == s.journals && t.log == s.log
            && (forall c :: PhaseOf(t, c) == Outside)
            && PhaseOf(Next(Next(t, Begin(d, call)), Acquire(d)), d) == Inside(call, Entered)
  {
    var t := Next(s, Crash);
    FreeLockIsTaken(Next(t, Begin(d, call)), d);
  }

  // ---------------------------------------------------------------------------
  // Appends in turn
  // ---------------------------------------------------------------------------

  /** A whole append of one client: it takes the lock, checks, writes and releases. */
  function Turn(c: Client, nanos: nat): (steps: seq<Step>)
    ensures |steps| == 6
  {
    var done := StepIo(Written, false, nanos);
    [Acquire(c), Work(c, done), Work(c, done), Work(c, done), Work(c, done), Release(c)]
  }

  /** The journal of `a` holds the chain, under a marker that lets `a` in. */
  ghost predicate HoldsAt(s: State, a: Address, chain: seq<Snapshot>) {
    var j := JournalAt(s.journals, a);
    (j.marker == None || j.marker == Some(a)) && NamedByHash(j.files) && Holds(j.files, chain)
  }

  /** The client waits with an append of a new hash on the leaf of the chain. */
  ghost predicate WaitsOnLeaf(s: State, c: Client, call: Call, chain: seq<Snapshot>) {
    && PhaseOf(s, c) == Waiting(call) && call.AppendCall?
    && call.dependsOn == LastHash(chain) && !Taken(chain, call.hash)
  }

  function PendingOf(call: Call): (s: Snapshot)
    requires call.AppendCall?
  {
    PendingSnapshot(call.hash, call.dependsOn, call.data)
  }

  /** The steps inside the lock, up to the write: marker, hash and leaf are as the append needs them. */
  lemma ChecksPass(s: State, c: Client, call: Call, chain: seq<Snapshot>, nanos: nat)
    requires HoldsAt(s, call.address, chain) && WaitsOnLeaf(s, c, call, chain) && call.address !in s.locks
    ensures var t := Run(s, Turn(c, nanos), 4);
            && PhaseOf(t, c) == Inside(call, OnLeaf) && t.locks == s.locks[call.address := c] && t.log == s.log
            && FilesOf(t, call.address) == FilesOf(s, call.address)
            && JournalAt(t.journals, call.address).marker == Some(call.address)
            && (forall e :: e != c ==> PhaseOf(t, e) == PhaseOf(s, e))
  {
    hide Run, Next, EffectOf;
    var steps, io := Turn(c, nanos), StepIo(Written, false, nanos);
    var marked := JournalAt(s.journals, call.address).(marker := Some(call.address));
    ChecksOf(call, JournalAt(s.journals, call.address), chain, io);
    RunStart(s, steps);
    RunStep(s, steps, 0);
    FreeLockIsTaken(s, c);
    RunStep(s, steps, 1);
    WorkDoes(Run(s, steps, 1), c, call, Entered, io);
    RunStep(s, steps, 2);
    WorkDoes(Run(s, steps, 2), c, call, Marked, io);
    RunStep(s, steps, 3);
    WorkDoes(Run(s, steps, 3), c, call, HashIsFree, io);
  }

  /** What one step of work does to the state: its effect on the journal, and nothing to any other client. */
  lemma WorkDoes(s: State, c: Client, call: Call, spot: Spot, io: StepIo)
    requires PhaseOf(s, c) == Inside(call, spot)
    ensures var e, t := EffectOf(call, spot, JournalAt(s.journals, call.address), io), Next(s, Work(c, io));
            && PhaseOf(t, c) == Inside(call, e.spot) && JournalAt(t.journals, call.address) == e.journal
            && t.locks == s.locks && t.log == s.log + e.events
            && forall d :: d != c ==> PhaseOf(t, d) == PhaseOf(s, d)
  {
    hide EffectOf;
  }

  /** The three checks of an append of a new hash on the leaf all pass. */
  lemma ChecksOf(call: Call, j: Journal, chain: seq<Snapshot>, io: StepIo)
    requires call.AppendCall? && io.fate == Written && Holds(j.files, chain)
    requires j.marker == None || j.marker == Some(call.address)
    requires call.dependsOn == LastHash(chain) && !Taken(chain, call.hash)
    ensures var marked := j.(marker := Some(call.address));
            && EffectOf(call, Entered, j, io) == Effect(Marked, marked, [])
            && EffectOf(call, Marked, marked, io) == Effect(HashIsFree, marked, [])
            && EffectOf(call, HashIsFree, marked, io) == Effect(OnLeaf, marked, [])
  {
    hide Holds, Leaf, FindPath;
    HeadOfChain(j.files, chain);
    HoldsMembers(j.files, chain);
    forall f | f in j.files ensures j.files[f].extrinsicHash != call.hash {
      assert j.files[f] in chain;
    }
    var found := FindPath(j.files, call.hash);
  }

  lemma ReleaseDoes(s: State, c: Client, call: Call)
    requires PhaseOf(s, c) == Inside(call, Finished(true))
    ensures var t := Next(s, Release(c));
            && PhaseOf(t, c) == Outside && t.locks == s.locks - {call.address}
            && t.journals == s.journals && t.log == s.log
            && forall d :: d != c ==> PhaseOf(t, d) == PhaseOf(s, d)
  {
  }

  /** A turn succeeds: the call returns `Ok`, its snapshot is the new leaf, and the lock is free again. */
  lemma TurnSucceeds(s: State, c: Client, call: Call, chain: seq<Snapshot>, nanos: nat)
    requires HoldsAt(s, call.address, chain) && WaitsOnLeaf(s, c, call, chain) && call.address !in s.locks
    ensures PhaseOf(Run(s, Turn(c, nanos), 5), c) == Inside(call, Finished(true))
    ensures var t := Run(s, Turn(c, nanos), 6);
            && HoldsAt(t, call.address, chain + [PendingOf(call)])
            && PhaseOf(t, c) == Outside && t.locks == s.locks
            && t.log == s.log + [Landed(call.address, call.hash, call.dependsOn)]
            && (forall e :: e != c ==> PhaseOf(t, e) == PhaseOf(s, e))
  {
    hide Run, Next, Holds, Leaf, FindPath, Taken;
    var steps, files := Turn(c, nanos), FilesOf(s, call.address);
    ChecksPass(s, c, call, chain, nanos);
    RunStep(s, steps, 4);
    WorkDoes(Run(s, steps, 4), c, call, OnLeaf, StepIo(Written, false, nanos));
    RunStep(s, steps, 5);
    UntakenIsNew(files, chain, nanos, call.hash);
    InsertExtends(files, chain, File(nanos, call.hash), PendingOf(call));
    ReleaseDoes(Run(s, steps, 5), c, call);
    assert s.locks[call.address := c] - {call.address} == s.locks;
  }

  // ---------------------------------------------------------------------------
  // Any number of clients
  // ---------------------------------------------------------------------------

  datatype Ticket = Ticket(client: Client, call: Call, nanos: nat)

  /** Every client of the queue waits with an append for `a`, each on the hash of the one before it. */
  ghost predicate Queue(s: State, a: Address, chain: seq<Snapshot>, queue: seq<Ticket>) {
    && (forall i :: 0 <= i < |queue| ==>
          PhaseOf(s, queue[i].client) == Waiting(queue[i].call)
          && queue[i].call.AppendCall? && queue[i].call.address == a && !Taken(chain, queue[i].call.hash))
    && (queue != [] ==> queue[0].call.dependsOn == LastHash(chain))
    && (forall i, j | 0 <= i && j == i + 1 < |queue| :: queue[j].call.dependsOn == Some(queue[i].call.hash))
    && (forall i, j :: 0 <= i < j < |queue| ==>
          queue[i].client != queue[j].client && queue[i].call.hash != queue[j].call.hash)
  }

  /** The turns of the queue, one after the other. */
  function TurnsOf(queue: seq<Ticket>): (steps: seq<Step>)
    ensures |steps| == 6 * |queue|
  {
    if queue == [] then [] else Turn(queue[0].client, queue[0].nanos) + TurnsOf(queue[1..])
  }

  function PendingsOf(queue: seq<Ticket>): (snaps: seq<Snapshot>)
    requires forall i :: 0 <= i < |queue| ==> queue[i].call.AppendCall?
  {
    seq(|queue|, i requires 0 <= i < |queue| => PendingOf(queue[i].call))
  }

  lemma {:induction false} RunConcat(s: State, p: seq<Step>, q: seq<Step>, n: nat)
    requires n <= |q|
    ensures Run(s, p + q, |p| + n) == Run(Run(s, p, |p|), q, n)
  {
    hide Next;
    if n == 0 {
      RunPrefix(s, p, q, |p|);
    } else {
      RunConcat(s, p, q, n - 1);
    }
  }

  lemma {:induction false} RunPrefix(s: State, p: seq<Step>, q: seq<Step>, n: nat)
    requires n <= |p|
    ensures Run(s, p + q, n) == Run(s, p, n)
  {
    hide Next;
    if n > 0 {
      RunPrefix(s, p, q, n - 1);
    }
  }

  lemma QueueMovesUp(s: State, t: State, a: Address, chain: seq<Snapshot>, queue: seq<Ticket>)
    requires queue != [] && Queue(s, a, chain, queue)
    requires forall e :: e != queue[0].client ==> PhaseOf(t, e) == PhaseOf(s, e)
    ensures queue[0].call.AppendCall? && Queue(t, a, chain + [PendingOf(queue[0].call)], queue[1..])
  {
    var rest, longer := queue[1..], chain + [PendingOf(queue[0].call)];
    assert LastHash(longer) == Some(queue[0].call.hash);
    forall i | 0 <= i < |rest| ensures !Taken(longer, rest[i].call.hash) {
      assert rest[i] == queue[i + 1];
      assert queue[0].call.hash != queue[i + 1].call.hash;
    }
    forall i | 0 <= i < |rest| ensures PhaseOf(t, rest[i].client) == Waiting(rest[i].call) {
      assert rest[i] == queue[i + 1] && queue[0].client != queue[i + 1].client;
    }
    forall i, j | 0 <= i && j == i + 1 < |rest| ensures rest[j].call.dependsOn == Some(rest[i].call.hash) {
      assert rest[i] == queue[j] && rest[j] == queue[j + 1];
    }
    forall i, j | 0 <= i < j < |rest|
      ensures rest[i].client != rest[j].client && rest[i].call.hash != rest[j].call.hash
    {
      assert rest[i] == queue[i + 1] && rest[j] == queue[j + 1];
    }
  }

  /**
   Any number of clients that wait for one address, each with an append on what the
   one before it will leave, get their turns and all succeed: the journal is the
   old chain and all their snapshots in order, and the lock is free.
   */
  lemma {:induction false} EveryTurnSucceeds(s: State, a: Address, chain: seq<Snapshot>, queue: seq<Ticket>)
    requires HoldsAt(s, a, chain) && Queue(s, a, chain, queue) && a !in s.locks
    ensures var t := Run(s, TurnsOf(queue), 6 * |queue|);
            && HoldsAt(t, a, chain + PendingsOf(queue)) && t.locks == s.locks
            && (forall i :: 0 <= i < |queue| ==> PhaseOf(t, queue[i].client) == Outside)
            && (forall e :: (forall i :: 0 <= i < |queue| ==> queue[i].client != e) ==> PhaseOf(t, e) == PhaseOf(s, e))
    decreases |queue|
  {
    hide Run, Next, HoldsAt, Taken, TurnsOf;
    if queue == [] {
      assert chain + PendingsOf(queue) == chain;
      RunStart(s, TurnsOf(queue));
    } else {
      var first, rest := queue[0], queue[1..];
      FirstWaits(s, a, chain, queue);
      var steps := Turn(first.client, first.nanos);
      TurnSucceeds(s, first.client, first.call, chain, first.nanos);
      var t := Run(s, steps, 6);
      QueueMovesUp(s, t, a, chain, queue);
      EveryTurnSucceeds(t, a, chain + [PendingOf(first.call)], rest);
      TurnsSplit(queue);
      RunConcat(s, steps, TurnsOf(rest), 6 * |rest|);
      assert chain + [PendingOf(first.call)] + PendingsOf(rest) == chain + PendingsOf(queue);
      assert forall i :: 0 < i < |queue| ==> queue[i] == rest[i - 1];
    }
  }

  lemma FirstWaits(s: State, a: Address, chain: seq<Snapshot>, queue: seq<Ticket>)
    requires Queue(s, a, chain, queue) && queue != []
    ensures WaitsOnLeaf(s, queue[0].client, queue[0].call, chain) && queue[0].call.address == a
  {
    hide Taken;
  }

  lemma TurnsSplit(queue: seq<Ticket>)
    requires queue != []
    ensures TurnsOf(queue) == Turn(queue[0].client, queue[0].nanos) + TurnsOf(queue[1..])
  {
  }

  /**
   From a store with no call in progress: two clients begin an append each, the
   second on what the first will leave, and both succeed in turn.
   */
  lemma TwoAppendsInTurn(
      s: State, a: Address, chain: seq<Snapshot>, first: Ticket, second: Ticket)
    requires Start(s) && HoldsAt(s, a, chain)
    requires first.call.AppendCall? && second.call.AppendCall? && first.client != second.client
    requires first.call.address == a == second.call.address
    requires first.call.hash != second.call.hash && !Taken(chain, first.call.hash) && !Taken(chain, second.call.hash)
    requires first.call.dependsOn == LastHash(chain) && second.call.dependsOn == Some(first.call.hash)
    ensures var begun := [Begin(first.client, first.call), Begin(second.client, second.call)];
            var t := Run(s, begun + TurnsOf([first, second]), 14);
            && HoldsAt(t, a, chain + [PendingOf(first.call), PendingOf(second.call)])
            && PhaseOf(t, first.client) == Outside && PhaseOf(t, second.client) == Outside && t.locks == map[]
  {
    hide Run, Holds, Taken, TurnsOf, NamedByHash;
    var begun, queue := [Begin(first.client, first.call), Begin(second.client, second.call)], [first, second];
    RunStart(s, begun);
    RunStep(s, begun, 0);
    RunStep(s, begun, 1);
    var waiting := Run(s, begun, 2);
    EveryTurnSucceeds(waiting, a, chain, queue);
    RunConcat(s, begun, TurnsOf(queue), 12);
    assert queue[0] == first && queue[1] == second;
    assert PendingsOf(queue) == [PendingOf(first.call), PendingOf(second.call)];
  }
}
