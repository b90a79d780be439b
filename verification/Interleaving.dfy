/**
 Any number of clients on one store, under the per-address lock, at the grain of
 single file operations: a call takes the lock, reads the directory, writes or
 removes one file at a time, and releases. The process can crash anywhere.
 */
module Interleaving {
  import opened Wrappers
  import opened Snapshots
  import opened FindLeaf
  import opened Directory
  import opened Journal
  import opened JournalLaws
  import opened CascadeLaws
  import opened Store

  type Client = nat

  datatype Call =
    | AppendCall(address: Address, hash: Hash, dependsOn: Option<Hash>, data: Bytes)
    | ConfirmCall(address: Address, hash: Hash, height: Option<u64>, blockHash: Hash)
    | DropCall(address: Address, hash: Hash)

  /** Where a call is, once it holds the lock. */
  datatype Spot =
    | Entered
    | Marked
    | HashIsFree
    | OnLeaf
    | Cleaning(file: File)
    | Found(path: File)
    | Dropping(base: Files, left: nat)
    | Finished(ok: bool)

  datatype Phase = Outside | Waiting(waitingCall: Call) | Inside(call: Call, spot: Spot)

  /** A snapshot file that appeared after its parent, or that was removed. */
  datatype Event = Landed(address: Address, hash: Hash, parent: Option<Hash>) | Removed(address: Address, hash: Hash)

  datatype State = State(
    journals: Journals, phases: map<Client, Phase>, locks: map<Address, Client>, log: seq<Event>)

  /** How the file system and the clock answer one step. */
  datatype StepIo = StepIo(fate: WriteFate, removed: bool, nanos: nat)

  datatype Step =
    | Begin(client: Client, newCall: Call)
    | Acquire(client: Client)
    | Work(client: Client, io: StepIo)
    | Release(client: Client)
    | Crash

  datatype Effect = Effect(spot: Spot, journal: Journal, events: seq<Event>)

  function PhaseOf(s: State, c: Client): (p: Phase) {
    if c in s.phases then s.phases[c] else Outside
  }

  ghost function FilesOf(s: State, a: Address): (files: Files) {
    JournalAt(s.journals, a).files
  }

  // ---------------------------------------------------------------------------
  // The steps
  // ---------------------------------------------------------------------------

  ghost function AppendEffect(call: Call, spot: Spot, j: Journal, io: StepIo): (e: Effect)
    requires call.AppendCall?
  {
    match spot
    case Entered =>
      var (marked, ensured) := EnsureMarker(j, call.address, io.fate);
      Effect(if ensured.Ok? then Marked else Finished(false), marked, [])
    case Marked =>
      Effect(if FindPath(j.files, call.hash).Some? then Finished(false) else HashIsFree, j, [])
    case HashIsFree =>
      var head := Head(j.files);
      Effect(if head.Ok? && HashOf(head.value) == call.dependsOn then OnLeaf else Finished(false), j, [])
    case OnLeaf =>
      var file := File(io.nanos, call.hash);
      if io.fate == NotWritten then Effect(Cleaning(file), j, [])
      else
        Effect(if io.fate == Written then Finished(true) else Cleaning(file),
               j.(files := j.files[file := PendingSnapshot(call.hash, call.dependsOn, call.data)]),
               [Landed(call.address, call.hash, call.dependsOn)])
    case Cleaning(file) =>
      if io.removed && file in j.files
      then Effect(Finished(false), j.(files := j.files - {file}), [Removed(call.address, call.hash)])
      else Effect(Finished(false), j, [])
    case _ => Effect(spot, j, [])
  }

  ghost function ConfirmEffect(call: Call, spot: Spot, j: Journal, io: StepIo): (e: Effect)
    requires call.ConfirmCall?
  {
    match spot
    case Entered =>
      var path := FindPath(j.files, call.hash);
      Effect(if path.Some? then Found(path.value) else Finished(false), j, [])
    case Found(path) =>
      var (after, r) := Confirm(j, call.address, call.hash, call.height, call.blockHash, io.fate);
      Effect(Finished(r.Ok?), after, [])
    case _ => Effect(spot, j, [])
  }

  ghost function DropEffect(call: Call, spot: Spot, j: Journal, io: StepIo): (e: Effect)
    requires call.DropCall?
  {
    match spot
    case Entered =>
      if FindPath(j.files, call.hash).None? then Effect(Finished(false), j, [])
      else Effect(Dropping(j.files, |Doomed(j.files, call.hash)|), j, [])
    case Dropping(base, left) =>
      var doomed := Doomed(base, call.hash);
      if left == 0 || left > |doomed| then Effect(Finished(io.fate == Written), j, [])
      else if !io.removed || doomed[left - 1] !in PathByHash(base) then Effect(Finished(false), j, [])
      else
        Effect(Dropping(base, left - 1), j.(files := j.files - {PathByHash(base)[doomed[left - 1]]}),
               [Removed(call.address, doomed[left - 1])])
    case _ => Effect(spot, j, [])
  }

  ghost function EffectOf(call: Call, spot: Spot, j: Journal, io: StepIo): (e: Effect) {
    match call
    case AppendCall(_, _, _, _) => AppendEffect(call, spot, j, io)
    case ConfirmCall(_, _, _, _) => ConfirmEffect(call, spot, j, io)
    case DropCall(_, _) => DropEffect(call, spot, j, io)
  }

  /** One step of the system; a step that is not enabled changes nothing. */
  ghost function Next(s: State, step: Step): (t: State) {
    match step
    case Begin(c, call) =>
      if PhaseOf(s, c).Outside? then s.(phases := s.phases[c := Waiting(call)]) else s
    case Acquire(c) =>
      var p := PhaseOf(s, c);
      if p.Waiting? && p.waitingCall.address !in s.locks
      then s.(phases := s.phases[c := Inside(p.waitingCall, Entered)], locks := s.locks[p.waitingCall.address := c])
      else s
    case Work(c, io) =>
      var p := PhaseOf(s, c);
      if !p.Inside? then s
      else
        var e := EffectOf(p.call, p.spot, JournalAt(s.journals, p.call.address), io);
        s.(journals := s.journals[p.call.address := e.journal],
           phases := s.phases[c := Inside(p.call, e.spot)],
           log := s.log + e.events)
    case Release(c) =>
      var p := PhaseOf(s, c);
      if p.Inside? && p.spot.Finished?
      then s.(phases := s.phases[c := Outside], locks := s.locks - {p.call.address})
      else s
    case Crash => s.(phases := map[], locks := map[])
  }

  ghost function Run(s: State, steps: seq<Step>, n: nat): (t: State)
    requires n <= |steps|
  {
    if n == 0 then s else Next(Run(s, steps, n - 1), steps[n - 1])
  }

  // ---------------------------------------------------------------------------
  // The invariant
  // ---------------------------------------------------------------------------

  /** Some snapshot on disk has hash `h` and names `parent`. */
  ghost predicate HasLink(files: Files, h: Hash, parent: Option<Hash>) {
    exists f :: f in files && files[f].extrinsicHash == h && files[f].dependsOn == parent
  }

  /** The leaf of the directory is `leaf`. */
  ghost predicate LeafIs(files: Files, leaf: Option<Hash>) {
    Head(files).Ok? && HashOf(Head(files).value) == leaf
  }

  /** What a client inside the lock knows about its directory. */
  ghost predicate SpotOk(call: Call, spot: Spot, files: Files) {
    match spot
    case HashIsFree => call.AppendCall? && !OnDisk(files, call.hash)
    case OnLeaf => call.AppendCall? && !OnDisk(files, call.hash) && LeafIs(files, call.dependsOn)
    case Cleaning(file) =>
      && call.AppendCall?
      && WellFormed(files - {file})
      && (file in files ==> files[file].extrinsicHash == call.hash)
    case Dropping(base, left) =>
      && call.DropCall?
      && WellFormed(base) && OnDisk(base, call.hash)
      && left <= |Doomed(base, call.hash)|
      && files == AfterRemovals(base, call.hash, |Doomed(base, call.hash)| - left)
    case Finished(ok) => call.AppendCall? && ok ==> HasLink(files, call.hash, call.dependsOn)
    case _ => true
  }

  ghost predicate ClientOk(s: State, c: Client) {
    var p := PhaseOf(s, c);
    p.Inside? ==>
      && p.call.address in s.locks && s.locks[p.call.address] == c
      && SpotOk(p.call, p.spot, FilesOf(s, p.call.address))
  }

  ghost predicate RemovedAfter(log: seq<Event>, i: nat, a: Address, h: Hash) {
    exists k :: i < k < |log| && log[k] == Removed(a, h)
  }

  /** Everything that landed and was not removed since is on disk. */
  ghost predicate LogOk(s: State) {
    forall i :: 0 <= i < |s.log| && s.log[i].Landed? ==>
      || RemovedAfter(s.log, i, s.log[i].address, s.log[i].hash)
      || HasLink(FilesOf(s, s.log[i].address), s.log[i].hash, s.log[i].parent)
  }

  ghost predicate Invariant(s: State) {
    && (forall a :: WellFormed(FilesOf(s, a)))
    && (forall c :: ClientOk(s, c))
    && LogOk(s)
  }

  /** Every file of `before` is still there, with the same hash and parent. */
  ghost predicate FilesStay(before: Files, after: Files) {
    forall f :: f in before ==>
      f in after && after[f].extrinsicHash == before[f].extrinsicHash && after[f].dependsOn == before[f].dependsOn
  }

  ghost function Less(files: Files, f: File): (r: Files) {
    files - {f}
  }

  /** One file is gone, and nothing else has changed. */
  ghost predicate OneGone(before: Files, after: Files) {
    exists f :: after == Less(before, f)
  }

  /** What one effect does to the directory, link by link. */
  ghost predicate Follows(before: Files, after: Files, a: Address, events: seq<Event>) {
    && (events == [] || events[0].Landed? ==> FilesStay(before, after))
    && (events == [] ==> forall h, p :: HasLink(before, h, p) <==> HasLink(after, h, p))
    && (events != [] ==>
          |events| == 1 && events[0].address == a
          && match events[0]
             case Landed(_, h, parent) =>
               LeafIs(before, parent) && !OnDisk(before, h) && HasLink(after, h, parent)
               && forall g, p :: HasLink(before, g, p) ==> HasLink(after, g, p)
             case Removed(_, h) =>
               OneGone(before, after)
               && forall g, p :: g != h && HasLink(before, g, p) ==> HasLink(after, g, p))
  }

  // ---------------------------------------------------------------------------
  // One effect
  // ---------------------------------------------------------------------------

  lemma SameFollows(files: Files, a: Address)
    ensures Follows(files, files, a, [])
  {
  }

  lemma LeafChain(files: Files, leaf: Option<Hash>) returns (chain: seq<Snapshot>)
    requires LeafIs(files, leaf)
    ensures Holds(files, chain) && LastHash(chain) == leaf
  {
    hide Leaf, Holds;
    chain := ChainOfHead(files);
    HeadOfChain(files, chain);
  }

  lemma InsertLands(files: Files, a: Address, f: File, s: Snapshot)
    requires WellFormed(files) && LeafIs(files, s.dependsOn) && !OnDisk(files, s.extrinsicHash)
    requires f.hash == s.extrinsicHash
    ensures f !in files && files[f := s] - {f} == files
    ensures WellFormed(files[f := s]) && HasLink(files[f := s], s.extrinsicHash, s.dependsOn)
    ensures Follows(files, files[f := s], a, [Landed(a, s.extrinsicHash, s.dependsOn)])
  {
    hide Holds, LeafIs;
    var after := files[f := s];
    var chain := LeafChain(files, s.dependsOn);
    assert f !in files;
    assert after - {f} == files;
    InsertExtends(files, chain, f, s);
    assert after[f] == s;
    forall g, p | HasLink(files, g, p) ensures HasLink(after, g, p) {
      var k :| k in files && files[k].extrinsicHash == g && files[k].dependsOn == p;
      assert after[k] == files[k];
    }
  }

  lemma RemoveFollows(files: Files, a: Address, f: File, h: Hash)
    requires f in files ==> files[f].extrinsicHash == h
    ensures Follows(files, files - {f}, a, [Removed(a, h)])
  {
    assert files - {f} == Less(files, f);
    forall g, p | g != h && HasLink(files, g, p) ensures HasLink(files - {f}, g, p) {
      var k :| k in files && files[k].extrinsicHash == g && files[k].dependsOn == p;
      assert k in files - {f};
    }
  }

  /** A client's effect keeps the chain, leaves the client with true knowledge, and changes only the links it logs. */
  ghost predicate GoodEffect(call: Call, before: Files, e: Effect) {
    && WellFormed(e.journal.files)
    && SpotOk(call, e.spot, e.journal.files)
    && Follows(before, e.journal.files, call.address, e.events)
  }

  lemma AppendEffectGood(call: Call, spot: Spot, j: Journal, io: StepIo)
    requires call.AppendCall? && WellFormed(j.files) && SpotOk(call, spot, j.files)
    ensures GoodEffect(call, j.files, AppendEffect(call, spot, j, io))
  {
    hide WellFormed, Leaf, FindPath, Follows, HasLink;
    SameFollows(j.files, call.address);
    match spot
    case Marked => OnDiskHashes(j.files);
    case HashIsFree =>
    case OnLeaf =>
      var file, s := File(io.nanos, call.hash), PendingSnapshot(call.hash, call.dependsOn, call.data);
      InsertLands(j.files, call.address, file, s);
      assert j.files - {file} == j.files;
    case Cleaning(file) =>
      RemoveFollows(j.files, call.address, file, call.hash);
    case _ =>
  }

  lemma ConfirmFilesStay(j: Journal, a: Address, hash: Hash, height: Option<u64>, blockHash: Hash, fate: WriteFate)
    ensures FilesStay(j.files, Confirm(j, a, hash, height, blockHash, fate).0.files)
  {
    hide FindPath;
  }

  lemma ConfirmFollows(j: Journal, a: Address, hash: Hash, height: Option<u64>, blockHash: Hash, fate: WriteFate)
    ensures Follows(j.files, Confirm(j, a, hash, height, blockHash, fate).0.files, a, [])
  {
    hide FindPath, FilesStay;
    var after := Confirm(j, a, hash, height, blockHash, fate).0.files;
    ConfirmFilesStay(j, a, hash, height, blockHash, fate);
    assert after.Keys == j.files.Keys;
    forall f | f in after
      ensures after[f].extrinsicHash == j.files[f].extrinsicHash && after[f].dependsOn == j.files[f].dependsOn
    {
    }
    SameLinksFollow(j.files, after);
  }

  lemma SameLinksFollow(before: Files, after: Files)
    requires after.Keys == before.Keys
    requires forall f :: f in after ==>
               after[f].extrinsicHash == before[f].extrinsicHash && after[f].dependsOn == before[f].dependsOn
    ensures forall h, p :: HasLink(before, h, p) <==> HasLink(after, h, p)
  {
    forall h, p ensures HasLink(before, h, p) <==> HasLink(after, h, p) {
      if HasLink(before, h, p) {
        var f :| f in before && before[f].extrinsicHash == h && before[f].dependsOn == p;
        assert f in after;
      }
      if HasLink(after, h, p) {
        var f :| f in after && after[f].extrinsicHash == h && after[f].dependsOn == p;
        assert f in before;
      }
    }
  }

  lemma ConfirmEffectGood(call: Call, spot: Spot, j: Journal, io: StepIo)
    requires call.ConfirmCall? && WellFormed(j.files) && SpotOk(call, spot, j.files)
    ensures GoodEffect(call, j.files, ConfirmEffect(call, spot, j, io))
  {
    hide WellFormed, FindPath, Follows, Confirm;
    SameFollows(j.files, call.address);
    ConfirmFollows(j, call.address, call.hash, call.height, call.blockHash, io.fate);
    ConfirmKeepsWellFormed(j, call.address, call.hash, call.height, call.blockHash, io.fate);
  }

  lemma DropStarts(files: Files, start: Hash)
    requires WellFormed(files) && FindPath(files, start).Some?
    ensures OnDisk(files, start) && files == AfterRemovals(files, start, 0)
  {
    hide Doomed, FindPath, PathByHash;
    OnDiskHashes(files);
    NothingGone(files, PathByHash(files), Doomed(files, start));
  }

  lemma DropRemovesOne(base: Files, start: Hash, left: nat)
    requires WellFormed(base) && OnDisk(base, start) && 0 < left <= |Doomed(base, start)|
    ensures var doomed, paths := Doomed(base, start), PathByHash(base);
            var before := AfterRemovals(base, start, |doomed| - left);
            var after := AfterRemovals(base, start, |doomed| - (left - 1));
            && WellFormed(before) && WellFormed(after)
            && doomed[left - 1] in paths
            && after == before - {paths[doomed[left - 1]]}
            && (paths[doomed[left - 1]] in before ==>
                  before[paths[doomed[left - 1]]].extrinsicHash == doomed[left - 1])
  {
    hide Doomed, PathByHash, FindPath, WellFormed;
    var doomed, paths := Doomed(base, start), PathByHash(base);
    OnDiskHashes(base);
    DoomedHasPath(base, start);
    WithoutOneMore(base, paths, doomed, left);
    RollbackKeepsWellFormed(Journal(None, base), "", start, DropIo(|doomed| - left, true));
    RollbackKeepsWellFormed(Journal(None, base), "", start, DropIo(|doomed| - (left - 1), true));
  }

  lemma DropEffectGood(call: Call, spot: Spot, j: Journal, io: StepIo)
    requires call.DropCall? && WellFormed(j.files) && SpotOk(call, spot, j.files)
    ensures GoodEffect(call, j.files, DropEffect(call, spot, j, io))
  {
    hide WellFormed, FindPath, Follows, PathByHash, Doomed, AfterRemovals, OnDisk;
    SameFollows(j.files, call.address);
    match spot
    case Entered =>
      if FindPath(j.files, call.hash).Some? {
        DropStarts(j.files, call.hash);
      }
    case Dropping(base, left) =>
      if left > 0 {
        var doomed := Doomed(base, call.hash);
        DropRemovesOne(base, call.hash, left);
        RemoveFollows(j.files, call.address, PathByHash(base)[doomed[left - 1]], doomed[left - 1]);
      }
    case _ =>
  }

  /** One removal of a cascade, or the stop instead of it. */
  lemma DropStep(call: Call, base: Files, left: nat, j: Journal, io: StepIo)
    requires call.DropCall? && WellFormed(base) && OnDisk(base, call.hash)
    requires 0 < left <= |Doomed(base, call.hash)|
    requires j.files == AfterRemovals(base, call.hash, |Doomed(base, call.hash)| - left)
    ensures var e := DropEffect(call, Dropping(base, left), j, io);
            && e.spot == (if io.removed then Dropping(base, left - 1) else Finished(false))
            && e.journal
               == if io.removed
                  then j.(files := AfterRemovals(base, call.hash, |Doomed(base, call.hash)| - (left - 1))) else j
  {
    hide WellFormed, PathByHash, Doomed, AfterRemovals, OnDisk;
    DropRemovesOne(base, call.hash, left);
  }

  lemma EffectGood(call: Call, spot: Spot, j: Journal, io: StepIo)
    requires WellFormed(j.files) && SpotOk(call, spot, j.files)
    ensures GoodEffect(call, j.files, EffectOf(call, spot, j, io))
  {
    hide GoodEffect, SpotOk, WellFormed;
    match call
    case AppendCall(_, _, _, _) => AppendEffectGood(call, spot, j, io);
    case ConfirmCall(_, _, _, _) => ConfirmEffectGood(call, spot, j, io);
    case DropCall(_, _) => DropEffectGood(call, spot, j, io);
  }

  // ---------------------------------------------------------------------------
  // One step
  // ---------------------------------------------------------------------------

  lemma {:induction false} WorkKeepsClients(s: State, c: Client, io: StepIo)
    requires Invariant(s) && PhaseOf(s, c).Inside?
    ensures forall d :: ClientOk(Next(s, Work(c, io)), d)
    ensures forall a :: WellFormed(FilesOf(Next(s, Work(c, io)), a))
    ensures var p := PhaseOf(s, c);
            var e := EffectOf(p.call, p.spot, JournalAt(s.journals, p.call.address), io);
            Follows(FilesOf(s, p.call.address), e.journal.files, p.call.address, e.events)
  {
    hide SpotOk, WellFormed, EffectOf, Follows, LogOk;
    var p, t := PhaseOf(s, c), Next(s, Work(c, io));
    assert ClientOk(s, c);
    assert WellFormed(FilesOf(s, p.call.address));
    EffectGood(p.call, p.spot, JournalAt(s.journals, p.call.address), io);
    forall d ensures ClientOk(t, d) {
      assert ClientOk(s, d);
    }
    forall a ensures WellFormed(FilesOf(t, a)) {
      assert WellFormed(FilesOf(s, a));
    }
  }

  lemma LogGrows(s: State, t: State, a: Address, events: seq<Event>)
    requires LogOk(s) && t.log == s.log + events
    requires forall b :: b != a ==> FilesOf(t, b) == FilesOf(s, b)
    requires Follows(FilesOf(s, a), FilesOf(t, a), a, events)
    ensures LogOk(t)
  {
    hide HasLink, LeafIs, OnDisk, FilesOf;
    forall i | 0 <= i < |t.log| && t.log[i].Landed?
      ensures RemovedAfter(t.log, i, t.log[i].address, t.log[i].hash)
           || HasLink(FilesOf(t, t.log[i].address), t.log[i].hash, t.log[i].parent)
    {
      if i < |s.log| {
        assert t.log[i] == s.log[i];
        var b, h := s.log[i].address, s.log[i].hash;
        if RemovedAfter(s.log, i, b, h) {
          var k :| i < k < |s.log| && s.log[k] == Removed(b, h);
          assert t.log[k] == Removed(b, h);
        } else if events == [Removed(b, h)] {
          assert t.log[|s.log|] == Removed(b, h);
        }
      } else {
        assert t.log[i] == events[0];
      }
    }
  }

  lemma NextKeepsInvariant(s: State, step: Step)
    requires Invariant(s)
    ensures Invariant(Next(s, step))
  {
    hide WellFormed, SpotOk, EffectOf, Follows, HasLink, LogOk;
    var t := Next(s, step);
    if step.Work? && PhaseOf(s, step.client).Inside? {
      var p := PhaseOf(s, step.client);
      WorkKeepsClients(s, step.client, step.io);
      var e := EffectOf(p.call, p.spot, JournalAt(s.journals, p.call.address), step.io);
      LogGrows(s, t, p.call.address, e.events);
    } else {
      QuietKeepsClients(s, step);
      SameFollows(FilesOf(s, ""), "");
      LogGrows(s, t, "", []);
      forall a ensures WellFormed(FilesOf(t, a)) {
        assert WellFormed(FilesOf(s, a));
      }
    }
  }

  lemma QuietKeepsClients(s: State, step: Step)
    requires (forall c :: ClientOk(s, c)) && !(step.Work? && PhaseOf(s, step.client).Inside?)
    ensures Next(s, step).log == s.log && Next(s, step).journals == s.journals
    ensures forall c :: ClientOk(Next(s, step), c)
  {
    hide EffectOf, HasLink, OnDisk, WellFormed, LeafIs, Doomed, AfterRemovals;
    var t := Next(s, step);
    forall c ensures ClientOk(t, c) {
      assert ClientOk(s, c);
      if step.Release? {
        assert ClientOk(s, step.client);
      }
    }
  }

  // ---------------------------------------------------------------------------
  // Every run
  // ---------------------------------------------------------------------------

  /** A store whose journals are chains, with no call in progress. */
  ghost predicate Start(s: State) {
    s.phases == map[] && s.locks == map[] && s.log == [] && forall a :: WellFormed(FilesOf(s, a))
  }

  lemma {:induction false} RunKeepsInvariant(s: State, steps: seq<Step>, n: nat)
    requires Start(s) && n <= |steps|
    ensures Invariant(Run(s, steps, n))
  {
    hide Next, WellFormed;
    if n > 0 {
      RunKeepsInvariant(s, steps, n - 1);
      NextKeepsInvariant(Run(s, steps, n - 1), steps[n - 1]);
    }
  }

  /**
   In every reachable state of every interleaving, mid-write, mid-cascade and
   after a crash, each journal is one chain, and a read of the whole directory at
   once finds its head. The reads that take no lock go file by file: `UnlockedReads`
   is about them.
   */
  lemma EveryStateIsChains(s: State, steps: seq<Step>, n: nat, a: Address)
    requires Start(s) && n <= |steps|
    ensures exists chain :: Holds(FilesOf(Run(s, steps, n), a), chain)
    ensures Head(FilesOf(Run(s, steps, n), a)).Ok?
  {
    hide Leaf, Holds;
    RunKeepsInvariant(s, steps, n);
    var files := FilesOf(Run(s, steps, n), a);
    assert WellFormed(files);
    var chain :| Holds(files, chain);
    HeadOfChain(files, chain);
  }

  /** An append that is about to return `Ok` has its snapshot on disk, after the parent it named. */
  lemma SuccessIsOnDisk(s: State, steps: seq<Step>, n: nat, c: Client)
    requires Start(s) && n <= |steps|
    ensures var p := PhaseOf(Run(s, steps, n), c);
            p.Inside? && p.call.AppendCall? && p.spot == Finished(true) ==>
              HasLink(FilesOf(Run(s, steps, n), p.call.address), p.call.hash, p.call.dependsOn)
  {
    hide WellFormed, HasLink, Run;
    RunKeepsInvariant(s, steps, n);
    assert ClientOk(Run(s, steps, n), c);
  }

  /** What step `n` adds to the log, and what it does to a directory. */
  lemma StepFollows(s: State, steps: seq<Step>, n: nat, a: Address) returns (events: seq<Event>)
    requires Start(s) && n < |steps|
    ensures Run(s, steps, n + 1).log == Run(s, steps, n).log + events && |events| <= 1
    ensures events != [] && events[0].address == a ==>
              Follows(FilesOf(Run(s, steps, n), a), FilesOf(Run(s, steps, n + 1), a), a, events)
    ensures events == [] || events[0].address != a ==>
              Follows(FilesOf(Run(s, steps, n), a), FilesOf(Run(s, steps, n + 1), a), a, [])
  {
    hide WellFormed, SpotOk, EffectOf;
    RunKeepsInvariant(s, steps, n);
    var now, step := Run(s, steps, n), steps[n];
    SameFollows(FilesOf(now, a), a);
    events := [];
    if step.Work? && PhaseOf(now, step.client).Inside? {
      var p := PhaseOf(now, step.client);
      WorkKeepsClients(now, step.client, step.io);
      events := EffectOf(p.call, p.spot, JournalAt(now.journals, p.call.address), step.io).events;
    }
  }

  /** On a directory whose leaf is `d`, nothing names `d` yet. */
  lemma NothingNamesLeaf(files: Files, d: Option<Hash>, h: Hash)
    requires LeafIs(files, d)
    ensures !HasLink(files, h, d)
  {
    hide Holds, LeafIs;
    if HasLink(files, h, d) {
      var chain := LeafChain(files, d);
      var f :| f in files && files[f].extrinsicHash == h && files[f].dependsOn == d;
      var m := PositionOf(files, chain, f);
      HoldsIsChain(files, chain);
      LinkedParent(chain, m);
    }
  }

  /** What landed and is no longer linked was removed since. */
  lemma RemovedSince(s: State, i: nat) returns (k: nat)
    requires Invariant(s) && i < |s.log| && s.log[i].Landed?
    requires !HasLink(FilesOf(s, s.log[i].address), s.log[i].hash, s.log[i].parent)
    ensures i < k < |s.log| && s.log[k] == Removed(s.log[i].address, s.log[i].hash)
  {
    hide WellFormed, ClientOk, HasLink, FilesOf;
    assert RemovedAfter(s.log, i, s.log[i].address, s.log[i].hash);
    k :| i < k < |s.log| && s.log[k] == Removed(s.log[i].address, s.log[i].hash);
  }

  /**
   Two appends never both land on one leaf: between two snapshots that name the
   same parent, the first was removed. This counts an append that failed and
   left its file.
   */
  lemma {:induction false} OneChildPerLeaf(s: State, steps: seq<Step>, n: nat, i: nat, j: nat)
    requires Start(s) && n <= |steps| && i < j < |Run(s, steps, n).log|
    requires Run(s, steps, n).log[i].Landed? && Run(s, steps, n).log[j].Landed?
    requires Run(s, steps, n).log[i].address == Run(s, steps, n).log[j].address
    requires Run(s, steps, n).log[i].parent == Run(s, steps, n).log[j].parent
    ensures var log := Run(s, steps, n).log;
            exists k :: i < k < j && log[k] == Removed(log[i].address, log[i].hash)
    decreases n
  {
    hide Next, HasLink, LeafIs, OnDisk, FilesOf, Invariant, WellFormed;
    if n > 0 {
      var log, before := Run(s, steps, n).log, Run(s, steps, n - 1);
      var events := StepFollows(s, steps, n - 1, log[i].address);
      if j < |before.log| {
        OneChildPerLeaf(s, steps, n - 1, i, j);
        var k :| i < k < j && before.log[k] == Removed(log[i].address, log[i].hash);
        assert log[k] == before.log[k];
      } else {
        RunKeepsInvariant(s, steps, n - 1);
        var a, h, d := log[i].address, log[i].hash, log[i].parent;
        assert before.log[i] == log[i] && log[j] == events[0];
        NothingNamesLeaf(FilesOf(before, a), d, h);
        var k := RemovedSince(before, i);
        assert log[k] == before.log[k];
      }
    }
  }

  /** The leaf moves only with the links. */
  lemma SameLinksSameLeaf(before: Files, after: Files, a: Address, d: Option<Hash>)
    requires WellFormed(before) && WellFormed(after) && LeafIs(before, d) && Follows(before, after, a, [])
    ensures LeafIs(after, d)
  {
    hide Holds, Leaf;
    var chain := LeafChain(before, d);
    var next :| Holds(after, next);
    HeadOfChain(after, next);
    var e := LastHash(next);
    assert LeafIs(after, e);
    if d.Some? {
      LeafNamed(before, chain, d.value);
    }
    if e.Some? {
      LeafNamed(after, next, e.value);
    }
    if d != e {
      if d.Some? {
        var p :| HasLink(after, d.value, p);
        NotLastHasChild(after, next, d.value, p);
        var h :| HasLink(after, h, d);
        assert HasLink(before, h, d);
        NothingNamesLeaf(before, d, h);
      } else {
        var p :| HasLink(before, e.value, p);
        NothingInEmpty(before, chain, e.value, p);
      }
    }
  }

  lemma LeafNamed(files: Files, chain: seq<Snapshot>, h: Hash)
    requires Holds(files, chain) && LastHash(chain) == Some(h)
    ensures exists p :: HasLink(files, h, p)
  {
    hide Holds;
    HoldsMembers(files, chain);
    var last := chain[|chain| - 1];
    assert last in chain;
    var f :| f in files && files[f] == last;
    assert HasLink(files, h, last.dependsOn);
  }

  lemma NotLastHasChild(files: Files, chain: seq<Snapshot>, h: Hash, p: Option<Hash>)
    requires Holds(files, chain) && HasLink(files, h, p) && LastHash(chain) != Some(h)
    ensures exists g :: HasLink(files, g, Some(h))
  {
    hide Holds;
    HoldsMembers(files, chain);
    HoldsIsChain(files, chain);
    var f :| f in files && files[f].extrinsicHash == h && files[f].dependsOn == p;
    var m := PositionOf(files, chain, f);
    LinkedParent(chain, m + 1);
    assert chain[m + 1] in chain;
    var g :| g in files && files[g] == chain[m + 1];
    assert HasLink(files, files[g].extrinsicHash, Some(h));
  }

  lemma NothingInEmpty(files: Files, chain: seq<Snapshot>, h: Hash, p: Option<Hash>)
    requires Holds(files, chain) && LastHash(chain) == None
    ensures !HasLink(files, h, p)
  {
    hide Holds;
    HoldsMembers(files, chain);
  }

  /** Some append landed on leaf `d` of `a` between two states of the run. */
  ghost predicate LandedSince(log: seq<Event>, from: nat, a: Address, d: Option<Hash>) {
    exists k :: from <= k < |log| && log[k].Landed? && log[k].address == a && log[k].parent == d
  }

  ghost predicate NoneRemovedSince(log: seq<Event>, from: nat, a: Address) {
    forall k :: from <= k < |log| ==> !(log[k].Removed? && log[k].address == a)
  }

  /** While nothing is removed, a leaf stays the leaf until an append lands on it. */
  lemma {:induction false} LeafStaysOrLands(s: State, steps: seq<Step>, m: nat, n: nat, a: Address, d: Option<Hash>)
    requires Start(s) && m <= n <= |steps|
    requires LeafIs(FilesOf(Run(s, steps, m), a), d)
    requires NoneRemovedSince(Run(s, steps, n).log, |Run(s, steps, m).log|, a)
    ensures |Run(s, steps, m).log| <= |Run(s, steps, n).log|
    ensures || LeafIs(FilesOf(Run(s, steps, n), a), d)
            || LandedSince(Run(s, steps, n).log, |Run(s, steps, m).log|, a, d)
    decreases n
  {
    hide Next, HasLink, LeafIs, OnDisk, FilesOf, Run, WellFormed, ClientOk, LogOk;
    if m < n {
      var events := StepFollows(s, steps, n - 1, a);
      var before, now, from := Run(s, steps, n - 1), Run(s, steps, n), |Run(s, steps, m).log|;
      forall k | from <= k < |before.log| ensures !(before.log[k].Removed? && before.log[k].address == a) {
        assert now.log[k] == before.log[k];
      }
      LeafStaysOrLands(s, steps, m, n - 1, a, d);
      if LandedSince(before.log, from, a, d) {
        var k :| from <= k < |before.log| && before.log[k].Landed? && before.log[k].address == a
                 && before.log[k].parent == d;
        assert now.log[k] == before.log[k];
      } else if events != [] && events[0].address == a {
        assert now.log[|before.log|] == events[0];
        SameLeaf(FilesOf(before, a), d, events[0].parent);
      } else {
        RunKeepsInvariant(s, steps, n - 1);
        RunKeepsInvariant(s, steps, n);
        SameLinksSameLeaf(FilesOf(before, a), FilesOf(now, a), a, d);
      }
    }
  }

  lemma SameLeaf(files: Files, d: Option<Hash>, e: Option<Hash>)
    requires LeafIs(files, d) && LeafIs(files, e)
    ensures d == e
  {
  }

  /**
   Of the appends that race on leaf `d` with nothing removed meanwhile, exactly
   one lands as soon as one is refused for its parent: the refusal means the leaf
   has moved, only a landed append moves it, and no second one lands on `d`.
   */
  lemma ExactlyOneLands(s: State, steps: seq<Step>, m: nat, n: nat, a: Address, d: Option<Hash>)
    requires Start(s) && m <= n <= |steps|
    requires LeafIs(FilesOf(Run(s, steps, m), a), d) && !LeafIs(FilesOf(Run(s, steps, n), a), d)
    requires NoneRemovedSince(Run(s, steps, n).log, |Run(s, steps, m).log|, a)
    ensures var log, from := Run(s, steps, n).log, |Run(s, steps, m).log|;
            && LandedSince(log, from, a, d)
            && forall i, j :: from <= i < j < |log| ==>
                              !(log[i].Landed? && log[i].address == a && log[i].parent == d
                                && log[j].Landed? && log[j].address == a && log[j].parent == d)
  {
    hide LeafIs, FilesOf, Run;
    LeafStaysOrLands(s, steps, m, n, a, d);
    var log, from := Run(s, steps, n).log, |Run(s, steps, m).log|;
    forall i, j | from <= i < j < |log|
                  && log[i].Landed? && log[i].address == a && log[i].parent == d
                  && log[j].Landed? && log[j].address == a && log[j].parent == d
      ensures false
    {
      OneChildPerLeaf(s, steps, n, i, j);
    }
  }

  lemma RunStart(s: State, steps: seq<Step>)
    ensures Run(s, steps, 0) == s
  {
  }

  lemma RunStep(s: State, steps: seq<Step>, k: nat)
    requires k < |steps|
    ensures Run(s, steps, k + 1) == Next(Run(s, steps, k), steps[k])
  {
  }

  /** The log only grows. */
  lemma {:induction false} LogPrefix(s: State, steps: seq<Step>, m: nat, n: nat)
    requires Start(s) && m <= n <= |steps|
    ensures |Run(s, steps, m).log| <= |Run(s, steps, n).log|
    ensures Run(s, steps, n).log[..|Run(s, steps, m).log|] == Run(s, steps, m).log
  {
    hide Run;
    if m < n {
      LogPrefix(s, steps, m, n - 1);
      var events := StepFollows(s, steps, n - 1, "");
    }
  }

  /** The parent of every snapshot that landed was the leaf at that moment, and its hash was new. */
  lemma {:induction false} ParentWasLeaf(s: State, steps: seq<Step>, n: nat, j: nat) returns (m: nat)
    requires Start(s) && n <= |steps| && j < |Run(s, steps, n).log| && Run(s, steps, n).log[j].Landed?
    ensures m < n && |Run(s, steps, m).log| == j
    ensures var e := Run(s, steps, n).log[j];
            && LeafIs(FilesOf(Run(s, steps, m), e.address), e.parent)
            && !OnDisk(FilesOf(Run(s, steps, m), e.address), e.hash)
            && HasLink(FilesOf(Run(s, steps, m + 1), e.address), e.hash, e.parent)
    decreases n
  {
    hide Next, HasLink, LeafIs, OnDisk, FilesOf;
    m := 0;
    if n > 0 {
      var a := Run(s, steps, n).log[j].address;
      var events := StepFollows(s, steps, n - 1, a);
      if j < |Run(s, steps, n - 1).log| {
        m := ParentWasLeaf(s, steps, n - 1, j);
      } else {
        m := n - 1;
      }
    }
  }
}
