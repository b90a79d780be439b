/** The life of one snapshot over any run of operations on the store. */
module History {
  import opened Wrappers
  import opened Snapshots
  import opened FindLeaf
  import opened Directory
  import opened Journal
  import opened JournalLaws
  import opened CascadeLaws
  import opened Store
  import opened Import
  import opened ImportLaws
  import opened ImportStops

  datatype Operation =
    | AppendOp(address: Address, hash: Hash, dependsOn: Option<Hash>, data: Bytes, nanos: nat, appendIo: AppendIo)
    | ConfirmOp(address: Address, hash: Hash, height: Option<u64>, blockHash: Hash, fate: WriteFate)
    | RollbackOp(address: Address, hash: Hash, dropIo: DropIo)
    | ForgetOp(address: Address)
    | ForgetAllOp
    | ImportOp(entries: seq<Entry>, conflict: ConflictStrategy, clock: seq<nat>, io: seq<EntryIo>)

  /** What one operation does to the store, however the file system answers. */
  ghost function Step(js: Journals, op: Operation): (after: Journals) {
    match op
    case AppendOp(a, hash, dependsOn, data, nanos, io) =>
      js[a := Append(JournalAt(js, a), a, hash, dependsOn, data, nanos, io).0]
    case ConfirmOp(a, hash, height, blockHash, fate) =>
      js[a := Confirm(JournalAt(js, a), a, hash, height, blockHash, fate).0]
    case RollbackOp(a, hash, io) =>
      js[a := Rollback(JournalAt(js, a), a, hash, io).0]
    case ForgetOp(a) => js - {a}
    case ForgetAllOp => map[]
    case ImportOp(entries, conflict, clock, io) =>
      if |clock| == |entries| == |io| && Acceptable(js, entries, conflict)
      then Commit(js, entries, Targets(js, entries, conflict, clock), io, |entries|).0 else js
  }

  /** The store after the first `n` operations. */
  ghost function StateAt(js: Journals, ops: seq<Operation>, n: nat): (state: Journals)
    requires n <= |ops|
  {
    if n == 0 then js else Step(StateAt(js, ops, n - 1), ops[n - 1])
  }

  /** The file exists throughout, after operation `i` and up to operation `j`. */
  ghost predicate Alive(js: Journals, ops: seq<Operation>, a: Address, f: File, i: nat, j: nat)
    requires j <= |ops|
  {
    forall k :: i <= k <= j ==> f in JournalAt(StateAt(js, ops, k), a).files
  }

  /** Identity and data never change; the block is written once, the height filled in at most once. */
  ghost predicate Evolves(s: Snapshot, t: Snapshot) {
    && t.extrinsicHash == s.extrinsicHash && t.dependsOn == s.dependsOn && t.data == s.data
    && (s.status == Confirmed ==> t.status == Confirmed)
    && (s.blockHash.Some? ==> t.blockHash == s.blockHash)
    && (s.blockHeight.Some? ==> t.blockHeight == s.blockHeight)
  }

  /** A Pending snapshot names no block. Appends make only such ones; a payload may hold others. */
  ghost predicate PendingBare(files: Files) {
    forall f :: f in files && files[f].status == Pending ==> files[f].blockHash.None? && files[f].blockHeight.None?
  }

  ghost predicate Sound(js: Journals) {
    forall a :: WellFormed(JournalAt(js, a).files) && PendingBare(JournalAt(js, a).files)
  }

  /** One directory before and after one operation: survivors evolve. */
  ghost predicate Kept(before: Files, after: Files) {
    forall f :: f in before && f in after ==> Evolves(before[f], after[f])
  }

  /**
   A confirm keeps the history of a snapshot exactly when the snapshot is
   Confirmed, or names no other block and no other height.
   */
  lemma ConfirmEvolves(s: Snapshot, height: Option<u64>, blockHash: Hash)
    requires ConfirmSnapshot(s, height, blockHash).Ok?
    ensures Evolves(s, ConfirmSnapshot(s, height, blockHash).value) <==>
              || s.status == Confirmed
              || ((s.blockHash.None? || s.blockHash == Some(blockHash))
                  && (s.blockHeight.None? || s.blockHeight == height))
  {
  }

  lemma AppendKeepsHistory(
      j: Journal, a: Address, hash: Hash, dependsOn: Option<Hash>, data: Bytes, nanos: nat, io: AppendIo)
    requires NamedByHash(j.files) && PendingBare(j.files)
    ensures var after := Append(j, a, hash, dependsOn, data, nanos, io).0.files;
            PendingBare(after) && Kept(j.files, after)
  {
    hide Holds, Append;
    if chain :| Holds(j.files, chain) {
      AppendIsCas(j, chain, a, hash, dependsOn, data, nanos, io);
    } else {
      AppendNeedsChain(j, a, hash, dependsOn, data, nanos, io);
    }
  }

  lemma ConfirmKeepsHistory(j: Journal, a: Address, hash: Hash, height: Option<u64>, blockHash: Hash, fate: WriteFate)
    requires PendingBare(j.files)
    ensures var after := Confirm(j, a, hash, height, blockHash, fate).0.files;
            PendingBare(after) && Kept(j.files, after)
  {
    hide FindPath;
  }

  lemma RollbackKeepsHistory(j: Journal, a: Address, start: Hash, io: DropIo)
    requires PendingBare(j.files)
    ensures var after := Rollback(j, a, start, io).0.files;
            PendingBare(after) && Kept(j.files, after)
  {
    hide Rollback;
    RemovalsOnlyRemove(j, a, start, io);
  }

  lemma StepKeepsSound(js: Journals, op: Operation)
    requires Sound(js) && !op.ImportOp?
    ensures Sound(Step(js, op))
  {
    hide WellFormed, PendingBare, Append, Confirm, Rollback;
    match op {
      case AppendOp(a, hash, dependsOn, data, nanos, io) =>
        SoundAt(js, a);
        AppendKeepsWellFormed(JournalAt(js, a), a, hash, dependsOn, data, nanos, io);
        AppendKeepsHistory(JournalAt(js, a), a, hash, dependsOn, data, nanos, io);
        OneAddressSound(js, a, Step(js, op));
      case ConfirmOp(a, hash, height, blockHash, fate) =>
        ConfirmKeepsWellFormed(JournalAt(js, a), a, hash, height, blockHash, fate);
        ConfirmKeepsHistory(JournalAt(js, a), a, hash, height, blockHash, fate);
        OneAddressSound(js, a, Step(js, op));
      case RollbackOp(a, hash, io) =>
        RollbackKeepsWellFormed(JournalAt(js, a), a, hash, io);
        RollbackKeepsHistory(JournalAt(js, a), a, hash, io);
        OneAddressSound(js, a, Step(js, op));
      case ForgetOp(a) => ForgottenSound(js, js - {a});
      case ForgetAllOp => ForgottenSound(js, map[]);
    }
  }

  lemma SoundAt(js: Journals, a: Address)
    requires Sound(js)
    ensures NamedByHash(JournalAt(js, a).files)
  {
    assert WellFormed(JournalAt(js, a).files);
  }

  lemma OneAddressSound(js: Journals, a: Address, next: Journals)
    requires Sound(js) && Unrelated(js, next, a)
    requires WellFormed(JournalAt(next, a).files) && PendingBare(JournalAt(next, a).files)
    ensures Sound(next)
  {
    hide WellFormed, PendingBare;
  }

  lemma ForgottenSound(js: Journals, after: Journals)
    requires Sound(js)
    requires forall a :: JournalAt(after, a) == JournalAt(js, a) || JournalAt(after, a) == EMPTY_JOURNAL
    ensures Sound(after)
  {
    hide WellFormed;
    EmptyWellFormed();
  }

  /** Every journal stays a chain of bare Pending and Confirmed snapshots, over any run without an import. */
  lemma {:induction false} RunStaysSound(js: Journals, ops: seq<Operation>, n: nat)
    requires Sound(js) && n <= |ops| && forall k :: 0 <= k < |ops| ==> !ops[k].ImportOp?
    ensures Sound(StateAt(js, ops, n))
  {
    hide Step, Sound;
    if n > 0 {
      RunStaysSound(js, ops, n - 1);
      StepKeepsSound(StateAt(js, ops, n - 1), ops[n - 1]);
    }
  }

  /** The empty store is where such runs start. */
  lemma EmptyStoreSound()
    ensures Sound(map[])
  {
    EmptyWellFormed();
  }

  // ---------------------------------------------------------------------------
  // With imports in the run
  // ---------------------------------------------------------------------------

  /** Survivors that are Confirmed stay Confirmed. */
  ghost predicate Advances(before: Files, after: Files) {
    forall f :: f in before && f in after && before[f].status == Confirmed ==> after[f].status == Confirmed
  }

  ghost predicate AllNamed(js: Journals) {
    forall a :: NamedByHash(JournalAt(js, a).files)
  }

  lemma AppendAdvances(
      j: Journal, a: Address, hash: Hash, dependsOn: Option<Hash>, data: Bytes, nanos: nat, io: AppendIo)
    requires NamedByHash(j.files)
    ensures var after := Append(j, a, hash, dependsOn, data, nanos, io).0.files;
            NamedByHash(after) && Advances(j.files, after)
  {
    hide Holds, Append;
    if chain :| Holds(j.files, chain) {
      AppendIsCas(j, chain, a, hash, dependsOn, data, nanos, io);
    } else {
      AppendNeedsChain(j, a, hash, dependsOn, data, nanos, io);
    }
  }

  lemma ConfirmAdvances(j: Journal, a: Address, hash: Hash, height: Option<u64>, blockHash: Hash, fate: WriteFate)
    requires NamedByHash(j.files)
    ensures var after := Confirm(j, a, hash, height, blockHash, fate).0.files;
            NamedByHash(after) && Advances(j.files, after)
  {
    hide FindPath;
  }

  lemma FewerStayNamed(before: Files, after: Files)
    requires NamedByHash(before) && after.Keys <= before.Keys && forall f :: f in after ==> after[f] == before[f]
    ensures NamedByHash(after) && Advances(before, after)
  {
  }

  lemma ImportAdvances(js: Journals, op: Operation)
    requires AllNamed(js) && op.ImportOp?
    ensures AllNamed(Step(js, op))
    ensures forall a :: Advances(JournalAt(js, a).files, JournalAt(Step(js, op), a).files)
  {
    hide Acceptable, Commit, ApplyTo, Targets, Existing, NamedByHash;
    if |op.clock| == |op.entries| == |op.io| && Acceptable(js, op.entries, op.conflict) {
      var targets := Targets(js, op.entries, op.conflict, op.clock);
      var m := CommitWritesPrefix(js, op.entries, targets, op.io, |op.entries|);
      AcceptableAdmits(js, op.entries, op.conflict);
      forall a ensures NamedByHash(JournalAt(Step(js, op), a).files)
                       && Advances(JournalAt(js, a).files, JournalAt(Step(js, op), a).files)
      {
        AppliedNamed(js, op.entries, op.conflict, op.clock, a, m);
        forall f | f in JournalAt(js, a).files
          ensures JournalAt(js, a).files[f].status == Confirmed ==>
            f in JournalAt(Step(js, op), a).files && JournalAt(Step(js, op), a).files[f].status == Confirmed
        {
          ConfirmedStays(js, op.entries, op.conflict, op.clock, a, m, f);
        }
      }
    }
  }

  lemma AcceptableAdmits(js: Journals, entries: seq<Entry>, conflict: ConflictStrategy)
    requires Acceptable(js, entries, conflict)
    ensures forall i :: 0 <= i < |entries| ==> !Refused(js, entries[i], conflict)
  {
  }

  lemma StepAdvances(js: Journals, op: Operation)
    requires AllNamed(js)
    ensures AllNamed(Step(js, op))
    ensures forall a :: Advances(JournalAt(js, a).files, JournalAt(Step(js, op), a).files)
  {
    hide Append, Confirm, Rollback, Commit, Acceptable, NamedByHash, AllNamed, Advances;
    match op {
      case AppendOp(a, hash, dependsOn, data, nanos, io) =>
        NamedAt(js, a);
        AppendAdvances(JournalAt(js, a), a, hash, dependsOn, data, nanos, io);
        OneAddressAdvances(js, a, Append(JournalAt(js, a), a, hash, dependsOn, data, nanos, io).0);
      case ConfirmOp(a, hash, height, blockHash, fate) =>
        NamedAt(js, a);
        ConfirmAdvances(JournalAt(js, a), a, hash, height, blockHash, fate);
        OneAddressAdvances(js, a, Confirm(JournalAt(js, a), a, hash, height, blockHash, fate).0);
      case RollbackOp(a, hash, io) =>
        NamedAt(js, a);
        var after := Rollback(JournalAt(js, a), a, hash, io).0;
        RemovalsOnlyRemove(JournalAt(js, a), a, hash, io);
        FewerStayNamed(JournalAt(js, a).files, after.files);
        OneAddressAdvances(js, a, after);
      case ForgetOp(a) =>
        ForgottenAdvances(js, js - {a});
      case ForgetAllOp =>
        ForgottenAdvances(js, map[]);
      case ImportOp(_, _, _, _) =>
        ImportAdvances(js, op);
    }
  }

  /** Forgetting leaves each journal as it was, or empty. */
  lemma ForgottenAdvances(js: Journals, after: Journals)
    requires AllNamed(js)
    requires forall a :: JournalAt(after, a) == JournalAt(js, a) || JournalAt(after, a) == EMPTY_JOURNAL
    ensures AllNamed(after)
    ensures forall a :: Advances(JournalAt(js, a).files, JournalAt(after, a).files)
  {
  }

  lemma NamedAt(js: Journals, a: Address)
    requires AllNamed(js)
    ensures NamedByHash(JournalAt(js, a).files)
  {
  }

  lemma OneAddressAdvances(js: Journals, a: Address, after: Journal)
    requires AllNamed(js) && NamedByHash(after.files) && Advances(JournalAt(js, a).files, after.files)
    ensures AllNamed(js[a := after])
    ensures forall b :: Advances(JournalAt(js, b).files, JournalAt(js[a := after], b).files)
  {
    hide NamedByHash;
    var next := js[a := after];
    forall b ensures NamedByHash(JournalAt(next, b).files) {
      NamedAt(js, b);
    }
  }

  /**
   With imports of any strategy in the run, complete or stopped half-way: a
   Confirmed snapshot never becomes Pending again while its file exists.
   */
  lemma {:induction false} ConfirmedForGood(
      js: Journals, ops: seq<Operation>, a: Address, f: File, i: nat, j: nat)
    requires AllNamed(js) && i <= j <= |ops| && Alive(js, ops, a, f, i, j)
    requires JournalAt(StateAt(js, ops, i), a).files[f].status == Confirmed
    ensures JournalAt(StateAt(js, ops, j), a).files[f].status == Confirmed
  {
    hide AllNamed, JournalAt, Step;
    if i < j {
      ConfirmedForGood(js, ops, a, f, i, j - 1);
      RunStaysNamed(js, ops, j - 1);
      StepAdvances(StateAt(js, ops, j - 1), ops[j - 1]);
      assert StateAt(js, ops, j) == Step(StateAt(js, ops, j - 1), ops[j - 1]);
      assert Advances(JournalAt(StateAt(js, ops, j - 1), a).files, JournalAt(StateAt(js, ops, j), a).files);
    }
  }

  lemma {:induction false} RunStaysNamed(js: Journals, ops: seq<Operation>, n: nat)
    requires AllNamed(js) && n <= |ops|
    ensures AllNamed(StateAt(js, ops, n))
  {
    hide Step, AllNamed;
    if n > 0 {
      RunStaysNamed(js, ops, n - 1);
      StepAdvances(StateAt(js, ops, n - 1), ops[n - 1]);
    }
  }

  // ---------------------------------------------------------------------------
  // The exact condition on an import
  // ---------------------------------------------------------------------------

  /** The import writes the entry's snapshot. */
  ghost predicate Writes(js: Journals, e: Entry, conflict: ConflictStrategy) {
    Existing(js, e).None? || conflict == Overwrite
  }

  /** Each of the first `n` entries that overwrites a file of `a` carries on the history of the snapshot there. */
  ghost predicate CarriesOn(js: Journals, entries: seq<Entry>, conflict: ConflictStrategy, a: Address, n: nat)
    requires n <= |entries|
  {
    conflict == Overwrite ==>
      forall i :: 0 <= i < n && entries[i].address == a && Existing(js, entries[i]).Some? ==>
        Evolves(JournalAt(js, a).files[Existing(js, entries[i]).value], entries[i].snapshot)
  }

  /** What is written as Pending names no block. */
  ghost predicate BringsBare(js: Journals, entries: seq<Entry>, conflict: ConflictStrategy) {
    forall i :: 0 <= i < |entries| && Writes(js, entries[i], conflict) && entries[i].snapshot.status == Pending ==>
      entries[i].snapshot.blockHash.None? && entries[i].snapshot.blockHeight.None?
  }

  /** After an import a file holds what it held, or the snapshot of an entry that was written to it. */
  lemma {:induction false} AppliedFrom(
      js: Journals, entries: seq<Entry>, conflict: ConflictStrategy, clock: seq<nat>, a: Address, n: nat, f: File)
    requires n <= |entries| == |clock| && NamedByHash(JournalAt(js, a).files)
    requires f in ApplyTo(JournalAt(js, a).files, entries, Targets(js, entries, conflict, clock), a, n)
    ensures var files := JournalAt(js, a).files;
            var after := ApplyTo(files, entries, Targets(js, entries, conflict, clock), a, n);
            || (f in files && after[f] == files[f])
            || exists i :: 0 <= i < n && entries[i].address == a && Writes(js, entries[i], conflict)
                           && after[f] == entries[i].snapshot
                           && (f in files ==> Existing(js, entries[i]) == Some(f) && conflict == Overwrite)
  {
    hide TargetOf, Existing, JournalAt, NamedByHash;
    if n > 0 {
      var e, target := entries[n - 1], Targets(js, entries, conflict, clock)[n - 1];
      if e.address == a && target.Some? && target.value.file == f {
        TargetFile(js, e, conflict, clock[n - 1]);
        TargetIsWrite(js, e, conflict, clock[n - 1]);
      } else {
        AppliedFrom(js, entries, conflict, clock, a, n - 1, f);
      }
    }
  }

  /** A file that an entry overwrites holds the entry's snapshot in the end. */
  lemma OverwrittenHolds(
      js: Journals, entries: seq<Entry>, conflict: ConflictStrategy, clock: seq<nat>, a: Address, n: nat, i: nat)
    requires i < n <= |entries| == |clock| && NoRepeats(entries) && NamedByHash(JournalAt(js, a).files)
    requires entries[i].address == a && Existing(js, entries[i]).Some? && conflict == Overwrite
    ensures var f := Existing(js, entries[i]).value;
            var after := ApplyTo(JournalAt(js, a).files, entries, Targets(js, entries, conflict, clock), a, n);
            f in after && after[f] == entries[i].snapshot
  {
    hide Existing, JournalAt, NamedByHash;
    WrittenStays(js, entries, conflict, clock, n, i);
    TargetFile(js, entries[i], conflict, clock[i]);
    TargetIsWrite(js, entries[i], conflict, clock[i]);
  }

  /**
   The exact condition, at every stop: an import keeps the history of every
   snapshot of `a` if and only if each entry it has written over one carries it on.
   Under Skip and Error that holds of every import.
   */
  lemma ImportKeepsHistory(
      js: Journals, entries: seq<Entry>, conflict: ConflictStrategy, clock: seq<nat>, a: Address, n: nat)
    requires n <= |entries| == |clock| && NoRepeats(entries) && NamedByHash(JournalAt(js, a).files)
    ensures Kept(JournalAt(js, a).files,
                 ApplyTo(JournalAt(js, a).files, entries, Targets(js, entries, conflict, clock), a, n))
            <==> CarriesOn(js, entries, conflict, a, n)
  {
    hide Existing, NamedByHash, ApplyTo, Targets, Evolves, Writes, NoRepeats;
    var files := JournalAt(js, a).files;
    var after := ApplyTo(files, entries, Targets(js, entries, conflict, clock), a, n);
    if CarriesOn(js, entries, conflict, a, n) {
      forall f | f in files && f in after ensures Evolves(files[f], after[f]) {
        SameEvolves(files[f]);
        AppliedFrom(js, entries, conflict, clock, a, n, f);
      }
    }
    if Kept(files, after) && conflict == Overwrite {
      forall i | 0 <= i < n && entries[i].address == a && Existing(js, entries[i]).Some?
        ensures Evolves(files[Existing(js, entries[i]).value], entries[i].snapshot)
      {
        ExistingIsFile(js, entries[i]);
        OverwrittenHolds(js, entries, conflict, clock, a, n, i);
      }
    }
  }

  lemma SameEvolves(s: Snapshot)
    ensures Evolves(s, s)
  {
  }

  lemma ExistingIsFile(js: Journals, e: Entry)
    ensures Existing(js, e).Some? ==> Existing(js, e).value in JournalAt(js, e.address).files
  {
  }

  /** An import that brings no Pending snapshot with a block leaves none. */
  lemma ImportStaysBare(
      js: Journals, entries: seq<Entry>, conflict: ConflictStrategy, clock: seq<nat>, a: Address, n: nat)
    requires n <= |entries| == |clock| && NamedByHash(JournalAt(js, a).files)
    requires PendingBare(JournalAt(js, a).files) && BringsBare(js, entries, conflict)
    ensures PendingBare(ApplyTo(JournalAt(js, a).files, entries, Targets(js, entries, conflict, clock), a, n))
  {
    hide Existing, NamedByHash, ApplyTo, Targets, Writes;
    var after := ApplyTo(JournalAt(js, a).files, entries, Targets(js, entries, conflict, clock), a, n);
    forall f | f in after && after[f].status == Pending ensures after[f].blockHash.None? && after[f].blockHeight.None? {
      AppliedFrom(js, entries, conflict, clock, a, n, f);
    }
  }

  // ---------------------------------------------------------------------------
  // Histories over runs
  // ---------------------------------------------------------------------------

  /** Files carry the hash they are named by, and Pending snapshots name no block. */
  ghost predicate Recorded(js: Journals) {
    AllNamed(js) && forall a :: PendingBare(JournalAt(js, a).files)
  }

  /** An import, if it is one, carries on what it overwrites and brings no Pending snapshot with a block. */
  ghost predicate Careful(js: Journals, op: Operation) {
    op.ImportOp? ==>
      BringsBare(js, op.entries, op.conflict)
      && forall a :: CarriesOn(js, op.entries, op.conflict, a, |op.entries|)
  }

  ghost predicate CarefulRun(js: Journals, ops: seq<Operation>) {
    forall k :: 0 <= k < |ops| ==> Careful(StateAt(js, ops, k), ops[k])
  }

  ghost predicate StepKept(js: Journals, op: Operation) {
    forall a :: Kept(JournalAt(js, a).files, JournalAt(Step(js, op), a).files)
  }

  lemma CarriesOnPrefix(
      js: Journals, entries: seq<Entry>, conflict: ConflictStrategy, a: Address, n: nat)
    requires n <= |entries| && CarriesOn(js, entries, conflict, a, |entries|)
    ensures CarriesOn(js, entries, conflict, a, n)
  {
    hide Evolves, Existing;
  }

  lemma ImportRecords(js: Journals, op: Operation)
    requires Recorded(js) && op.ImportOp? && Careful(js, op)
    ensures StepKept(js, op)
    ensures forall a :: PendingBare(JournalAt(Step(js, op), a).files)
  {
    hide Acceptable, Commit, ApplyTo, Targets, NamedByHash, NoRepeats;
    hide PendingBare, Evolves, Kept, CarriesOn, BringsBare;
    if |op.clock| == |op.entries| == |op.io| && Acceptable(js, op.entries, op.conflict) {
      var targets := Targets(js, op.entries, op.conflict, op.clock);
      var m := CommitWritesPrefix(js, op.entries, targets, op.io, |op.entries|);
      AcceptableIsOnce(js, op.entries, op.conflict);
      forall a ensures Kept(JournalAt(js, a).files, JournalAt(Step(js, op), a).files)
                       && PendingBare(JournalAt(Step(js, op), a).files)
      {
        NamedAt(js, a);
        CarriesOnPrefix(js, op.entries, op.conflict, a, m);
        ImportKeepsHistory(js, op.entries, op.conflict, op.clock, a, m);
        ImportStaysBare(js, op.entries, op.conflict, op.clock, a, m);
      }
    } else {
      forall a ensures Kept(JournalAt(js, a).files, JournalAt(Step(js, op), a).files) {
        UnchangedKept(JournalAt(js, a).files);
      }
    }
  }

  lemma AcceptableIsOnce(js: Journals, entries: seq<Entry>, conflict: ConflictStrategy)
    requires Acceptable(js, entries, conflict)
    ensures NoRepeats(entries)
  {
  }

  lemma UnchangedKept(files: Files)
    ensures Kept(files, files)
  {
  }

  lemma OneAddressKept(js: Journals, a: Address, next: Journals)
    requires Recorded(js) && Unrelated(js, next, a)
    requires PendingBare(JournalAt(next, a).files) && Kept(JournalAt(js, a).files, JournalAt(next, a).files)
    ensures forall b :: PendingBare(JournalAt(next, b).files)
    ensures forall b :: Kept(JournalAt(js, b).files, JournalAt(next, b).files)
  {
    hide PendingBare, Kept, AllNamed;
    forall b ensures PendingBare(JournalAt(next, b).files) && Kept(JournalAt(js, b).files, JournalAt(next, b).files) {
      UnchangedKept(JournalAt(js, b).files);
      assert PendingBare(JournalAt(js, b).files);
    }
  }

  lemma ForgottenKept(js: Journals, after: Journals)
    requires Recorded(js)
    requires forall a :: JournalAt(after, a) == JournalAt(js, a) || JournalAt(after, a) == EMPTY_JOURNAL
    ensures forall b :: PendingBare(JournalAt(after, b).files)
    ensures forall b :: Kept(JournalAt(js, b).files, JournalAt(after, b).files)
  {
    hide AllNamed, Evolves;
    forall b ensures PendingBare(JournalAt(after, b).files) && Kept(JournalAt(js, b).files, JournalAt(after, b).files) {
      UnchangedKept(JournalAt(js, b).files);
      assert PendingBare(JournalAt(js, b).files);
    }
  }

  lemma StepRecords(js: Journals, op: Operation)
    requires Recorded(js) && Careful(js, op)
    ensures Recorded(Step(js, op)) && StepKept(js, op)
  {
    hide Append, Confirm, Rollback, Commit, Acceptable, NamedByHash, AllNamed, PendingBare, Kept, Careful;
    StepAdvances(js, op);
    match op {
      case AppendOp(a, hash, dependsOn, data, nanos, io) =>
        NamedAt(js, a);
        AppendKeepsHistory(JournalAt(js, a), a, hash, dependsOn, data, nanos, io);
        OneAddressKept(js, a, Step(js, op));
      case ConfirmOp(a, hash, height, blockHash, fate) =>
        ConfirmKeepsHistory(JournalAt(js, a), a, hash, height, blockHash, fate);
        OneAddressKept(js, a, Step(js, op));
      case RollbackOp(a, hash, io) =>
        RollbackKeepsHistory(JournalAt(js, a), a, hash, io);
        OneAddressKept(js, a, Step(js, op));
      case ForgetOp(a) => ForgottenKept(js, js - {a});
      case ForgetAllOp => ForgottenKept(js, map[]);
      case ImportOp(_, _, _, _) => ImportRecords(js, op);
    }
  }

  lemma {:induction false} RunStaysRecorded(js: Journals, ops: seq<Operation>, n: nat)
    requires Recorded(js) && CarefulRun(js, ops) && n <= |ops|
    ensures Recorded(StateAt(js, ops, n))
  {
    hide Step, Recorded, Careful;
    if n > 0 {
      RunStaysRecorded(js, ops, n - 1);
      StepRecords(StateAt(js, ops, n - 1), ops[n - 1]);
    }
  }

  /**
   Over any run of appends, confirms, rollbacks, forgets and careful imports,
   failures included: as long as a snapshot exists its hash, parent and data stay,
   its block is written once, and its height only goes from absent to present.
   */
  lemma {:induction false} SnapshotHistory(
      js: Journals, ops: seq<Operation>, a: Address, f: File, i: nat, j: nat)
    requires Recorded(js) && CarefulRun(js, ops) && i <= j <= |ops| && Alive(js, ops, a, f, i, j)
    ensures Evolves(JournalAt(StateAt(js, ops, i), a).files[f], JournalAt(StateAt(js, ops, j), a).files[f])
  {
    hide Recorded, JournalAt, Step, Careful;
    if i < j {
      SnapshotHistory(js, ops, a, f, i, j - 1);
      RunStaysRecorded(js, ops, j - 1);
      StepRecords(StateAt(js, ops, j - 1), ops[j - 1]);
      assert StateAt(js, ops, j) == Step(StateAt(js, ops, j - 1), ops[j - 1]);
      assert Kept(JournalAt(StateAt(js, ops, j - 1), a).files, JournalAt(StateAt(js, ops, j), a).files);
    }
  }

  /** A store whose journals are sound is one such runs can start from; a run without imports is careful. */
  lemma SoundIsRecorded(js: Journals, ops: seq<Operation>)
    requires Sound(js)
    ensures Recorded(js)
    ensures (forall k :: 0 <= k < |ops| ==> !ops[k].ImportOp?) ==> CarefulRun(js, ops)
  {
    forall a ensures NamedByHash(JournalAt(js, a).files) && PendingBare(JournalAt(js, a).files) {
      SoundAt(js, a);
    }
  }

  // ---------------------------------------------------------------------------
  // Why an import must be careful
  // ---------------------------------------------------------------------------

  /** The operation keeps every history, and so does whatever careful run follows it. */
  ghost predicate HistorySafe(js: Journals, op: Operation) {
    && StepKept(js, op)
    && forall ops, k :: CarefulRun(Step(js, op), ops) && 0 <= k < |ops| ==>
         StepKept(StateAt(Step(js, op), ops, k), ops[k])
  }

  /** A confirm of a Pending snapshot with a block or a height, under another one, breaks its history. */
  lemma ConfirmBreaks(j: Journal, a: Address, f: File, blockHash: Hash)
    requires f in j.files && OneFilePerHash(j.files) && j.files[f].status == Pending
    requires j.files[f].blockHeight.Some? || (j.files[f].blockHash.Some? && j.files[f].blockHash != Some(blockHash))
    ensures !Kept(j.files, Confirm(j, a, j.files[f].extrinsicHash, None, blockHash, Written).0.files)
  {
    hide FindPath;
    var found := FindPath(j.files, j.files[f].extrinsicHash);
    assert found == Some(f);
    var after := Confirm(j, a, j.files[f].extrinsicHash, None, blockHash, Written).0.files;
    assert f in after && !Evolves(j.files[f], after[f]);
  }

  /** A Pending snapshot with a block that an import has written can be confirmed under another block. */
  lemma BroughtBlockBreaks(js: Journals, a: Address, f: File) returns (op: Operation)
    requires f in JournalAt(js, a).files && OneFilePerHash(JournalAt(js, a).files)
    requires !PendingBare(map[f := JournalAt(js, a).files[f]])
    ensures !op.ImportOp? && !StepKept(js, op)
  {
    hide Kept, Confirm, OneFilePerHash;
    var j := JournalAt(js, a);
    var s := j.files[f];
    var other := if s.blockHash.Some? then s.blockHash.value + "0" else "";
    op := ConfirmOp(a, s.extrinsicHash, None, other, Written);
    assert f in map[f := s];
    assert s.blockHash.Some? ==> |other| == |s.blockHash.value| + 1;
    ConfirmBreaks(j, a, f, other);
    assert JournalAt(Step(js, op), a) == Confirm(j, a, s.extrinsicHash, None, other, Written).0;
    assert !Kept(JournalAt(js, a).files, JournalAt(Step(js, op), a).files);
  }

  /** What an accepted import that returns `Ok` has written is on disk. */
  lemma WrittenIsThere(js: Journals, op: Operation, i: nat) returns (f: File)
    requires op.ImportOp? && |op.clock| == |op.entries| == |op.io| && Acceptable(js, op.entries, op.conflict)
    requires Commit(js, op.entries, Targets(js, op.entries, op.conflict, op.clock), op.io, |op.entries|).1.Ok?
    requires AllNamed(js) && i < |op.entries| && Writes(js, op.entries[i], op.conflict)
    ensures var files := JournalAt(Step(js, op), op.entries[i].address).files;
            f in files && files[f] == op.entries[i].snapshot
  {
    hide Commit, ApplyTo, Targets, NamedByHash, Acceptable, NoRepeats, Existing, JournalAt;
    var targets, a := Targets(js, op.entries, op.conflict, op.clock), op.entries[i].address;
    var m := CommitWritesPrefix(js, op.entries, targets, op.io, |op.entries|);
    AcceptableIsOnce(js, op.entries, op.conflict);
    NamedAt(js, a);
    WrittenStays(js, op.entries, op.conflict, op.clock, |op.entries|, i);
    TargetIsWrite(js, op.entries[i], op.conflict, op.clock[i]);
    assert targets[i].Some?;
    f := targets[i].value.file;
  }

  /**
   The exact condition over runs: an accepted import that returns `Ok`, on a store
   with one file per hash, keeps every history through every careful run that
   follows if and only if it carries on what it overwrites and brings no Pending
   snapshot with a block or a height.
   */
  lemma CarefulIsExact(js: Journals, op: Operation)
    requires Recorded(js) && forall a :: OneFilePerHash(JournalAt(js, a).files)
    requires op.ImportOp? && |op.clock| == |op.entries| == |op.io| && Acceptable(js, op.entries, op.conflict)
    requires Commit(js, op.entries, Targets(js, op.entries, op.conflict, op.clock), op.io, |op.entries|).1.Ok?
    ensures Careful(js, op) <==> HistorySafe(js, op)
  {
    hide Step, StepKept, Careful, Recorded, Acceptable, Commit, OneFilePerHash, Targets;
    if Careful(js, op) {
      StepRecords(js, op);
      forall ops, k | CarefulRun(Step(js, op), ops) && 0 <= k < |ops|
        ensures StepKept(StateAt(Step(js, op), ops, k), ops[k])
      {
        RunStaysRecorded(Step(js, op), ops, k);
        StepRecords(StateAt(Step(js, op), ops, k), ops[k]);
      }
    } else {
      CarelessBreaks(js, op);
    }
  }

  lemma CarelessBreaks(js: Journals, op: Operation)
    requires Recorded(js) && forall a :: OneFilePerHash(JournalAt(js, a).files)
    requires op.ImportOp? && |op.clock| == |op.entries| == |op.io| && Acceptable(js, op.entries, op.conflict)
    requires Commit(js, op.entries, Targets(js, op.entries, op.conflict, op.clock), op.io, |op.entries|).1.Ok?
    requires !Careful(js, op)
    ensures !HistorySafe(js, op)
  {
    hide Acceptable, Commit, OneFilePerHash, Targets, ApplyTo, NamedByHash, NoRepeats, Writes, Kept, PendingBare;
    hide StepKept, CarriesOn, Step;
    var targets, after := Targets(js, op.entries, op.conflict, op.clock), Step(js, op);
    if BringsBare(js, op.entries, op.conflict) {
      var a :| !CarriesOn(js, op.entries, op.conflict, a, |op.entries|);
      AcceptableIsOnce(js, op.entries, op.conflict);
      NamedAt(js, a);
      ImportKeepsHistory(js, op.entries, op.conflict, op.clock, a, |op.entries|);
      ImportApplies(js, op, a);
      NotKept(js, op, a);
    } else {
      var i :| 0 <= i < |op.entries| && Writes(js, op.entries[i], op.conflict)
               && op.entries[i].snapshot.status == Pending
               && !(op.entries[i].snapshot.blockHash.None? && op.entries[i].snapshot.blockHeight.None?);
      var f := WrittenIsThere(js, op, i);
      ImportOneFile(js, op, op.entries[i].address);
      NotBare(f, op.entries[i].snapshot);
      var next := BroughtBlockBreaks(after, op.entries[i].address, f);
      OneStepRun(after, next);
    }
  }

  lemma NotBare(f: File, s: Snapshot)
    requires s.status == Pending && !(s.blockHash.None? && s.blockHeight.None?)
    ensures !PendingBare(map[f := s])
  {
    assert f in map[f := s];
  }

  lemma NotKept(js: Journals, op: Operation, a: Address)
    requires !Kept(JournalAt(js, a).files, JournalAt(Step(js, op), a).files)
    ensures !StepKept(js, op)
  {
  }

  lemma ImportApplies(js: Journals, op: Operation, a: Address)
    requires op.ImportOp? && |op.clock| == |op.entries| == |op.io| && Acceptable(js, op.entries, op.conflict)
    requires Commit(js, op.entries, Targets(js, op.entries, op.conflict, op.clock), op.io, |op.entries|).1.Ok?
    ensures JournalAt(Step(js, op), a).files
         == ApplyTo(JournalAt(js, a).files, op.entries, Targets(js, op.entries, op.conflict, op.clock), a, |op.entries|)
  {
    hide Commit, ApplyTo, Targets, Acceptable;
    var m := CommitWritesPrefix(
      js, op.entries, Targets(js, op.entries, op.conflict, op.clock), op.io, |op.entries|);
  }

  lemma ImportOneFile(js: Journals, op: Operation, a: Address)
    requires AllNamed(js) && OneFilePerHash(JournalAt(js, a).files)
    requires op.ImportOp? && |op.clock| == |op.entries| == |op.io| && Acceptable(js, op.entries, op.conflict)
    requires Commit(js, op.entries, Targets(js, op.entries, op.conflict, op.clock), op.io, |op.entries|).1.Ok?
    ensures OneFilePerHash(JournalAt(Step(js, op), a).files)
  {
    hide Commit, ApplyTo, Targets, Acceptable, NamedByHash, OneFilePerHash, Shows, Merged, NoRepeats;
    ImportApplies(js, op, a);
    AcceptableIsOnce(js, op.entries, op.conflict);
    NamedAt(js, a);
    AppliedShowsMerge(js, op.entries, op.conflict, op.clock, a, |op.entries|);
  }

  lemma OneStepRun(js: Journals, next: Operation)
    requires !next.ImportOp? && !StepKept(js, next)
    ensures exists ops, k :: CarefulRun(js, ops) && 0 <= k < |ops| && !StepKept(StateAt(js, ops, k), ops[k])
  {
    hide Step, StepKept;
    var ops := [next];
    assert StateAt(js, ops, 0) == js;
    assert CarefulRun(js, ops) && !StepKept(StateAt(js, ops, 0), ops[0]);
  }

  // ---------------------------------------------------------------------------
  // Two imports that break a history
  // ---------------------------------------------------------------------------

  /**
   Into an empty store, a payload brings a Pending root that names a block. It is
   accepted and returns `Ok`, the file holds it, and the confirm then replaces the
   block.
   */
  lemma ImportedBlockIsReplaced(
      a: Address, h: Hash, first: Hash, second: Hash, height: Option<u64>, clock: seq<nat>)
    requires LowerHex(h) && LowerHex(first) && first != second && |clock| == 1
    ensures var s := Snapshot(Pending, h, Some(first), None, None, []);
            var entries, file := [Entry(a, s)], File(clock[0], h);
            var (js, r) := Commit(map[], entries, Targets(map[], entries, Skip, clock), [EntryIo(Written, Written)], 1);
            var (after, confirmed) := Confirm(JournalAt(js, a), a, h, height, second, Written);
            && Acceptable(map[], entries, Skip) && r == Ok(())
            && JournalAt(js, a).files == map[file := s]
            && confirmed.Ok? && file in after.files && after.files[file].blockHash == Some(second)
  {
    hide Leaf, Existing, MergesWell, Merged, FindPath, CommitOne;
    var s := Snapshot(Pending, h, Some(first), None, None, []);
    var entries, io := [Entry(a, s)], [EntryIo(Written, Written)];
    var empty: Journals := map[];
    IntoEmptyDirectory(empty, entries[0], clock[0], io[0]);
    OneEntryMerges(empty, entries[0], Skip);
    var targets := Targets(empty, entries, Skip, clock);
    assert Commit(empty, entries, targets, io, 0) == (empty, Ok(()));
    assert Commit(empty, entries, targets, io, 1) == CommitOne(empty, entries[0], targets[0], io[0]);
    ConfirmOfOne(Journal(Some(a), map[File(clock[0], h) := s]), a, File(clock[0], h), s, height, second);
  }

  lemma ConfirmOfOne(j: Journal, a: Address, file: File, s: Snapshot, height: Option<u64>, block: Hash)
    requires j.files == map[file := s] && s.status == Pending
    ensures var (after, r) := Confirm(j, a, s.extrinsicHash, height, block, Written);
            r.Ok? && file in after.files && after.files[file].blockHash == Some(block)
  {
    hide FindPath;
    var found := FindPath(j.files, s.extrinsicHash);
    assert file in j.files && found == Some(file);
  }

  /**
   Under Overwrite an import replaces the recorded block of a Confirmed snapshot:
   pass 4 refuses only a step back to Pending. The same holds of its data.
   */
  lemma OverwriteReplacesBlock(
      a: Address, h: Hash, n: nat, first: Hash, second: Hash, was: Bytes, is_: Bytes, clock: seq<nat>)
    requires LowerHex(h) && LowerHex(second) && |clock| == 1
    ensures var file, s := File(n, h), Snapshot(Confirmed, h, Some(first), None, None, was);
            var t := s.(blockHash := Some(second), data := is_);
            var js: Journals := map[a := Journal(Some(a), map[file := s])];
            var entries := [Entry(a, t)];
            var targets := Targets(js, entries, Overwrite, clock);
            var (after, r) := Commit(js, entries, targets, [EntryIo(Written, Written)], 1);
            && Recorded(js) && Acceptable(js, entries, Overwrite) && r == Ok(())
            && JournalAt(after, a).files == map[file := t]
            && (first != second || was != is_ ==> !Kept(JournalAt(js, a).files, JournalAt(after, a).files))
  {
    hide Leaf, Existing, MergesWell, Merged, ViewOf;
    var file, s := File(n, h), Snapshot(Confirmed, h, Some(first), None, None, was);
    var t := s.(blockHash := Some(second), data := is_);
    var js: Journals := map[a := Journal(Some(a), map[file := s])];
    var entries, io, e := [Entry(a, t)], [EntryIo(Written, Written)], Entry(a, t);
    var files := JournalAt(js, a).files;
    assert file in files;
    OneSnapshotView(files, s);
    OneEntryMerges(js, e, Overwrite);
    assert Existing(js, e) == Some(file) by {
      var found := Existing(js, e);
    }
    var targets := Targets(js, entries, Overwrite, clock);
    assert Commit(js, entries, targets, io, 0) == (js, Ok(()));
    assert Commit(js, entries, targets, io, 1) == CommitOne(js, e, targets[0], io[0]);
    assert files[file := t] == map[file := t];
    assert file in map[file := t];
  }
}
