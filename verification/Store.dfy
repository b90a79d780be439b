/**
 `FsPrivateStateProvider`: one journal per contract address, changed in place.
 Each operation is proved against its function in `Journal`, keeps every
 journal that is a chain a chain, and touches one address only.
 */
module Store {
  import opened Wrappers
  import opened Snapshots
  import opened Walk
  import opened FindLeaf
  import opened TopoSort
  import opened Directory
  import opened Journal
  import opened JournalLaws
  import opened CascadeLaws

  type Journals = map<Address, Journal>

  function JournalAt(journals: Journals, address: Address): (j: Journal) {
    if address in journals then journals[address] else EMPTY_JOURNAL
  }

  /** One history, in files named by the hash they hold. */
  ghost predicate WellFormed(files: Files) {
    NamedByHash(files) && exists chain :: Holds(files, chain)
  }

  ghost predicate Unrelated(before: Journals, after: Journals, address: Address) {
    forall a :: a != address ==> JournalAt(after, a) == JournalAt(before, a)
  }

  // ---------------------------------------------------------------------------
  // The operations keep a well-formed journal well formed.
  // ---------------------------------------------------------------------------

  lemma EmptyWellFormed()
    ensures WellFormed(EMPTY_JOURNAL.files) && Holds(EMPTY_JOURNAL.files, [])
  {
    HoldsByMembers(map[], []);
  }

  lemma AppendKeepsWellFormed(
      j: Journal, address: Address, hash: Hash, dependsOn: Option<Hash>, data: Bytes, nanos: nat, io: AppendIo)
    requires WellFormed(j.files)
    ensures WellFormed(Append(j, address, hash, dependsOn, data, nanos, io).0.files)
  {
    hide Holds, Append, Landed;
    var chain :| Holds(j.files, chain);
    AppendIsCas(j, chain, address, hash, dependsOn, data, nanos, io);
    var after := Append(j, address, hash, dependsOn, data, nanos, io).0.files;
    if after != j.files {
      LandedHolds(j.files, after, chain, File(nanos, hash), PendingSnapshot(hash, dependsOn, data));
    }
  }

  lemma LandedHolds(before: Files, after: Files, chain: seq<Snapshot>, file: File, s: Snapshot)
    requires Landed(before, after, chain, file, s)
    ensures Holds(after, chain + [s])
  {
  }

  lemma ConfirmKeepsWellFormed(
      j: Journal, address: Address, hash: Hash, height: Option<u64>, blockHash: Hash, fate: WriteFate)
    requires WellFormed(j.files)
    ensures WellFormed(Confirm(j, address, hash, height, blockHash, fate).0.files)
  {
    hide Holds, Confirm;
    var chain :| Holds(j.files, chain);
    var i, after := ConfirmKeepsChain(j, chain, address, hash, height, blockHash, fate);
  }

  lemma RollbackKeepsWellFormed(j: Journal, address: Address, start: Hash, io: DropIo)
    requires WellFormed(j.files)
    ensures WellFormed(Rollback(j, address, start, io).0.files)
    ensures Rollback(j, address, start, io).0.files.Keys <= j.files.Keys
  {
    hide Holds, AfterRemovals, FindPath, Doomed;
    var chain :| Holds(j.files, chain);
    var found := FindPath(j.files, start);
    if found.Some? {
      var k := PositionOf(j.files, chain, found.value);
      CascadeOnChain(j.files, chain, k, io.removals);
      HoldsMembers(j.files, chain);
      RemovedFiles(j.files, start, io.removals);
    }
  }

  // ---------------------------------------------------------------------------
  // Lookups
  // ---------------------------------------------------------------------------

  lemma FirstIsLater(files: Files, names: seq<File>, hash: Hash, i: nat)
    requires i < |names| && (forall f :: f in names ==> f in files)
    requires files[names[i]].extrinsicHash != hash
    ensures FirstWithHash(files, names[i..], hash) == FirstWithHash(files, names[i + 1..], hash)
  {
    assert names[i..][1..] == names[i + 1..];
  }

  method FindSnapshotPath(files: Files, hash: Hash) returns (path: Option<File>)
    ensures path == FindPath(files, hash)
  {
    var names := Names(files);
    for i := 0 to |names|
      invariant FindPath(files, hash) == FirstWithHash(files, names[i..], hash)
    {
      if files[names[i]].extrinsicHash == hash {
        return Some(names[i]);
      }
      FirstIsLater(files, names, hash, i);
    }
    return None;
  }

  /** Clears one file of a doomed hash out of the directory. */
  lemma WithoutOneMore(files: Files, paths: map<Hash, File>, doomed: seq<Hash>, i: nat)
    requires 0 < i <= |doomed|
    ensures Without(files, paths, doomed[i - 1..])
         == if doomed[i - 1] in paths then Without(files, paths, doomed[i..]) - {paths[doomed[i - 1]]}
            else Without(files, paths, doomed[i..])
  {
    assert doomed[i - 1..] == [doomed[i - 1]] + doomed[i..];
  }

  /** Every hash of a cascade has a file. */
  lemma DoomedHasPath(files: Files, start: Hash)
    requires FindPath(files, start).Some?
    ensures forall h :: h in Doomed(files, start) ==> h in PathByHash(files)
  {
    hide Doomed, FindPath, PathByHash;
    OnDiskHashes(files);
    DoomedOnDisk(files, start);
  }

  class FsPrivateStateProvider {
    var journals: Journals

    constructor ()
      ensures journals == map[]
    {
      journals := map[];
    }

    /** `append_pending`, under the address lock. */
    method AppendPending(
        address: Address, hash: Hash, dependsOn: Option<Hash>, data: Bytes, nanos: nat, io: AppendIo)
      returns (r: Result<(), StoreError>)
      modifies this
      ensures (JournalAt(journals, address), r)
           == Append(JournalAt(old(journals), address), address, hash, dependsOn, data, nanos, io)
      ensures Unrelated(old(journals), journals, address)
      ensures WellFormed(JournalAt(old(journals), address).files) ==> WellFormed(JournalAt(journals, address).files)
    {
      hide WellFormed, FindPath, Leaf, Bag;
      ghost var before := JournalAt(journals, address);
      if WellFormed(before.files) {
        AppendKeepsWellFormed(before, address, hash, dependsOn, data, nanos, io);
      }
      r := EnsureAddressMarker(address, io.marker);
      if r.Err? {
        return;
      }
      var journal := JournalAt(journals, address);
      var path := FindSnapshotPath(journal.files, hash);
      if path.Some? {
        return Err(SnapshotAlreadyExists(address, hash));
      }
      var head := FindLeaf.FindLeaf(Bag(journal.files));
      if head.Err? {
        return Err(InvalidFormat(MalformedJournal(head.error)));
      }
      var current := HashOf(head.value);
      if current != dependsOn {
        return Err(JournalConflict(address, dependsOn, current));
      }
      var (files, written) := WriteNew(journal.files, File(nanos, hash), PendingSnapshot(hash, dependsOn, data), io);
      journals := journals[address := journal.(files := files)];
      return written;
    }

    /** `ensure_address_marker`: the directory is there afterwards, whatever becomes of the marker. */
    method EnsureAddressMarker(address: Address, fate: WriteFate) returns (r: Result<(), StoreError>)
      modifies this
      ensures var (journal, ensured) := EnsureMarker(JournalAt(old(journals), address), address, fate);
              journals == old(journals)[address := journal] && r == ensured
      ensures var before := JournalAt(old(journals), address);
              && address in journals && journals[address].files == before.files
              && (before.marker.Some? || fate == NotWritten ==> journals[address].marker == before.marker)
              && (before.marker.None? && fate != NotWritten ==> journals[address].marker == Some(address))
              && (r.Ok? <==> journals[address].marker == Some(address) && (before.marker.Some? || fate == Written))
              && (r.Err? ==> r.error == if before.marker.Some? then InvalidFormat(MarkerMismatch(before.marker.value))
                                        else Io)
    {
      var journal := JournalAt(journals, address);
      journals := journals[address := journal];
      if journal.marker.Some? {
        if journal.marker.value != address {
          return Err(InvalidFormat(MarkerMismatch(journal.marker.value)));
        }
        return Ok(());
      }
      if fate != NotWritten {
        journals := journals[address := journal.(marker := Some(address))];
      }
      return if fate == Written then Ok(()) else Err(Io);
    }

    /** `confirm`, under the address lock. */
    method ConfirmSnapshotOf(
        address: Address, hash: Hash, height: Option<u64>, blockHash: Hash, fate: WriteFate)
      returns (r: Result<(), StoreError>)
      modifies this
      ensures (JournalAt(journals, address), r)
           == Confirm(JournalAt(old(journals), address), address, hash, height, blockHash, fate)
      ensures Unrelated(old(journals), journals, address)
      ensures WellFormed(JournalAt(old(journals), address).files) ==> WellFormed(JournalAt(journals, address).files)
    {
      hide WellFormed, FindPath;
      var journal := JournalAt(journals, address);
      if WellFormed(journal.files) {
        ConfirmKeepsWellFormed(journal, address, hash, height, blockHash, fate);
      }
      var path := FindSnapshotPath(journal.files, hash);
      if path.None? {
        return Err(SnapshotNotFound(address, hash));
      }
      var snap := journal.files[path.value];
      if snap.status == Confirmed {
        if snap.blockHash != Some(blockHash) {
          return Err(InvalidFormat(OtherBlock));
        }
        if snap.blockHeight.None? && height.Some? {
          snap := snap.(blockHeight := height);
          r := WriteSnapshot(address, path.value, snap, fate);
          return;
        }
        return Ok(());
      }
      snap := snap.(status := Confirmed, blockHeight := height, blockHash := Some(blockHash));
      r := WriteSnapshot(address, path.value, snap, fate);
    }

    method WriteSnapshot(address: Address, file: File, snap: Snapshot, fate: WriteFate)
      returns (r: Result<(), StoreError>)
      modifies this
      ensures var journal := JournalAt(old(journals), address);
              journals == old(journals)[address :=
                if fate == NotWritten then journal else journal.(files := journal.files[file := snap])]
      ensures r == if fate == Written then Ok(()) else Err(Io)
    {
      var journal := JournalAt(journals, address);
      journals := journals[address := journal];
      if fate != NotWritten {
        journals := journals[address := journal.(files := journal.files[file := snap])];
      }
      return if fate == Written then Ok(()) else Err(Io);
    }

    /** `rollback_from` and `mark_failed`: the cascade, child first, stopped by the first failed removal. */
    method RollbackFrom(address: Address, start: Hash, io: DropIo) returns (r: Result<(), StoreError>)
      modifies this
      ensures (JournalAt(journals, address), r) == Rollback(JournalAt(old(journals), address), address, start, io)
      ensures Unrelated(old(journals), journals, address)
      ensures WellFormed(JournalAt(old(journals), address).files) ==> WellFormed(JournalAt(journals, address).files)
    {
      hide WellFormed, FindPath, WalkOrder, Bag, PathByHash, Without;
      ghost var before := JournalAt(journals, address);
      ghost var untouched := journals;
      if WellFormed(before.files) {
        RollbackKeepsWellFormed(before, address, start, io);
      }
      var files := JournalAt(journals, address).files;
      var found := FindSnapshotPath(files, start);
      if found.None? {
        return Err(SnapshotNotFound(address, start));
      }
      var paths := PathByHash(files);
      var doomed := WalkChildren(Bag(files), [start]);
      DoomedHasPath(files, start);
      NothingGone(files, paths, doomed);
      var i := |doomed|;
      while i > 0
        invariant 0 <= i <= |doomed| && |doomed| - i <= io.removals
        invariant JournalAt(journals, address) == before.(files := Without(files, paths, doomed[i..]))
        invariant Unrelated(untouched, journals, address)
      {
        if doomed[i - 1] in paths {
          if |doomed| - i == io.removals {
            return Err(Io);
          }
          var journal := JournalAt(journals, address);
          journals := journals[address := journal.(files := journal.files - {paths[doomed[i - 1]]})];
        }
        WithoutOneMore(files, paths, doomed, i);
        i := i - 1;
      }
      return if io.synced then Ok(()) else Err(Io);
    }

    method MarkFailed(address: Address, hash: Hash, io: DropIo) returns (r: Result<(), StoreError>)
      modifies this
      ensures (JournalAt(journals, address), r) == Rollback(JournalAt(old(journals), address), address, hash, io)
      ensures Unrelated(old(journals), journals, address)
      ensures WellFormed(JournalAt(old(journals), address).files) ==> WellFormed(JournalAt(journals, address).files)
    {
      r := RollbackFrom(address, hash, io);
    }

    /** `head_snapshot`. */
    method HeadSnapshot(address: Address) returns (head: Result<Option<Snapshot>, StoreError>)
      ensures var leaf := Head(JournalAt(journals, address).files);
              head == if leaf.Ok? then Ok(leaf.value) else Err(InvalidFormat(MalformedJournal(leaf.error)))
    {
      var leaf := FindLeaf.FindLeaf(Bag(JournalAt(journals, address).files));
      return match leaf case Ok(s) => Ok(s) case Err(e) => Err(InvalidFormat(MalformedJournal(e)));
    }

    /** `snapshots`: the whole journal, in causal order. On a chain that is the chain. */
    method Snapshots(address: Address) returns (listing: seq<Snapshot>)
      ensures listing == TopoOrder(Bag(JournalAt(journals, address).files))
      ensures forall chain :: Holds(JournalAt(journals, address).files, chain) ==> listing == chain
    {
      hide TopoOrder, ChainOf, Bag;
      var bag := Bag(JournalAt(journals, address).files);
      listing := TopoSort.TopoSort(bag);
      forall chain | Holds(JournalAt(journals, address).files, chain) ensures TopoOrder(bag) == chain {
        TopoIsChain(bag, chain);
      }
    }

    method Forget(address: Address)
      modifies this
      ensures JournalAt(journals, address) == EMPTY_JOURNAL
      ensures Unrelated(old(journals), journals, address)
    {
      journals := journals - {address};
    }

    method ForgetAll()
      modifies this
      ensures journals == map[]
    {
      journals := map[];
    }
  }

  lemma NothingGone(files: Files, paths: map<Hash, File>, doomed: seq<Hash>)
    ensures Without(files, paths, doomed[|doomed|..]) == files
  {
    assert doomed[|doomed|..] == [];
  }
}
