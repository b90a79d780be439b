/**
 The journal operations on one contract's directory, as functions of the
 directory and of how the file system answers. `Store` runs them in place and
 `History`, `Interleaving` and `CallProtocol` reason about runs of them.
 */
module Journal {
  import opened Wrappers
  import opened Snapshots
  import opened Walk
  import opened FindLeaf
  import opened Directory

  datatype FormatProblem =
    | MalformedJournal(malformed: Malformed)
    | MarkerMismatch(found: Address)
    | OtherBlock
    | BadHashField
    | DuplicateEntry(hash: Hash)
    | WouldDowngrade(hash: Hash)
    | ImportMalformed(malformedImport: Malformed)
    | WrongFormat

  datatype StoreError =
    | Io
    | InvalidFormat(problem: FormatProblem)
    | SnapshotNotFound(address: Address, hash: Hash)
    | SnapshotAlreadyExists(address: Address, hash: Hash)
    | JournalConflict(address: Address, expected: Option<Hash>, found: Option<Hash>)
    | ImportConflict(address: Address, hash: Hash)
    | PasswordTooShort
    | TooManyEntries
    | Decrypt

  /** One contract's directory: its address marker and its snapshot files. */
  datatype Journal = Journal(marker: Option<Address>, files: Files)

  const EMPTY_JOURNAL: Journal := Journal(None, map[])

  /** How `write_atomic` ends: the rename can be done and the directory sync still fail. */
  datatype WriteFate = Written | NotWritten | Unsynced

  /** How the file system answers an append: the marker, the snapshot, the clean-up of a failed one. */
  datatype AppendIo = AppendIo(marker: WriteFate, snapshot: WriteFate, cleanup: bool)

  /** How it answers a cascade: the removals it does before one fails, and the final sync. */
  datatype DropIo = DropIo(removals: nat, synced: bool)

  // ---------------------------------------------------------------------------
  // Lookups
  // ---------------------------------------------------------------------------

  function FirstWithHash(files: Files, names: seq<File>, hash: Hash): (r: Option<File>)
    requires forall f :: f in names ==> f in files
    ensures r.Some? ==> r.value in names && files[r.value].extrinsicHash == hash
    ensures r.None? ==> forall f :: f in names ==> files[f].extrinsicHash != hash
  {
    if names == [] then None
    else if files[names[0]].extrinsicHash == hash then Some(names[0])
    else
      assert names == [names[0]] + names[1..];
      FirstWithHash(files, names[1..], hash)
  }

  /** `find_snapshot_path`: the first file, in name order, that holds the hash. */
  function FindPath(files: Files, hash: Hash): (r: Option<File>)
    ensures r.Some? ==> r.value in files && files[r.value].extrinsicHash == hash
    ensures r.None? ==> forall f :: f in files ==> files[f].extrinsicHash != hash
  {
    var r := FirstWithHash(files, Names(files), hash);
    assert forall f :: f in files ==> f in Names(files);
    r
  }

  ghost function Head(files: Files): (r: Result<Option<Snapshot>, Malformed>) {
    Leaf(Bag(files))
  }

  function HashOf(head: Option<Snapshot>): (r: Option<Hash>) {
    if head.Some? then Some(head.value.extrinsicHash) else None
  }

  // ---------------------------------------------------------------------------
  // `append_pending`
  // ---------------------------------------------------------------------------

  function EnsureMarker(j: Journal, address: Address, fate: WriteFate): (r: (Journal, Result<(), StoreError>)) {
    if j.marker.Some? then
      if j.marker.value != address then (j, Err(InvalidFormat(MarkerMismatch(j.marker.value)))) else (j, Ok(()))
    else
      (if fate == NotWritten then j else j.(marker := Some(address)),
       if fate == Written then Ok(()) else Err(Io))
  }

  function PendingSnapshot(hash: Hash, dependsOn: Option<Hash>, data: Bytes): (s: Snapshot) {
    Snapshot(Pending, hash, None, None, dependsOn, data)
  }

  /** The write of a new snapshot, with the clean-up of one whose directory sync failed. */
  function WriteNew(files: Files, file: File, s: Snapshot, io: AppendIo): (r: (Files, Result<(), StoreError>)) {
    match io.snapshot
    case Written => (files[file := s], Ok(()))
    case NotWritten => (if io.cleanup then files - {file} else files, Err(Io))
    case Unsynced => (if io.cleanup then files - {file} else files[file := s], Err(Io))
  }

  /** The decision of an append, from whether the hash is taken and what the head is. */
  function AppendAt(
      j: Journal, address: Address, hash: Hash, dependsOn: Option<Hash>, data: Bytes, nanos: nat, io: AppendIo,
      taken: bool, head: Result<Option<Snapshot>, Malformed>)
    : (r: (Journal, Result<(), StoreError>))
  {
    var (marked, ensured) := EnsureMarker(j, address, io.marker);
    if ensured.Err? then (marked, ensured)
    else if taken then (marked, Err(SnapshotAlreadyExists(address, hash)))
    else if head.Err? then (marked, Err(InvalidFormat(MalformedJournal(head.error))))
    else if HashOf(head.value) != dependsOn then (marked, Err(JournalConflict(address, dependsOn, HashOf(head.value))))
    else
      var (files, written) := WriteNew(j.files, File(nanos, hash), PendingSnapshot(hash, dependsOn, data), io);
      (marked.(files := files), written)
  }

  ghost function Append(
      j: Journal, address: Address, hash: Hash, dependsOn: Option<Hash>, data: Bytes, nanos: nat, io: AppendIo)
    : (r: (Journal, Result<(), StoreError>))
  {
    AppendAt(j, address, hash, dependsOn, data, nanos, io, FindPath(j.files, hash).Some?, Head(j.files))
  }

  // ---------------------------------------------------------------------------
  // `confirm`
  // ---------------------------------------------------------------------------

  /** The snapshot after a confirm, or the refusal of another block. */
  function ConfirmSnapshot(s: Snapshot, height: Option<u64>, blockHash: Hash): (r: Result<Snapshot, StoreError>) {
    if s.status == Confirmed then
      if s.blockHash != Some(blockHash) then Err(InvalidFormat(OtherBlock))
      else if s.blockHeight.None? && height.Some? then Ok(s.(blockHeight := height))
      else Ok(s)
    else Ok(s.(status := Confirmed, blockHeight := height, blockHash := Some(blockHash)))
  }

  function Confirm(j: Journal, address: Address, hash: Hash, height: Option<u64>, blockHash: Hash, fate: WriteFate)
    : (r: (Journal, Result<(), StoreError>))
  {
    match FindPath(j.files, hash)
    case None => (j, Err(SnapshotNotFound(address, hash)))
    case Some(file) =>
      match ConfirmSnapshot(j.files[file], height, blockHash)
      case Err(e) => (j, Err(e))
      case Ok(s) =>
        if s == j.files[file] then (j, Ok(()))
        else
          (if fate == NotWritten then j else j.(files := j.files[file := s]),
           if fate == Written then Ok(()) else Err(Io))
  }

  // ---------------------------------------------------------------------------
  // `cascade_drop`
  // ---------------------------------------------------------------------------

  ghost function Doomed(files: Files, start: Hash): (order: seq<Hash>) {
    WalkOrder(Bag(files), [start])
  }

  /** A map from hash to path, as collected from the listing: a later file replaces an earlier one. */
  function LastPath(files: Files, names: seq<File>): (m: map<Hash, File>)
    requires forall f :: f in names ==> f in files
    ensures forall h :: h in m ==> m[h] in names && files[m[h]].extrinsicHash == h
    ensures forall f :: f in names ==> files[f].extrinsicHash in m
  {
    if names == [] then map[]
    else
      var last := |names| - 1;
      assert names == names[..last] + [names[last]];
      LastPath(files, names[..last])[files[names[last]].extrinsicHash := names[last]]
  }

  function PathByHash(files: Files): (m: map<Hash, File>)
    ensures forall h :: h in m ==> m[h] in files && files[m[h]].extrinsicHash == h
    ensures forall f :: f in files ==> files[f].extrinsicHash in m
  {
    var m := LastPath(files, Names(files));
    assert forall f :: f in files ==> f in Names(files);
    m
  }

  /** The files of the hashes in `gone`, out of the directory. */
  ghost function Without(files: Files, paths: map<Hash, File>, gone: seq<Hash>): (r: Files) {
    map f | f in files && !(exists h :: h in gone && h in paths && paths[h] == f) :: files[f]
  }

  /** The directory after `done` removals: the last `done` hashes of the walk are gone. */
  ghost function AfterRemovals(files: Files, start: Hash, done: nat): (r: Files) {
    var doomed := Doomed(files, start);
    var kept := if done <= |doomed| then |doomed| - done else 0;
    Without(files, PathByHash(files), doomed[kept..])
  }

  ghost function Rollback(j: Journal, address: Address, start: Hash, io: DropIo)
    : (r: (Journal, Result<(), StoreError>))
  {
    if FindPath(j.files, start).None? then (j, Err(SnapshotNotFound(address, start)))
    else
      (j.(files := AfterRemovals(j.files, start, io.removals)),
       if io.removals < |Doomed(j.files, start)| || !io.synced then Err(Io) else Ok(()))
  }
}
