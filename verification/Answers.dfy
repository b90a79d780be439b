/** What each journal operation answers, error by error, and what it leaves when it fails. */
module Answers {
  import opened Wrappers
  import opened Orders
  import opened Snapshots
  import opened Directory
  import opened Journal
  import opened JournalLaws
  import opened CascadeLaws

  // ---------------------------------------------------------------------------
  // Lookups
  // ---------------------------------------------------------------------------

  lemma NamesInOrder(files: Files)
    ensures SortedBy(Names(files), FileLe)
    ensures forall f :: f in Names(files) <==> f in files
  {
    FileOrder();
  }

  lemma {:induction false} FirstIsEarliest(files: Files, names: seq<File>, hash: Hash, g: File)
    requires (forall f :: f in names ==> f in files) && SortedBy(names, FileLe)
    requires g in names && files[g].extrinsicHash == hash
    ensures var r := FirstWithHash(files, names, hash);
            r.Some? && FileLe(r.value, g)
  {
    hide FileLe;
    FileOrder();
    if files[names[0]].extrinsicHash == hash {
      var i :| 0 <= i < |names| && names[i] == g;
    } else {
      assert names == [names[0]] + names[1..];
      FirstIsEarliest(files, names[1..], hash, g);
    }
  }

  /** With `g`, the lookup by hash finds the earliest file of the hash in name order, and the map keeps the latest. */
  lemma FirstAndLastFile(files: Files, hash: Hash, g: File)
    requires g in files && files[g].extrinsicHash == hash
    ensures FindPath(files, hash).Some? && FileLe(FindPath(files, hash).value, g)
    ensures hash in PathByHash(files) && FileLe(g, PathByHash(files)[hash])
  {
    hide FileLe;
    NamesInOrder(files);
    FirstIsEarliest(files, Names(files), hash, g);
    LastIsLatest(files, Names(files), hash, g);
  }

  lemma {:induction false} LastIsLatest(files: Files, names: seq<File>, hash: Hash, g: File)
    requires (forall f :: f in names ==> f in files) && SortedBy(names, FileLe)
    requires g in names && files[g].extrinsicHash == hash
    ensures hash in LastPath(files, names) && FileLe(g, LastPath(files, names)[hash])
  {
    hide FileLe;
    FileOrder();
    var last := |names| - 1;
    if files[names[last]].extrinsicHash == hash {
      var i :| 0 <= i < |names| && names[i] == g;
    } else {
      assert names == names[..last] + [names[last]];
      LastIsLatest(files, names[..last], hash, g);
    }
  }

  // ---------------------------------------------------------------------------
  // The four writes
  // ---------------------------------------------------------------------------

  /** What becomes of the marker is settled first, and the marker stays whatever the append answers. */
  lemma AppendAnswer(
      j: Journal, chain: seq<Snapshot>, address: Address, hash: Hash, dependsOn: Option<Hash>, data: Bytes, nanos: nat,
      io: AppendIo)
    requires Holds(j.files, chain)
    ensures var (after, r) := Append(j, address, hash, dependsOn, data, nanos, io);
            && after.marker == (if j.marker == None && io.marker != NotWritten then Some(address) else j.marker)
            && r == if j.marker.Some? && j.marker != Some(address) then
                      Err(InvalidFormat(MarkerMismatch(j.marker.value)))
                    else if j.marker == None && io.marker != Written then Err(Io)
                    else if Taken(chain, hash) then Err(SnapshotAlreadyExists(address, hash))
                    else if LastHash(chain) != dependsOn then
                      Err(JournalConflict(address, dependsOn, LastHash(chain)))
                    else if io.snapshot != Written then Err(Io)
                    else Ok(())
  {
    hide Append, Holds;
    var head := AppendOnChain(j, chain, address, hash, dependsOn, data, nanos, io);
  }

  /** A directory that is no chain says so to an append, unless its marker or the hash already refuses it. */
  lemma MalformedAppendAnswer(
      j: Journal, address: Address, hash: Hash, dependsOn: Option<Hash>, data: Bytes, nanos: nat, io: AppendIo)
    requires !(exists chain :: Holds(j.files, chain))
    requires j.marker == Some(address) || (j.marker == None && io.marker == Written)
    ensures Head(j.files).Err?
    ensures Append(j, address, hash, dependsOn, data, nanos, io).1
         == Err(if OnDisk(j.files, hash) then SnapshotAlreadyExists(address, hash)
                else InvalidFormat(MalformedJournal(Head(j.files).error)))
  {
    hide Head, FindPath, Holds, OnDisk;
    NoChainNoHead(j.files);
    OnDiskHashes(j.files);
  }

  /** The snapshot a confirm leaves, when the block is new to it or the one it records. */
  ghost function Settled(s: Snapshot, height: Option<u64>, blockHash: Hash): (t: Snapshot) {
    s.(status := Confirmed, blockHash := Some(blockHash),
       blockHeight := if s.status == Confirmed && s.blockHeight.Some? then s.blockHeight else height)
  }

  /** A confirm of a hash that is not there, of another block, of what is recorded already, and of what is not. */
  lemma ConfirmAnswer(j: Journal, address: Address, f: File, height: Option<u64>, blockHash: Hash, fate: WriteFate)
    requires f in j.files && OneFilePerHash(j.files)
    ensures var s := j.files[f];
            var (after, r) := Confirm(j, address, s.extrinsicHash, height, blockHash, fate);
            var t := Settled(s, height, blockHash);
            && after == (if (s.status == Confirmed && s.blockHash != Some(blockHash)) || fate == NotWritten then j
                         else j.(files := j.files[f := t]))
            && r == if s.status == Confirmed && s.blockHash != Some(blockHash) then Err(InvalidFormat(OtherBlock))
                    else if t != s && fate != Written then Err(Io)
                    else Ok(())
  {
    hide FindPath;
    var found := FindPath(j.files, j.files[f].extrinsicHash);
    assert found == Some(f);
    assert j.files[f := j.files[f]] == j.files;
  }

  /** A confirm or a drop of a hash that is not on disk says so, and leaves the journal as it was. */
  lemma MissingAnswer(
      j: Journal, address: Address, hash: Hash, height: Option<u64>, blockHash: Hash, fate: WriteFate, io: DropIo)
    requires !OnDisk(j.files, hash)
    ensures Confirm(j, address, hash, height, blockHash, fate) == (j, Err(SnapshotNotFound(address, hash)))
    ensures Rollback(j, address, hash, io) == (j, Err(SnapshotNotFound(address, hash)))
  {
    hide FindPath;
    OnDiskHashes(j.files);
  }

  /**
   A drop succeeds exactly when the start is on disk, nothing that depends on it
   is left, and the final sync works. Of a start on disk the one error is I/O.
   */
  lemma RollbackAnswer(j: Journal, address: Address, start: Hash, io: DropIo)
    requires OneFilePerHash(j.files)
    ensures var (after, r) := Rollback(j, address, start, io);
            && after.marker == j.marker
            && r == (if !OnDisk(j.files, start) then Err(SnapshotNotFound(address, start))
                     else if io.removals >= |Doomed(j.files, start)| && io.synced then Ok(()) else Err(Io))
            && (r.Ok? <==>
                  && OnDisk(j.files, start) && io.synced
                  && forall f :: f in after.files ==> !DependsOnStart(j.files, start, j.files[f].extrinsicHash))
  {
    hide FindPath, Doomed, AfterRemovals, DependsOnStart;
    OnDiskHashes(j.files);
    if OnDisk(j.files, start) {
      RemovalsOnlyRemove(j, address, start, io);
      if io.removals >= |Doomed(j.files, start)| {
        CascadeRemovesSubtree(j.files, start, io.removals);
      } else {
        StoppedLeavesStart(j.files, start, io.removals);
      }
    }
  }

  /** A cascade that stops leaves the start, which depends on itself. */
  lemma StoppedLeavesStart(files: Files, start: Hash, done: nat)
    requires OneFilePerHash(files) && OnDisk(files, start) && done < |Doomed(files, start)|
    ensures exists f :: f in AfterRemovals(files, start, done) && f in files
                        && DependsOnStart(files, start, files[f].extrinsicHash)
  {
    hide Doomed, AfterRemovals, DependsOnStart;
    var kept := StopPoint(files, start, done);
    DoomedOnDisk(files, start);
    var after := AfterRemovals(files, start, done);
    assert Doomed(files, start)[..kept][0] == start;
    var f :| f in after && after[f].extrinsicHash == start;
    assert Doomed(files, start)[0] in Doomed(files, start);
  }
}
