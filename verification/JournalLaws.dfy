/** What one journal operation keeps: the chain, and every snapshot's identity. */
module JournalLaws {
  import opened Wrappers
  import opened Orders
  import opened Snapshots
  import opened FindLeaf
  import opened Directory
  import opened Journal

  function LastHash(chain: seq<Snapshot>): (r: Option<Hash>) {
    if chain == [] then None else Some(chain[|chain| - 1].extrinsicHash)
  }

  lemma HoldsByMembers(files: Files, chain: seq<Snapshot>)
    requires Chain(chain) && OneFilePerHash(files)
    requires forall s :: s in chain <==> exists f :: f in files && files[f] == s
    ensures Holds(files, chain)
  {
    OneFileDistinct(files);
    DistinctNoDup(chain);
    DistinctNoDup(Bag(files));
    NoDupSameElements(chain, Bag(files));
  }

  /** A directory that holds a chain has the end of the chain as its head, or is empty. */
  lemma HeadOfChain(files: Files, chain: seq<Snapshot>)
    requires Holds(files, chain)
    ensures Head(files).Ok? && HashOf(Head(files).value) == LastHash(chain)
    ensures Head(files) == Ok(if chain == [] then None else Some(chain[|chain| - 1]))
  {
    HoldsMembers(files, chain);
    LeafIsChainEnd(Bag(files));
    if chain != [] {
      ChainImpliesLeaf(chain, Bag(files));
    }
  }

  lemma ChainOfHead(files: Files) returns (chain: seq<Snapshot>)
    requires Head(files).Ok?
    ensures Holds(files, chain)
  {
    LeafIsChainEnd(Bag(files));
    if files == map[] {
      chain := [];
      HoldsByMembers(files, chain);
    } else {
      LeafImpliesChain(Bag(files), Head(files).value.value);
      chain := Arranged(Bag(files));
    }
  }

  lemma ChainPrefix(chain: seq<Snapshot>, n: nat)
    requires Chain(chain) && n <= |chain|
    ensures Chain(chain[..n])
  {
    forall i, j | 0 <= i < j < n ensures Hashes(chain[..n])[i] != Hashes(chain[..n])[j] {
      assert Hashes(chain)[i] != Hashes(chain)[j];
    }
  }

  lemma ChainGrows(chain: seq<Snapshot>, s: Snapshot)
    requires Chain(chain) && s.dependsOn == LastHash(chain)
    requires forall t :: t in chain ==> t.extrinsicHash != s.extrinsicHash
    ensures Chain(chain + [s])
  {
    var longer := chain + [s];
    forall i, j | 0 <= i < j < |longer| ensures Hashes(longer)[i] != Hashes(longer)[j] {
      if j == |chain| {
        assert chain[i] in chain;
      } else {
        assert Hashes(chain)[i] != Hashes(chain)[j];
      }
    }
  }

  // ---------------------------------------------------------------------------
  // Append
  // ---------------------------------------------------------------------------

  lemma InsertExtends(files: Files, chain: seq<Snapshot>, f: File, s: Snapshot)
    requires Holds(files, chain) && f !in files
    requires s.dependsOn == LastHash(chain)
    requires forall g :: g in files ==> files[g].extrinsicHash != s.extrinsicHash
    ensures Holds(files[f := s], chain + [s])
  {
    HoldsMembers(files, chain);
    ChainGrows(chain, s);
    BagInsert(files, f, s);
  }

  /** The append landed: its snapshot is on disk, right after the leaf it names. */
  ghost predicate Landed(before: Files, after: Files, chain: seq<Snapshot>, file: File, s: Snapshot) {
    && file !in before
    && after == before[file := s]
    && s.dependsOn == LastHash(chain)
    && Holds(after, chain + [s])
  }

  ghost predicate Taken(chain: seq<Snapshot>, hash: Hash) {
    exists s :: s in chain && s.extrinsicHash == hash
  }

  /** The append's decision, on a chain. */
  lemma AppendOnChain(
      j: Journal, chain: seq<Snapshot>, address: Address, hash: Hash, dependsOn: Option<Hash>, data: Bytes, nanos: nat,
      io: AppendIo)
    returns (head: Result<Option<Snapshot>, Malformed>)
    requires Holds(j.files, chain)
    ensures head.Ok? && HashOf(head.value) == LastHash(chain)
    ensures Append(j, address, hash, dependsOn, data, nanos, io)
         == AppendAt(j, address, hash, dependsOn, data, nanos, io, Taken(chain, hash), head)
  {
    hide Leaf, Holds;
    HeadOfChain(j.files, chain);
    HoldsMembers(j.files, chain);
    var found := FindPath(j.files, hash);
    assert found.Some? ==> j.files[found.value] in chain;
    head := Head(j.files);
  }

  lemma UntakenIsNew(files: Files, chain: seq<Snapshot>, nanos: nat, hash: Hash)
    requires Holds(files, chain) && NamedByHash(files) && !Taken(chain, hash)
    ensures File(nanos, hash) !in files
    ensures forall g :: g in files ==> files[g].extrinsicHash != hash
  {
    HoldsMembers(files, chain);
    forall g | g in files ensures files[g].extrinsicHash != hash {
      assert files[g] in chain;
    }
  }

  /**
   An append is a compare-and-swap on the leaf. Whatever the file system does,
   the journal is unchanged or one longer, and `Ok` means longer.
   */
  lemma AppendIsCas(
      j: Journal, chain: seq<Snapshot>, address: Address, hash: Hash, dependsOn: Option<Hash>, data: Bytes, nanos: nat,
      io: AppendIo)
    requires Holds(j.files, chain) && NamedByHash(j.files)
    ensures var (after, r) := Append(j, address, hash, dependsOn, data, nanos, io);
            && (after.files == j.files ||
                Landed(j.files, after.files, chain, File(nanos, hash), PendingSnapshot(hash, dependsOn, data)))
            && (r.Ok? ==> after.files != j.files)
            && NamedByHash(after.files)
  {
    hide Append, Holds;
    var s, file := PendingSnapshot(hash, dependsOn, data), File(nanos, hash);
    var head := AppendOnChain(j, chain, address, hash, dependsOn, data, nanos, io);
    if !Taken(chain, hash) {
      UntakenIsNew(j.files, chain, nanos, hash);
      assert j.files - {file} == j.files;
      if dependsOn == LastHash(chain) {
        InsertExtends(j.files, chain, file, s);
      }
    }
  }

  /** The swap succeeds exactly on the leaf, with a new hash, a matching marker and a healthy disk. */
  lemma AppendSucceeds(
      j: Journal, chain: seq<Snapshot>, address: Address, hash: Hash, dependsOn: Option<Hash>, data: Bytes, nanos: nat,
      io: AppendIo)
    requires Holds(j.files, chain)
    ensures Append(j, address, hash, dependsOn, data, nanos, io).1.Ok? <==>
              && (j.marker == Some(address) || (j.marker == None && io.marker == Written))
              && !Taken(chain, hash)
              && dependsOn == LastHash(chain)
              && io.snapshot == Written
  {
    hide Append, Holds;
    var head := AppendOnChain(j, chain, address, hash, dependsOn, data, nanos, io);
  }

  /** A journal that is no chain takes no append. */
  lemma AppendNeedsChain(
      j: Journal, address: Address, hash: Hash, dependsOn: Option<Hash>, data: Bytes, nanos: nat, io: AppendIo)
    requires !(exists chain :: Holds(j.files, chain))
    ensures Append(j, address, hash, dependsOn, data, nanos, io).1.Err?
    ensures Append(j, address, hash, dependsOn, data, nanos, io).0.files == j.files
  {
    hide Leaf, FindPath, Holds;
    NoChainNoHead(j.files);
  }

  lemma NoChainNoHead(files: Files)
    requires !(exists chain :: Holds(files, chain))
    ensures Head(files).Err?
  {
    if Head(files).Ok? {
      var chain := ChainOfHead(files);
    }
  }

  // ---------------------------------------------------------------------------
  // Confirm
  // ---------------------------------------------------------------------------

  /** Same hashes, same parents, same data, position by position. */
  ghost predicate SameLinks(a: seq<Snapshot>, b: seq<Snapshot>) {
    && |a| == |b|
    && forall i :: 0 <= i < |a| ==>
         a[i].extrinsicHash == b[i].extrinsicHash && a[i].dependsOn == b[i].dependsOn && a[i].data == b[i].data
  }

  lemma SameLinksChain(a: seq<Snapshot>, b: seq<Snapshot>)
    requires Chain(a) && SameLinks(a, b)
    ensures Chain(b)
  {
    assert Hashes(a) == Hashes(b);
    forall i, j | 0 <= i && j == i + 1 < |b| ensures b[j].dependsOn == Some(b[i].extrinsicHash) {
      assert a[j].dependsOn == Some(a[i].extrinsicHash);
    }
  }

  /** Swapping one snapshot for one with the same links keeps the chain. */
  lemma ReplaceKeepsChain(files: Files, chain: seq<Snapshot>, f: File, i: nat, s: Snapshot)
    requires Holds(files, chain) && f in files && i < |chain| && files[f] == chain[i]
    requires s.extrinsicHash == chain[i].extrinsicHash && s.dependsOn == chain[i].dependsOn && s.data == chain[i].data
    ensures Holds(files[f := s], chain[i := s]) && SameLinks(chain, chain[i := s])
  {
    hide Bag, Chain;
    SameLinksChain(chain, chain[i := s]);
    BagReplace(files, f, s);
    ReplaceInMultiset(chain, i, s);
    Cancel(multiset(chain[i := s]), multiset(Bag(files[f := s])), chain[i]);
  }

  lemma Cancel<T>(a: multiset<T>, b: multiset<T>, x: T)
    requires a + multiset{x} == b + multiset{x}
    ensures a == b
  {
    assert a == a + multiset{x} - multiset{x};
    assert b == b + multiset{x} - multiset{x};
  }

  lemma PositionOf(files: Files, chain: seq<Snapshot>, f: File) returns (i: nat)
    requires Holds(files, chain) && f in files
    ensures i < |chain| && chain[i] == files[f]
    ensures forall s :: s in chain && s.extrinsicHash == files[f].extrinsicHash ==> s == files[f]
  {
    HoldsMembers(files, chain);
    assert files[f] in chain;
    i :| 0 <= i < |chain| && chain[i] == files[f];
    forall s | s in chain && s.extrinsicHash == files[f].extrinsicHash ensures s == files[f] {
      DistinctByHash(chain, s, files[f]);
    }
  }

  /** A confirm changes at most the named snapshot, and of it only the status and the block. */
  lemma ConfirmKeepsChain(
      j: Journal, chain: seq<Snapshot>, address: Address, hash: Hash, height: Option<u64>, blockHash: Hash,
      fate: WriteFate)
    returns (i: nat, after: seq<Snapshot>)
    requires Holds(j.files, chain) && NamedByHash(j.files)
    ensures Holds(Confirm(j, address, hash, height, blockHash, fate).0.files, after)
    ensures NamedByHash(Confirm(j, address, hash, height, blockHash, fate).0.files)
    ensures SameLinks(chain, after) && forall k :: 0 <= k < |chain| && k != i ==> chain[k] == after[k]
    ensures i < |chain| ==> chain[i].extrinsicHash == hash
    ensures Taken(chain, hash) <==> i < |chain|
    ensures i < |chain| ==> after[i] == chain[i] || ConfirmSnapshot(chain[i], height, blockHash) == Ok(after[i])
    ensures Confirm(j, address, hash, height, blockHash, fate).1.Ok? ==>
              i < |chain| && ConfirmSnapshot(chain[i], height, blockHash) == Ok(after[i])
    ensures Confirm(j, address, hash, height, blockHash, fate).1.Ok? <==>
              Taken(chain, hash) && i < |chain| && ConfirmSnapshot(chain[i], height, blockHash).Ok? &&
              (fate == Written || ConfirmSnapshot(chain[i], height, blockHash) == Ok(chain[i]))
  {
    hide Holds, FindPath;
    var found := FindPath(j.files, hash);
    if found.None? {
      HoldsMembers(j.files, chain);
      i, after := |chain|, chain;
      return;
    }
    i := PositionOf(j.files, chain, found.value);
    after := chain;
    var confirmed := ConfirmSnapshot(chain[i], height, blockHash);
    if confirmed.Ok? && confirmed.value != chain[i] && fate != NotWritten {
      after := chain[i := confirmed.value];
      ReplaceKeepsChain(j.files, chain, found.value, i, confirmed.value);
    }
  }

  /** What a confirm records, on any snapshot it accepts, and that saying it again changes nothing. */
  lemma ConfirmRecords(s: Snapshot, height: Option<u64>, blockHash: Hash)
    ensures s.status == Pending ==> ConfirmSnapshot(s, height, blockHash).Ok?
    ensures var r := ConfirmSnapshot(s, height, blockHash);
            r.Ok? ==>
              && r.value.status == Confirmed && r.value.blockHash == Some(blockHash)
              && r.value.extrinsicHash == s.extrinsicHash && r.value.dependsOn == s.dependsOn && r.value.data == s.data
              && (s.status == Pending ==> r.value.blockHeight == height)
              && (height.Some? && s.blockHeight.None? ==> r.value.blockHeight == height)
              && ConfirmSnapshot(r.value, height, blockHash) == r
  {
  }

  /**
   A re-confirm of a Confirmed snapshot goes by the block hash alone: it is accepted
   although height and hash together differ from the record exactly when the hash is
   the recorded one and the height is not. All it can change is an absent height.
   */
  lemma ReconfirmIgnoresHeight(
      j: Journal, chain: seq<Snapshot>, address: Address, k: nat, height: Option<u64>, blockHash: Hash)
    requires Holds(j.files, chain) && NamedByHash(j.files) && k < |chain| && chain[k].status == Confirmed
    ensures var (after, r) := Confirm(j, address, chain[k].extrinsicHash, height, blockHash, Written);
            var recorded := (chain[k].blockHeight, chain[k].blockHash);
            && (r.Ok? && recorded != (height, Some(blockHash)) <==>
                  recorded.1 == Some(blockHash) && recorded.0 != height)
            && Holds(after.files,
                     if r.Ok? && recorded.0.None? then chain[k := chain[k].(blockHeight := height)] else chain)
  {
    hide Holds, Confirm, NamedByHash;
    var i, after := ConfirmKeepsChain(j, chain, address, chain[k].extrinsicHash, height, blockHash, Written);
    assert chain[k] in chain;
    HoldsIsChain(j.files, chain);
    SameHashSamePosition(chain, i, k);
    assert after == chain[k := after[k]];
    assert chain == chain[k := chain[k]];
  }

  lemma HoldsIsChain(files: Files, chain: seq<Snapshot>)
    requires Holds(files, chain)
    ensures Chain(chain)
  {
  }

  lemma ReplaceInMultiset(chain: seq<Snapshot>, i: nat, s: Snapshot)
    requires i < |chain|
    ensures multiset(chain[i := s]) + multiset{chain[i]} == multiset(chain) + multiset{s}
  {
    assert chain == chain[..i] + ([chain[i]] + chain[i + 1..]);
    assert chain[i := s] == chain[..i] + ([s] + chain[i + 1..]);
  }
}
