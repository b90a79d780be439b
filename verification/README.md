# Verified models of midnight-rs

A Dafny model of the parts of midnight-rs whose correctness spans whole runs:
the private-state journal, the contract-call protocol on it, the hand-back of
reserved inputs, and five smaller protocols beside them. `dafny verify
dfyconfig.toml` checks the project.

## What is modelled

- **The journal** (`Snapshots`, `Walk`, `BreadthFirst`, `FindLeaf`, `NoHead`,
  `Diagnosis`, `TopoSort`, `Directory`, `FileNames`, `Journal`, `JournalLaws`,
  `CascadeLaws`, `Answers`, `Store`). A directory is a map from file (timestamp and
  hash) to snapshot. Nothing stores the head: `find_leaf` recomputes it from the
  bag of files. The centre is one equivalence: a head exists exactly when the bag
  is a permutation of one chain. `Journal` states each operation as a function of
  the directory and of how the file system answers; the class in `Store` runs it in
  place and is proved equal to it, and `Answers` says which error means what.
- **Import and export** (`Import`, `HexText`, `ImportLaws`, `ImportStops`,
  `RoundTrip`). The six passes as methods with loops, the merge they agree on, every
  stop of the commit, running it again, and the way from a store through a sealed
  envelope into an empty store.
- **Runs** (`History`, `Operations`, `Interleaving`, `Turns`, `Callers`,
  `UnlockedReads`, `Undisturbed`). What stays true of one snapshot over any run of
  operations, and of every journal over any interleaving of clients at the grain of
  single file operations, with crashes; who gets the lock, what racing callers get,
  and what readers without the lock see. Undisturbed, those steps are the operations
  of `Journal`.
- **Calls** (`CallProtocol`, `CallOutcomes`, `Verdicts`). Head, witnesses, append,
  submit, verdict, settle; when a call is sent and how it ends; the journal agrees
  with the list of applied calls.
- **Inputs** (`Inputs`, `Reservation`, `MultiBuild`, `StaleStamps`, `DustAnchor`). The
  guard objects of one build as classes that disarm each other, the wallet's
  reservations under many builds, and the stamps the wallet's Dust anchor gives them.
- **Companions** (`ChainPin`, `Change`, `Lists`, `Maintenance`). The chain pin of
  a resync, u128 change, lazy and eager list reads, and the maintenance committee.

The file system, clocks and the network are parameters: a write can complete, not
happen, or happen and fail to sync; a cascade does a given number of removals
before one fails; a watch stream, a node's answers and a call's verdict are
given. Directory names (sha256 of the address) and storage keys are taken as
injective. An extrinsic hash is its hex text.

## Where the code and its documentation differ

The model follows the code.

- Import is documented as leaving the destination fully updated or untouched once
  validation passes (fs.rs:822-827), but the address marker is only checked in the
  commit pass (fs.rs:940-941), so a wrong marker fails the call after earlier
  entries are written. `ImportStops.AllOrNothing` gives the exact condition,
  `ImportStops.ImportIsNotAllOrNothing` an input.
- Pass 5 validates the in-memory merge, which keeps one of two files with the same
  hash, so it accepts journals that `find_leaf` then refuses.
  `ImportLaws.ImportedIsChain` gives the exact condition,
  `ImportStops.ImportAcceptsTwoFiles` an input. A directory can get two such files
  because import takes no lock (fs.rs:491-498): an append that lands between its
  third and sixth pass leaves its own file beside the one staged for its hash
  (`ImportStops.AppendBetweenPasses`).
- `confirm` is documented to require the same height and hash (lib.rs:309-314);
  the code compares the hash alone. `JournalLaws.ReconfirmIgnoresHeight` says
  exactly which mismatches it accepts.
- Confirmed is called terminal and its record durable (fs.rs:368-375,
  lib.rs:312-314). With imports the recorded block is not write-once: a payload can
  bring a Pending snapshot with a block, which its confirm replaces
  (`History.ImportedBlockIsReplaced`), and an Overwrite can replace the block, the
  parent and the data of a Confirmed one (`History.OverwriteReplacesBlock`).
  `History.ImportKeepsHistory` and `History.CarefulIsExact` give the exact condition.
- The length path of a field with 16 keys has 17 and is over the depth limit
  (`Lists.ListLengthPath`).
- A release is documented never to take back an input that a later build has
  reserved, because the later reservation carries another stamp
  (midnight-wallet-facade lib.rs:110-113). The stamp is the Dust anchor of the
  build's context, and two reservations of one input can carry the same one: when a
  caller's older context is used again (`StaleStamps.StaleStampRun`), and also when
  every context is made in the hold, if a build asks for a TTL shorter than the
  anchor lasts (`DustAnchor.ShortTtlRun`). Both runs end with two live builds on one
  input. `MultiBuild.StampGuardIsExact` gives the exact condition on a reservation,
  `DustAnchor.WholeWindowIsExact` the exact condition on the TTL of in-hold builds.
- `head_with_extrinsic` is documented as one read of the store (lib.rs:335-342). It
  lists a directory and reads file by file, without the lock. `UnlockedReads` says
  when that finds a head, and gives a run in which it does not.

## Model

| member | source | states |
|---|---|---|
| Snapshots.ChainUnique | crates/midnight-private-state/src/fs.rs:210-223 | a bag of snapshots is arranged by at most one chain, so a head read from the graph does not depend on file names |
| Walk.ChildLists | crates/midnight-private-state/src/fs.rs:702-710 | the children of every hash, siblings in hash order, whatever parents and hashes the files name |
| Walk.WalkChildren | crates/midnight-private-state/src/fs.rs:696-725 | the loop ends on every graph (unvisited hashes, then queue length) and computes the walk the laws below are about |
| Walk.WalkOrderCorrect | crates/midnight-private-state/src/fs.rs:693-725 | on any bag, cycles, orphans and repeated hashes included: each hash once, exactly the hashes reachable from the starts, and every hash that is no start after one of its parents |
| Walk.WalkParentBefore | crates/midnight-private-state/src/fs.rs:693-695 | with distinct hashes a visited snapshot that is no start names a parent, and the parent stands before it, even when the starts lie on a cycle |
| Walk.BfsPermutes | crates/midnight-private-state/src/fs.rs:708-724 | the walk, from any queue and visited set, is the same for every order of the bag |
| BreadthFirst.WalkIsBreadthFirst | crates/midnight-private-state/src/fs.rs:693-725 | of two hashes of the walk the earlier is no further from the starts than the later, counted in edges of the shortest path, on any bag |
| BreadthFirst.SiblingsInOrder | crates/midnight-private-state/src/fs.rs:702-710 | siblings come in hash order, as often as snapshots name their parent |
| FindLeaf.FindLeaf | crates/midnight-private-state/src/fs.rs:578-661 | `find_leaf` answers what the leaf test and the reachability test decide, with its sorted hash lists, counts and diagnosis |
| FindLeaf.LeafIsChainEnd | crates/midnight-private-state/src/fs.rs:558-578 | `Ok(None)` exactly for an empty journal; `Ok(Some(s))` exactly when some chain without a repeated hash arranges the bag and ends in `s`: distinct hashes are a conclusion |
| FindLeaf.LeafImpliesChain | crates/midnight-private-state/src/fs.rs:608-661 | a head makes the bag, in walk order, one chain of the same snapshots that ends in the head |
| FindLeaf.ChainImpliesLeaf | crates/midnight-private-state/src/fs.rs:578-661 | a non-empty bag that is one chain has the end of that chain as its head |
| FindLeaf.LeafPermutes | crates/midnight-private-state/src/fs.rs:213-215 | whether there is a head, and which, does not depend on the order of the files |
| FindLeaf.LeafErrorPermutes | crates/midnight-private-state/src/fs.rs:600-659 | a refused bag is refused in every order, with the same leaves, count and hashes; with distinct hashes the diagnosis agrees too |
| NoHead.RefusalIsKnown | crates/midnight-private-state/src/fs.rs:600-659 | NoLeaf exactly when every hash of a non-empty bag is depended on, Branching exactly when two files hold a snapshot nothing depends on, Unreachable exactly when one file does and the bag is no chain |
| NoHead.BranchingNamesLeaves | crates/midnight-private-state/src/fs.rs:600-610 | a branching journal reports the hashes of the snapshots nothing depends on, sorted, and only those |
| NoHead.UnreachableNamesUnreached | crates/midnight-private-state/src/fs.rs:612-659 | an unreachable journal reports the hashes on disk that no path from a root reaches, sorted and once each; its count and the reached hashes add up to the files |
| Diagnosis.DiagnosisIsFixed | crates/midnight-private-state/src/fs.rs:612-649 | the diagnosis of a bag is the same in every order exactly when every snapshot of some unreached hash lacks its parent, or no snapshot of an unreached hash does |
| Diagnosis.DiagnosisByFileNames | crates/midnight-private-state/src/fs.rs:612-649 | the same for directories: it is independent of the file names of the snapshots exactly then; for one directory it is fixed |
| Diagnosis.SameSnapshotsOtherNames | crates/midnight-private-state/src/fs.rs:612-649 | four snapshots, two of them with one hash, under two sets of file names: one directory reads as an orphan chain, the other as a cycle |
| TopoSort.TopoSort | crates/midnight-private-state/src/fs.rs:666-691 | `topo_sort` as the program runs it, over whatever order the map iterates in, returns the listing the laws below are about |
| TopoSort.TopoPermutation | crates/midnight-private-state/src/fs.rs:682-690 | on distinct hashes the listing is a permutation of its input |
| TopoSort.TopoOrdered | crates/midnight-private-state/src/fs.rs:663-690 | the root-reachable snapshots come first, each after its parent; the unreachable ones follow in hash order |
| TopoSort.TopoPermutes | crates/midnight-private-state/src/fs.rs:663-666 | the listing is the same for every order of the input |
| TopoSort.TopoIsChain | crates/midnight-private-state/src/fs.rs:418-427 | a journal with a head is listed as the one chain it is |
| Directory.AnyListing | crates/midnight-private-state/src/fs.rs:206-208 | whatever order a directory is listed in, the bag of snapshots read from it is the same |
| FileNames.NamesOrderByTime | crates/midnight-private-state/src/fs.rs:189-203 | for timestamps below 10^20 and hashes of one length the text order of the file names is time and then hash, and no two files share a name |
| Journal.FindPath | crates/midnight-private-state/src/fs.rs:225-237 | a path whose file holds the hash, or none when no file does |
| Journal.PathByHash | crates/midnight-private-state/src/fs.rs:747-750 | every hash on disk maps to a file that holds it |
| Answers.FirstAndLastFile | crates/midnight-private-state/src/fs.rs:225-237 | of several files with one hash the lookup finds the first in name order, and the map by hash keeps the last |
| JournalLaws.HeadOfChain | crates/midnight-private-state/src/fs.rs:210-223 | a directory that holds a chain reads as its last snapshot, or as empty |
| JournalLaws.AppendIsCas | crates/midnight-private-state/src/fs.rs:304-347 | an append is a compare-and-swap on the leaf: whatever the file system answers, the journal is unchanged or one longer, the new snapshot right after the leaf it names, and `Ok` means longer |
| JournalLaws.AppendSucceeds | crates/midnight-private-state/src/fs.rs:294-347 | on a chain, `Ok` exactly for a matching or newly written marker, a hash not yet present, a `depends_on` equal to the leaf, and a completed write |
| JournalLaws.AppendNeedsChain | crates/midnight-private-state/src/fs.rs:312-313 | a directory that is no chain takes no append and keeps its files |
| Answers.AppendAnswer | crates/midnight-private-state/src/fs.rs:287-347 | on a chain, which error an append answers: another marker, a marker not written, a hash that is taken, the leaf it expected and the leaf it found, a write that failed; and the marker it leaves |
| Answers.MalformedAppendAnswer | crates/midnight-private-state/src/fs.rs:306-313 | on a directory that is no chain the append answers that the hash exists, or what `find_leaf` reports |
| JournalLaws.ConfirmKeepsChain | crates/midnight-private-state/src/fs.rs:349-406 | a confirm keeps the chain and every hash, parent and data; it changes at most the named snapshot, and succeeds exactly when that one exists, its block may be recorded, and a needed write completes |
| JournalLaws.ReconfirmIgnoresHeight | crates/midnight-private-state/src/lib.rs:309-314 | a re-confirm is accepted although height and hash together differ from the record exactly when the hash is the recorded one and the height is not; all it changes is an absent height |
| JournalLaws.ConfirmRecords | crates/midnight-private-state/src/fs.rs:368-399 | a Pending snapshot is always accepted; a successful confirm leaves the snapshot Confirmed under the block it names, with the same identity and data, and repeating it changes nothing |
| Answers.ConfirmAnswer | crates/midnight-private-state/src/fs.rs:349-406 | what a confirm answers and leaves, with one file per hash: another block is refused, a repeated one changes nothing, any other is written, and a failed write is an error |
| CascadeLaws.CascadeRemovesSubtree | crates/midnight-private-state/src/fs.rs:727-775 | with one file per hash, a full cascade removes exactly the snapshots that depend on the start, cycles and branches included |
| CascadeLaws.CascadeStopsRecoverable | crates/midnight-private-state/src/fs.rs:753-761 | at every stop before the end the start is on disk, and so is the parent of every other doomed snapshot that is |
| CascadeLaws.RerunFinishes | crates/midnight-private-state/src/fs.rs:759-761 | a re-run from any stop ends in the journal one undisturbed run would have left |
| CascadeLaws.RerunsFinish | crates/midnight-private-state/src/fs.rs:759-768 | the same after any number of stopped attempts: either the start is still there and one full run finishes, or the drop is complete |
| CascadeLaws.CascadeOnChain | crates/midnight-private-state/src/fs.rs:753-761 | on a chain every stop point is a shorter chain, and the full run leaves the snapshots before the start |
| Answers.MissingAnswer | crates/midnight-private-state/src/fs.rs:738-746 | a confirm or a drop of a hash that is not on disk answers SnapshotNotFound and leaves the journal as it was |
| Answers.RollbackAnswer | crates/midnight-private-state/src/fs.rs:732-775 | with one file per hash a drop returns `Ok` exactly when its start is on disk, nothing that depends on it is left and the final sync works; for a start on disk the one error is I/O |
| Store.FindSnapshotPath | crates/midnight-private-state/src/fs.rs:226-237 | the scan returns the first file, in name order, that holds the hash |
| Store.FsPrivateStateProvider.AppendPending | crates/midnight-private-state/src/fs.rs:287-347 | the call in place: the address's journal and the result are those of the compare-and-swap, other addresses are untouched, a well-formed journal stays well formed |
| Store.FsPrivateStateProvider.EnsureAddressMarker | crates/midnight-private-state/src/fs.rs:244-267 | the directory exists afterwards with its files as they were; a marker with another address is an error that names it; an absent one is there afterwards unless the write did not happen, and `Ok` means it was written |
| Store.FsPrivateStateProvider.ConfirmSnapshotOf | crates/midnight-private-state/src/fs.rs:349-406 | the call in place, with the no-op and the height-only rewrite; one address, well-formedness kept |
| Store.FsPrivateStateProvider.RollbackFrom | crates/midnight-private-state/src/fs.rs:732-775 | the missing start, and the reverse loop with its stop at the first failed removal, answer and leave exactly what the cascade laws and `Answers.RollbackAnswer` are about, under one address |
| Store.FsPrivateStateProvider.MarkFailed | crates/midnight-private-state/src/fs.rs:408-416 | the same answer and files as `rollback_from`, a hash that is not on disk included |
| Store.FsPrivateStateProvider.HeadSnapshot | crates/midnight-private-state/src/fs.rs:216-223 | the head is recomputed from the files, and a malformed journal is an error |
| Store.FsPrivateStateProvider.Snapshots | crates/midnight-private-state/src/fs.rs:418-427 | the listing of the address; on a chain it is the chain, roots first |
| Store.AppendKeepsWellFormed | crates/midnight-private-state/src/fs.rs:304-311 | an append never branches a well-formed journal, whatever it returns |
| Store.RollbackKeepsWellFormed | crates/midnight-private-state/src/fs.rs:753-761 | a rollback stopped anywhere leaves a well-formed journal well formed |
| Store.FsPrivateStateProvider.Forget | crates/midnight-private-state/src/fs.rs:452-454 | the address's directory is gone, marker and snapshots, and no other is touched |
| Store.FsPrivateStateProvider.ForgetAll | crates/midnight-private-state/src/fs.rs:456-458 | every directory is gone |
| Import.ValidateHashes | crates/midnight-private-state/src/fs.rs:840-845 | pass 1 accepts exactly payloads whose hash fields are all 32 bytes of lower-case hex |
| Import.LowerHexIsCanonical | crates/midnight-private-state/src/fs.rs:951-969 | two accepted hash texts that differ in case alone are the same text |
| HexText.LowerHexIsEncoding | crates/midnight-private-state/src/fs.rs:951-969 | a hash text is accepted exactly when it is the text the store itself writes for some 32 bytes |
| HexText.EncodedIsAccepted | crates/midnight-private-state/src/fs.rs:951-969 | every encoding of 32 bytes is accepted and decodes to those bytes |
| Import.RejectRepeats | crates/midnight-private-state/src/fs.rs:847-858 | pass 2 accepts exactly payloads that name no address and hash twice, and names one that does |
| Import.LoadAddresses | crates/midnight-private-state/src/fs.rs:860-874 | pass 3 loads each address of the payload, and only those; of two files with one hash the later stays |
| Import.StageEntries | crates/midnight-private-state/src/fs.rs:876-918 | pass 4 refuses exactly a downgrade under Overwrite or a conflict under Error; otherwise every target is the file that held the hash or a new one, never the empty placeholder, the counters are right, and the views are the merge |
| Import.RefusedByFiles | crates/midnight-private-state/src/fs.rs:885-899 | what pass 4 refuses, by the files: nothing under Skip; under Error exactly an entry whose hash is on disk; under Overwrite, with one file per hash, exactly a Pending entry whose hash a Confirmed snapshot carries |
| Import.PresentIsConflict | crates/midnight-private-state/src/lib.rs:264 | under Error a payload with a hash that is on disk is never accepted, and past passes 1 and 2 the error is ImportConflict of such an entry |
| Import.DowngradeIsRefused | crates/midnight-private-state/src/fs.rs:885-895 | under Overwrite, with one file per hash, a payload that turns a Confirmed snapshot back to Pending is never accepted, and past passes 1 and 2 the error names such an entry |
| Import.CheckMerged | crates/midnight-private-state/src/fs.rs:920-935 | pass 5 accepts exactly when the merged journal of every address of the payload has a head or is empty; its error is what `find_leaf` reports of one that is not, in whatever order the map is read |
| Import.CommitEntries | crates/midnight-private-state/src/fs.rs:937-945 | pass 6 writes marker and snapshot entry by entry and stops at the first failure |
| Import.ApplyImportEntries | crates/midnight-private-state/src/fs.rs:833-947 | a payload that fails one of the first five passes leaves the store as it was, with the error of the first failing pass; an accepted one is committed to the staged files |
| ImportLaws.CommitWritesPrefix | crates/midnight-private-state/src/fs.rs:940-945 | wherever the commit stops, it has written a prefix of the payload |
| ImportLaws.OthersUnchanged | crates/midnight-private-state/src/fs.rs:860-945 | addresses outside the payload are untouched |
| ImportLaws.AppliedNamed | crates/midnight-private-state/src/fs.rs:901-904 | every file an import writes carries the hash it holds, no file is lost, and every new file is some entry's |
| ImportLaws.DiskIsMerge | crates/midnight-private-state/src/fs.rs:822-833 | after an `Ok` the disk is the in-memory merge that pass 5 looked at, and there is still one file per hash |
| ImportLaws.ImportedIsChain | crates/midnight-private-state/src/fs.rs:920-947 | after an accepted import that returns `Ok`, an address of the payload holds one chain exactly when no hash had two files there before |
| ImportStops.ImportAcceptsTwoFiles | crates/midnight-private-state/src/fs.rs:866-873 | a directory with one root snapshot in two files and a payload with that snapshot: accepted, `Ok`, and the journal has no head |
| ImportStops.AppendBetweenPasses | crates/midnight-private-state/src/fs.rs:491-498 | an append that lands between the third and the sixth pass of an import of the same root: both calls return `Ok`, and the directory holds the root in two files and has no head |
| ImportLaws.ImportCounts | crates/midnight-private-state/src/lib.rs:229-266 | imported + skipped + overwritten is the payload, nothing is skipped under Overwrite and nothing overwritten otherwise, and the store grows by exactly `imported` files |
| ImportLaws.ConfirmedStays | crates/midnight-private-state/src/fs.rs:885-899 | at every stop of an admitted import no file is gone and no Confirmed snapshot is Pending again |
| ImportStops.HealthyCommit | crates/midnight-private-state/src/fs.rs:937-945 | on a healthy disk the commit fails exactly at a directory marked with another address |
| ImportStops.AllOrNothing | crates/midnight-private-state/src/fs.rs:822-827 | on a healthy disk an accepted import is all-or-nothing exactly when every marker matches, or the first wrong one is met before anything has changed |
| ImportStops.ImportIsNotAllOrNothing | crates/midnight-private-state/src/fs.rs:937-945 | two entries, the second for a directory with a wrong marker: accepted, healthy disk, and the call fails with the first entry written |
| ImportStops.ImportRerunFinishes | crates/midnight-private-state/src/fs.rs:885-918 | wherever a Skip or Overwrite commit stops, the same payload is accepted again and leads to the merge the first run was after |
| RoundTrip.OpensAsSealed | crates/midnight-private-state/src/crypto.rs:131-181 | an envelope opens exactly with its password, under the tag it was sealed with and carries, within the entry limit, and gives back its records; which of the three errors it gives otherwise |
| RoundTrip.CollectExportEntries | crates/midnight-private-state/src/fs.rs:780-816 | one entry per snapshot of each marked directory, unmarked ones skipped, a marker that names another directory refused |
| RoundTrip.CollectedIs | crates/midnight-private-state/src/fs.rs:780-816 | of any store: the collection fails exactly when a listed directory carries another address, and names the first such marker; else it holds every snapshot of the marked directories and nothing of an unmarked one |
| RoundTrip.ExportPrivateStates | crates/midnight-private-state/src/fs.rs:480-489 | the export is the sealed collection; it fails exactly on a short password, a wrong marker or too many entries, with that error |
| RoundTrip.ImportPrivateStates | crates/midnight-private-state/src/fs.rs:491-498 | an envelope that does not open, or a refused payload, leaves the store as it was |
| RoundTrip.ExportIsPayload | crates/midnight-private-state/src/fs.rs:780-816 | exported in any directory order and shuffled in any way, the payload holds each snapshot of the store once |
| RoundTrip.ImportTakesExport | crates/midnight-private-state/src/fs.rs:833-947 | an empty store accepts an export exactly when every exported journal has a head |
| RoundTrip.ExportImportRoundTrip | crates/midnight-private-state/src/fs.rs:780-947 | collect, shuffle, import into an empty store: it succeeds for journals that are chains and gives back, per address, the same snapshots, head and listing |
| RoundTrip.ExportThenImport | crates/midnight-private-state/src/fs.rs:480-498 | the two calls in turn, sealed and opened: they succeed exactly for a long enough and matching password and an export within both entry limits, and then give back every address's snapshots, head and listing; else the store stays empty |
| RoundTrip.EverythingIsImported | crates/midnight-private-state/src/lib.rs:252-257 | into an empty store every entry counts as imported |
| History.ConfirmEvolves | crates/midnight-private-state/src/fs.rs:368-397 | a successful confirm keeps a snapshot's recorded block and height exactly when it is Confirmed, or names no other block and no other height |
| History.RunStaysSound | crates/midnight-private-state/src/fs.rs:287-458 | over any run of appends, confirms, rollbacks and forgets, failures included, every journal stays a chain whose Pending snapshots name no block |
| History.EmptyStoreSound | crates/midnight-private-state/src/fs.rs:122-127 | the empty store is where such runs start |
| History.ImportKeepsHistory | crates/midnight-private-state/src/fs.rs:885-945 | at every stop of an import the hash, parent, data and recorded block of every snapshot are kept if and only if each entry it has written over one carries them on; under Skip and Error always |
| History.SnapshotHistory | crates/midnight-private-state/src/fs.rs:349-406 | over any run, with imports that carry on what they overwrite and bring no Pending snapshot with a block: while a snapshot exists its hash, parent and data never change, its block is written once, and its height only goes from absent to present |
| History.CarefulIsExact | crates/midnight-private-state/src/fs.rs:833-947 | an accepted import that returns `Ok`, with one file per hash, keeps every history through every such run that follows if and only if it is of that kind |
| History.SoundIsRecorded | crates/midnight-private-state/src/fs.rs:287-458 | a store of sound journals is one such runs start from, and a run without imports is of that kind |
| Operations.Perform | crates/midnight-private-state/src/fs.rs:287-498 | each operation of a run, performed on the store in place, leaves the store the step of the run says |
| Operations.PerformAll | crates/midnight-private-state/src/fs.rs:287-498 | a whole run, performed operation by operation, ends in the state the laws of runs are about, imports included |
| History.ConfirmedForGood | crates/midnight-private-state/src/fs.rs:885-899 | with imports of any strategy in the run, complete or stopped, a Confirmed snapshot never becomes Pending while its file exists |
| History.ImportedBlockIsReplaced | crates/midnight-private-state/src/fs.rs:395-397 | from an empty store: a payload with a Pending root that names a block is accepted and returns `Ok`, and the confirm then replaces the block |
| History.OverwriteReplacesBlock | crates/midnight-private-state/src/fs.rs:885-899 | an Overwrite import with the same root, Confirmed under another block or with other data, is accepted, returns `Ok` and replaces both |
| Interleaving.NextKeepsInvariant | crates/midnight-private-state/src/fs.rs:160-170 | one step of any client, or a crash, keeps every journal a chain, every lock holder's knowledge true, and everything that landed on disk until it is removed |
| Interleaving.EveryStateIsChains | crates/midnight-private-state/src/fs.rs:160-170 | in every reachable state of every interleaving, mid-write, mid-cascade and after a crash, each journal is one chain, so a read of the directory at once finds its head |
| Turns.LockIsHandedOn | crates/midnight-private-state/src/fs.rs:160-170 | the end of a call frees its address, and a client that waits for it enters next; other addresses keep their locks |
| Turns.HeldLockStays | crates/midnight-private-state/src/fs.rs:160-170 | a held lock lets nobody in, and its holder keeps it until the call is finished |
| Turns.CrashFreesLocks | crates/midnight-private-state/src/fs.rs:160-170 | after a crash no call is in progress, every lock is free, a new call enters, and the files are as they were |
| Turns.EveryTurnSucceeds | crates/midnight-private-state/src/fs.rs:287-347 | any number of clients that wait for one address, each with an append on what the one before will leave, get their turns and all succeed: the chain grows by all their snapshots in order, and the lock is free |
| Turns.TwoAppendsInTurn | crates/midnight-private-state/src/fs.rs:287-347 | from a store with no call in progress two clients begin, append in turn and both succeed |
| Interleaving.ParentWasLeaf | crates/midnight-private-state/src/fs.rs:304-321 | the parent of every snapshot that landed was the leaf at that moment, and its hash was new |
| Interleaving.OneChildPerLeaf | crates/midnight-private-state/src/fs.rs:304-311 | two appends never both land on one leaf: between two snapshots that name one parent the first was removed; an append that failed and left its file counts |
| Interleaving.LeafStaysOrLands | crates/midnight-private-state/src/fs.rs:304-311 | while nothing is removed, a leaf stays the leaf until an append lands on it |
| Interleaving.ExactlyOneLands | crates/midnight-private-state/src/fs.rs:304-321 | of the snapshots that name one leaf, with nothing removed meanwhile, exactly one has landed once the leaf has moved |
| Callers.AtMostOneOk | crates/midnight-private-state/src/fs.rs:304-311 | of all the appends on one parent, whoever makes them, at most one returns `Ok`, unless the first one's snapshot was removed in between |
| Callers.RefusedLostToAnother | crates/midnight-private-state/src/fs.rs:306-321 | a caller that read the leaf it names and is refused for its parent, with nothing removed in between, lost to an append of another hash that has landed on that leaf since |
| UnlockedReads.TornReadFindsHead | crates/midnight-private-state/src/fs.rs:974-999 | a read that saw some of the files of a chain finds a head exactly when it holds the parent of every snapshot it holds |
| UnlockedReads.SeenIsPart | crates/midnight-private-state/src/fs.rs:974-999 | what a reader sees, whatever is removed meanwhile, is part of what it listed, while no file name is written twice |
| UnlockedReads.FoundHeadWasLeaf | crates/midnight-private-state/src/fs.rs:439-450 | a head that a reader without the lock finds, whatever is removed while it reads, was the leaf of the journal at some moment of the read |
| UnlockedReads.UnlockedReadFindsLeaf | crates/midnight-private-state/src/fs.rs:439-450 | a reader without the lock that lists and then reads file by file, while nothing is removed, finds the leaf there was when it listed, whatever lands or is confirmed meanwhile |
| UnlockedReads.UnlockedReadCanFail | crates/midnight-private-state/src/fs.rs:439-450 | on every journal of two or more snapshots there is a drop and a reader that began before it and sees no head |
| Interleaving.SuccessIsOnDisk | crates/midnight-private-state/src/fs.rs:331-347 | an append about to return `Ok` has its snapshot on disk, after the parent it named |
| Undisturbed.AppendStepsAreAppend | crates/midnight-private-state/src/fs.rs:287-347 | the steps of an append, undisturbed, are the compare-and-swap of `append_pending`, clean-up included |
| Undisturbed.ConfirmStepsAreConfirm | crates/midnight-private-state/src/fs.rs:349-406 | the steps of a confirm, undisturbed, are `confirm` |
| Undisturbed.DropStepsAreRollback | crates/midnight-private-state/src/fs.rs:732-775 | the steps of a cascade, undisturbed, are `rollback_from`, wherever it stops |
| Undisturbed.MissingDropIsRollback | crates/midnight-private-state/src/fs.rs:738-746 | the steps of a drop whose hash is not on disk end at once, as `rollback_from` does |
| CallProtocol.RecordAndSubmit | crates/midnight-contract/src/contract.rs:222-283 | the Pending snapshot is written before the submit and only for a changed state; a failed append hands the inputs back and submits nothing; a failed submit reports whether a snapshot was written |
| CallProtocol.SettleSnapshotOf | crates/midnight-contract/src/contract.rs:285-308 | applied confirms without a height, not applied drops, no verdict keeps |
| CallProtocol.SettleCall | crates/midnight-contract/src/contract.rs:182-220 | a store failure comes before the verdict; without a snapshot only the verdict is reported |
| CallProtocol.RunCall | crates/midnight-contract/src/contract.rs:1466-1480 | one call, from the read of the head, or the empty buffer, to the settle, is the step that `CallOutcomes` says the outcome of |
| CallOutcomes.CallIsSent | crates/midnight-contract/src/contract.rs:1466-1480 | on a journal that is a chain a call is sent exactly when its witnesses run, their result decodes, the node accepts it, and the state is unchanged or marker, hash and disk let the journal take the new snapshot, which then stands right after the leaf the witnesses started from |
| CallOutcomes.UnreadyCall | crates/midnight-contract/src/contract.rs:229-260 | a call that is not ready ends with the error of the first thing that fails, and never with a conflict on its parent |
| CallOutcomes.ReadyCallEnds | crates/midnight-contract/src/contract.rs:182-308 | how a ready call ends, for every answer of the node, the wait and the disk: the block, the verdict, the open wait or the store's error |
| CallOutcomes.AppliedCallIsOk | crates/midnight-contract/src/contract.rs:182-220 | an applied call on a healthy disk returns its block, and its Confirmed snapshot is the new leaf; one that changed nothing leaves the chain |
| CallOutcomes.MalformedStopsCall | crates/midnight-contract/src/contract.rs:1466-1480 | on a journal that is no chain no witness runs, nothing changes, and the error is what `find_leaf` reports |
| CallProtocol.FailedAppendLeavesFile | crates/midnight-private-state/src/fs.rs:331-342 | a failed append leaves its snapshot exactly when it passed every check and both the directory sync and the clean-up fail |
| CallProtocol.FlightIsChain | crates/midnight-contract/src/contract.rs:229-283 | in flight the journal is the chain before the call, or that chain and the call's Pending leaf |
| CallProtocol.DropRestores | crates/midnight-contract/src/contract.rs:290-306 | a call the chain did not apply leaves the files exactly as it found them |
| CallProtocol.CallAgrees | crates/midnight-contract/src/contract.rs:182-308 | an applied call that changed the state adds its Confirmed snapshot; any other call leaves the snapshots as they were; `Ok` exactly when applied |
| CallProtocol.JournalAgreesWithCalls | crates/midnight-contract/src/contract.rs:179-308 | over any run of settled calls the journal is the chain of the applied calls, all Confirmed, and its head data is the post-state of the last applied call, or the empty buffer |
| CallProtocol.AtMostOnePending | crates/midnight-contract/src/contract.rs:1466-1480 | during a call at most one snapshot is Pending, and it is the leaf |
| CallProtocol.OverlapLosesAppliedCall | docs/private-state.md:171 | a call that starts on another's Pending snapshot is dropped with it, even Confirmed, and its own confirm then finds nothing |
| CallOutcomes.OverlapHidesVerdict | crates/midnight-contract/src/contract.rs:196-220 | the settle of a call whose snapshot went with an earlier one's drop, applied or not, answers SnapshotNotFound instead of the verdict, and the journal stays at the head before both |
| Inputs.MergeKeepsStamps | crates/midnight-types/src/transfer.rs:122-134 | a merge names exactly what its parts name, each input under its own stamp, and is empty only when both are |
| Inputs.EmptyNamesNothing | crates/midnight-types/src/transfer.rs:130-134 | a reservation is empty exactly when it names no input of any of the three kinds |
| Reservation.HandBack | crates/midnight-provider/src/provider.rs:1444-1459 | an empty reservation reaches no wallet, any other reaches it once |
| Reservation.HeldInputs.Absorb | crates/midnight-provider/src/provider.rs:1375-1378 | afterwards the guard names exactly the inputs it named and those it absorbed, each under its own stamp |
| Reservation.HeldInputs.Release | crates/midnight-provider/src/provider.rs:1422-1429 | the guard is disarmed, and the inputs go back once |
| Reservation.HeldInputs.Drop | crates/midnight-provider/src/provider.rs:1470-1487 | an armed guard that is dropped hands back under a runtime and nothing without one |
| Reservation.HeldInputs.KeepOnOk | crates/midnight-provider/src/provider.rs:1402-1420 | `Ok` keeps the reservation, an error hands it back, and the guard is disarmed either way |
| Reservation.HeldInputs.IntoReservation | crates/midnight-provider/src/provider.rs:1431-1441 | the guard passes its inputs on and keeps nothing to hand back |
| Reservation.PreparedTx.Submit | crates/midnight-provider/src/submit.rs:536-572 | a guard, if there is one, is disarmed before the call, whatever becomes of it; an accepted submit moves the reservation to the handle |
| Reservation.PendingTx.WaitFor | crates/midnight-provider/src/submit.rs:416-441 | the inputs go back exactly when the wait reads `Invalid` before anything else ends it; what is left of the stream goes to the next wait |
| Reservation.LandedMeansApplied | crates/midnight-provider/src/submit.rs:188-193 | a wait returns `Ok` exactly when the first status that stops it is a block it waits for, with the verdict Success |
| Reservation.WaitIsDecided | crates/midnight-provider/src/submit.rs:416-475 | how a wait ends, over the statuses of its stream, each end exactly: a block not applied, an unreadable verdict, an applied block, `Invalid`, `Dropped`, a node error, a broken or ended stream, a wait cut short |
| Verdicts.ReadVerdict | crates/midnight-provider/src/submit.rs:445-475 | the first event that is no other decides the verdict, one that cannot be decoded before it leaves none, and with none the dispatch failed |
| Verdicts.OnlyVerdictsSettle | crates/midnight-contract/src/contract.rs:285-308 | a call's snapshot is confirmed or dropped only when the first status that ends the wait is a finalized block with a verdict that was read; whatever else ends it, the journal stays as it was |
| Reservation.RunPath | crates/midnight-provider/src/provider.rs:676-714 | over every path of build, prepare, record, submit, drop and wait, cancelled at any of them, the wallet gets the inputs back at most once, exactly once when the submit never starts under a runtime, unless the result was never prepared nor released, and never after a submit without an `Invalid` |
| Reservation.OnlyInvalidHandsBack | crates/midnight-provider/src/submit.rs:24-34 | the first status that ends a wait decides: only `Invalid` hands back |
| Reservation.SubmittedComesBackOnlyIfInvalid | crates/midnight-provider/src/submit.rs:436-441 | a hand-back after a submit means an accepted submit whose stream holds an `Invalid` |
| MultiBuild.PendingReservations.Reserve | crates/midnight-wallet/src/per_ledger/pending.rs:104-131 | each batch becomes an entry with the stamp and the expiry, behind the ones there were |
| MultiBuild.PendingReservations.ClearConfirmed | crates/midnight-wallet/src/per_ledger/pending.rs:166-181 | an entry goes exactly when it spends an observed Dust or UTXO input, the others stay in order and as often, and the result says whether any went |
| MultiBuild.PendingReservations.Release | crates/midnight-wallet/src/per_ledger/pending.rs:205-226 | an entry stays, in order and as often as before, exactly when no name has both one of its inputs and its stamp |
| MultiBuild.PendingReservations.EvictExpired | crates/midnight-wallet/src/per_ledger/pending.rs:228-244 | an entry stays, in order and as often as before, exactly when the chain time has not passed its expiry |
| MultiBuild.ReleaseIsHandBack | crates/midnight-wallet-facade/src/lib.rs:101-114 | a release by the names a build reports takes out exactly the entries that share an input and the stamp with one of its own |
| MultiBuild.StepReservations | crates/midnight-wallet/src/per_ledger/pending.rs:104-244 | each step of the system, run on the wallet's own list, leaves it what the step leaves pending |
| MultiBuild.NextKeeps | crates/midnight-wallet/src/per_ledger/pending.rs:183-204 | one step, its reservation unclaimed, keeps every transaction that can land covered by its entries, and entries that may still be handed back apart |
| MultiBuild.NoSharedInput | crates/midnight-wallet/src/per_ledger/pending.rs:3-28 | in every state of every run whose reservations are unclaimed, on the wallet's own anchor or a caller's older context, two builds that can both still land share no input |
| DustAnchor.AnchoredNext | crates/midnight-wallet/src/per_ledger/state.rs:243-286 | one step of builds that select in the hold, under the wallet's Dust anchor and with entries that last its window, is guarded: each reservation under an anchor is still held or its inputs are seen spent, so none meets a rival |
| DustAnchor.InHoldBuildsAreSafe | crates/midnight-wallet/src/per_ledger/builds.rs:54-67 | in every state of every run of builds that make their context in the hold and whose entries last as long as the chain resolves the anchor, no two builds that can land share an input, however far the anchor trails the chain time and whenever a sync moves it |
| DustAnchor.WholeWindowIsExact | crates/midnight-wallet/src/per_ledger/state.rs:271-286 | for in-hold builds whose entries last at least `lasts` from the anchor on, every run is safe if and only if `lasts` covers the anchor's window |
| DustAnchor.ShortTtlRun | crates/midnight-types/src/per_ledger/builder.rs:82-91 | for every TTL under the window, a run of in-hold builds under one anchor, only the first with that TTL, that ends with two live builds on one UTXO |
| MultiBuild.StampGuardIsExact | crates/midnight-wallet/src/per_ledger/builds.rs:68-157 | a reservation by a build that can land is safe, whatever such steps follow, if and only if no other build that may still be handed back has an entry with its stamp and one of its inputs |
| MultiBuild.LateReleaseIsHarmless | crates/midnight-wallet/src/per_ledger/pending.rs:193-199 | in those runs a late hand-back never takes an entry of a build that is still alive |
| MultiBuild.ReleaseKeepsIff | crates/midnight-wallet/src/per_ledger/pending.rs:193-204 | a release keeps an entry exactly when none of the released ones shares an input and the stamp with it |
| MultiBuild.SecondReleaseTakesAnothersEntry | crates/midnight-wallet/src/per_ledger/pending.rs:201-204 | a second release in one block takes the entry of the build that selected the input in between |
| StaleStamps.StaleStampRun | crates/midnight-wallet/src/per_ledger/builds.rs:108-116 | a run of the system on an old context that ends with two live builds on one input |
| ChainPin.CheckChainPin | crates/midnight-types/src/chain_pin.rs:105-118 | no answer is Unknown; SameChain exactly when some reported hash is the pinned one, up to case; otherwise Replaced with the first hash reported |
| ChainPin.CaseAloneIsIgnored | crates/midnight-types/src/chain_pin.rs:105-118 | hashes are compared as texts up to the case of ASCII letters and nothing else |
| ChainPin.CurrentPin | crates/midnight-types/src/chain_pin.rs:83-92 | there is a pin exactly when the node reports a finalized height and then a block there, and it is that height and the first hash; it names a block of the chain the second query met, even if the chain changed in between |
| ChainPin.VerifyPin | crates/midnight-types/src/chain_pin.rs:94-98 | SameChain only when the chain the query met holds the pinned block |
| ChainPin.LocalWallet.ResyncWith | crates/midnight-wallet/src/local.rs:139-202 | pin, check, replay, commit, store: after an `Ok` the stored pin is the block the node finalized, if it reported one; the check is what the next answer says of the old pin; when it is SameChain and the old pin's block is on one chain only, the stored pin names a block of that chain; an error changes nothing, and Replaced is ChainMismatch for a delta resync |
| ChainPin.KeepResyncing | crates/midnight-wallet/src/local.rs:139-202 | over any number of delta resyncs the wallet commits every replay that works and stays pinned to the chain its state came from, until a check answers otherwise |
| ChainPin.DetectsReplacement | crates/midnight-wallet/src/sync.rs:419-425 | once the node has moved on, a pin of the old chain reads as Replaced, with the hash found, or as Unknown when the node does not answer, never as the same chain |
| ChainPin.PinBeforeCheck | crates/midnight-wallet/src/sync.rs:419-425 | pin before check proves where the pin came from; check before pin does not |
| Change.TotalByKey | crates/midnight-contract/src/change.rs:10-21 | it fails exactly when some key's true sum exceeds 2^128 - 1, and otherwise gives every true sum |
| Change.TotalsPermute | crates/midnight-contract/src/change.rs:10-21 | the sums, and so the verdict, are the same for every order of the values |
| Change.ChangeDue | crates/midnight-contract/src/change.rs:37-55 | one positive entry per key with a surplus over what the mint leaves uncovered, in key order, and no other |
| Change.ChangeConserves | crates/midnight-contract/src/change.rs:23-36 | for a key the coins cover, attached + minted - drawn - change is the unused mint; a key they do not cover gets no change |
| Change.RefuseShortfall | crates/midnight-contract/src/offer.rs:70-89 | accepted exactly when every paid token is held, else the first short token with both amounts |
| Change.PayOffer | crates/midnight-contract/src/per_ledger/deploy.rs:155-185 | accepted exactly when the totals fit and no token is short, else Overflow or the first short token with its true sums; then every token's coins are its payments and its change, to the unit |
| Lists.GetFieldPath | crates/midnight-typed-state/src/nav.rs:77-89 | the loop follows the path field by field and ends at the first error |
| Lists.Iter | crates/midnight-typed-state/src/accessors.rs:208-224 | on any value the items are `get(0)`, `get(1)`, ... up to the length, ended after the first error |
| Lists.ElementPath | crates/midnight-typed-state/src/lazy.rs:189-221 | the path has at most 16 keys for a field of at most 16, ends at the element exactly when the full path fits, and else at the deepest node the node accepts |
| Lists.ListLengthPath | crates/midnight-typed-state/src/lazy.rs:164-172 | the length path fits the depth limit exactly for a field of at most 15 keys |
| Lists.FullPathReads | crates/midnight-typed-state/src/lazy.rs:202-213 | a path that reaches the element reads what the eager walk reads, errors included, on any value |
| Lists.CutPathReads | crates/midnight-typed-state/src/lazy.rs:214-221 | a path that stops at a node reads what the eager walk reads, unless that node has no length or one too small |
| Lists.LazyIsEager | crates/midnight-typed-state/src/lazy.rs:189-221 | for every well-formed list, field path and index below the length, the lazy read is the eager `get` |
| Lists.ListComesBack | crates/midnight-typed-state/src/accessors.rs:145-205 | the nodes of any sequence of cells read back as its length and each element in its place, and nothing beyond |
| Lists.LazyComesBack | crates/midnight-typed-state/src/lazy.rs:189-221 | the lazy read returns that element, along any path to it, below any field |
| Maintenance.ValidateCommittee | crates/midnight-contract/src/maintenance.rs:56-87 | accepted exactly when the members are distinct and 1 <= threshold <= size; which error otherwise |
| Maintenance.ValidateSignatures | crates/midnight-contract/src/maintenance.rs:96-128 | accepted exactly when every index is in range, none repeats, each signature verifies, and their count as a u32 meets the threshold; else the first bad signature is named with what is wrong with it |
| Maintenance.CastIsHarmless | crates/midnight-contract/src/maintenance.rs:121-126 | the u32 cast changes the verdict only for a list of 2^32 signatures, the longest there can be |
| Maintenance.Quorum | crates/midnight-contract/src/maintenance.rs:89-95 | an accepted committee and signature list mean at least `threshold` distinct keys each verify a signature |
| Maintenance.RetiredIsFinal | crates/midnight-contract/src/maintenance.rs:248-257 | no signature list meets an empty committee at threshold 1 |
| Maintenance.ValidateVkSequence | crates/midnight-contract/src/maintenance.rs:165-189 | accepted exactly when applying the steps in order never inserts a present or removes an absent circuit, else the first such step is named |
| Maintenance.LegalIsAlternating | crates/midnight-contract/src/maintenance.rs:165-189 | a sequence is legal exactly when on every circuit inserts and removals take turns, the first being an insert just when the chain has no key for it |
| Maintenance.ReplacesDoNotMatter | crates/midnight-contract/src/maintenance.rs:289-300 | leaving replace and retire steps out of the sequence changes neither the verdict nor the final set |
| Maintenance.CheckReplacements | crates/midnight-contract/src/maintenance.rs:302-325 | accepted exactly when at most one step replaces or retires, and each new committee is governable |
| Maintenance.CheckBatch | crates/midnight-contract/src/maintenance.rs:268-325 | a batch is accepted exactly when it is non-empty, the committee is Schnorr, every step is legal in turn, and the replacements are sound |

## Left out

- File-system calls, fsync, permissions, JSON and base64: writes are atomic and
  answer as a parameter. Reads never fail. A call reads its directory at once;
  only the reads without a lock go file by file, in `UnlockedReads`.
- Argon2id and AES-GCM: the envelope is its records, its password and the tag it
  was sealed under. Salts, nonces and malformed ciphertext are not modelled.
- The parse of the head's hash text in `head_with_extrinsic`, and the trim of the
  marker text.
- Signing keys in the store: one flat slot per address.
- `forget`, `forget_all` and import take no lock in the source; they are atomic
  steps in `Store` and `Import` and take no part in `Interleaving`.
- Data of a hash that is dropped and appended again: the compare-and-swap is
  stated on hashes.
- CallProtocol.JournalAgreesWithCalls: assumes of a call that recorded a snapshot
  that it is submitted and gets a verdict, and that the settle's writes succeed;
  and that a failed append's clean-up works, where
  `CallProtocol.FailedAppendLeavesFile` says exactly when it does not.
- MultiBuild.NoSharedInput: assumes that reservations are unclaimed, which the code
  does not check and `MultiBuild.StampGuardIsExact` shows to be needed; by
  `DustAnchor.AnchoredNext` it holds of in-hold builds whose entries last the
  anchor's whole window.
- DustAnchor.InHoldBuildsAreSafe: a sync is taken to see every spend up to the chain
  time it records, and to move the anchor when it sees a Dust spend. A Dust event
  indexed between the replay's tip and the latest-block query (state.rs:262-265),
  and a block indexed in part, are not modelled. The longest TTL covers the window,
  unless the anchor is a second ahead of the chain time and the Dust grace period
  is no shorter than the global TTL.
- Persistence of reservations across a restart, and the drop of another ledger
  generation's. The three lists of reservations are one list of entries.
- Resyncs from genesis keep their place in `ChainPin.LocalWallet.ResyncWith`, but
  the pin theorem is about delta resyncs; an Unknown answer proves nothing.
- The node's answer to a query path: it is taken to follow array indices as
  `get_field_path` does. Map keys and Merkle positions in paths are not modelled.
- Finality timeouts: a wait that ends without a verdict keeps the snapshot, which
  is `NoVerdict` here.
- Reservation.RunPath: without a runtime an awaited release runs inline and its
  caller can cut it short; that is not modelled. A wait for the best block is taken
  to accept a finalized one too; subxt is not part of this model.
- The entry limit of an export is a parameter; its cap of 10,000 is not modelled.
- Signature schemes: verification is a given predicate. The bytes to sign and the
  ledger's own application of an update are not modelled.
- Wallet replay, coin selection, provers, the Compact interpreter, node and
  indexer clients, the async runtime, logging, and address and URL parsing.
