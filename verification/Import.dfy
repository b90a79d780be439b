/**
 `apply_import_entries`: six passes over a payload. The first five only read;
 the sixth writes what they staged, entry by entry.
 */
module Import {
  import opened Wrappers
  import opened Orders
  import opened Snapshots
  import opened FindLeaf
  import opened TopoSort
  import opened Directory
  import opened Journal
  import opened Store

  datatype ConflictStrategy = Skip | Overwrite | Error

  datatype Entry = Entry(address: Address, snapshot: Snapshot)

  /** A `PathBuf`: `PathBuf::new()`, or the file of a snapshot. */
  datatype Path = Empty | At(file: File)

  /** One snapshot of the in-memory view of an address, with the file it came from. */
  datatype Slot = Slot(path: Path, snapshot: Snapshot)

  type View = map<Hash, Slot>

  datatype ImportResult = ImportResult(imported: nat, skipped: nat, overwritten: nat)

  /** How the file system answers the two writes of one entry. */
  datatype EntryIo = EntryIo(marker: WriteFate, snapshot: WriteFate)

  /** What the read-only passes hand to the commit. */
  datatype Staging = Staging(targets: seq<Option<Path>>, result: ImportResult, views: map<Address, View>)

  predicate LowerHex(h: Hash) {
    |h| == 64 && forall i :: 0 <= i < |h| ==> '0' <= h[i] <= '9' || 'a' <= h[i] <= 'f'
  }

  /** Accepted hash text is canonical: two accepted texts that differ in case alone are the same text. */
  lemma LowerHexIsCanonical(a: Hash, b: Hash)
    requires LowerHex(a) && LowerHex(b)
    requires forall i :: 0 <= i < 64 ==> Lower(a[i]) == Lower(b[i])
    ensures a == b
  {
    forall i | 0 <= i < 64 ensures a[i] == b[i] {
      assert Lower(a[i]) == a[i] && Lower(b[i]) == b[i];
    }
  }

  predicate ValidField(field: Option<Hash>) {
    field.None? || LowerHex(field.value)
  }

  predicate ValidFields(s: Snapshot) {
    LowerHex(s.extrinsicHash) && ValidField(s.dependsOn) && ValidField(s.blockHash)
  }

  /** Every hash the payload names is 32 bytes of lower-case hex: its own, its parent's and its block's. */
  ghost predicate AllValid(entries: seq<Entry>) {
    forall i :: 0 <= i < |entries| ==>
      var s := entries[i].snapshot;
      && LowerHex(s.extrinsicHash)
      && (s.dependsOn.Some? ==> LowerHex(s.dependsOn.value))
      && (s.blockHash.Some? ==> LowerHex(s.blockHash.value))
  }

  function Key(e: Entry): (key: (Address, Hash)) {
    (e.address, e.snapshot.extrinsicHash)
  }

  ghost predicate NoRepeats(entries: seq<Entry>) {
    forall i, j :: 0 <= i < j < |entries| ==> Key(entries[i]) != Key(entries[j])
  }

  // ---------------------------------------------------------------------------
  // What the passes decide, as functions of the store before the import.
  // ---------------------------------------------------------------------------

  /** The file of the entry's hash before the import. */
  function Existing(js: Journals, e: Entry): (f: Option<File>)
    ensures f.Some? ==> f.value in JournalAt(js, e.address).files
                        && JournalAt(js, e.address).files[f.value].extrinsicHash == e.snapshot.extrinsicHash
    ensures f.None? ==> forall g :: g in JournalAt(js, e.address).files ==>
                          JournalAt(js, e.address).files[g].extrinsicHash != e.snapshot.extrinsicHash
  {
    var paths := PathByHash(JournalAt(js, e.address).files);
    if e.snapshot.extrinsicHash in paths then Some(paths[e.snapshot.extrinsicHash]) else None
  }

  /** The entry would turn a Confirmed snapshot back to Pending. */
  predicate Downgrades(js: Journals, e: Entry) {
    var f := Existing(js, e);
    f.Some? && JournalAt(js, e.address).files[f.value].status == Confirmed && e.snapshot.status == Pending
  }

  predicate Refused(js: Journals, e: Entry, conflict: ConflictStrategy) {
    (conflict == Overwrite && Downgrades(js, e)) || (conflict == Error && Existing(js, e).Some?)
  }

  function RefusalOf(e: Entry, conflict: ConflictStrategy): (error: StoreError) {
    if conflict == Overwrite then InvalidFormat(WouldDowngrade(e.snapshot.extrinsicHash))
    else ImportConflict(e.address, e.snapshot.extrinsicHash)
  }

  /** Where the entry is written, if it is. */
  function TargetOf(js: Journals, e: Entry, conflict: ConflictStrategy, nanos: nat): (target: Option<Path>)
    ensures target.Some? ==> target.value.At?
  {
    match Existing(js, e)
    case None => Some(At(File(nanos, e.snapshot.extrinsicHash)))
    case Some(f) => if conflict == Overwrite then Some(At(f)) else None
  }

  function Targets(js: Journals, entries: seq<Entry>, conflict: ConflictStrategy, clock: seq<nat>)
    : (targets: seq<Option<Path>>)
    requires |clock| == |entries|
    ensures |targets| == |entries|
    ensures forall i :: 0 <= i < |entries| ==> targets[i] == TargetOf(js, entries[i], conflict, clock[i])
  {
    seq(|entries|, i requires 0 <= i < |entries| => TargetOf(js, entries[i], conflict, clock[i]))
  }

  /** A directory as a map from hash to snapshot: of two files with one hash, the later stays. */
  function ViewOf(files: Files): (view: map<Hash, Snapshot>)
    ensures forall h :: h in view ==> view[h].extrinsicHash == h
  {
    var paths := PathByHash(files);
    map h | h in paths :: files[paths[h]]
  }

  /** The in-memory merge of the first `n` entries into the journal of `a`. */
  ghost function Merged(js: Journals, entries: seq<Entry>, conflict: ConflictStrategy, a: Address, n: nat)
    : (view: map<Hash, Snapshot>)
    requires n <= |entries|
    ensures forall h :: h in view ==> view[h].extrinsicHash == h
  {
    if n == 0 then ViewOf(JournalAt(js, a).files)
    else
      var e := entries[n - 1];
      var rest := Merged(js, entries, conflict, a, n - 1);
      if e.address == a && (Existing(js, e).None? || conflict == Overwrite)
      then rest[e.snapshot.extrinsicHash := e.snapshot] else rest
  }

  /** The merged journal of `a` has a head, or is empty. */
  ghost predicate MergesWell(js: Journals, entries: seq<Entry>, conflict: ConflictStrategy, a: Address) {
    Leaf(Values(Merged(js, entries, conflict, a, |entries|))).Ok?
  }

  /** The merged journal of `a` has no head, and this is what `find_leaf` says of it, in whatever order it is read. */
  ghost predicate MergeFails(
      js: Journals, entries: seq<Entry>, conflict: ConflictStrategy, a: Address, malformed: Malformed)
  {
    Leaf(Values(Merged(js, entries, conflict, a, |entries|))) == Err(malformed)
  }

  /** The payload gets through the five read-only passes. */
  ghost predicate Acceptable(js: Journals, entries: seq<Entry>, conflict: ConflictStrategy) {
    && AllValid(entries)
    && NoRepeats(entries)
    && (forall i :: 0 <= i < |entries| ==> !Refused(js, entries[i], conflict))
    && (forall e :: e in entries ==> MergesWell(js, entries, conflict, e.address))
  }

  /** The error names the first pass that fails, and a culprit of that pass. */
  ghost predicate RefusedWith(js: Journals, entries: seq<Entry>, conflict: ConflictStrategy, error: StoreError) {
    if !AllValid(entries) then error == InvalidFormat(BadHashField)
    else if !NoRepeats(entries) then
      exists i, j :: 0 <= i < j < |entries| && Key(entries[i]) == Key(entries[j])
                     && error == InvalidFormat(DuplicateEntry(entries[j].snapshot.extrinsicHash))
    else if exists i :: 0 <= i < |entries| && Refused(js, entries[i], conflict) then
      exists i :: 0 <= i < |entries| && Refused(js, entries[i], conflict)
                  && error == RefusalOf(entries[i], conflict)
    else
      exists e, m :: e in entries && MergeFails(js, entries, conflict, e.address, m)
                     && error == InvalidFormat(ImportMalformed(m))
  }

  /**
   What pass 4 refuses, by the files: under Skip nothing; under Error an entry whose
   hash is on disk; under Overwrite, with one file per hash, a Pending entry whose
   hash a Confirmed snapshot carries.
   */
  lemma RefusedByFiles(js: Journals, e: Entry)
    ensures !Refused(js, e, Skip)
    ensures Refused(js, e, Error) <==> OnDisk(JournalAt(js, e.address).files, e.snapshot.extrinsicHash)
    ensures var files := JournalAt(js, e.address).files;
            OneFilePerHash(files) ==>
              (Refused(js, e, Overwrite) <==>
                 && e.snapshot.status == Pending
                 && exists f :: f in files && files[f].extrinsicHash == e.snapshot.extrinsicHash
                                && files[f].status == Confirmed)
  {
    hide Existing;
    var found := Existing(js, e);
  }

  /** The directory of the entry holds a file of its hash. */
  ghost predicate Present(js: Journals, e: Entry) {
    OnDisk(JournalAt(js, e.address).files, e.snapshot.extrinsicHash)
  }

  ghost predicate SomePresent(js: Journals, entries: seq<Entry>) {
    exists e :: e in entries && Present(js, e)
  }

  /** The error is a conflict with a file that is there. */
  ghost predicate BlamesPresent(js: Journals, entries: seq<Entry>, error: StoreError) {
    exists e :: e in entries && Present(js, e) && error == ImportConflict(e.address, e.snapshot.extrinsicHash)
  }

  /** Under Error a payload is refused as soon as one of its hashes is on disk, and the error names such an entry. */
  lemma PresentIsConflict(js: Journals, entries: seq<Entry>)
    requires SomePresent(js, entries)
    ensures !Acceptable(js, entries, Error)
    ensures AllValid(entries) && NoRepeats(entries) ==>
              forall error :: RefusedWith(js, entries, Error, error) ==> BlamesPresent(js, entries, error)
  {
    hide Refused, AllValid, NoRepeats, OnDisk, JournalAt;
    var e :| e in entries && Present(js, e);
    var i :| 0 <= i < |entries| && entries[i] == e;
    RefusedByFiles(js, entries[i]);
    forall error | AllValid(entries) && NoRepeats(entries) && RefusedWith(js, entries, Error, error)
      ensures BlamesPresent(js, entries, error)
    {
      var k :| 0 <= k < |entries| && Refused(js, entries[k], Error) && error == RefusalOf(entries[k], Error);
      RefusedByFiles(js, entries[k]);
      assert entries[k] in entries;
    }
  }

  /**
   Under Overwrite, with one file per hash, a payload that would turn a Confirmed
   snapshot back to Pending is refused, and the error names such an entry.
   */
  lemma DowngradeIsRefused(js: Journals, entries: seq<Entry>, e: Entry, f: File)
    requires forall a :: OneFilePerHash(JournalAt(js, a).files)
    requires e in entries && e.snapshot.status == Pending && f in JournalAt(js, e.address).files
    requires JournalAt(js, e.address).files[f].extrinsicHash == e.snapshot.extrinsicHash
    requires JournalAt(js, e.address).files[f].status == Confirmed
    ensures !Acceptable(js, entries, Overwrite)
    ensures AllValid(entries) && NoRepeats(entries) ==>
              forall error :: RefusedWith(js, entries, Overwrite, error) ==>
                exists other :: other in entries && other.snapshot.status == Pending
                                && OnDisk(JournalAt(js, other.address).files, other.snapshot.extrinsicHash)
                                && error == InvalidFormat(WouldDowngrade(other.snapshot.extrinsicHash))
  {
    hide Refused, AllValid, NoRepeats, JournalAt;
    var i :| 0 <= i < |entries| && entries[i] == e;
    RefusedByFiles(js, entries[i]);
    forall error | AllValid(entries) && NoRepeats(entries) && RefusedWith(js, entries, Overwrite, error)
      ensures exists other :: other in entries && other.snapshot.status == Pending
                              && OnDisk(JournalAt(js, other.address).files, other.snapshot.extrinsicHash)
                              && error == InvalidFormat(WouldDowngrade(other.snapshot.extrinsicHash))
    {
      var k :| 0 <= k < |entries| && Refused(js, entries[k], Overwrite) && error == RefusalOf(entries[k], Overwrite);
      RefusedByFiles(js, entries[k]);
      assert entries[k] in entries;
    }
  }

  /** The commit of one entry: the marker, then the snapshot. */
  ghost function CommitOne(js: Journals, e: Entry, target: Option<Path>, io: EntryIo)
    : (r: (Journals, Result<(), StoreError>))
    requires target.Some? ==> target.value.At?
  {
    var (marked, ensured) := EnsureMarker(JournalAt(js, e.address), e.address, io.marker);
    if ensured.Err? || target.None? then (js[e.address := marked], ensured)
    else
      var written := if io.snapshot == NotWritten then marked
                     else marked.(files := marked.files[target.value.file := e.snapshot]);
      (js[e.address := written], if io.snapshot == Written then Ok(()) else Err(Io))
  }

  ghost predicate Located(targets: seq<Option<Path>>) {
    forall i :: 0 <= i < |targets| && targets[i].Some? ==> targets[i].value.At?
  }

  /** The commit of the first `n` entries; it stops at the first failure. */
  ghost function Commit(js: Journals, entries: seq<Entry>, targets: seq<Option<Path>>, io: seq<EntryIo>, n: nat)
    : (r: (Journals, Result<(), StoreError>))
    requires n <= |entries| == |targets| == |io| && Located(targets)
  {
    if n == 0 then (js, Ok(()))
    else
      var before := Commit(js, entries, targets, io, n - 1);
      if before.1.Err? then before else CommitOne(before.0, entries[n - 1], targets[n - 1], io[n - 1])
  }

  /** How many of the first `n` entries are new to the store. */
  ghost function NewEntries(js: Journals, entries: seq<Entry>, n: nat): (count: nat)
    requires n <= |entries|
    ensures count <= n
  {
    if n == 0 then 0 else NewEntries(js, entries, n - 1) + if Existing(js, entries[n - 1]).None? then 1 else 0
  }

  ghost function Counts(js: Journals, entries: seq<Entry>, conflict: ConflictStrategy, n: nat): (r: ImportResult)
    requires n <= |entries|
  {
    var added := NewEntries(js, entries, n);
    if conflict == Overwrite then ImportResult(added, 0, n - added) else ImportResult(added, n - added, 0)
  }

  /** The counters after one admitted entry. */
  ghost function Counted(js: Journals, e: Entry, conflict: ConflictStrategy, before: ImportResult): (r: ImportResult) {
    if Existing(js, e).None? then before.(imported := before.imported + 1)
    else if conflict == Overwrite then before.(overwritten := before.overwritten + 1)
    else before.(skipped := before.skipped + 1)
  }

  // ---------------------------------------------------------------------------
  // The passes
  // ---------------------------------------------------------------------------

  /** Pass 1. */
  method ValidateHashes(entries: seq<Entry>) returns (r: Result<(), StoreError>)
    ensures r == if AllValid(entries) then Ok(()) else Err(InvalidFormat(BadHashField))
  {
    for i := 0 to |entries|
      invariant forall k :: 0 <= k < i ==> ValidFields(entries[k].snapshot)
    {
      if !ValidFields(entries[i].snapshot) {
        return Err(InvalidFormat(BadHashField));
      }
    }
    return Ok(());
  }

  /** Pass 2. */
  method RejectRepeats(entries: seq<Entry>) returns (r: Result<(), StoreError>)
    ensures r.Ok? <==> NoRepeats(entries)
    ensures r.Err? ==>
              exists i, j :: 0 <= i < j < |entries| && Key(entries[i]) == Key(entries[j])
                             && r.error == InvalidFormat(DuplicateEntry(entries[j].snapshot.extrinsicHash))
  {
    var seen: set<(Address, Hash)> := {};
    for j := 0 to |entries|
      invariant forall i, k :: 0 <= i < k < j ==> Key(entries[i]) != Key(entries[k])
      invariant forall key :: key in seen <==> exists i :: 0 <= i < j && Key(entries[i]) == key
    {
      if Key(entries[j]) in seen {
        return Err(InvalidFormat(DuplicateEntry(entries[j].snapshot.extrinsicHash)));
      }
      seen := seen + {Key(entries[j])};
    }
    return Ok(());
  }

  function Slots(files: Files, paths: map<Hash, File>): (view: View) {
    map h | h in paths && paths[h] in files :: Slot(At(paths[h]), files[paths[h]])
  }

  function Loaded(files: Files): (view: View) {
    Slots(files, PathByHash(files))
  }

  method LoadView(files: Files) returns (view: View)
    ensures view == Loaded(files)
  {
    hide Slots, LastPath, Names, NoDup;
    var names := Names(files);
    view := map[];
    NoSlots(files);
    assert names[..0] == [];
    for i := 0 to |names|
      invariant view == Slots(files, LastPath(files, names[..i]))
    {
      OneMoreSlot(files, names, i);
      view := view[files[names[i]].extrinsicHash := Slot(At(names[i]), files[names[i]])];
    }
    assert names[..|names|] == names;
  }

  lemma NoSlots(files: Files)
    ensures Slots(files, LastPath(files, [])) == map[]
  {
  }

  lemma OneMoreSlot(files: Files, names: seq<File>, i: nat)
    requires (forall f :: f in names ==> f in files) && i < |names|
    ensures Slots(files, LastPath(files, names[..i + 1]))
         == Slots(files, LastPath(files, names[..i]))[
              files[names[i]].extrinsicHash := Slot(At(names[i]), files[names[i]])]
  {
    var shorter, longer := LastPath(files, names[..i]), LastPath(files, names[..i + 1]);
    assert names[..i + 1][..i] == names[..i];
    assert longer == shorter[files[names[i]].extrinsicHash := names[i]];
  }

  /** Pass 3. */
  method LoadAddresses(js: Journals, entries: seq<Entry>) returns (addresses: set<Address>, views: map<Address, View>)
    ensures addresses == set e | e in entries :: e.address
    ensures views.Keys == addresses
    ensures forall a :: a in views ==> views[a] == Loaded(JournalAt(js, a).files)
  {
    addresses := AddressesOf(entries);
    views := LoadViews(js, addresses);
  }

  method AddressesOf(entries: seq<Entry>) returns (addresses: set<Address>)
    ensures addresses == set e | e in entries :: e.address
  {
    addresses := {};
    for i := 0 to |entries|
      invariant forall a :: a in addresses <==> exists k :: 0 <= k < i && entries[k].address == a
    {
      addresses := addresses + {entries[i].address};
    }
    forall a ensures a in addresses <==> exists e :: e in entries && e.address == a {
      if e :| e in entries && e.address == a {
        var k :| 0 <= k < |entries| && entries[k] == e;
      }
    }
  }

  method LoadViews(js: Journals, addresses: set<Address>) returns (views: map<Address, View>)
    ensures views.Keys == addresses
    ensures forall a :: a in views ==> views[a] == Loaded(JournalAt(js, a).files)
  {
    hide Loaded, JournalAt;
    views := map[];
    var left := addresses;
    while left != {}
      invariant left <= addresses && views.Keys == addresses - left
      invariant forall a :: a in views ==> views[a] == Loaded(JournalAt(js, a).files)
    {
      var a :| a in left;
      var view := LoadView(JournalAt(js, a).files);
      views := views[a := view];
      left := left - {a};
    }
  }

  /** `ImportResult::admit`: counts the entry and says whether to write it. */
  function Admit(result: ImportResult, found: bool, strategy: ConflictStrategy, e: Entry)
    : (r: Result<(ImportResult, bool), StoreError>)
  {
    if !found then Ok((result.(imported := result.imported + 1), true))
    else match strategy
      case Skip => Ok((result.(skipped := result.skipped + 1), false))
      case Overwrite => Ok((result.(overwritten := result.overwritten + 1), true))
      case Error => Err(ImportConflict(e.address, e.snapshot.extrinsicHash))
  }

  function Strip(view: View): (r: map<Hash, Snapshot>) {
    map h | h in view :: view[h].snapshot
  }

  lemma LoadedIsExisting(js: Journals, e: Entry)
    ensures var view := Loaded(JournalAt(js, e.address).files);
            var f := Existing(js, e);
            && (e.snapshot.extrinsicHash in view <==> f.Some?)
            && (f.Some? ==>
                  view[e.snapshot.extrinsicHash] == Slot(At(f.value), JournalAt(js, e.address).files[f.value]))
  {
  }

  lemma StripLoaded(files: Files)
    ensures Strip(Loaded(files)) == ViewOf(files)
  {
  }

  /** The slot of the entry is as loaded, or there is none. */
  ghost predicate SlotAsLoaded(js: Journals, view: View, e: Entry) {
    var loaded, h := Loaded(JournalAt(js, e.address).files), e.snapshot.extrinsicHash;
    (h in view <==> h in loaded) && (h in view ==> view[h] == loaded[h])
  }

  ghost predicate AsLoaded(js: Journals, views: map<Address, View>, e: Entry) {
    e.address in views && SlotAsLoaded(js, views[e.address], e)
  }

  lemma AllAsLoaded(js: Journals, entries: seq<Entry>, loaded: map<Address, View>)
    requires loaded.Keys == set e | e in entries :: e.address
    requires forall a :: a in loaded ==> loaded[a] == Loaded(JournalAt(js, a).files)
    ensures forall k :: 0 <= k < |entries| ==> AsLoaded(js, loaded, entries[k])
  {
    hide Loaded;
    assert forall k :: 0 <= k < |entries| ==> entries[k] in entries;
  }

  /** The views after the first `i` entries: merged, and as loaded for the entries to come. */
  ghost predicate ViewsStaged(
      js: Journals, entries: seq<Entry>, conflict: ConflictStrategy, views: map<Address, View>, i: nat)
  {
    && i <= |entries|
    && (forall k :: i <= k < |entries| ==> AsLoaded(js, views, entries[k]))
    && (forall a :: a in views ==> Strip(views[a]) == Merged(js, entries, conflict, a, i))
  }

  lemma NothingStaged(js: Journals, entries: seq<Entry>, conflict: ConflictStrategy, loaded: map<Address, View>)
    requires loaded.Keys == set e | e in entries :: e.address
    requires forall a :: a in loaded ==> loaded[a] == Loaded(JournalAt(js, a).files)
    ensures ViewsStaged(js, entries, conflict, loaded, 0)
  {
    hide Loaded;
    AllAsLoaded(js, entries, loaded);
    forall a | a in loaded ensures Strip(loaded[a]) == Merged(js, entries, conflict, a, 0) {
      StripLoaded(JournalAt(js, a).files);
    }
  }

  lemma EntryAsLoaded(
      js: Journals, entries: seq<Entry>, conflict: ConflictStrategy, views: map<Address, View>, i: nat)
    requires ViewsStaged(js, entries, conflict, views, i) && i < |entries|
    ensures entries[i].address in views && SlotAsLoaded(js, views[entries[i].address], entries[i])
  {
    assert AsLoaded(js, views, entries[i]);
  }

  lemma AllMerged(js: Journals, entries: seq<Entry>, conflict: ConflictStrategy, views: map<Address, View>)
    requires ViewsStaged(js, entries, conflict, views, |entries|)
    ensures forall a :: a in views ==> Strip(views[a]) == Merged(js, entries, conflict, a, |entries|)
  {
  }

  lemma ViewsStagedNext(
      js: Journals, entries: seq<Entry>, conflict: ConflictStrategy, views: map<Address, View>, nanos: nat, i: nat)
    requires ViewsStaged(js, entries, conflict, views, i) && i < |entries| && NoRepeats(entries)
    requires entries[i].address in views
    ensures var e := entries[i];
            var h := e.snapshot.extrinsicHash;
            ViewsStaged(js, entries, conflict,
                        if TargetOf(js, e, conflict, nanos).Some?
                        then views[e.address := views[e.address][h := Slot(Empty, e.snapshot)]] else views, i + 1)
  {
    hide SlotAsLoaded, TargetOf, Strip, Merged, NoRepeats;
    MergedNext(js, entries, conflict, nanos, i);
    OthersUntouched(js, views, entries, i);
    StripUpdate(views[entries[i].address], entries[i].snapshot);
  }

  /** The decision on one entry, read off the view. */
  method StageEntry(js: Journals, view: View, e: Entry, conflict: ConflictStrategy, nanos: nat, result: ImportResult)
    returns (r: Result<(Option<Path>, ImportResult), StoreError>)
    requires SlotAsLoaded(js, view, e)
    ensures r.Ok? <==> !Refused(js, e, conflict)
    ensures r.Err? ==> r.error == RefusalOf(e, conflict)
    ensures r.Ok? ==> r.value == (TargetOf(js, e, conflict, nanos), Counted(js, e, conflict, result))
  {
    hide Loaded, Existing;
    LoadedIsExisting(js, e);
    var h := e.snapshot.extrinsicHash;
    var found := h in view;
    if conflict == Overwrite && found && view[h].snapshot.status == Confirmed && e.snapshot.status == Pending {
      return Err(InvalidFormat(WouldDowngrade(h)));
    }
    var admitted := Admit(result, found, conflict, e);
    if admitted.Err? {
      return Err(admitted.error);
    }
    var target: Option<Path> := None;
    if admitted.value.1 {
      target := Some(if found then view[h].path else At(File(nanos, h)));
    }
    return Ok((target, admitted.value.0));
  }

  /**
   Pass 4. No target is the empty placeholder: the payload names no key twice,
   so no entry finds what an earlier entry put into the view.
   */
  method StageEntries(
      js: Journals, entries: seq<Entry>, conflict: ConflictStrategy, clock: seq<nat>, loaded: map<Address, View>)
    returns (r: Result<Staging, StoreError>)
    requires |clock| == |entries| && NoRepeats(entries)
    requires loaded.Keys == set e | e in entries :: e.address
    requires forall a :: a in loaded ==> loaded[a] == Loaded(JournalAt(js, a).files)
    ensures r.Ok? <==> forall i :: 0 <= i < |entries| ==> !Refused(js, entries[i], conflict)
    ensures r.Err? ==>
              exists i :: 0 <= i < |entries| && Refused(js, entries[i], conflict)
                          && r.error == RefusalOf(entries[i], conflict)
    ensures r.Ok? ==>
              && r.value.targets == Targets(js, entries, conflict, clock)
              && r.value.result == Counts(js, entries, conflict, |entries|)
              && r.value.views.Keys == loaded.Keys
              && forall a :: a in loaded ==>
                   Strip(r.value.views[a]) == Merged(js, entries, conflict, a, |entries|)
  {
    hide Loaded, Existing, ViewOf, NoRepeats, Refused, TargetOf, SlotAsLoaded, ViewsStaged;
    hide Counts, Counted, Strip, Merged, JournalAt, RefusalOf;
    var views := loaded;
    var targets: seq<Option<Path>> := [];
    var result := ImportResult(0, 0, 0);
    NothingStaged(js, entries, conflict, loaded);
    NothingCounted(js, entries, conflict);
    for i := 0 to |entries|
      invariant forall k :: 0 <= k < i ==> !Refused(js, entries[k], conflict)
      invariant |targets| == i
      invariant forall k :: 0 <= k < i ==> targets[k] == TargetOf(js, entries[k], conflict, clock[k])
      invariant result == Counts(js, entries, conflict, i)
      invariant views.Keys == loaded.Keys && ViewsStaged(js, entries, conflict, views, i)
    {
      var e := entries[i];
      EntryAsLoaded(js, entries, conflict, views, i);
      var staged := StageEntry(js, views[e.address], e, conflict, clock[i], result);
      if staged.Err? {
        return Err(staged.error);
      }
      var (target, counted) := staged.value;
      CountedNext(js, entries, conflict, i);
      ViewsStagedNext(js, entries, conflict, views, clock[i], i);
      result := counted;
      if target.Some? {
        views := views[e.address := views[e.address][e.snapshot.extrinsicHash := Slot(Empty, e.snapshot)]];
      }
      targets := targets + [target];
    }
    AllMerged(js, entries, conflict, views);
    return Ok(Staging(targets, result, views));
  }

  lemma NothingCounted(js: Journals, entries: seq<Entry>, conflict: ConflictStrategy)
    ensures Counts(js, entries, conflict, 0) == ImportResult(0, 0, 0)
  {
  }

  lemma CountedNext(js: Journals, entries: seq<Entry>, conflict: ConflictStrategy, i: nat)
    requires i < |entries|
    ensures !Refused(js, entries[i], conflict) ==>
              Counts(js, entries, conflict, i + 1)
              == Counted(js, entries[i], conflict, Counts(js, entries, conflict, i))
  {
  }

  lemma MergedNext(js: Journals, entries: seq<Entry>, conflict: ConflictStrategy, nanos: nat, i: nat)
    requires i < |entries|
    ensures var e := entries[i];
            forall a :: Merged(js, entries, conflict, a, i + 1)
                        == if e.address == a && TargetOf(js, e, conflict, nanos).Some?
                           then Merged(js, entries, conflict, a, i)[e.snapshot.extrinsicHash := e.snapshot]
                           else Merged(js, entries, conflict, a, i)
  {
  }

  lemma StripUpdate(view: View, s: Snapshot)
    ensures Strip(view[s.extrinsicHash := Slot(Empty, s)]) == Strip(view)[s.extrinsicHash := s]
  {
  }

  lemma OthersUntouched(js: Journals, views: map<Address, View>, entries: seq<Entry>, i: nat)
    requires i < |entries| && NoRepeats(entries) && entries[i].address in views
    requires forall k :: i <= k < |entries| ==> AsLoaded(js, views, entries[k])
    ensures var e := entries[i];
            var h := e.snapshot.extrinsicHash;
            forall k :: i < k < |entries| ==>
              AsLoaded(js, views[e.address := views[e.address][h := Slot(Empty, e.snapshot)]], entries[k])
  {
    hide Loaded;
    forall k | i < k < |entries|
      ensures var e := entries[i];
              var h := e.snapshot.extrinsicHash;
              AsLoaded(js, views[e.address := views[e.address][h := Slot(Empty, e.snapshot)]], entries[k])
    {
      assert Key(entries[i]) != Key(entries[k]);
      assert AsLoaded(js, views, entries[k]);
    }
  }

  /** Pass 5. */
  method CheckMerged(
      js: Journals, entries: seq<Entry>, conflict: ConflictStrategy, addresses: set<Address>, views: map<Address, View>)
    returns (r: Result<(), StoreError>)
    requires addresses == views.Keys
    requires forall a :: a in views ==> Strip(views[a]) == Merged(js, entries, conflict, a, |entries|)
    ensures r.Ok? <==> forall a :: a in addresses ==> MergesWell(js, entries, conflict, a)
    ensures r.Err? ==>
              exists a, m :: a in addresses && MergeFails(js, entries, conflict, a, m)
                             && r.error == InvalidFormat(ImportMalformed(m))
  {
    hide Merged, Leaf, Values;
    var left := addresses;
    while left != {}
      invariant left <= addresses
      invariant forall a :: a in addresses - left ==> MergesWell(js, entries, conflict, a)
    {
      var a :| a in left;
      var snaps := MapValues(Strip(views[a]));
      var leaf := FindLeaf.FindLeaf(snaps);
      LeafPermutes(snaps, Values(Strip(views[a])));
      if leaf.Err? {
        ValuesHashes(Strip(views[a]));
        LeafErrorPermutes(Values(Strip(views[a])), snaps);
        assert MergeFails(js, entries, conflict, a, leaf.error);
        return Err(InvalidFormat(ImportMalformed(leaf.error)));
      }
      left := left - {a};
    }
    return Ok(());
  }

  lemma {:induction false} CommitStops(
      js: Journals, entries: seq<Entry>, targets: seq<Option<Path>>, io: seq<EntryIo>, n: nat, m: nat)
    requires n <= m <= |entries| == |targets| == |io| && Located(targets)
    requires Commit(js, entries, targets, io, n).1.Err?
    ensures Commit(js, entries, targets, io, m) == Commit(js, entries, targets, io, n)
  {
    if n < m {
      CommitStops(js, entries, targets, io, n, m - 1);
    }
  }

  /** The second write to an address replaces the first. */
  lemma SecondUpdate(js: Journals, a: Address, first: Journal, second: Journal)
    ensures js[a := first][a := second] == js[a := second]
  {
  }

  /** Pass 6. */
  method CommitEntries(
      provider: FsPrivateStateProvider, entries: seq<Entry>, targets: seq<Option<Path>>, io: seq<EntryIo>)
    returns (r: Result<(), StoreError>)
    requires |entries| == |targets| == |io| && Located(targets)
    modifies provider
    ensures (provider.journals, r) == Commit(old(provider.journals), entries, targets, io, |entries|)
  {
    ghost var js := provider.journals;
    for i := 0 to |entries|
      invariant (provider.journals, Ok(())) == Commit(js, entries, targets, io, i)
    {
      ghost var before := provider.journals;
      r := provider.EnsureAddressMarker(entries[i].address, io[i].marker);
      ghost var marked := JournalAt(provider.journals, entries[i].address);
      if r.Ok? && targets[i].Some? {
        r := provider.WriteSnapshot(
          entries[i].address, targets[i].value.file, entries[i].snapshot, io[i].snapshot);
      }
      SecondUpdate(before, entries[i].address, marked, JournalAt(provider.journals, entries[i].address));
      assert (provider.journals, r) == Commit(js, entries, targets, io, i + 1);
      if r.Err? {
        CommitStops(js, entries, targets, io, i + 1, |entries|);
        return;
      }
    }
    return Ok(());
  }

  /**
   The import. A refused payload leaves the store as it was; an accepted one is
   committed to the files staged for it.
   */
  method ApplyImportEntries(
      provider: FsPrivateStateProvider, entries: seq<Entry>, conflict: ConflictStrategy, clock: seq<nat>,
      io: seq<EntryIo>)
    returns (r: Result<ImportResult, StoreError>)
    requires |clock| == |entries| == |io|
    modifies provider
    ensures !Acceptable(old(provider.journals), entries, conflict) ==>
              && provider.journals == old(provider.journals)
              && r.Err? && RefusedWith(old(provider.journals), entries, conflict, r.error)
    ensures Acceptable(old(provider.journals), entries, conflict) ==>
              var js := old(provider.journals);
              var (after, committed) := Commit(js, entries, Targets(js, entries, conflict, clock), io, |entries|);
              && provider.journals == after
              && r == if committed.Ok? then Ok(Counts(js, entries, conflict, |entries|)) else Err(committed.error)
  {
    hide Refused, Commit, Merged, MergesWell, MergeFails, Loaded, TargetOf, ValidFields, Counts, JournalAt, AllValid;
    hide NoRepeats, RefusalOf, Leaf, Targets, Strip, Values;
    ghost var js := provider.journals;
    var valid := ValidateHashes(entries);
    if valid.Err? {
      return Err(valid.error);
    }
    var unique := RejectRepeats(entries);
    if unique.Err? {
      return Err(unique.error);
    }
    var addresses, loaded := LoadAddresses(provider.journals, entries);
    var staged := StageEntries(provider.journals, entries, conflict, clock, loaded);
    if staged.Err? {
      return Err(staged.error);
    }
    var checked := CheckMerged(provider.journals, entries, conflict, addresses, staged.value.views);
    if checked.Err? {
      return Err(checked.error);
    }
    var committed := CommitEntries(provider, entries, staged.value.targets, io);
    return if committed.Ok? then Ok(staged.value.result) else Err(committed.error);
  }
}
