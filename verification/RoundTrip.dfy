/** Export, the sealed envelope, and the way back into an empty store. */
module RoundTrip {
  import opened Wrappers
  import opened Orders
  import opened Snapshots
  import opened FindLeaf
  import opened TopoSort
  import opened Directory
  import opened Journal
  import opened JournalLaws
  import opened Store
  import opened Import
  import opened ImportLaws
  import opened ImportStops

  const MIN_PASSWORD_LEN: nat := 16
  const FORMAT_STATES: string := "midnight-rs-private-state-journal-export-v1"

  datatype ExportOptions = ExportOptions(password: string, maxEntries: nat)

  datatype ImportOptions = ImportOptions(password: string, conflict: ConflictStrategy, maxEntries: nat)

  /** The envelope: a readable tag, and records only the password opens, bound to the tag they were sealed under. */
  datatype EncryptedExport = EncryptedExport(format: string, password: string, bound: string, records: seq<Entry>)

  function CheckPassword(opts: ExportOptions): (r: Result<(), StoreError>) {
    if |opts.password| < MIN_PASSWORD_LEN then Err(PasswordTooShort) else Ok(())
  }

  function Seal(format: string, opts: ExportOptions, records: seq<Entry>): (r: Result<EncryptedExport, StoreError>) {
    if |records| > opts.maxEntries then Err(TooManyEntries)
    else Ok(EncryptedExport(format, opts.password, format, records))
  }

  function Open(format: string, envelope: EncryptedExport, opts: ImportOptions): (r: Result<seq<Entry>, StoreError>) {
    if envelope.format != format then Err(InvalidFormat(WrongFormat))
    else if opts.password != envelope.password || envelope.bound != format then Err(Decrypt)
    else if |envelope.records| > opts.maxEntries then Err(TooManyEntries)
    else Ok(envelope.records)
  }

  /** An envelope opens with its password, as what it was sealed as, whatever tag it is relabelled with. */
  lemma OpensAsSealed(
      sealedAs: string, relabelled: string, openedAs: string, out: ExportOptions, back: ImportOptions,
      records: seq<Entry>)
    requires Seal(sealedAs, out, records).Ok?
    ensures var envelope := Seal(sealedAs, out, records).value.(format := relabelled);
            var answer := Open(openedAs, envelope, back);
            && (answer.Ok? ==> answer.value == records)
            && (answer.Ok? <==> sealedAs == relabelled == openedAs && out.password == back.password
                                && |records| <= back.maxEntries)
            && (answer.Err? ==>
                  answer.error == if relabelled != openedAs then InvalidFormat(WrongFormat)
                                  else if sealedAs == openedAs && out.password == back.password then TooManyEntries
                                  else Decrypt)
  {
  }

  // ---------------------------------------------------------------------------
  // Export
  // ---------------------------------------------------------------------------

  function EntriesOf(a: Address, snaps: seq<Snapshot>): (entries: seq<Entry>)
    ensures |entries| == |snaps|
    ensures forall i :: 0 <= i < |snaps| ==> entries[i] == Entry(a, snaps[i])
  {
    seq(|snaps|, i requires 0 <= i < |snaps| => Entry(a, snaps[i]))
  }

  /** The first `n` directories of a listing, as export entries. */
  function Collected(js: Journals, dirs: seq<Address>, n: nat): (r: Result<seq<Entry>, StoreError>)
    requires n <= |dirs|
  {
    if n == 0 then Ok([])
    else
      var before := Collected(js, dirs, n - 1);
      var dir := dirs[n - 1];
      var journal := JournalAt(js, dir);
      if before.Err? || journal.marker.None? then before
      else if journal.marker.value != dir then Err(InvalidFormat(MarkerMismatch(journal.marker.value)))
      else Ok(before.value + EntriesOf(dir, Bag(journal.files)))
  }

  lemma {:induction false} CollectedStops(js: Journals, dirs: seq<Address>, n: nat, m: nat)
    requires n <= m <= |dirs| && Collected(js, dirs, n).Err?
    ensures Collected(js, dirs, m) == Collected(js, dirs, n)
  {
    if n < m {
      CollectedStops(js, dirs, n, m - 1);
    }
  }

  /**
   What is collected, of any store: it fails exactly when a listed directory is
   marked with another address, and names the first such marker; else it holds every
   snapshot of the marked directories, and nothing of an unmarked one.
   */
  lemma {:induction false} CollectedIs(js: Journals, dirs: seq<Address>, n: nat)
    requires n <= |dirs|
    ensures Collected(js, dirs, n).Ok? <==>
              forall i :: 0 <= i < n ==>
                JournalAt(js, dirs[i]).marker == None || JournalAt(js, dirs[i]).marker == Some(dirs[i])
    ensures Collected(js, dirs, n).Err? ==>
              exists i :: 0 <= i < n && JournalAt(js, dirs[i]).marker.Some?
                          && JournalAt(js, dirs[i]).marker.value != dirs[i]
                          && (forall k :: 0 <= k < i ==>
                                JournalAt(js, dirs[k]).marker == None || JournalAt(js, dirs[k]).marker == Some(dirs[k]))
                          && Collected(js, dirs, n)
                             == Err(InvalidFormat(MarkerMismatch(JournalAt(js, dirs[i]).marker.value)))
    ensures Collected(js, dirs, n).Ok? ==>
              forall e :: e in Collected(js, dirs, n).value <==>
                            && e.snapshot in Bag(JournalAt(js, e.address).files)
                            && JournalAt(js, e.address).marker.Some?
                            && exists i :: 0 <= i < n && dirs[i] == e.address
  {
    hide Bag, JournalAt;
    if n > 0 {
      CollectedIs(js, dirs, n - 1);
      var dir := dirs[n - 1];
      var added := EntriesOf(dir, Bag(JournalAt(js, dir).files));
      forall e: Entry ensures e in added <==> e.address == dir && e.snapshot in Bag(JournalAt(js, dir).files) {
        if e.address == dir && e.snapshot in Bag(JournalAt(js, dir).files) {
          var i :| 0 <= i < |added| && Bag(JournalAt(js, dir).files)[i] == e.snapshot;
          assert added[i] == e;
        }
      }
    }
  }

  /** `collect_export_entries`, over the directories in the order the file system lists them. */
  method CollectExportEntries(js: Journals, dirs: seq<Address>) returns (r: Result<seq<Entry>, StoreError>)
    ensures r == Collected(js, dirs, |dirs|)
  {
    hide Bag, JournalAt;
    var out: seq<Entry> := [];
    for i := 0 to |dirs|
      invariant Collected(js, dirs, i) == Ok(out)
    {
      var journal := JournalAt(js, dirs[i]);
      if journal.marker.None? {
        continue;
      }
      if journal.marker.value != dirs[i] {
        CollectedStops(js, dirs, i + 1, |dirs|);
        return Err(InvalidFormat(MarkerMismatch(journal.marker.value)));
      }
      out := out + EntriesOf(dirs[i], Bag(journal.files));
    }
    return Ok(out);
  }

  method ExportPrivateStates(js: Journals, dirs: seq<Address>, opts: ExportOptions)
    returns (r: Result<EncryptedExport, StoreError>)
    ensures r.Ok? ==>
              && |opts.password| >= MIN_PASSWORD_LEN
              && Collected(js, dirs, |dirs|).Ok?
              && r == Seal(FORMAT_STATES, opts, Collected(js, dirs, |dirs|).value)
    ensures r.Err? ==>
              if |opts.password| < MIN_PASSWORD_LEN then r.error == PasswordTooShort
              else if Collected(js, dirs, |dirs|).Err? then r.error == Collected(js, dirs, |dirs|).error
              else |Collected(js, dirs, |dirs|).value| > opts.maxEntries && r.error == TooManyEntries
    ensures r.Ok? <==>
              && |opts.password| >= MIN_PASSWORD_LEN && Collected(js, dirs, |dirs|).Ok?
              && |Collected(js, dirs, |dirs|).value| <= opts.maxEntries
  {
    var checked := CheckPassword(opts);
    if checked.Err? {
      return Err(checked.error);
    }
    var entries := CollectExportEntries(js, dirs);
    return if entries.Ok? then Seal(FORMAT_STATES, opts, entries.value) else Err(entries.error);
  }

  method ImportPrivateStates(
      provider: FsPrivateStateProvider, envelope: EncryptedExport, opts: ImportOptions, clock: seq<nat>,
      io: seq<EntryIo>)
    returns (r: Result<ImportResult, StoreError>)
    requires |clock| == |io| == |envelope.records|
    modifies provider
    ensures (Open(FORMAT_STATES, envelope, opts).Ok? ==>
               !Acceptable(old(provider.journals), envelope.records, opts.conflict)) ==>
              r.Err? && provider.journals == old(provider.journals)
    ensures Open(FORMAT_STATES, envelope, opts).Err? ==> r == Err(Open(FORMAT_STATES, envelope, opts).error)
    ensures Open(FORMAT_STATES, envelope, opts).Ok? &&
            !Acceptable(old(provider.journals), envelope.records, opts.conflict) ==>
              r.Err? && RefusedWith(old(provider.journals), envelope.records, opts.conflict, r.error)
    ensures Open(FORMAT_STATES, envelope, opts).Ok? &&
            Acceptable(old(provider.journals), envelope.records, opts.conflict) ==>
              var js, entries := old(provider.journals), envelope.records;
              var (after, committed) := Commit(js, entries, Targets(js, entries, opts.conflict, clock), io, |entries|);
              && provider.journals == after
              && r == if committed.Ok? then Ok(Counts(js, entries, opts.conflict, |entries|)) else Err(committed.error)
  {
    hide Acceptable, Commit, Targets, Counts, RefusedWith;
    var entries := Open(FORMAT_STATES, envelope, opts);
    if entries.Err? {
      return Err(entries.error);
    }
    r := ApplyImportEntries(provider, entries.value, opts.conflict, clock, io);
  }

  // ---------------------------------------------------------------------------
  // There and back
  // ---------------------------------------------------------------------------

  /** Every directory that holds snapshots carries its address, and one file per hash, with hex hashes. */
  ghost predicate Exportable(js: Journals) {
    && (forall a :: JournalAt(js, a).files != map[] ==> JournalAt(js, a).marker == Some(a))
    && (forall a :: JournalAt(js, a).marker.Some? ==> JournalAt(js, a).marker.value == a)
    && (forall a :: OneFilePerHash(JournalAt(js, a).files))
    && (forall a, f :: f in JournalAt(js, a).files ==> ValidFields(JournalAt(js, a).files[f]))
  }

  /** The payload holds each snapshot of the store once, in any order. */
  ghost predicate Payload(js: Journals, entries: seq<Entry>) {
    && NoDup(entries)
    && forall e :: e in entries <==> e.snapshot in Bag(JournalAt(js, e.address).files)
  }

  ghost predicate Listing(js: Journals, dirs: seq<Address>) {
    NoDup(dirs) && forall a :: a in dirs <==> a in js
  }

  lemma {:induction false} CollectedPayload(js: Journals, dirs: seq<Address>, n: nat)
    requires Exportable(js) && NoDup(dirs) && n <= |dirs|
    ensures Collected(js, dirs, n).Ok?
    ensures NoDup(Collected(js, dirs, n).value)
    ensures forall e :: e in Collected(js, dirs, n).value <==>
                          e.snapshot in Bag(JournalAt(js, e.address).files) && e.address in dirs[..n]
  {
    hide Bag, JournalAt, OneFilePerHash;
    if n > 0 {
      CollectedPayload(js, dirs, n - 1);
      var dir, before := dirs[n - 1], Collected(js, dirs, n - 1).value;
      var files := JournalAt(js, dir).files;
      assert dirs[..n] == dirs[..n - 1] + [dir];
      BagSize(files);
      OneFileDistinct(files);
      DistinctNoDup(Bag(files));
      EntriesOfNoDup(dir, Bag(files));
      if JournalAt(js, dir).marker.Some? {
        var added := EntriesOf(dir, Bag(files));
        forall e | e in before ensures e !in added {
          assert e.address in dirs[..n - 1];
        }
        NoDupConcat(before, added);
      } else {
        assert Bag(files) == [];
      }
    }
  }

  lemma EntriesOfNoDup(a: Address, snaps: seq<Snapshot>)
    requires NoDup(snaps)
    ensures NoDup(EntriesOf(a, snaps))
    ensures forall e :: e in EntriesOf(a, snaps) <==> e.address == a && e.snapshot in snaps
  {
    forall e: Entry | e.address == a && e.snapshot in snaps ensures e in EntriesOf(a, snaps) {
      var i :| 0 <= i < |snaps| && snaps[i] == e.snapshot;
      assert EntriesOf(a, snaps)[i] == e;
    }
  }

  lemma NoDupConcat<T>(a: seq<T>, b: seq<T>)
    requires NoDup(a) && NoDup(b) && forall x :: x in a ==> x !in b
    ensures NoDup(a + b)
  {
    forall i, j | 0 <= i < j < |a + b| ensures (a + b)[i] != (a + b)[j] {
      if i < |a| <= j {
        assert a[i] in a && b[j - |a|] in b;
      }
    }
  }

  /** Exported, and shuffled in any way, the payload is each snapshot once. */
  lemma ExportIsPayload(js: Journals, dirs: seq<Address>, entries: seq<Entry>)
    requires Exportable(js) && Listing(js, dirs)
    requires Collected(js, dirs, |dirs|).Ok? ==> multiset(entries) == multiset(Collected(js, dirs, |dirs|).value)
    ensures Collected(js, dirs, |dirs|).Ok? && Payload(js, entries)
  {
    hide Bag, Exportable;
    CollectedPayload(js, dirs, |dirs|);
    var collected := Collected(js, dirs, |dirs|).value;
    SameElements(entries, collected);
    NoDupPermutes(collected, entries);
    assert dirs[..|dirs|] == dirs;
    forall e: Entry | e.snapshot in Bag(JournalAt(js, e.address).files) ensures e.address in dirs {
      BagSize(JournalAt(js, e.address).files);
    }
  }

  lemma PayloadHasNoRepeats(js: Journals, entries: seq<Entry>)
    requires Exportable(js) && Payload(js, entries)
    ensures NoRepeats(entries) && AllValid(entries)
  {
    hide Bag, JournalAt;
    forall i, j | 0 <= i < j < |entries| ensures Key(entries[i]) != Key(entries[j]) {
      assert entries[i] in entries && entries[j] in entries;
      if Key(entries[i]) == Key(entries[j]) {
        var files := JournalAt(js, entries[i].address).files;
        OneFileDistinct(files);
        DistinctByHash(Bag(files), entries[i].snapshot, entries[j].snapshot);
      }
    }
    forall i | 0 <= i < |entries| ensures ValidFields(entries[i].snapshot) {
      assert entries[i] in entries;
      BagMembers(JournalAt(js, entries[i].address).files);
    }
  }

  /** Into an empty store, the merge shows exactly the exported journal. */
  lemma MergeIsExported(js: Journals, entries: seq<Entry>, conflict: ConflictStrategy, a: Address)
    requires Exportable(js) && Payload(js, entries)
    ensures Shows(JournalAt(js, a).files, Merged(map[], entries, conflict, a, |entries|))
    ensures multiset(Bag(JournalAt(js, a).files)) == multiset(Values(Merged(map[], entries, conflict, a, |entries|)))
  {
    hide Bag, ViewOf, Existing, Merged, JournalAt, Values;
    var files, merged := JournalAt(js, a).files, Merged(map[], entries, conflict, a, |entries|);
    PayloadHasNoRepeats(js, entries);
    BagMembers(files);
    forall f | f in files
      ensures files[f].extrinsicHash in merged && merged[files[f].extrinsicHash] == files[f]
    {
      assert Entry(a, files[f]) in entries;
      var i :| 0 <= i < |entries| && entries[i] == Entry(a, files[f]);
      NothingExists(entries[i]);
      MergedHolds(map[], entries, conflict, |entries|, i);
    }
    forall h | h in merged ensures OnDisk(files, h) {
      MergedHashes(map[], entries, conflict, a, |entries|, h);
      EmptyView(a);
      var i :| 0 <= i < |entries| && Key(entries[i]) == (a, h);
      assert entries[i] in entries;
    }
    ShowsSameBag(files, merged);
  }

  lemma NothingExists(e: Entry)
    ensures Existing(map[], e).None?
  {
    var f := Existing(map[], e);
  }

  lemma EmptyView(a: Address)
    ensures ViewOf(JournalAt(map[], a).files) == map[]
  {
    var view := ViewOf(JournalAt(map[], a).files);
    assert forall h :: h !in view;
  }

  /** The way back is open exactly for a store whose exported journals all have a head or are empty. */
  lemma ImportTakesExport(js: Journals, entries: seq<Entry>, conflict: ConflictStrategy)
    requires Exportable(js) && Payload(js, entries)
    ensures Acceptable(map[], entries, conflict) <==>
              forall a :: JournalAt(js, a).files != map[] ==> Head(JournalAt(js, a).files).Ok?
  {
    hide Bag, Values, Existing, Merged, Leaf, JournalAt;
    PayloadHasNoRepeats(js, entries);
    forall e ensures !Refused(map[], e, conflict) {
      NothingExists(e);
    }
    forall a ensures MergesWell(map[], entries, conflict, a) <==> Head(JournalAt(js, a).files).Ok? {
      MergeIsExported(js, entries, conflict, a);
      LeafPermutes(Bag(JournalAt(js, a).files), Values(Merged(map[], entries, conflict, a, |entries|)));
    }
    forall a | JournalAt(js, a).files != map[] ensures exists e :: e in entries && e.address == a {
      var f :| f in JournalAt(js, a).files;
      BagMembers(JournalAt(js, a).files);
      assert Entry(a, JournalAt(js, a).files[f]) in entries;
    }
    forall e | e in entries ensures JournalAt(js, e.address).files != map[] {
      BagSize(JournalAt(js, e.address).files);
    }
  }

  /**
   Export, shuffle, import into an empty store on a healthy disk: it succeeds for
   journals that are chains, and gives back, for every address, the same
   snapshots, the same head and the same listing, under new file names.
   */
  lemma ExportImportRoundTrip(
      js: Journals, dirs: seq<Address>, entries: seq<Entry>, conflict: ConflictStrategy, clock: seq<nat>,
      io: seq<EntryIo>)
    requires Exportable(js) && Listing(js, dirs)
    requires forall a :: Head(JournalAt(js, a).files).Ok?
    requires Collected(js, dirs, |dirs|).Ok? ==> multiset(entries) == multiset(Collected(js, dirs, |dirs|).value)
    requires |clock| == |io| == |entries| && Healthy(io)
    ensures Collected(js, dirs, |dirs|).Ok?
    ensures Acceptable(map[], entries, conflict)
    ensures Commit(map[], entries, Targets(map[], entries, conflict, clock), io, |entries|).1.Ok?
    ensures var back := Commit(map[], entries, Targets(map[], entries, conflict, clock), io, |entries|).0;
            forall a ::
              && multiset(Bag(JournalAt(back, a).files)) == multiset(Bag(JournalAt(js, a).files))
              && Head(JournalAt(back, a).files) == Head(JournalAt(js, a).files)
              && TopoOrder(Bag(JournalAt(back, a).files)) == TopoOrder(Bag(JournalAt(js, a).files))
  {
    hide Bag, Values, Merged, Leaf, Collected, Commit, Targets, Payload, Exportable, TopoOrder, Acceptable;
    ExportIsPayload(js, dirs, entries);
    ImportTakesExport(js, entries, conflict);
    PayloadHasNoRepeats(js, entries);
    var targets := Targets(map[], entries, conflict, clock);
    HealthyCommit(map[], entries, targets, io, |entries|);
    var back := Commit(map[], entries, targets, io, |entries|).0;
    forall a
      ensures multiset(Bag(JournalAt(back, a).files)) == multiset(Bag(JournalAt(js, a).files))
      ensures Head(JournalAt(back, a).files) == Head(JournalAt(js, a).files)
      ensures TopoOrder(Bag(JournalAt(back, a).files)) == TopoOrder(Bag(JournalAt(js, a).files))
    {
      MergeIsExported(js, entries, conflict, a);
      DiskIsMerge(map[], entries, conflict, clock, io, a);
      SameBagSameReads(JournalAt(js, a).files, JournalAt(back, a).files);
    }
  }

  lemma SameBagSameReads(before: Files, after: Files)
    requires Head(before).Ok? && multiset(Bag(before)) == multiset(Bag(after))
    ensures Head(after) == Head(before)
    ensures TopoOrder(Bag(after)) == TopoOrder(Bag(before))
  {
    hide Bag, Leaf;
    LeafPermutes(Bag(before), Bag(after));
    var chain := ChainOfHead(before);
    DistinctPermutes(chain, Bag(before));
    TopoPermutes(Bag(before), Bag(after));
  }

  /** Sealed and opened with one password, the whole of a store comes back counted as imported. */
  lemma {:induction false} EverythingIsImported(entries: seq<Entry>, conflict: ConflictStrategy, n: nat)
    requires n <= |entries|
    ensures NewEntries(map[], entries, n) == n
  {
    if n > 0 {
      EverythingIsImported(entries, conflict, n - 1);
      NothingExists(entries[n - 1]);
    }
  }

  /** How many snapshots an export of the listing holds. */
  ghost function ExportSize(js: Journals, dirs: seq<Address>): (n: nat) {
    var collected := Collected(js, dirs, |dirs|);
    if collected.Ok? then |collected.value| else 0
  }

  /**
   The two calls, one after the other, into an empty store on a healthy disk. For
   journals that are chains they succeed exactly when the password is long enough
   and the same on both sides and the export is within both entry limits. Then
   every snapshot counts as imported and every address has its snapshots, its head
   and its listing back; otherwise the store stays empty.
   */
  method ExportThenImport(
      source: FsPrivateStateProvider, target: FsPrivateStateProvider, dirs: seq<Address>, out: ExportOptions,
      back: ImportOptions, clock: seq<nat>, io: seq<EntryIo>)
    returns (r: Result<ImportResult, StoreError>)
    requires source != target && target.journals == map[]
    requires Exportable(source.journals) && Listing(source.journals, dirs)
    requires forall a :: Head(JournalAt(source.journals, a).files).Ok?
    requires |clock| == |io| == ExportSize(source.journals, dirs) && Healthy(io)
    modifies target
    ensures var n := ExportSize(source.journals, dirs);
            && (r.Ok? <==> |out.password| >= MIN_PASSWORD_LEN && out.password == back.password
                           && n <= out.maxEntries && n <= back.maxEntries)
            && (r.Ok? ==> r.value == ImportResult(n, 0, 0))
    ensures r.Ok? ==> forall a ::
              && multiset(Bag(JournalAt(target.journals, a).files))
                 == multiset(Bag(JournalAt(source.journals, a).files))
              && Head(JournalAt(target.journals, a).files) == Head(JournalAt(source.journals, a).files)
              && TopoOrder(Bag(JournalAt(target.journals, a).files))
                 == TopoOrder(Bag(JournalAt(source.journals, a).files))
    ensures r.Err? ==> target.journals == map[]
  {
    hide Bag, Leaf, Exportable, TopoOrder, Acceptable, Commit, Targets, Collected;
    ghost var js := source.journals;
    var exported := ExportPrivateStates(source.journals, dirs, out);
    CollectedIsOk(js, dirs);
    if exported.Err? {
      return Err(exported.error);
    }
    ghost var entries := Collected(js, dirs, |dirs|).value;
    ExportImportRoundTrip(js, dirs, entries, back.conflict, clock, io);
    EverythingIsImported(entries, back.conflict, |entries|);
    r := ImportPrivateStates(target, exported.value, back, clock, io);
  }

  lemma CollectedIsOk(js: Journals, dirs: seq<Address>)
    requires Exportable(js) && Listing(js, dirs)
    ensures Collected(js, dirs, |dirs|).Ok?
  {
    CollectedPayload(js, dirs, |dirs|);
  }
}
