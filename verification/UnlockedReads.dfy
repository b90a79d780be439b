/**
 The head reads take no lock: they list the directory and then read file by file.
 When such a read finds the head, and a run in which it does not.
 */
module UnlockedReads {
  import opened Wrappers
  import opened Snapshots
  import opened FindLeaf
  import opened Directory
  import opened Journal
  import opened JournalLaws
  import opened CascadeLaws
  import opened Store
  import opened Interleaving

  /**
   What a reader sees that listed the directory and then read each file in its own
   time: the files that were still there when their turn came, as they were then.
   */
  ghost function Seen(s: State, steps: seq<Step>, a: Address, times: map<File, nat>): (view: Files)
    requires forall f :: f in times ==> times[f] <= |steps|
  {
    map f | f in times && f in FilesOf(Run(s, steps, times[f]), a) :: FilesOf(Run(s, steps, times[f]), a)[f]
  }

  /** The view holds some of the files, each with its hash and its parent. */
  ghost predicate PartOf(view: Files, files: Files) {
    forall f :: f in view ==>
      f in files && view[f].extrinsicHash == files[f].extrinsicHash && view[f].dependsOn == files[f].dependsOn
  }

  /** The view holds the parent of everything it holds. */
  ghost predicate ParentClosed(view: Files) {
    forall f :: f in view && view[f].dependsOn.Some? ==> OnDisk(view, view[f].dependsOn.value)
  }

  /** The file of each position of the chain. */
  ghost function FileAt(files: Files, chain: seq<Snapshot>, i: nat): (f: File)
    requires Holds(files, chain) && i < |chain|
    ensures f in files && files[f] == chain[i]
  {
    HoldsMembers(files, chain);
    assert chain[i] in chain;
    var f :| f in files && files[f] == chain[i];
    f
  }

  /** A parent-closed view that holds position `i` of the chain holds every position before it. */
  lemma {:induction false} ClosedHoldsFront(view: Files, files: Files, chain: seq<Snapshot>, i: nat, k: nat)
    requires Holds(files, chain) && PartOf(view, files) && ParentClosed(view)
    requires k <= i < |chain| && OnDisk(view, chain[i].extrinsicHash)
    ensures OnDisk(view, chain[k].extrinsicHash)
  {
    hide Holds;
    if k < i {
      HoldsIsChain(files, chain);
      var f :| f in view && view[f].extrinsicHash == chain[i].extrinsicHash;
      var m := PositionOf(files, chain, f);
      SameHashSamePosition(chain, m, i);
      LinkedParent(chain, i);
      ClosedHoldsFront(view, files, chain, i - 1, k);
    }
  }

  /** How many positions of the chain, from the front, the view holds. */
  ghost function Front(view: Files, chain: seq<Snapshot>, n: nat): (count: nat)
    requires n <= |chain|
    ensures count <= n
    ensures forall i :: 0 <= i < count ==> OnDisk(view, chain[i].extrinsicHash)
    ensures count < n ==> !OnDisk(view, chain[count].extrinsicHash)
  {
    if n == 0 then 0
    else
      var before := Front(view, chain, n - 1);
      if before == n - 1 && OnDisk(view, chain[n - 1].extrinsicHash) then n else before
  }

  /** The snapshot the view holds at a hash. */
  ghost function ViewAt(view: Files, h: Hash): (s: Snapshot)
    requires OnDisk(view, h)
    ensures s.extrinsicHash == h && exists f :: f in view && view[f] == s
  {
    var f :| f in view && view[f].extrinsicHash == h;
    view[f]
  }

  lemma PartHasOneFilePerHash(view: Files, files: Files)
    requires PartOf(view, files) && OneFilePerHash(files)
    ensures OneFilePerHash(view)
  {
  }

  /** A parent-closed part of a chain is the front of the chain. */
  lemma ClosedPartIsFront(view: Files, files: Files, chain: seq<Snapshot>) returns (front: seq<Snapshot>)
    requires Holds(files, chain) && PartOf(view, files) && ParentClosed(view)
    ensures Holds(view, front)
    ensures |front| <= |chain| && forall i :: 0 <= i < |front| ==> front[i].extrinsicHash == chain[i].extrinsicHash
  {
    hide Holds;
    var n := Front(view, chain, |chain|);
    front := seq(n, i requires 0 <= i < n => ViewAt(view, chain[i].extrinsicHash));
    HoldsMembers(files, chain);
    HoldsIsChain(files, chain);
    PartHasOneFilePerHash(view, files);
    FrontIsLinked(view, files, chain, front);
    forall s ensures s in front <==> exists f :: f in view && view[f] == s {
      if f :| f in view && view[f] == s {
        FileInFront(view, files, chain, front, f);
      }
    }
    HoldsByMembers(view, front);
  }

  lemma FrontIsLinked(view: Files, files: Files, chain: seq<Snapshot>, front: seq<Snapshot>)
    requires Holds(files, chain) && PartOf(view, files) && |front| <= |chain|
    requires forall i :: 0 <= i < |front| ==>
               front[i].extrinsicHash == chain[i].extrinsicHash && exists f :: f in view && view[f] == front[i]
    ensures Chain(front)
  {
    hide Holds;
    HoldsIsChain(files, chain);
    forall i | 0 <= i < |front| ensures front[i].dependsOn == chain[i].dependsOn {
      var f :| f in view && view[f] == front[i];
      var m := PositionOf(files, chain, f);
      SameHashSamePosition(chain, m, i);
    }
    forall i, j | 0 <= i && j == i + 1 < |front| ensures front[j].dependsOn == Some(front[i].extrinsicHash) {
      LinkedParent(chain, j);
    }
    forall i, j | 0 <= i < j < |front| ensures Hashes(front)[i] != Hashes(front)[j] {
      assert Hashes(chain)[i] != Hashes(chain)[j];
    }
  }

  lemma FileInFront(view: Files, files: Files, chain: seq<Snapshot>, front: seq<Snapshot>, f: File)
    requires Holds(files, chain) && PartOf(view, files) && ParentClosed(view) && f in view
    requires |front| == Front(view, chain, |chain|)
    requires forall i :: 0 <= i < |front| ==>
               front[i].extrinsicHash == chain[i].extrinsicHash && exists g :: g in view && view[g] == front[i]
    ensures view[f] in front
  {
    hide Holds;
    HoldsMembers(files, chain);
    var m := PositionOf(files, chain, f);
    if m >= |front| {
      ClosedHoldsFront(view, files, chain, m, |front|);
    }
    var g :| g in view && view[g] == front[m];
    assert files[g].extrinsicHash == files[f].extrinsicHash;
  }

  /**
   A read that is torn finds a head, or an empty journal, exactly when it holds the
   parent of every snapshot it holds: it missed no file whose child it read.
   */
  lemma TornReadFindsHead(view: Files, files: Files, chain: seq<Snapshot>)
    requires Holds(files, chain) && PartOf(view, files)
    ensures Head(view).Ok? <==> ParentClosed(view)
  {
    hide Holds, Leaf;
    if ParentClosed(view) {
      var front := ClosedPartIsFront(view, files, chain);
      HeadOfChain(view, front);
    }
    if Head(view).Ok? {
      var whole := ChainOfHead(view);
      HoldsIsChain(view, whole);
      HoldsMembers(view, whole);
      forall f | f in view && view[f].dependsOn.Some? ensures OnDisk(view, view[f].dependsOn.value) {
        var m := PositionOf(view, whole, f);
        LinkedParent(whole, m);
        assert whole[m - 1] in whole;
      }
    }
  }

  /** While nothing is removed, every file of an earlier state stays, with its hash and its parent. */
  lemma {:induction false} FilesStayUnremoved(s: State, steps: seq<Step>, m: nat, n: nat, a: Address)
    requires Start(s) && m <= n <= |steps|
    requires NoneRemovedSince(Run(s, steps, n).log, |Run(s, steps, m).log|, a)
    ensures FilesStay(FilesOf(Run(s, steps, m), a), FilesOf(Run(s, steps, n), a))
  {
    hide Run, HasLink, LeafIs, OnDisk, FilesOf;
    if m < n {
      var events := StepFollows(s, steps, n - 1, a);
      LogPrefix(s, steps, m, n - 1);
      var before, now, from := Run(s, steps, n - 1), Run(s, steps, n), |Run(s, steps, m).log|;
      forall k | from <= k < |before.log| ensures !(before.log[k].Removed? && before.log[k].address == a) {
        assert now.log[k] == before.log[k];
      }
      FilesStayUnremoved(s, steps, m, n - 1, a);
      if events != [] && events[0].address == a {
        assert now.log[|before.log|] == events[0];
      }
    }
  }

  /**
   A reader without the lock that lists the directory at step `m` and reads its
   files one by one up to step `n`, while nothing of the address is removed, finds
   the leaf there was when it listed, whatever lands or is confirmed meanwhile.
   */
  lemma UnlockedReadFindsLeaf(
      s: State, steps: seq<Step>, m: nat, n: nat, a: Address, times: map<File, nat>, d: Option<Hash>)
    requires Start(s) && m <= n <= |steps|
    requires times.Keys == FilesOf(Run(s, steps, m), a).Keys
    requires forall f :: f in times ==> m <= times[f] <= n
    requires NoneRemovedSince(Run(s, steps, n).log, |Run(s, steps, m).log|, a)
    requires LeafIs(FilesOf(Run(s, steps, m), a), d)
    ensures LeafIs(Seen(s, steps, a, times), d)
  {
    hide Run, LeafIs, FilesOf, Start, NoneRemovedSince;
    var files, view := FilesOf(Run(s, steps, m), a), Seen(s, steps, a, times);
    forall f | f in times
      ensures f in view && view[f].extrinsicHash == files[f].extrinsicHash && view[f].dependsOn == files[f].dependsOn
    {
      SeenStays(s, steps, m, n, times[f], a);
    }
    SameLinksLeaf(files, view, d);
  }

  lemma SeenStays(s: State, steps: seq<Step>, m: nat, n: nat, t: nat, a: Address)
    requires Start(s) && m <= t <= n <= |steps|
    requires NoneRemovedSince(Run(s, steps, n).log, |Run(s, steps, m).log|, a)
    ensures FilesStay(FilesOf(Run(s, steps, m), a), FilesOf(Run(s, steps, t), a))
  {
    hide Run, FilesOf;
    LogPrefix(s, steps, t, n);
    LogPrefix(s, steps, m, t);
    forall k | |Run(s, steps, m).log| <= k < |Run(s, steps, t).log|
      ensures !(Run(s, steps, t).log[k].Removed? && Run(s, steps, t).log[k].address == a)
    {
      assert Run(s, steps, n).log[k] == Run(s, steps, t).log[k];
    }
    FilesStayUnremoved(s, steps, m, t, a);
  }

  // ---------------------------------------------------------------------------
  // Reads during removals
  // ---------------------------------------------------------------------------

  /** A listed file that is gone at one step of the read stays gone: no name is written twice meanwhile. */
  ghost predicate NamesNotReused(s: State, steps: seq<Step>, m: nat, n: nat, a: Address)
    requires m <= n <= |steps|
  {
    forall f, t, u | m <= t <= u <= n && f in FilesOf(Run(s, steps, m), a) && f !in FilesOf(Run(s, steps, t), a)
      :: f !in FilesOf(Run(s, steps, u), a)
  }

  /** A file that one step takes away is all that the step changes. */
  lemma StepGone(s: State, steps: seq<Step>, t: nat, a: Address, f: File)
    requires Start(s) && t < |steps|
    requires f in FilesOf(Run(s, steps, t), a) && f !in FilesOf(Run(s, steps, t + 1), a)
    ensures FilesOf(Run(s, steps, t + 1), a) == FilesOf(Run(s, steps, t), a) - {f}
  {
    hide Run, HasLink, LeafIs, OnDisk, FilesOf, Start;
    var events := StepFollows(s, steps, t, a);
    var before, after := FilesOf(Run(s, steps, t), a), FilesOf(Run(s, steps, t + 1), a);
    var g :| after == Less(before, g);
  }

  /** A file that one step leaves keeps its hash and its parent. */
  lemma StepLeaves(s: State, steps: seq<Step>, t: nat, a: Address, f: File)
    requires Start(s) && t < |steps|
    requires f in FilesOf(Run(s, steps, t), a) && f in FilesOf(Run(s, steps, t + 1), a)
    ensures var before, after := FilesOf(Run(s, steps, t), a)[f], FilesOf(Run(s, steps, t + 1), a)[f];
            after.extrinsicHash == before.extrinsicHash && after.dependsOn == before.dependsOn
  {
    hide Run, HasLink, LeafIs, OnDisk, FilesOf, Start;
    var events := StepFollows(s, steps, t, a);
    var before, after := FilesOf(Run(s, steps, t), a), FilesOf(Run(s, steps, t + 1), a);
    if events != [] && events[0].address == a && events[0].Removed? {
      var g :| after == Less(before, g);
    }
  }

  /** A listed file that is still there is the snapshot that was listed, up to its status and block. */
  lemma {:induction false} StillAsListed(
      s: State, steps: seq<Step>, m: nat, t: nat, n: nat, a: Address, f: File)
    requires Start(s) && m <= t <= n <= |steps| && NamesNotReused(s, steps, m, n, a)
    requires f in FilesOf(Run(s, steps, m), a) && f in FilesOf(Run(s, steps, t), a)
    ensures var listed, now := FilesOf(Run(s, steps, m), a)[f], FilesOf(Run(s, steps, t), a)[f];
            now.extrinsicHash == listed.extrinsicHash && now.dependsOn == listed.dependsOn
    decreases t - m
  {
    hide Run, FilesOf, Start;
    if m < t {
      assert f in FilesOf(Run(s, steps, t - 1), a);
      StillAsListed(s, steps, m, t - 1, n, a, f);
      StepLeaves(s, steps, t - 1, a, f);
    }
  }

  /** The step at which a listed file went. */
  lemma {:induction false} GoneAt(s: State, steps: seq<Step>, m: nat, t: nat, a: Address, f: File) returns (u: nat)
    requires m <= t <= |steps|
    requires f in FilesOf(Run(s, steps, m), a) && f !in FilesOf(Run(s, steps, t), a)
    ensures m <= u < t && f in FilesOf(Run(s, steps, u), a) && f !in FilesOf(Run(s, steps, u + 1), a)
    decreases t - m
  {
    hide Run, FilesOf;
    if f in FilesOf(Run(s, steps, t - 1), a) {
      u := t - 1;
    } else {
      u := GoneAt(s, steps, m, t - 1, a, f);
    }
  }

  /** Between two chains that differ in one file, that file was the leaf, and its parent is the leaf now. */
  lemma RemovalExposesParent(before: Files, after: Files, f: File)
    requires WellFormed(before) && WellFormed(after) && f in before && after == before - {f}
    ensures LeafIs(after, before[f].dependsOn)
  {
    hide Holds, LeafIs, NamedByHash;
    var chain :| Holds(before, chain);
    var rest :| Holds(after, rest);
    hide WellFormed, DistinctHashes;
    var q := PositionOf(before, chain, f);
    HoldsMembers(before, chain);
    HoldsMembers(after, rest);
    HoldsIsChain(before, chain);
    HoldsIsChain(after, rest);
    RemovedIsLast(before, after, f, chain, rest, q);
    LinkedParent(chain, q);
    ChainPrefix(chain, q);
    forall s ensures s in chain[..q] <==> exists g :: g in after && after[g] == s {
      PrefixFiles(before, after, f, chain, q, s);
    }
    HoldsByMembers(after, chain[..q]);
    FrontLeaf(after, chain[..q]);
  }

  lemma RemovedIsLast(
      before: Files, after: Files, f: File, chain: seq<Snapshot>, rest: seq<Snapshot>, q: nat)
    requires Holds(before, chain) && Holds(after, rest) && f in before && after == before - {f}
    requires q < |chain| && chain[q] == before[f]
    ensures q == |chain| - 1
  {
    hide Holds;
    HoldsMembers(before, chain);
    HoldsMembers(after, rest);
    HoldsIsChain(before, chain);
    HoldsIsChain(after, rest);
    if q < |chain| - 1 {
      var g := FileAt(before, chain, q + 1);
      assert Hashes(chain)[q] != Hashes(chain)[q + 1];
      LinkedParent(chain, q + 1);
      var i := PositionOf(after, rest, g);
      LinkedParent(rest, i);
      var parent := FileAt(after, rest, i - 1);
    }
  }

  lemma PrefixFiles(before: Files, after: Files, f: File, chain: seq<Snapshot>, q: nat, s: Snapshot)
    requires Holds(before, chain) && f in before && after == before - {f}
    requires q == |chain| - 1 && chain[q] == before[f]
    ensures s in chain[..q] <==> exists g :: g in after && after[g] == s
  {
    hide Holds;
    HoldsMembers(before, chain);
    HoldsIsChain(before, chain);
    if s in chain[..q] {
      var i :| 0 <= i < q && chain[..q][i] == s;
      var g := FileAt(before, chain, i);
      assert Hashes(chain)[i] != Hashes(chain)[q];
      assert g in after && after[g] == s;
    }
    if g :| g in after && after[g] == s {
      var i := PositionOf(before, chain, g);
      assert i != q;
      assert chain[..q][i] == s;
    }
  }

  /** What a reader sees, whatever is removed meanwhile, is part of what it listed. */
  lemma SeenIsPart(s: State, steps: seq<Step>, m: nat, n: nat, a: Address, times: map<File, nat>)
    requires Start(s) && m <= n <= |steps| && NamesNotReused(s, steps, m, n, a)
    requires times.Keys == FilesOf(Run(s, steps, m), a).Keys
    requires forall f :: f in times ==> m <= times[f] <= n
    ensures PartOf(Seen(s, steps, a, times), FilesOf(Run(s, steps, m), a))
  {
    hide Run, FilesOf, Start, NamesNotReused;
    var view := Seen(s, steps, a, times);
    forall f | f in view
      ensures f in FilesOf(Run(s, steps, m), a)
              && view[f].extrinsicHash == FilesOf(Run(s, steps, m), a)[f].extrinsicHash
              && view[f].dependsOn == FilesOf(Run(s, steps, m), a)[f].dependsOn
    {
      assert f in times.Keys;
      StillAsListed(s, steps, m, times[f], n, a, f);
    }
  }

  /**
   A head that a reader without the lock finds, whatever is removed while it reads,
   was the leaf of the journal at some moment of the read.
   */
  lemma FoundHeadWasLeaf(s: State, steps: seq<Step>, m: nat, n: nat, a: Address, times: map<File, nat>)
    returns (t: nat)
    requires Start(s) && m <= n <= |steps| && NamesNotReused(s, steps, m, n, a)
    requires times.Keys == FilesOf(Run(s, steps, m), a).Keys
    requires forall f :: f in times ==> m <= times[f] <= n
    requires Head(Seen(s, steps, a, times)).Ok?
    ensures m <= t <= n
    ensures LeafIs(FilesOf(Run(s, steps, t), a), HashOf(Head(Seen(s, steps, a, times)).value))
  {
    hide Run, FilesOf, Start, NamesNotReused, Holds, LeafIs, Leaf, WellFormed, Seen;
    var files, view := FilesOf(Run(s, steps, m), a), Seen(s, steps, a, times);
    SeenIsPart(s, steps, m, n, a, times);
    var chain := ChainHere(s, steps, m, a);
    TornReadFindsHead(view, files, chain);
    var front := ClosedPartIsFront(view, files, chain);
    HeadOfChain(view, front);
    HoldsIsChain(files, chain);
    if |front| == |chain| {
      t := m;
      FrontLeaf(files, chain);
    } else {
      var p := |front|;
      var g := FileAt(files, chain, p);
      MissingFromFront(view, files, chain, front, g);
      UnseenIsGone(s, steps, a, times, g);
      var u := GoneAt(s, steps, m, times[g], a, g);
      StillAsListed(s, steps, m, u, n, a, g);
      StepGone(s, steps, u, a, g);
      WellFormedHere(s, steps, u, a);
      WellFormedHere(s, steps, u + 1, a);
      RemovalExposesParent(FilesOf(Run(s, steps, u), a), FilesOf(Run(s, steps, u + 1), a), g);
      LinkedParent(chain, p);
      t := u + 1;
    }
  }

  lemma WellFormedHere(s: State, steps: seq<Step>, t: nat, a: Address)
    requires Start(s) && t <= |steps|
    ensures WellFormed(FilesOf(Run(s, steps, t), a))
  {
    hide Run, WellFormed;
    RunKeepsInvariant(s, steps, t);
  }

  lemma ChainHere(s: State, steps: seq<Step>, t: nat, a: Address) returns (chain: seq<Snapshot>)
    requires Start(s) && t <= |steps|
    ensures Holds(FilesOf(Run(s, steps, t), a), chain)
  {
    hide Run, Holds;
    WellFormedHere(s, steps, t, a);
    chain :| Holds(FilesOf(Run(s, steps, t), a), chain);
  }

  lemma UnseenIsGone(s: State, steps: seq<Step>, a: Address, times: map<File, nat>, g: File)
    requires forall f :: f in times ==> times[f] <= |steps|
    requires g in times && g !in Seen(s, steps, a, times)
    ensures g !in FilesOf(Run(s, steps, times[g]), a)
  {
  }

  /** The file of the first position that the front of a view lacks is not in the view. */
  lemma MissingFromFront(view: Files, files: Files, chain: seq<Snapshot>, front: seq<Snapshot>, g: File)
    requires Holds(files, chain) && Holds(view, front) && |front| < |chain|
    requires forall i :: 0 <= i < |front| ==> front[i].extrinsicHash == chain[i].extrinsicHash
    requires PartOf(view, files) && g in files && files[g] == chain[|front|]
    ensures g !in view
  {
    hide Holds;
    HoldsIsChain(files, chain);
    forall i | 0 <= i < |front| ensures front[i].extrinsicHash != chain[|front|].extrinsicHash {
      assert Hashes(chain)[i] != Hashes(chain)[|front|];
    }
    if g in view {
      var i := PositionOf(view, front, g);
    }
  }

  /** The same files with the same hashes and parents have the same leaf. */
  lemma SameLinksLeaf(files: Files, view: Files, d: Option<Hash>)
    requires LeafIs(files, d) && view.Keys == files.Keys && PartOf(view, files)
    ensures LeafIs(view, d)
  {
    hide Holds, LeafIs;
    var chain := LeafChain(files, d);
    HoldsMembers(files, chain);
    HoldsIsChain(files, chain);
    forall f | f in view && view[f].dependsOn.Some? ensures OnDisk(view, view[f].dependsOn.value) {
      var m := PositionOf(files, chain, f);
      LinkedParent(chain, m);
      var g := FileAt(files, chain, m - 1);
      assert view[g].extrinsicHash == view[f].dependsOn.value;
    }
    var front := ClosedPartIsFront(view, files, chain);
    HoldsMembers(view, front);
    FrontLeaf(view, front);
  }

  lemma FrontLeaf(view: Files, front: seq<Snapshot>)
    requires Holds(view, front)
    ensures LeafIs(view, LastHash(front))
  {
    hide Holds, Leaf;
    HeadOfChain(view, front);
  }

  /** A view that holds a snapshot and has missed its parent's file has no head. */
  lemma MissedParentLosesHead(view: Files, files: Files, chain: seq<Snapshot>, child: File, parent: File)
    requires Holds(files, chain) && PartOf(view, files)
    requires child in view && parent in files && parent !in view
    requires files[child].dependsOn == Some(files[parent].extrinsicHash)
    ensures Head(view).Err?
  {
    hide Holds, Leaf;
    HoldsMembers(files, chain);
    forall g | g in view ensures view[g].extrinsicHash != files[parent].extrinsicHash {
      assert g in files && g != parent;
    }
    TornReadFindsHead(view, files, chain);
  }

  /** A drop of the last two snapshots of a journal, by one client, as five steps. */
  function DropSteps(c: Client, a: Address, start: Hash): (steps: seq<Step>) {
    var done := StepIo(Written, true, 0);
    [Begin(c, DropCall(a, start)), Acquire(c), Work(c, done), Work(c, done), Work(c, done)]
  }

  /** Inside a cascade: one more removal. */
  lemma WorkDrops(s: State, c: Client, a: Address, start: Hash, base: Files, left: nat)
    requires PhaseOf(s, c) == Inside(DropCall(a, start), Dropping(base, left))
    requires WellFormed(base) && OnDisk(base, start) && 0 < left <= |Doomed(base, start)|
    requires FilesOf(s, a) == AfterRemovals(base, start, |Doomed(base, start)| - left)
    ensures var t := Next(s, Work(c, StepIo(Written, true, 0)));
            && PhaseOf(t, c) == Inside(DropCall(a, start), Dropping(base, left - 1))
            && FilesOf(t, a) == AfterRemovals(base, start, |Doomed(base, start)| - (left - 1))
  {
    hide WellFormed, OnDisk, Doomed, AfterRemovals, DropEffect;
    DropStep(DropCall(a, start), base, left, JournalAt(s.journals, a), StepIo(Written, true, 0));
  }

  /** The five steps cut the last two snapshots off. */
  lemma DropStepsCut(s: State, c: Client, a: Address, chain: seq<Snapshot>)
    requires Start(s) && Holds(FilesOf(s, a), chain) && |chain| >= 2
    ensures var steps := DropSteps(c, a, chain[|chain| - 2].extrinsicHash);
            Holds(FilesOf(Run(s, steps, 5), a), chain[..|chain| - 2])
  {
    hide Run, Next, WellFormed, OnDisk, Doomed, AfterRemovals, Holds, FindPath;
    var k := |chain| - 2;
    var start := chain[k].extrinsicHash;
    var files, steps := FilesOf(s, a), DropSteps(c, a, start);
    assert WellFormed(files);
    HoldsMembers(files, chain);
    assert chain[k] in chain;
    OnDiskHashes(files);
    FileOnDisk(files, FileAt(files, chain, k));
    DropStarts(files, start);
    CascadeOnChain(files, chain, k, 2);
    DropEnters(s, c, a, start);
    RunStep(s, steps, 3);
    WorkDrops(Run(s, steps, 3), c, a, start, files, 2);
    RunStep(s, steps, 4);
    WorkDrops(Run(s, steps, 4), c, a, start, files, 1);
  }

  lemma DropEnters(s: State, c: Client, a: Address, start: Hash)
    requires Start(s) && FindPath(FilesOf(s, a), start).Some?
    ensures var t := Run(s, DropSteps(c, a, start), 3);
            && PhaseOf(t, c)
               == Inside(DropCall(a, start), Dropping(FilesOf(s, a), |Doomed(FilesOf(s, a), start)|))
            && FilesOf(t, a) == FilesOf(s, a)
  {
    hide WellFormed, FindPath, Doomed, Run;
    var steps := DropSteps(c, a, start);
    RunStart(s, steps);
    RunStep(s, steps, 0);
    RunStep(s, steps, 1);
    RunStep(s, steps, 2);
  }

  /** The times of a reader that reads every file at once and one file at the end. */
  ghost function LateFor(files: Files, late: File, n: nat): (times: map<File, nat>) {
    map f | f in files :: if f == late then n else 0
  }

  /** Such a reader sees all but the late file, as they were at the start. */
  lemma SeenWithoutLate(s: State, steps: seq<Step>, a: Address, late: File, n: nat)
    requires n <= |steps| && late !in FilesOf(Run(s, steps, n), a)
    ensures Seen(s, steps, a, LateFor(FilesOf(s, a), late, n)) == FilesOf(s, a) - {late}
  {
    hide Run, FilesOf;
    RunStart(s, steps);
  }

  /**
   On every journal of two or more snapshots a read without the lock can fail: one
   client drops the last two, and a reader that began before sees the last snapshot
   without its parent.
   */
  lemma UnlockedReadCanFail(s: State, c: Client, a: Address, chain: seq<Snapshot>)
    requires Start(s) && Holds(FilesOf(s, a), chain) && |chain| >= 2
    ensures var steps := DropSteps(c, a, chain[|chain| - 2].extrinsicHash);
            var times := LateFor(FilesOf(s, a), FileAt(FilesOf(s, a), chain, |chain| - 2), 5);
            && times.Keys == FilesOf(s, a).Keys
            && Head(FilesOf(s, a)).Ok? && Head(Seen(s, steps, a, times)).Err?
  {
    hide Run, FilesOf, Holds, Leaf, Start;
    var last := |chain| - 1;
    var steps, files := DropSteps(c, a, chain[last - 1].extrinsicHash), FilesOf(s, a);
    var child, parent := FileAt(files, chain, last), FileAt(files, chain, last - 1);
    var times := LateFor(files, parent, 5);
    var view := Seen(s, steps, a, times);
    DropStepsCut(s, c, a, chain);
    assert chain[..last - 1] == chain[..|chain| - 2];
    HeadOfChain(files, chain);
    HoldsIsChain(files, chain);
    assert Hashes(chain)[last - 1] != Hashes(chain)[last];
    LinkedParent(chain, last);
    CutFileIsGone(s, steps, 5, a, chain, last - 1);
    SeenWithoutLate(s, steps, a, parent, 5);
    MissedParentLosesHead(view, files, chain, child, parent);
  }

  /** A file named by its hash is gone once that hash is cut off. */
  lemma CutFileIsGone(s: State, steps: seq<Step>, n: nat, a: Address, chain: seq<Snapshot>, k: nat)
    requires Start(s) && n <= |steps| && Holds(FilesOf(s, a), chain) && k < |chain|
    requires Holds(FilesOf(Run(s, steps, n), a), chain[..k])
    ensures FileAt(FilesOf(s, a), chain, k) !in FilesOf(Run(s, steps, n), a)
  {
    hide Run, Holds, OnDisk;
    var before, after := FilesOf(s, a), FilesOf(Run(s, steps, n), a);
    RunKeepsInvariant(s, steps, n);
    assert WellFormed(before) && WellFormed(after);
    HoldsIsChain(before, chain);
    CutOffIsGone(after, chain, k, k);
    var f := FileAt(before, chain, k);
    if f in after {
      FileOnDisk(after, f);
    }
  }
}
