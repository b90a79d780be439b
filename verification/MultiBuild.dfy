/**
 Many builds on one wallet. Each selects its inputs and reserves them in one
 hold of the wallet; entries leave by confirmation, by a release that names
 input and stamp, and by TTL. No two transactions that can still land hold the
 same input.
 */
module MultiBuild {
  import opened Orders
  import opened Inputs

  /** One reserved entry: the Dust spends of one batch, or one UTXO, or one coin. */
  datatype Entry = Entry(inputs: seq<Input>, reservedAt: nat, expiresAt: nat)

  predicate WithinTtl(expiresAt: nat, now: nat) {
    expiresAt >= now
  }

  predicate Spends(e: Entry, input: Input) {
    input in e.inputs
  }

  /** A release names the entry: one of its inputs, with its stamp. */
  predicate Named(e: Entry, names: seq<ReservedInput>) {
    exists i :: 0 <= i < |names| && names[i].reservedAt == e.reservedAt && Spends(e, names[i].input)
  }

  /** The spends a sync observed meet the entry; a shielded coin's spend is not among them. */
  predicate Confirmed(e: Entry, observed: seq<Input>) {
    exists i :: 0 <= i < |observed| && !observed[i].Coin? && Spends(e, observed[i])
  }

  function Released(entries: seq<Entry>, names: seq<ReservedInput>): (r: seq<Entry>) {
    Filter(entries, (e: Entry) => !Named(e, names))
  }

  function Cleared(entries: seq<Entry>, observed: seq<Input>): (r: seq<Entry>) {
    Filter(entries, (e: Entry) => !Confirmed(e, observed))
  }

  function Evicted(entries: seq<Entry>, now: nat): (r: seq<Entry>) {
    Filter(entries, (e: Entry) => WithinTtl(e.expiresAt, now))
  }

  class PendingReservations {
    var entries: seq<Entry>

    constructor ()
      ensures entries == []
    {
      entries := [];
    }

    method Reserve(batches: seq<seq<Input>>, reservedAt: nat, expiresAt: nat)
      modifies this
      ensures |entries| == |old(entries)| + |batches| && entries[..|old(entries)|] == old(entries)
      ensures forall i :: 0 <= i < |batches| ==> entries[|old(entries)| + i] == Entry(batches[i], reservedAt, expiresAt)
    {
      for i := 0 to |batches|
        invariant |entries| == |old(entries)| + i && entries[..|old(entries)|] == old(entries)
        invariant forall k :: 0 <= k < i ==> entries[|old(entries)| + k] == Entry(batches[k], reservedAt, expiresAt)
      {
        entries := entries + [Entry(batches[i], reservedAt, expiresAt)];
      }
    }

    /** Entries that spend an observed input go, every other stays, in order. */
    method ClearConfirmed(observed: seq<Input>) returns (removed: bool)
      modifies this
      ensures entries == Cleared(old(entries), observed)
      ensures Subsequence(entries, old(entries))
      ensures forall e :: multiset(entries)[e] == if Confirmed(e, observed) then 0 else multiset(old(entries))[e]
      ensures forall e :: e in entries <==>
                e in old(entries) && !exists input :: input in observed && !input.Coin? && input in e.inputs
      ensures removed <==> exists e :: e in old(entries) && Confirmed(e, observed)
    {
      var keep := (e: Entry) => !Confirmed(e, observed);
      Kept(entries, keep);
      FilterShrinks(entries, keep);
      ConfirmedBySpend(observed);
      removed := |Cleared(entries, observed)| != |entries|;
      entries := Cleared(entries, observed);
    }

    /**
     An entry stays, in its place, exactly when no name has both one of its inputs
     and its stamp.
     */
    method Release(names: seq<ReservedInput>)
      modifies this
      ensures entries == Released(old(entries), names)
      ensures Subsequence(entries, old(entries))
      ensures forall e :: multiset(entries)[e]
                          == if exists r :: r in names && r.input in e.inputs && r.reservedAt == e.reservedAt then 0
                             else multiset(old(entries))[e]
    {
      Kept(entries, (e: Entry) => !Named(e, names));
      NamedByAName(names);
      entries := Released(entries, names);
    }

    /** An entry stays, in its place, exactly until the chain time has passed its TTL. */
    method EvictExpired(now: nat)
      modifies this
      ensures entries == Evicted(old(entries), now)
      ensures Subsequence(entries, old(entries))
      ensures forall e :: multiset(entries)[e] == if e.expiresAt < now then 0 else multiset(old(entries))[e]
    {
      Kept(entries, (e: Entry) => WithinTtl(e.expiresAt, now));
      entries := Evicted(entries, now);
    }
  }

  /** What `retain` keeps: a subsequence, with every kept element as often as before. */
  lemma Kept(s: seq<Entry>, keep: Entry -> bool)
    ensures Subsequence(Filter(s, keep), s)
    ensures forall e :: multiset(Filter(s, keep))[e] == if keep(e) then multiset(s)[e] else 0
    ensures forall e :: e in Filter(s, keep) <==> e in s && keep(e)
  {
    FilterSubsequence(s, keep);
    FilterMembers(s, keep);
    forall e ensures multiset(Filter(s, keep))[e] == if keep(e) then multiset(s)[e] else 0 {
      FilterCount(s, keep, e);
    }
  }

  lemma ConfirmedBySpend(observed: seq<Input>)
    ensures forall e: Entry :: Confirmed(e, observed) <==>
              exists input :: input in observed && !input.Coin? && input in e.inputs
  {
    forall e: Entry
      ensures Confirmed(e, observed) <==> exists input :: input in observed && !input.Coin? && input in e.inputs
    {
      if input :| input in observed && !input.Coin? && input in e.inputs {
        var i :| 0 <= i < |observed| && observed[i] == input;
        assert Spends(e, observed[i]);
      }
    }
  }

  lemma NamedByAName(names: seq<ReservedInput>)
    ensures forall e: Entry :: Named(e, names) <==>
              exists r :: r in names && r.input in e.inputs && r.reservedAt == e.reservedAt
  {
    forall e: Entry
      ensures Named(e, names) <==> exists r :: r in names && r.input in e.inputs && r.reservedAt == e.reservedAt
    {
      if r :| r in names && r.input in e.inputs && r.reservedAt == e.reservedAt {
        var i :| 0 <= i < |names| && names[i] == r;
        assert Spends(e, names[i].input);
      }
    }
  }

  /** A filter that drops an element is shorter, and one that drops none is the whole. */
  lemma {:induction false} FilterShrinks<T(!new)>(s: seq<T>, keep: T -> bool)
    ensures |Filter(s, keep)| <= |s|
    ensures |Filter(s, keep)| == |s| <==> forall x :: x in s ==> keep(x)
  {
    if s != [] {
      FilterShrinks(s[1..], keep);
      assert s == [s[0]] + s[1..];
    }
  }

  // ---------------------------------------------------------------------------
  // The system: one wallet, its builds, and the chain
  // ---------------------------------------------------------------------------

  /** A build: what it reserved, the TTL of its transaction, and whether it is dead or handed back. */
  datatype Build = Build(entries: seq<Entry>, ttl: nat, dead: bool, released: bool)

  datatype State = State(
    now: nat,                 // the chain time the wallet has synced to
    seen: set<Input>,         // the spends it has seen
    pending: seq<Entry>,
    builds: seq<Build>,
    chainTime: nat,
    chainSpent: set<Input>)

  datatype Step =
    | Begin(ttl: nat)
    | Reserve(build: nat, inputs: seq<Input>, stamp: nat, expiresAt: nat)
    | Die(build: nat)
    | HandBack(build: nat)
    | NewBlock(time: nat, spends: set<Input>)
    | Sync(observed: seq<Input>)
    | Evict

  ghost predicate Holds(b: Build, input: Input) {
    exists e :: e in b.entries && Spends(e, input)
  }

  /** The transaction can still be included: not dead, within its TTL, no input spent. */
  ghost predicate CanLand(s: State, b: Build) {
    && !b.dead
    && s.chainTime <= b.ttl
    && forall input :: Holds(b, input) ==> input !in s.chainSpent
  }

  ghost predicate Reserved(entries: seq<Entry>, input: Input) {
    exists e :: e in entries && Spends(e, input)
  }

  /** The names a build's result carries for its release: each of its inputs with its own stamp. */
  ghost predicate NamesOf(b: Build, names: seq<ReservedInput>) {
    forall r: ReservedInput :: r in names <==>
      exists e :: e in b.entries && r.reservedAt == e.reservedAt && Spends(e, r.input)
  }

  /** Entries that share an input and a stamp. */
  ghost predicate Clash(e: Entry, f: Entry) {
    e.reservedAt == f.reservedAt && exists input :: Spends(e, input) && Spends(f, input)
  }

  /** What a release of `b` takes out: every entry that clashes with one of its own. */
  ghost predicate TakenBy(b: Build, e: Entry) {
    exists f :: f in b.entries && Clash(e, f)
  }

  /**
   The step is one the system takes. A selection avoids what is reserved, in the
   same hold that reserves it. Its stamp is the Dust anchor of the build's context:
   any time up to a second past the wallet's chain time, where a Dust event of the
   latest block puts it. Only an anchor that is new with the latest block is known
   to come with a view of what the wallet has seen spent. The entries outlive the
   transaction. A hand-back is for a dead build, and at most once. Block time moves
   forward.
   */
  ghost predicate Enabled(s: State, step: Step) {
    match step
    case Begin(_) => true
    case Reserve(b, inputs, stamp, expiresAt) =>
      && b < |s.builds| && !s.builds[b].dead && !s.builds[b].released
      && stamp <= s.now + 1
      && expiresAt >= stamp && expiresAt >= s.builds[b].ttl
      && inputs != []
      && forall input :: input in inputs ==> !Reserved(s.pending, input) && (stamp == s.now + 1 ==> input !in s.seen)
    case Die(b) => b < |s.builds|
    case HandBack(b) => b < |s.builds| && s.builds[b].dead && !s.builds[b].released
    case NewBlock(time, _) => time > s.chainTime
    case Sync(observed) => forall input :: input in observed ==> input in s.chainSpent - s.seen
    case Evict => true
  }

  /**
   No other build that may still be handed back has an entry with this stamp and
   one of these inputs. The wallet could check it when it reserves.
   */
  ghost predicate Unclaimed(s: State, step: Step)
    requires step.Reserve?
  {
    forall c, f |
      0 <= c < |s.builds| && c != step.build && !s.builds[c].released && f in s.builds[c].entries
      :: !Clash(NewEntry(step), f)
  }

  ghost function NewEntry(step: Step): (e: Entry)
    requires step.Reserve?
  {
    Entry(step.inputs, step.stamp, step.expiresAt)
  }

  ghost predicate Guarded(s: State, step: Step) {
    Enabled(s, step) && (step.Reserve? ==> Unclaimed(s, step))
  }

  ghost function Next(s: State, step: Step): (t: State)
    requires Enabled(s, step)
  {
    match step
    case Begin(ttl) => s.(builds := s.builds + [Build([], ttl, false, false)])
    case Reserve(b, inputs, stamp, expiresAt) =>
      var e := Entry(inputs, stamp, expiresAt);
      s.(pending := s.pending + [e], builds := s.builds[b := s.builds[b].(entries := s.builds[b].entries + [e])])
    case Die(b) => s.(builds := s.builds[b := s.builds[b].(dead := true)])
    case HandBack(b) =>
      s.(pending := Filter(s.pending, (e: Entry) => !TakenBy(s.builds[b], e)),
         builds := s.builds[b := s.builds[b].(released := true)])
    case NewBlock(time, spends) => s.(chainTime := time, chainSpent := s.chainSpent + spends)
    case Sync(observed) =>
      s.(now := s.chainTime, seen := s.chainSpent,
         pending := Evicted(Cleared(s.pending, observed), s.chainTime))
    case Evict => s.(pending := Evicted(s.pending, s.now))
  }

  /** The release of a build, by its names, is the filter of the step. */
  lemma ReleaseIsHandBack(entries: seq<Entry>, b: Build, names: seq<ReservedInput>)
    requires NamesOf(b, names)
    ensures Released(entries, names) == Filter(entries, (e: Entry) => !TakenBy(b, e))
  {
    forall e: Entry ensures Named(e, names) <==> TakenBy(b, e) {
      if Named(e, names) {
        var i :| 0 <= i < |names| && names[i].reservedAt == e.reservedAt && Spends(e, names[i].input);
        assert names[i] in names;
        var f :| f in b.entries && names[i].reservedAt == f.reservedAt && Spends(f, names[i].input);
        assert Clash(e, f);
      }
      if TakenBy(b, e) {
        var f :| f in b.entries && Clash(e, f);
        var input :| Spends(e, input) && Spends(f, input);
        assert ReservedInput(input, e.reservedAt) in names;
        var i :| 0 <= i < |names| && names[i] == ReservedInput(input, e.reservedAt);
      }
    }
    FilterAgrees(entries, (e: Entry) => !Named(e, names), (e: Entry) => !TakenBy(b, e));
  }

  lemma {:induction false} FilterAgrees<T(!new)>(s: seq<T>, p: T -> bool, q: T -> bool)
    requires forall x :: p(x) == q(x)
    ensures Filter(s, p) == Filter(s, q)
  {
    if s != [] {
      FilterAgrees(s[1..], p, q);
    }
  }

  /** The steps of the system, run on the wallet's own list: what they leave pending is what the list then holds. */
  method StepReservations(list: PendingReservations, ghost s: State, step: Step, names: seq<ReservedInput>, now: nat)
    requires list.entries == s.pending && Enabled(s, step)
    requires step.HandBack? ==> NamesOf(s.builds[step.build], names)
    requires step.Sync? ==> now == s.chainTime
    requires step.Evict? ==> now == s.now
    modifies list
    ensures list.entries == Next(s, step).pending
  {
    hide Cleared, Evicted, Released;
    match step {
      case Reserve(_, inputs, stamp, expiresAt) =>
        list.Reserve([inputs], stamp, expiresAt);
        assert list.entries[|s.pending| + 0] == Entry([inputs][0], stamp, expiresAt);
        assert list.entries == list.entries[..|s.pending|] + [list.entries[|s.pending|]];
      case HandBack(b) =>
        ReleaseIsHandBack(s.pending, s.builds[b], names);
        list.Release(names);
      case Sync(observed) =>
        var removed := list.ClearConfirmed(observed);
        list.EvictExpired(now);
      case Evict => list.EvictExpired(now);
      case Begin(_) =>
      case Die(_) =>
      case NewBlock(_, _) =>
    }
  }

  // ---------------------------------------------------------------------------
  // The invariant
  // ---------------------------------------------------------------------------

  /** Every transaction that can still land has its entries in the wallet. */
  ghost predicate Covered(s: State) {
    forall b, e :: 0 <= b < |s.builds| && CanLand(s, s.builds[b]) && e in s.builds[b].entries ==> e in s.pending
  }

  /** No entries of two builds that may still be handed back share an input and a stamp. */
  ghost predicate Apart(s: State) {
    forall b, c, e, f |
      0 <= b < |s.builds| && 0 <= c < |s.builds| && b != c
      && !s.builds[b].released && !s.builds[c].released
      && e in s.builds[b].entries && f in s.builds[c].entries :: !Clash(e, f)
  }

  /** Entries stamped a second past the chain time are new, so still in the wallet until their build hands them back. */
  ghost predicate Current(s: State) {
    forall b, e ::
      0 <= b < |s.builds| && !s.builds[b].released && e in s.builds[b].entries && e.reservedAt == s.now + 1 ==>
        e in s.pending && forall input :: Spends(e, input) ==> input !in s.seen
  }

  ghost predicate Timely(s: State) {
    && s.now <= s.chainTime
    && s.seen <= s.chainSpent
    && (s.now == s.chainTime ==> s.seen == s.chainSpent)
    && forall b, e :: 0 <= b < |s.builds| && e in s.builds[b].entries ==>
         e.reservedAt <= s.now + 1 && e.expiresAt >= e.reservedAt && e.expiresAt >= s.builds[b].ttl
  }

  ghost predicate DeadFirst(s: State) {
    forall b :: 0 <= b < |s.builds| && s.builds[b].released ==> s.builds[b].dead
  }

  ghost predicate Disjoint(s: State) {
    forall b, c, input |
      0 <= b < |s.builds| && 0 <= c < |s.builds| && b != c && CanLand(s, s.builds[b]) && CanLand(s, s.builds[c])
      && Holds(s.builds[b], input) :: !Holds(s.builds[c], input)
  }

  ghost predicate Invariant(s: State) {
    Timely(s) && DeadFirst(s) && Current(s) && Apart(s) && Covered(s) && Disjoint(s)
  }

  lemma ReserveKeeps(s: State, step: Step)
    requires Invariant(s) && step.Reserve? && Enabled(s, step) && Unclaimed(s, step)
    ensures Invariant(Next(s, step))
  {
    hide Clash, Holds;
    var t := Next(s, step);
    forall b | 0 <= b < |t.builds| && CanLand(t, t.builds[b]) ensures CanLand(s, s.builds[b]) {
      LandedBefore(s, step, b);
    }
    forall b, c, f, g |
      0 <= b < |t.builds| && 0 <= c < |t.builds| && b != c && !t.builds[b].released && !t.builds[c].released
      && f in t.builds[b].entries && g in t.builds[c].entries
      ensures !Clash(f, g)
    {
      NewEntryApart(s, step, b, f, c, g);
    }
    forall b, c, input |
      0 <= b < |t.builds| && 0 <= c < |t.builds| && b != c && CanLand(t, t.builds[b]) && CanLand(t, t.builds[c])
      && Holds(t.builds[b], input)
      ensures !Holds(t.builds[c], input)
    {
      NewEntryDisjoint(s, step, b, c, input);
    }
  }

  /** An entry of one of the builds is an old one, or the new one of the build that reserves. */
  lemma EntryIsOldOrNew(s: State, step: Step, b: nat, f: Entry)
    requires step.Reserve? && Enabled(s, step) && b < |s.builds| && f in Next(s, step).builds[b].entries
    ensures f in s.builds[b].entries || (b == step.build && f == Entry(step.inputs, step.stamp, step.expiresAt))
  {
  }

  lemma NewEntryApart(s: State, step: Step, b: nat, f: Entry, c: nat, g: Entry)
    requires Invariant(s) && step.Reserve? && Enabled(s, step) && Unclaimed(s, step)
    requires b < |s.builds| && c < |s.builds| && b != c && !s.builds[b].released && !s.builds[c].released
    requires f in Next(s, step).builds[b].entries && g in Next(s, step).builds[c].entries
    ensures !Clash(f, g)
  {
    hide Covered, Disjoint, Timely, Current;
    EntryIsOldOrNew(s, step, b, f);
    EntryIsOldOrNew(s, step, c, g);
    forall input | Spends(f, input) && f.reservedAt == g.reservedAt ensures !Spends(g, input) {
      if f !in s.builds[b].entries {
        assert !Clash(NewEntry(step), g);
      } else if g !in s.builds[c].entries {
        assert !Clash(NewEntry(step), f);
      } else {
        OldEntriesApart(s, b, f, c, g, input);
      }
    }
  }

  lemma OldEntriesApart(s: State, b: nat, f: Entry, c: nat, g: Entry, input: Input)
    requires Apart(s) && b < |s.builds| && c < |s.builds| && b != c && !s.builds[b].released && !s.builds[c].released
    requires f in s.builds[b].entries && g in s.builds[c].entries && f.reservedAt == g.reservedAt && Spends(f, input)
    ensures !Spends(g, input)
  {
    assert Spends(g, input) ==> Clash(f, g);
  }

  lemma LandedBefore(s: State, step: Step, b: nat)
    requires step.Reserve? && Enabled(s, step) && b < |s.builds| && CanLand(Next(s, step), Next(s, step).builds[b])
    ensures CanLand(s, s.builds[b])
  {
    forall input | Holds(s.builds[b], input) ensures Holds(Next(s, step).builds[b], input) {
      var e :| e in s.builds[b].entries && Spends(e, input);
      assert e in Next(s, step).builds[b].entries;
    }
  }

  lemma NewEntryDisjoint(s: State, step: Step, b: nat, c: nat, input: Input)
    requires Invariant(s) && step.Reserve? && Enabled(s, step)
    requires b < |s.builds| && c < |s.builds| && b != c
    requires CanLand(Next(s, step), Next(s, step).builds[b]) && CanLand(Next(s, step), Next(s, step).builds[c])
    requires Holds(Next(s, step).builds[b], input)
    ensures !Holds(Next(s, step).builds[c], input)
  {
    hide Apart, Current, Timely, CanLand;
    LandedBefore(s, step, b);
    LandedBefore(s, step, c);
    var f :| f in Next(s, step).builds[b].entries && Spends(f, input);
    EntryIsOldOrNew(s, step, b, f);
    forall g | g in Next(s, step).builds[c].entries ensures !Spends(g, input) {
      EntryIsOldOrNew(s, step, c, g);
      if f !in s.builds[b].entries {
        assert Spends(g, input) ==> Reserved(s.pending, input);
      } else if g !in s.builds[c].entries {
        assert f in s.pending && Reserved(s.pending, input);
      } else {
        assert Holds(s.builds[b], input) && !Holds(s.builds[c], input);
      }
    }
  }

  /** A hand-back takes out only the entries of the build that hands back. */
  lemma HandBackTakesOwn(s: State, b: nat, c: nat, e: Entry)
    requires Invariant(s) && b < |s.builds| && c < |s.builds| && b != c
    requires !s.builds[b].released && !s.builds[c].released
    requires e in s.builds[c].entries
    ensures !TakenBy(s.builds[b], e)
  {
  }

  lemma HandBackKeeps(s: State, step: Step)
    requires Invariant(s) && step.HandBack? && Enabled(s, step)
    ensures Invariant(Next(s, step))
  {
    hide TakenBy, Clash, Holds;
    var t := Next(s, step);
    FilterMembers(s.pending, (e: Entry) => !TakenBy(s.builds[step.build], e));
    forall c, e | 0 <= c < |s.builds| && c != step.build && !s.builds[c].released && e in s.builds[c].entries
      ensures !TakenBy(s.builds[step.build], e)
    {
      HandBackTakesOwn(s, step.build, c, e);
    }
  }

  /** A sync keeps the entries whose build can land, and those that are new at the time it syncs to. */
  lemma SyncKeepsEntry(s: State, step: Step, b: nat, e: Entry)
    requires Invariant(s) && step.Sync? && Enabled(s, step)
    requires b < |s.builds| && e in s.builds[b].entries
    requires CanLand(s, s.builds[b]) || (!s.builds[b].released && e.reservedAt == s.chainTime + 1)
    ensures e in Next(s, step).pending
  {
    hide Apart, Disjoint, Clash;
    FilterMembers(s.pending, (e: Entry) => !Confirmed(e, step.observed));
    FilterMembers(Cleared(s.pending, step.observed), (e: Entry) => WithinTtl(e.expiresAt, s.chainTime));
    forall i | 0 <= i < |step.observed| ensures !Spends(e, step.observed[i]) {
      assert step.observed[i] in step.observed;
      assert Spends(e, step.observed[i]) ==> Holds(s.builds[b], step.observed[i]);
    }
  }

  lemma SyncKeeps(s: State, step: Step)
    requires Invariant(s) && step.Sync? && Enabled(s, step)
    ensures Invariant(Next(s, step))
  {
    hide Apart, Disjoint, Clash, Holds, Cleared, Evicted;
    var t := Next(s, step);
    forall b, e | 0 <= b < |s.builds| && e in s.builds[b].entries
                  && (CanLand(s, s.builds[b]) || (!s.builds[b].released && e.reservedAt == s.chainTime + 1))
      ensures e in t.pending
    {
      SyncKeepsEntry(s, step, b, e);
    }
    SameBuildsApart(s, t);
  }

  lemma SameBuildsApart(s: State, t: State)
    requires t.builds == s.builds && Apart(s)
    ensures Apart(t)
    ensures Disjoint(s) && t.chainTime == s.chainTime && t.chainSpent == s.chainSpent ==> Disjoint(t)
  {
  }

  lemma NewBlockKeeps(s: State, step: Step)
    requires Invariant(s) && step.NewBlock? && Enabled(s, step)
    ensures Invariant(Next(s, step))
  {
    hide Holds, Clash;
    var t := Next(s, step);
    assert forall b :: 0 <= b < |s.builds| && CanLand(t, t.builds[b]) ==> CanLand(s, s.builds[b]);
    SameBuildsApart(s, t);
  }

  lemma EvictKeeps(s: State, step: Step)
    requires Invariant(s) && step.Evict?
    ensures Invariant(Next(s, step))
  {
    hide Holds, Clash;
    FilterMembers(s.pending, (e: Entry) => WithinTtl(e.expiresAt, s.now));
    SameBuildsApart(s, Next(s, step));
  }

  lemma BeginKeeps(s: State, step: Step)
    requires Invariant(s) && step.Begin? && Enabled(s, step)
    ensures Invariant(Next(s, step))
  {
    hide Clash;
    var t := Next(s, step);
    assert forall b :: 0 <= b < |s.builds| ==> t.builds[b] == s.builds[b];
    assert forall b :: 0 <= b < |s.builds| ==> (CanLand(t, t.builds[b]) <==> CanLand(s, s.builds[b]));
    assert forall input :: !Holds(t.builds[|s.builds|], input);
  }

  lemma DieKeeps(s: State, step: Step)
    requires Invariant(s) && step.Die? && Enabled(s, step)
    ensures Invariant(Next(s, step))
  {
    hide Clash;
    var t := Next(s, step);
    forall b | 0 <= b < |t.builds|
      ensures t.builds[b].entries == s.builds[b].entries && (CanLand(t, t.builds[b]) ==> CanLand(s, s.builds[b]))
    {
      assert forall input :: Holds(t.builds[b], input) <==> Holds(s.builds[b], input);
    }
  }

  lemma NextKeeps(s: State, step: Step)
    requires Invariant(s) && Guarded(s, step)
    ensures Invariant(Next(s, step))
  {
    hide Invariant, Enabled, Next;
    match step
    case Begin(_) => BeginKeeps(s, step);
    case Reserve(_, _, _, _) => ReserveKeeps(s, step);
    case Die(_) => DieKeeps(s, step);
    case HandBack(_) => HandBackKeeps(s, step);
    case NewBlock(_, _) => NewBlockKeeps(s, step);
    case Sync(_) => SyncKeeps(s, step);
    case Evict => EvictKeeps(s, step);
  }

  // ---------------------------------------------------------------------------
  // Every run
  // ---------------------------------------------------------------------------

  ghost predicate Fresh(s: State) {
    s.builds == [] && s.pending == [] && s.now <= s.chainTime && s.seen <= s.chainSpent
    && (s.now == s.chainTime ==> s.seen == s.chainSpent)
  }

  ghost predicate Path(states: seq<State>, steps: seq<Step>) {
    && |states| == |steps| + 1
    && forall i :: 0 <= i < |steps| ==> Enabled(states[i], steps[i]) && states[i + 1] == Next(states[i], steps[i])
  }

  ghost predicate RunOf(states: seq<State>, steps: seq<Step>) {
    Path(states, steps) && Fresh(states[0])
  }

  ghost predicate AllGuarded(states: seq<State>, steps: seq<Step>) {
    |states| == |steps| + 1 && forall i :: 0 <= i < |steps| ==> Guarded(states[i], steps[i])
  }

  lemma {:induction false} PathKeeps(states: seq<State>, steps: seq<Step>, n: nat)
    requires Path(states, steps) && AllGuarded(states, steps) && n < |states| && Invariant(states[0])
    ensures Invariant(states[n])
  {
    hide Guarded, Enabled, Next, Invariant;
    if n > 0 {
      PathKeeps(states, steps, n - 1);
      NextKeeps(states[n - 1], steps[n - 1]);
    }
  }

  lemma FreshInvariant(s: State)
    requires Fresh(s)
    ensures Invariant(s)
  {
  }

  /**
   In every state of every run whose reservations are unclaimed, two builds that can
   both still land share no input.
   */
  lemma NoSharedInput(states: seq<State>, steps: seq<Step>, n: nat, b: nat, c: nat, input: Input)
    requires RunOf(states, steps) && AllGuarded(states, steps) && n < |states|
    requires b < |states[n].builds| && c < |states[n].builds| && b != c
    requires CanLand(states[n], states[n].builds[b]) && CanLand(states[n], states[n].builds[c])
    ensures !(Holds(states[n].builds[b], input) && Holds(states[n].builds[c], input))
  {
    hide CanLand, Holds, Guarded;
    FreshInvariant(states[0]);
    PathKeeps(states, steps, n);
  }

  /** A late hand-back never takes an entry that a build still alive has made. */
  lemma LateReleaseIsHarmless(states: seq<State>, steps: seq<Step>, n: nat, b: nat, e: Entry)
    requires RunOf(states, steps) && AllGuarded(states, steps) && n < |steps| && steps[n].HandBack?
    requires b < |states[n].builds| && !states[n].builds[b].dead && e in states[n].builds[b].entries
    requires e in states[n].pending
    ensures e in states[n + 1].pending
  {
    FreshInvariant(states[0]);
    PathKeeps(states, steps, n);
    var s, d := states[n], steps[n].build;
    HandBackTakesOwn(s, d, b, e);
    FilterMembers(s.pending, (e: Entry) => !TakenBy(s.builds[d], e));
  }

  // ---------------------------------------------------------------------------
  // The exact condition on a reservation
  // ---------------------------------------------------------------------------

  /** Whatever guarded steps follow, no two builds that can land share an input. */
  ghost predicate SafeAfter(s: State) {
    forall states, steps ::
      |states| == |steps| + 1 && Path(states, steps) && AllGuarded(states, steps) && states[0] == s ==>
        Disjoint(states[|steps|])
  }

  /** The four steps that follow an unguarded reservation: its rival dies, hands back late, and a new build selects. */
  ghost function Fallout(c: nat, input: Input, s: State): (steps: seq<Step>) {
    [Die(c), HandBack(c), Begin(s.chainTime + 1), Reserve(|s.builds|, [input], s.now + 1, s.chainTime + 1)]
  }

  /** The clash a guard would have refused. */
  ghost predicate Claims(s: State, step: Step, c: nat, f: Entry, input: Input)
    requires step.Reserve?
  {
    && c < |s.builds| && c != step.build && !s.builds[c].released && f in s.builds[c].entries
    && f.reservedAt == step.stamp && Spends(f, input) && input in step.inputs
  }

  /** After the rival's late hand-back the input is free again, although its holder is alive. */
  lemma LateHandBackFrees(s: State, step: Step, c: nat, f: Entry, input: Input) returns (u: State)
    requires Invariant(s) && step.Reserve? && Enabled(s, step) && Claims(s, step, c, f, input)
    ensures Guarded(Next(s, step), Die(c))
    ensures Guarded(Next(Next(s, step), Die(c)), HandBack(c))
    ensures u == Next(Next(Next(s, step), Die(c)), HandBack(c))
    ensures !Reserved(u.pending, input)
    ensures forall e :: e in u.pending ==> e in s.pending || e == NewEntry(step)
    ensures |u.builds| == |s.builds| && u.now == s.now && u.seen == s.seen && u.chainTime == s.chainTime
    ensures u.chainSpent == s.chainSpent && u.builds[step.build] == Next(s, step).builds[step.build]
    ensures forall d :: 0 <= d < |s.builds| && d != step.build ==>
              u.builds[d].entries == s.builds[d].entries && (s.builds[d].released ==> u.builds[d].released)
  {
    hide Invariant;
    var t := Next(s, step);
    var dead := Next(t, Die(c));
    u := Next(dead, HandBack(c));
    FilterMembers(dead.pending, (e: Entry) => !TakenBy(dead.builds[c], e));
    assert Clash(NewEntry(step), f);
    assert f in dead.builds[c].entries && TakenBy(dead.builds[c], NewEntry(step));
    forall e | e in u.pending ensures !Spends(e, input) {
      assert e in s.pending ==> !Spends(e, input) || Reserved(s.pending, input);
    }
  }

  /** The new selection is one the wallet makes, on its own chain time and unclaimed. */
  lemma ThirdBuildSelects(s: State, step: Step, c: nat, f: Entry, input: Input, u: State)
    requires Invariant(s) && step.Reserve? && Enabled(s, step) && Claims(s, step, c, f, input)
    requires input !in s.seen
    requires !Reserved(u.pending, input) && |u.builds| == |s.builds| && u.now == s.now && u.seen == s.seen
    requires u.chainTime == s.chainTime && u.builds[step.build] == Next(s, step).builds[step.build]
    requires forall d :: 0 <= d < |s.builds| && d != step.build ==>
               u.builds[d].entries == s.builds[d].entries && (s.builds[d].released ==> u.builds[d].released)
    ensures var began := Next(u, Begin(s.chainTime + 1));
            Guarded(began, Reserve(|s.builds|, [input], s.now + 1, s.chainTime + 1))
  {
    var began, third := Next(u, Begin(s.chainTime + 1)), Reserve(|s.builds|, [input], s.now + 1, s.chainTime + 1);
    assert f.reservedAt == s.now + 1 ==> f in s.pending && Reserved(s.pending, input);
    assert step.stamp != s.now + 1;
    forall d, g |
      0 <= d < |began.builds| && d != |s.builds| && !began.builds[d].released && g in began.builds[d].entries
      ensures !Clash(NewEntry(third), g)
    {
      assert began.builds[d] == u.builds[d];
      if d != step.build || g in s.builds[d].entries {
        assert g.reservedAt == s.now + 1 ==> g in s.pending;
        assert g.reservedAt == s.now + 1 && Spends(g, input) ==> Reserved(s.pending, input);
      } else {
        EntryIsOldOrNew(s, step, step.build, g);
      }
    }
  }

  /** An unguarded reservation by a build that can land leads, by guarded steps, to two live builds on one input. */
  lemma UnguardedBreaks(s: State, step: Step, c: nat, f: Entry, input: Input)
    returns (states: seq<State>)
    requires Invariant(s) && step.Reserve? && Enabled(s, step) && Claims(s, step, c, f, input)
    requires CanLand(Next(s, step), Next(s, step).builds[step.build])
    ensures var steps, last := Fallout(c, input, s), |s.builds|;
            && Path(states, steps) && AllGuarded(states, steps) && states[0] == Next(s, step)
            && |states[4].builds| == last + 1 && step.build < last
            && CanLand(states[4], states[4].builds[step.build]) && Holds(states[4].builds[step.build], input)
            && CanLand(states[4], states[4].builds[last]) && Holds(states[4].builds[last], input)
  {
    hide Invariant, Guarded, Claims;
    var t, b := Next(s, step), step.build;
    assert Holds(t.builds[b], input) by {
      ClaimedIsHeld(s, step, c, f, input);
    }
    SeenIsSpent(s);
    var u := LateHandBackFrees(s, step, c, f, input);
    ThirdBuildSelects(s, step, c, f, input, u);
    var began := Next(u, Begin(s.chainTime + 1));
    var third := Reserve(|s.builds|, [input], s.now + 1, s.chainTime + 1);
    GuardedIsEnabled(began, third);
    GuardedIsEnabled(t, Die(c));
    GuardedIsEnabled(Next(t, Die(c)), HandBack(c));
    assert Guarded(u, Begin(s.chainTime + 1)) by {
      BeginIsGuarded(u, s.chainTime + 1);
    }
    var end := Next(began, third);
    states := [t, Next(t, Die(c)), u, began, end];
    assert end.builds[b] == t.builds[b];
    assert forall i :: Holds(end.builds[|s.builds|], i) <==> i == input by {
      OneInput(end.builds[|s.builds|], NewEntry(third), input);
    }
  }

  lemma ClaimedIsHeld(s: State, step: Step, c: nat, f: Entry, input: Input)
    requires step.Reserve? && Enabled(s, step) && Claims(s, step, c, f, input)
    ensures Holds(Next(s, step).builds[step.build], input)
  {
    assert Spends(NewEntry(step), input) && NewEntry(step) in Next(s, step).builds[step.build].entries;
  }

  lemma SeenIsSpent(s: State)
    requires Invariant(s)
    ensures s.seen <= s.chainSpent && s.now <= s.chainTime
  {
  }

  lemma GuardedIsEnabled(s: State, step: Step)
    requires Guarded(s, step)
    ensures Enabled(s, step)
  {
  }

  lemma BeginIsGuarded(s: State, ttl: nat)
    ensures Guarded(s, Begin(ttl))
  {
  }

  lemma OneInput(b: Build, e: Entry, input: Input)
    requires b.entries == [e] && e.inputs == [input]
    ensures forall i :: Holds(b, i) <==> i == input
  {
    forall i ensures Holds(b, i) <==> i == input {
      if i == input {
        assert e in b.entries && Spends(e, i);
      }
    }
  }

  /**
   The exact condition: a reservation by a build that can land is safe, whatever
   guarded steps follow, if and only if no other build that may still be handed
   back has an entry with its stamp and one of its inputs.
   */
  lemma StampGuardIsExact(s: State, step: Step)
    requires Invariant(s) && step.Reserve? && Enabled(s, step)
    requires CanLand(Next(s, step), Next(s, step).builds[step.build])
    ensures Unclaimed(s, step) <==> SafeAfter(Next(s, step))
  {
    hide Invariant, CanLand, Holds, Enabled, Next, Path, AllGuarded, Claims, Fallout;
    var t := Next(s, step);
    if Unclaimed(s, step) {
      UnclaimedKeeps(s, step);
      forall states, steps |
        |states| == |steps| + 1 && Path(states, steps) && AllGuarded(states, steps) && states[0] == t
        ensures Disjoint(states[|steps|])
      {
        PathKeeps(states, steps, |steps|);
        InvariantIsDisjoint(states[|steps|]);
      }
    } else {
      var c, f, input := FindClaim(s, step);
      var states := UnguardedBreaks(s, step, c, f, input);
      PathLength(states, Fallout(c, input, s));
      FalloutLength(c, input, s);
      NotDisjoint(states[4], step.build, |s.builds|, input);
    }
  }

  lemma UnclaimedKeeps(s: State, step: Step)
    requires Invariant(s) && step.Reserve? && Enabled(s, step) && Unclaimed(s, step)
    ensures Invariant(Next(s, step))
  {
    hide Invariant;
    NextKeeps(s, step);
  }

  lemma PathLength(states: seq<State>, steps: seq<Step>)
    requires Path(states, steps)
    ensures |states| == |steps| + 1
  {
  }

  lemma FalloutLength(c: nat, input: Input, s: State)
    ensures |Fallout(c, input, s)| == 4
  {
  }

  lemma InvariantIsDisjoint(s: State)
    requires Invariant(s)
    ensures Disjoint(s)
  {
  }

  lemma NotDisjoint(s: State, b: nat, c: nat, input: Input)
    requires b < |s.builds| && c < |s.builds| && b != c && CanLand(s, s.builds[b]) && CanLand(s, s.builds[c])
    requires Holds(s.builds[b], input) && Holds(s.builds[c], input)
    ensures !Disjoint(s)
  {
    hide CanLand, Holds;
  }

  lemma FindClaim(s: State, step: Step) returns (c: nat, f: Entry, input: Input)
    requires step.Reserve? && !Unclaimed(s, step)
    ensures Claims(s, step, c, f, input)
  {
    var d, g :| 0 <= d < |s.builds| && d != step.build && !s.builds[d].released && g in s.builds[d].entries
                && Clash(NewEntry(step), g);
    c, f := d, g;
    input :| Spends(NewEntry(step), input) && Spends(g, input);
  }

  /** One path after another. */
  lemma Joined(a: seq<State>, p: seq<Step>, b: seq<State>, q: seq<Step>)
    requires Path(a, p) && Path(b, q) && a[|p|] == b[0]
    ensures Path(a + b[1..], p + q)
    ensures (a + b[1..])[0] == a[0] && (a + b[1..])[|p| + |q|] == b[|q|]
  {
    hide Enabled, Next;
    var states, steps := a + b[1..], p + q;
    forall i | 0 <= i < |steps| ensures Enabled(states[i], steps[i]) && states[i + 1] == Next(states[i], steps[i]) {
      if i >= |p| {
        assert steps[i] == q[i - |p|] && states[i + 1] == b[i - |p| + 1] && states[i] == b[i - |p|];
      } else {
        assert steps[i] == p[i] && states[i] == a[i] && states[i + 1] == a[i + 1];
      }
    }
  }

  // ---------------------------------------------------------------------------
  // Why each rule is needed
  // ---------------------------------------------------------------------------

  /** A release keeps another build's entry exactly when no released entry shares an input and the stamp. */
  lemma ReleaseKeepsIff(entries: seq<Entry>, b: Build, names: seq<ReservedInput>, e: Entry)
    requires NamesOf(b, names) && e in entries
    ensures e in Released(entries, names) <==> forall f :: f in b.entries ==> !Clash(e, f)
  {
    ReleaseIsHandBack(entries, b, names);
    FilterMembers(entries, (e: Entry) => !TakenBy(b, e));
  }

  /**
   Handing back twice is not safe: within one block a second release takes the
   entry of the build that selected the input in between, so a third can select
   it while the second is in flight.
   */
  lemma SecondReleaseTakesAnothersEntry(input: Input, stamp: nat, ttl: nat)
    ensures var first := [Entry([input], stamp, ttl)];
            var once := Released(first, [ReservedInput(input, stamp)]);
            var second := once + [Entry([input], stamp, ttl)];
            !Reserved(once, input) && Reserved(second, input)
            && !Reserved(Released(second, [ReservedInput(input, stamp)]), input)
  {
    var e, names := Entry([input], stamp, ttl), [ReservedInput(input, stamp)];
    OneReleased(e, input, names);
    assert [] + [e] == [e];
    assert e in [e];
  }

  lemma FilterOne<T(!new)>(x: T, keep: T -> bool)
    ensures Filter([x], keep) == if keep(x) then [x] else []
  {
    assert [x][1..] == [];
  }

  lemma OneReleased(e: Entry, input: Input, names: seq<ReservedInput>)
    requires Spends(e, input) && names == [ReservedInput(input, e.reservedAt)]
    ensures Released([e], names) == []
  {
    assert names[0].reservedAt == e.reservedAt && Spends(e, names[0].input);
    FilterOne(e, (e: Entry) => !Named(e, names));
  }
}
