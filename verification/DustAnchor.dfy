/**
 The stamps the wallet itself gives. A build in the hold is stamped with the Dust
 anchor, which can trail the chain time for as long as the chain resolves it. Such
 builds are safe if and only if their entries last that long.
 */
module DustAnchor {
  import opened Orders
  import opened Inputs
  import opened MultiBuild
  import opened StaleStamps

  /** A UTXO and a coin are an entry of their own; only Dust spends come in batches. */
  ghost predicate OneKind(inputs: seq<Input>) {
    |inputs| == 1 || forall i :: 0 <= i < |inputs| ==> inputs[i].Dust?
  }

  /** The build makes its context in the hold that reserves: its stamp is the wallet's anchor, its view the wallet's. */
  ghost predicate InHold(s: State, step: Step, anchor: nat)
    requires step.Reserve?
  {
    && step.stamp == anchor
    && OneKind(step.inputs)
    && forall input :: input in step.inputs ==> input !in s.seen
  }

  /**
   What a step does to the anchor. It covers the chain time of every sync by the
   window in which the chain resolves it. A sync that sees no Dust spend may keep
   it; any other sync moves it forward, and no other step moves it.
   */
  ghost predicate AnchorMoves(s: State, step: Step, anchor: nat, next: nat, window: nat) {
    if step.Sync? then
      && s.chainTime <= next + window
      && next <= s.chainTime + 1
      && (next > anchor || (next == anchor && forall i :: 0 <= i < |step.observed| ==> !step.observed[i].Dust?))
    else next == anchor
  }

  /**
   A build under the wallet's own anchor reserves for at least `lasts` from the
   anchor on. A build under an older one is unclaimed.
   */
  ghost predicate AnchoredStep(s: State, step: Step, anchor: nat, next: nat, window: nat, lasts: nat) {
    && AnchorMoves(s, step, anchor, next, window)
    && (step.Reserve? ==>
          || (InHold(s, step, anchor) && step.expiresAt >= anchor + lasts)
          || (step.stamp < anchor && Unclaimed(s, step)))
  }

  /** An entry under the anchor is still in the wallet, or all it would spend has been seen spent. */
  ghost predicate HeldOrSpent(s: State, e: Entry) {
    e in s.pending || forall input :: Spends(e, input) ==> input in s.seen
  }

  ghost predicate Anchored(s: State, anchor: nat, window: nat) {
    && s.now <= anchor + window
    && forall b, e :: 0 <= b < |s.builds| && e in s.builds[b].entries ==>
         && e.reservedAt <= anchor
         && OneKindIfNew(e, anchor)
         && (e.reservedAt == anchor && !s.builds[b].released ==>
               e.expiresAt >= anchor + window && HeldOrSpent(s, e))
  }

  ghost predicate OneKindIfNew(e: Entry, anchor: nat) {
    e.reservedAt == anchor ==> OneKind(e.inputs)
  }

  /** Under the anchor a selection in the hold meets no rival: each is still reserved, or spent. */
  lemma AnchoredIsUnclaimed(s: State, step: Step, anchor: nat, window: nat)
    requires Anchored(s, anchor, window) && step.Reserve? && Enabled(s, step) && InHold(s, step, anchor)
    ensures Unclaimed(s, step)
  {
    forall c, f | 0 <= c < |s.builds| && c != step.build && !s.builds[c].released && f in s.builds[c].entries
      ensures !Clash(NewEntry(step), f)
    {
      forall input | f.reservedAt == anchor && Spends(f, input) ensures input !in step.inputs {
        assert HeldOrSpent(s, f);
        assert f in s.pending ==> Reserved(s.pending, input);
      }
    }
  }

  lemma AnchoredReserve(s: State, step: Step, anchor: nat, window: nat)
    requires Anchored(s, anchor, window) && step.Reserve? && Enabled(s, step)
    requires AnchoredStep(s, step, anchor, anchor, window, window)
    ensures Anchored(Next(s, step), anchor, window)
  {
    hide OneKind;
    var t := Next(s, step);
    forall b, e | 0 <= b < |t.builds| && e in t.builds[b].entries
      ensures e.reservedAt <= anchor && OneKindIfNew(e, anchor)
      ensures e.reservedAt == anchor && !t.builds[b].released ==> e.expiresAt >= anchor + window && HeldOrSpent(t, e)
    {
      EntryIsOldOrNew(s, step, b, e);
      assert e in s.pending ==> e in t.pending;
    }
  }

  lemma AnchoredHandBack(s: State, step: Step, anchor: nat, window: nat)
    requires Invariant(s) && Anchored(s, anchor, window) && step.HandBack? && Enabled(s, step)
    ensures Anchored(Next(s, step), anchor, window)
  {
    hide OneKind, TakenBy, Invariant, Clash;
    var t := Next(s, step);
    FilterMembers(s.pending, (e: Entry) => !TakenBy(s.builds[step.build], e));
    forall b, e | 0 <= b < |t.builds| && e in t.builds[b].entries && e.reservedAt == anchor && !t.builds[b].released
      ensures HeldOrSpent(t, e)
    {
      assert HeldOrSpent(s, e);
      HandBackTakesOwn(s, step.build, b, e);
    }
  }

  /** A sync that keeps the anchor clears no entry under it but one it has seen spent, and evicts none. */
  lemma AnchoredSyncKeeps(s: State, step: Step, anchor: nat, window: nat, e: Entry)
    requires step.Sync? && Enabled(s, step) && AnchorMoves(s, step, anchor, anchor, window)
    requires OneKind(e.inputs) && e.expiresAt >= anchor + window && HeldOrSpent(s, e) && s.seen <= s.chainSpent
    ensures HeldOrSpent(Next(s, step), e)
  {
    FilterMembers(s.pending, (e: Entry) => !Confirmed(e, step.observed));
    FilterMembers(Cleared(s.pending, step.observed), (e: Entry) => WithinTtl(e.expiresAt, s.chainTime));
    if e in s.pending && Confirmed(e, step.observed) {
      var i :| 0 <= i < |step.observed| && !step.observed[i].Coin? && Spends(e, step.observed[i]);
      assert step.observed[i] in step.observed;
      var k :| 0 <= k < |e.inputs| && e.inputs[k] == step.observed[i];
    }
  }

  lemma AnchoredSync(s: State, step: Step, anchor: nat, next: nat, window: nat)
    requires Invariant(s) && Anchored(s, anchor, window) && step.Sync? && Enabled(s, step)
    requires AnchorMoves(s, step, anchor, next, window)
    ensures Anchored(Next(s, step), next, window)
  {
    hide OneKind, Cleared, Evicted, HeldOrSpent, Invariant;
    SeenIsSpent(s);
    var t := Next(s, step);
    forall b, e | 0 <= b < |t.builds| && e in t.builds[b].entries
      ensures e.reservedAt <= next && OneKindIfNew(e, next)
      ensures e.reservedAt == next && !t.builds[b].released ==> e.expiresAt >= next + window && HeldOrSpent(t, e)
    {
      if e.reservedAt == next && !t.builds[b].released {
        AnchoredSyncKeeps(s, step, anchor, window, e);
      }
    }
  }

  /** Under the anchor nothing is evicted. */
  lemma AnchoredEvict(s: State, anchor: nat, window: nat)
    requires Anchored(s, anchor, window)
    ensures Anchored(Next(s, Evict), anchor, window)
  {
    hide OneKind;
    var t := Next(s, Evict);
    FilterMembers(s.pending, (e: Entry) => WithinTtl(e.expiresAt, s.now));
    forall b, e | 0 <= b < |t.builds| && e in t.builds[b].entries && e.reservedAt == anchor && !t.builds[b].released
      ensures HeldOrSpent(t, e)
    {
      assert HeldOrSpent(s, e);
    }
  }

  lemma AnchoredQuiet(s: State, step: Step, anchor: nat, window: nat)
    requires Anchored(s, anchor, window) && Enabled(s, step)
    requires step.Begin? || step.Die? || step.NewBlock?
    ensures Anchored(Next(s, step), anchor, window)
  {
    hide OneKind;
    var t := Next(s, step);
    forall b, e | 0 <= b < |t.builds| && e in t.builds[b].entries
      ensures b < |s.builds| && e in s.builds[b].entries && s.builds[b].released == t.builds[b].released
      ensures HeldOrSpent(s, e) ==> HeldOrSpent(t, e)
    {
    }
  }

  /** An anchored step is guarded, and leaves an anchored state. */
  lemma AnchoredNext(s: State, step: Step, anchor: nat, next: nat, window: nat)
    requires Invariant(s) && Anchored(s, anchor, window) && Enabled(s, step)
    requires AnchoredStep(s, step, anchor, next, window, window)
    ensures Guarded(s, step) && Anchored(Next(s, step), next, window)
  {
    hide Invariant, Anchored, InHold, Unclaimed, Enabled, Next;
    match step
    case Reserve(_, _, _, _) =>
      if InHold(s, step, anchor) {
        AnchoredIsUnclaimed(s, step, anchor, window);
      }
      AnchoredReserve(s, step, anchor, window);
    case HandBack(_) => AnchoredHandBack(s, step, anchor, window);
    case Sync(_) => AnchoredSync(s, step, anchor, next, window);
    case Evict => AnchoredEvict(s, anchor, window);
    case Begin(_) => AnchoredQuiet(s, step, anchor, window);
    case Die(_) => AnchoredQuiet(s, step, anchor, window);
    case NewBlock(_, _) => AnchoredQuiet(s, step, anchor, window);
  }

  /** A run beside the anchors of its states. */
  ghost predicate AnchoredRun(states: seq<State>, steps: seq<Step>, anchors: seq<nat>, window: nat, lasts: nat) {
    && RunOf(states, steps)
    && |anchors| == |states|
    && states[0].now <= anchors[0] + window
    && forall i :: 0 <= i < |steps| ==> AnchoredStep(states[i], steps[i], anchors[i], anchors[i + 1], window, lasts)
  }

  lemma {:induction false} AnchoredRunIsGuarded(
      states: seq<State>, steps: seq<Step>, anchors: seq<nat>, window: nat, n: nat)
    requires AnchoredRun(states, steps, anchors, window, window) && n < |states|
    ensures Invariant(states[n]) && Anchored(states[n], anchors[n], window)
    ensures forall i :: 0 <= i < n ==> Guarded(states[i], steps[i])
  {
    hide Invariant, Enabled, Next, Guarded, AnchoredStep, Anchored;
    if n == 0 {
      FreshInvariant(states[0]);
      FreshAnchored(states[0], anchors[0], window);
    } else {
      AnchoredRunIsGuarded(states, steps, anchors, window, n - 1);
      AnchoredNext(states[n - 1], steps[n - 1], anchors[n - 1], anchors[n], window);
      NextKeeps(states[n - 1], steps[n - 1]);
    }
  }

  lemma FreshAnchored(s: State, anchor: nat, window: nat)
    requires Fresh(s) && s.now <= anchor + window
    ensures Anchored(s, anchor, window)
  {
  }

  /**
   Runs of builds that make their context in the hold that reserves, with entries
   that last the anchor's whole window, are safe, however long the anchor trails
   the chain time.
   */
  lemma InHoldBuildsAreSafe(states: seq<State>, steps: seq<Step>, anchors: seq<nat>, window: nat, n: nat)
    requires AnchoredRun(states, steps, anchors, window, window) && n < |states|
    ensures Disjoint(states[n])
  {
    hide Disjoint, Guarded, AnchoredStep, Enabled, Next;
    AnchoredRunIsGuarded(states, steps, anchors, window, n);
    InvariantIsDisjoint(states[n]);
  }

  // ---------------------------------------------------------------------------
  // A shorter TTL
  // ---------------------------------------------------------------------------

  /** The selections and the syncs are the wallet's own, under one anchor that never has to move. */
  ghost predicate UnderAnchor(states: seq<State>, steps: seq<Step>, anchor: nat, window: nat, lasts: nat) {
    && |states| == |steps| + 1
    && forall i :: 0 <= i < |steps| ==>
         && AnchorMoves(states[i], steps[i], anchor, anchor, window)
         && (steps[i].Reserve? ==> InHold(states[i], steps[i], anchor) && steps[i].expiresAt >= anchor + lasts)
  }

  lemma PrefixUnderAnchor(utxo: Input, anchor: nat, window: nat, lasts: nat)
    requires utxo.Utxo? && 1 <= lasts < window
    ensures UnderAnchor(OldContextStates(utxo, anchor, lasts, window + 1), OldContext(utxo, anchor, lasts, window + 1),
                        anchor, window, lasts)
  {
  }

  lemma SuffixUnderAnchor(utxo: Input, anchor: nat, window: nat, lasts: nat)
    requires utxo.Utxo? && 1 <= lasts < window
    ensures UnderAnchor(SameAnchorStates(utxo, anchor, lasts, window + 1), SameAnchor(utxo, anchor, lasts, window + 1),
                        anchor, window, lasts)
  {
  }

  lemma JoinedUnderAnchor(
      a: seq<State>, p: seq<Step>, b: seq<State>, q: seq<Step>, anchor: nat, window: nat, lasts: nat)
    requires UnderAnchor(a, p, anchor, window, lasts) && UnderAnchor(b, q, anchor, window, lasts) && a[|p|] == b[0]
    ensures UnderAnchor(a + b[1..], p + q, anchor, window, lasts)
  {
    hide AnchorMoves, InHold;
    var states, steps := a + b[1..], p + q;
    forall i | 0 <= i < |steps|
      ensures AnchorMoves(states[i], steps[i], anchor, anchor, window)
      ensures steps[i].Reserve? ==> InHold(states[i], steps[i], anchor) && steps[i].expiresAt >= anchor + lasts
    {
      if i >= |p| {
        assert steps[i] == q[i - |p|] && states[i] == b[i - |p|];
      } else {
        assert steps[i] == p[i] && states[i] == a[i];
      }
    }
  }

  /**
   A shorter TTL breaks it. Every build of this run selects in the hold, under an
   anchor that no Dust event moves. The entry of the first expires while the anchor
   lasts, by however little; the second selects the same UTXO under the same stamp;
   the late hand-back of the first takes the second's entry; the third selects the
   UTXO while the second can still land.
   */
  lemma ShortTtlRun(utxo: Input, anchor: nat, window: nat, lasts: nat) returns (states: seq<State>, steps: seq<Step>)
    requires utxo.Utxo? && 1 <= lasts < window
    ensures RunOf(states, steps) && UnderAnchor(states, steps, anchor, window, lasts)
    ensures forall i :: 0 <= i < |steps| && i != 1 && steps[i].Reserve? ==> steps[i].expiresAt >= anchor + window
    ensures states[0].now == anchor
    ensures var end := states[|steps|];
            && |end.builds| == 3
            && CanLand(end, end.builds[1]) && Holds(end.builds[1], utxo)
            && CanLand(end, end.builds[2]) && Holds(end.builds[2], utxo)
  {
    hide Enabled, Next, AnchorMoves, InHold;
    var second := window + 1;
    var a, p := OldContextStates(utxo, anchor, lasts, second), OldContext(utxo, anchor, lasts, second);
    var b, q := SameAnchorStates(utxo, anchor, lasts, second), SameAnchor(utxo, anchor, lasts, second);
    OldContextPath(utxo, anchor, lasts, second);
    SameAnchorPath(utxo, anchor, lasts, second);
    Joined(a, p, b, q);
    PrefixUnderAnchor(utxo, anchor, window, lasts);
    SuffixUnderAnchor(utxo, anchor, window, lasts);
    JoinedUnderAnchor(a, p, b, q, anchor, window, lasts);
    states, steps := a + b[1..], p + q;
    OneInput(b[4].builds[1], Entry([utxo], anchor, anchor + second), utxo);
  }

  /** No two builds that can land share an input, in any run of in-hold builds whose entries last that long. */
  ghost predicate SafeInHold(window: nat, lasts: nat) {
    forall states, steps, anchors, n: nat ::
      AnchoredRun(states, steps, anchors, window, lasts) && n < |states| ==> Disjoint(states[n])
  }

  lemma UnderAnchorIsAnchored(
      states: seq<State>, steps: seq<Step>, anchors: seq<nat>, anchor: nat, window: nat, lasts: nat)
    requires RunOf(states, steps) && UnderAnchor(states, steps, anchor, window, lasts) && states[0].now <= anchor
    requires |anchors| == |states| && forall i :: 0 <= i < |anchors| ==> anchors[i] == anchor
    ensures AnchoredRun(states, steps, anchors, window, lasts)
  {
    hide AnchorMoves, InHold, Fresh;
  }

  /**
   The exact condition on the TTL: builds that make their context in the hold are
   safe if and only if their entries last as long as the chain resolves the anchor.
   */
  lemma WholeWindowIsExact(window: nat, lasts: nat)
    requires lasts >= 1
    ensures SafeInHold(window, lasts) <==> lasts >= window
  {
    hide AnchoredStep, UnderAnchor, RunOf, Disjoint, CanLand, Holds;
    if lasts >= window {
      forall states, steps, anchors, n: nat | AnchoredRun(states, steps, anchors, window, lasts) && n < |states|
        ensures Disjoint(states[n])
      {
        LongerLasts(states, steps, anchors, window, lasts);
        InHoldBuildsAreSafe(states, steps, anchors, window, n);
      }
    } else {
      var utxo := Utxo("", 0);
      var states, steps := ShortTtlRun(utxo, 0, window, lasts);
      UnderAnchorIsAnchored(states, steps, seq(|states|, _ => 0), 0, window, lasts);
      RunLength(states, steps);
      NotDisjoint(states[|steps|], 1, 2, utxo);
    }
  }

  lemma LongerLasts(states: seq<State>, steps: seq<Step>, anchors: seq<nat>, window: nat, lasts: nat)
    requires AnchoredRun(states, steps, anchors, window, lasts) && lasts >= window
    ensures AnchoredRun(states, steps, anchors, window, window)
  {
    hide AnchorMoves, InHold, Unclaimed, RunOf;
  }

  lemma RunLength(states: seq<State>, steps: seq<Step>)
    requires RunOf(states, steps)
    ensures |states| == |steps| + 1
  {
  }
}
