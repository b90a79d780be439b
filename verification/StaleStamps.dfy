/**
 Two reservations of one input under one stamp. A run that reaches them, and what
 a late hand-back then does.
 */
module StaleStamps {
  import opened Orders
  import opened Inputs
  import opened MultiBuild

  /** The steps up to a second reservation under one stamp: the first build's entry expires in between. */
  ghost function OldContext(input: Input, stamp: nat, first: nat, second: nat): (steps: seq<Step>) {
    [Begin(stamp + first), Reserve(0, [input], stamp, stamp + first), NewBlock(stamp + first + 1, {}), Sync([]),
     Begin(stamp + second), Reserve(1, [input], stamp, stamp + second)]
  }

  /** The build that reserves under the stamp until `lasts` later, before its death. */
  ghost function Stamped(input: Input, stamp: nat, lasts: nat): (b: Build) {
    Build([Entry([input], stamp, stamp + lasts)], stamp + lasts, false, false)
  }

  ghost function OldContextStates(input: Input, stamp: nat, first: nat, second: nat): (states: seq<State>) {
    var early, rival := Stamped(input, stamp, first), Stamped(input, stamp, second);
    var later := stamp + first + 1;
    [State(stamp, {}, [], [], stamp, {}),
     State(stamp, {}, [], [early.(entries := [])], stamp, {}),
     State(stamp, {}, early.entries, [early], stamp, {}),
     State(stamp, {}, early.entries, [early], later, {}),
     State(later, {}, [], [early], later, {}),
     State(later, {}, [], [early, rival.(entries := [])], later, {}),
     State(later, {}, rival.entries, [early, rival], later, {})]
  }

  lemma OldContextPath(input: Input, stamp: nat, first: nat, second: nat)
    requires 1 <= first && first + 2 <= second
    ensures Path(OldContextStates(input, stamp, first, second), OldContext(input, stamp, first, second))
    ensures Fresh(OldContextStates(input, stamp, first, second)[0])
    ensures Invariant(OldContextStates(input, stamp, first, second)[5])
  {
    var states, steps := OldContextStates(input, stamp, first, second), OldContext(input, stamp, first, second);
    assert [] + [Entry([input], stamp, stamp + first)] == [Entry([input], stamp, stamp + first)];
    assert [] + [Entry([input], stamp, stamp + second)] == [Entry([input], stamp, stamp + second)];
    OldContextExpires(input, stamp, first);
    hide Cleared, Evicted;
    forall i | 0 <= i < 6 ensures Enabled(states[i], steps[i]) && states[i + 1] == Next(states[i], steps[i]) {
    }
    assert Path(states, steps);
    OldContextInvariant(input, stamp, first, second);
  }

  lemma OldContextExpires(input: Input, stamp: nat, first: nat)
    ensures Evicted(Cleared([Entry([input], stamp, stamp + first)], []), stamp + first + 1) == []
  {
    var e := Entry([input], stamp, stamp + first);
    FilterOne(e, (f: Entry) => !Confirmed(f, []));
    FilterOne(e, (f: Entry) => WithinTtl(f.expiresAt, stamp + first + 1));
  }

  lemma OldContextInvariant(input: Input, stamp: nat, first: nat, second: nat)
    requires 1 <= first && first + 2 <= second
    ensures Invariant(OldContextStates(input, stamp, first, second)[5])
  {
    hide Clash;
    var s := OldContextStates(input, stamp, first, second)[5];
    assert forall i :: !Holds(s.builds[1], i);
  }

  /**
   A run that ends with two live builds on one input. A first build's entry
   expires; a second build on the first one's context reserves the input under the
   same stamp; the first build dies and is handed back late; a third build selects
   the input, which the second can still spend.
   */
  lemma StaleStampRun(input: Input, stamp: nat, first: nat, second: nat)
    returns (states: seq<State>, steps: seq<Step>)
    requires 1 <= first && first + 2 <= second
    ensures RunOf(states, steps)
    ensures var end := states[|steps|];
            && |end.builds| == 3
            && CanLand(end, end.builds[1]) && Holds(end.builds[1], input)
            && CanLand(end, end.builds[2]) && Holds(end.builds[2], input)
  {
    var a, p := OldContextStates(input, stamp, first, second), OldContext(input, stamp, first, second);
    OldContextPath(input, stamp, first, second);
    var s, step, f := a[5], p[5], Entry([input], stamp, stamp + first);
    assert a[6] == Next(s, step);
    assert Claims(s, step, 0, f, input);
    OneInput(a[6].builds[1], Entry([input], stamp, stamp + second), input);
    var b := UnguardedBreaks(s, step, 0, f, input);
    var q := Fallout(0, input, s);
    Joined(a, p, b, q);
    states, steps := a + b[1..], p + q;
  }

  /** The steps after the second reservation: the first build is handed back late, and a third selects. */
  ghost function SameAnchor(input: Input, stamp: nat, first: nat, second: nat): (steps: seq<Step>) {
    [Die(0), HandBack(0), Begin(stamp + second), Reserve(2, [input], stamp, stamp + second)]
  }

  ghost function SameAnchorStates(input: Input, stamp: nat, first: nat, second: nat): (states: seq<State>) {
    var early, rival := Stamped(input, stamp, first), Stamped(input, stamp, second);
    var dead, gone := early.(dead := true), early.(dead := true, released := true);
    var later := stamp + first + 1;
    [State(later, {}, rival.entries, [early, rival], later, {}),
     State(later, {}, rival.entries, [dead, rival], later, {}),
     State(later, {}, [], [gone, rival], later, {}),
     State(later, {}, [], [gone, rival, rival.(entries := [])], later, {}),
     State(later, {}, rival.entries, [gone, rival, rival], later, {})]
  }

  lemma LateReleaseTakesSecond(input: Input, stamp: nat, first: nat, second: nat)
    ensures var dead := Stamped(input, stamp, first).(dead := true);
            Filter([Entry([input], stamp, stamp + second)], (f: Entry) => !TakenBy(dead, f)) == []
  {
    var e, g := Entry([input], stamp, stamp + first), Entry([input], stamp, stamp + second);
    var dead := Stamped(input, stamp, first).(dead := true);
    assert Spends(e, input) && Spends(g, input);
    assert Clash(g, e) && e in dead.entries;
    FilterOne(g, (f: Entry) => !TakenBy(dead, f));
  }

  lemma SameAnchorPath(input: Input, stamp: nat, first: nat, second: nat)
    requires 1 <= first && first + 2 <= second
    ensures Path(SameAnchorStates(input, stamp, first, second), SameAnchor(input, stamp, first, second))
  {
    var states, steps := SameAnchorStates(input, stamp, first, second), SameAnchor(input, stamp, first, second);
    LateReleaseTakesSecond(input, stamp, first, second);
    assert [] + [Entry([input], stamp, stamp + second)] == [Entry([input], stamp, stamp + second)];
    hide TakenBy;
    forall i | 0 <= i < 4 ensures Enabled(states[i], steps[i]) && states[i + 1] == Next(states[i], steps[i]) {
    }
  }
}
