/**
 The chain pin: a finalized block a wallet saw, by which a later resync tells
 whether the node still runs the same chain. The node can move to another chain
 between any two queries, and never back.
 */
module ChainPin {
  import opened Wrappers
  import opened Snapshots

  datatype Pin = Pin(height: nat, hash: Hash)

  datatype ChainCheck = SameChain | Replaced(found: Option<Hash>) | Unknown

  datatype ResyncDepth = Delta | Genesis

  datatype WalletError = ChainMismatch(pin: Pin, found: Option<Hash>) | ReplayFailed

  /** Which chain holds which block: era, height, hash. */
  type Chains = (nat, nat, Hash) -> bool

  /** One answer of the node: the chain it runs by then, and what it reports of it. */
  datatype Answer = Answer(era: nat, finalized: Option<nat>, blocks: nat -> Option<seq<Hash>>)

  predicate EqIgnoreAsciiCase(a: string, b: string) {
    |a| == |b| && forall i :: 0 <= i < |a| ==> Lower(a[i]) == Lower(b[i])
  }

  /** The chain of `era` holds the pinned block. */
  ghost predicate Names(chains: Chains, era: nat, pin: Pin) {
    exists h :: chains(era, pin.height, h) && EqIgnoreAsciiCase(h, pin.hash)
  }

  /** The pinned block is on the chain of `era` and on no other. */
  ghost predicate OnlyOn(chains: Chains, era: nat, pin: Pin) {
    Names(chains, era, pin) && forall other :: Names(chains, other, pin) ==> other == era
  }

  ghost predicate Truthful(chains: Chains, a: Answer) {
    forall height, h :: a.blocks(height).Some? && h in a.blocks(height).value ==> chains(a.era, height, h)
  }

  class Node {
    ghost const chains: Chains
    var era: nat
    var script: seq<Answer>

    constructor (ghost chains: Chains, era: nat, script: seq<Answer>)
      ensures this.chains == chains && this.era == era && this.script == script
    {
      this.chains := chains;
      this.era := era;
      this.script := script;
    }

    /** The answers to come are true of the chain they come from, and chains only succeed each other. */
    ghost predicate Valid()
      reads this
    {
      && (forall i :: 0 <= i < |script| ==> Truthful(chains, script[i]) && era <= script[i].era)
      && (forall i, j :: 0 <= i < j < |script| ==> script[i].era <= script[j].era)
    }

    method Query() returns (a: Option<Answer>)
      requires Valid()
      modifies this
      ensures Valid() && era >= old(era)
      ensures old(script) == [] ==> a == None && script == []
      ensures old(script) != [] ==> a == Some(old(script)[0]) && script == old(script)[1..]
      ensures a.Some? ==> a.value.era == era && Truthful(chains, a.value)
    {
      if script == [] {
        return None;
      }
      a := Some(script[0]);
      era, script := script[0].era, script[1..];
    }

    method BlockHashesAt(height: nat) returns (hashes: Option<seq<Hash>>)
      requires Valid()
      modifies this
      ensures Valid() && era >= old(era)
      ensures hashes == if old(script) == [] then None else old(script)[0].blocks(height)
      ensures script == if old(script) == [] then [] else old(script)[1..]
      ensures hashes.Some? ==> forall h :: h in hashes.value ==> chains(era, height, h)
    {
      var a := Query();
      return if a.Some? then a.value.blocks(height) else None;
    }

    method FinalizedHeight() returns (height: Option<nat>)
      requires Valid()
      modifies this
      ensures Valid() && era >= old(era)
      ensures height == if old(script) == [] then None else old(script)[0].finalized
      ensures script == if old(script) == [] then [] else old(script)[1..]
    {
      var a := Query();
      return if a.Some? then a.value.finalized else None;
    }
  }

  /** `check_chain_pin`. */
  method CheckChainPin(pin: Pin, hashes: Option<seq<Hash>>) returns (check: ChainCheck)
    ensures check.Unknown? <==> hashes.None?
    ensures check.SameChain? <==> hashes.Some? && exists h :: h in hashes.value && EqIgnoreAsciiCase(h, pin.hash)
    ensures check.Replaced? ==> check.found == if hashes.value == [] then None else Some(hashes.value[0])
  {
    if hashes.None? {
      return Unknown;
    }
    for i := 0 to |hashes.value|
      invariant forall k :: 0 <= k < i ==> !EqIgnoreAsciiCase(hashes.value[k], pin.hash)
    {
      if EqIgnoreAsciiCase(hashes.value[i], pin.hash) {
        return SameChain;
      }
    }
    return Replaced(if hashes.value == [] then None else Some(hashes.value[0]));
  }

  lemma SameText(a: string)
    ensures EqIgnoreAsciiCase(a, a)
  {
  }

  /** Two characters that agree, or differ in the case of an ASCII letter alone. */
  predicate SameLetter(c: char, d: char) {
    || c == d
    || ('A' <= c <= 'Z' && 'a' <= d <= 'z' && d as int - c as int == 'a' as int - 'A' as int)
    || ('a' <= c <= 'z' && 'A' <= d <= 'Z' && c as int - d as int == 'a' as int - 'A' as int)
  }

  /** Hashes are compared as texts up to the case of ASCII letters, and nothing else. */
  lemma CaseAloneIsIgnored(a: string, b: string)
    ensures EqIgnoreAsciiCase(a, b) <==> |a| == |b| && forall i :: 0 <= i < |a| ==> SameLetter(a[i], b[i])
  {
    forall i | 0 <= i < |a| == |b| ensures Lower(a[i]) == Lower(b[i]) <==> SameLetter(a[i], b[i]) {
    }
  }

  /** The pin of two answers: the height the first calls finalized, and the first hash the second has there. */
  function PinFrom(script: seq<Answer>): (pin: Option<Pin>) {
    if |script| < 2 || script[0].finalized.None? then None
    else
      var height := script[0].finalized.value;
      var hashes := script[1].blocks(height);
      if hashes.None? || hashes.value == [] then None else Some(Pin(height, hashes.value[0]))
  }

  /** The answers a pin leaves: it asks for blocks only when there is a finalized height. */
  function AfterPin(script: seq<Answer>): (rest: seq<Answer>) {
    var used := if script == [] then 0 else if script[0].finalized.None? || |script| == 1 then 1 else 2;
    script[used..]
  }

  /** `current_pin`: two queries, and the pin names a block of the chain the second one met. */
  method CurrentPin(node: Node) returns (pin: Option<Pin>)
    requires node.Valid()
    modifies node
    ensures node.Valid() && node.era >= old(node.era)
    ensures pin.Some? ==> Names(node.chains, node.era, pin.value)
    ensures pin == PinFrom(old(node.script))
    ensures pin.Some? <==>
              var script := old(node.script);
              && |script| >= 2 && script[0].finalized.Some?
              && script[1].blocks(script[0].finalized.value).Some?
              && |script[1].blocks(script[0].finalized.value).value| > 0
    ensures pin.Some? ==>
              var script := old(node.script);
              && Some(pin.value.height) == script[0].finalized
              && pin.value.hash == script[1].blocks(pin.value.height).value[0]
    ensures node.script == AfterPin(old(node.script))
  {
    var height := node.FinalizedHeight();
    if height.None? {
      return None;
    }
    var hashes := node.BlockHashesAt(height.value);
    if hashes.None? || hashes.value == [] {
      return None;
    }
    SameText(hashes.value[0]);
    assert hashes.value[0] in hashes.value;
    return Some(Pin(height.value, hashes.value[0]));
  }

  /** `verify_pin`. */
  method VerifyPin(node: Node, pin: Pin) returns (check: ChainCheck)
    requires node.Valid()
    modifies node
    ensures node.Valid() && node.era >= old(node.era)
    ensures check.SameChain? ==> Names(node.chains, node.era, pin)
    ensures var script := old(node.script);
            && (check.Unknown? <==> script == [] || script[0].blocks(pin.height).None?)
            && (check.SameChain? <==>
                  script != [] && script[0].blocks(pin.height).Some?
                  && exists h :: h in script[0].blocks(pin.height).value && EqIgnoreAsciiCase(h, pin.hash))
    ensures check.Replaced? ==>
              var hashes := old(node.script)[0].blocks(pin.height).value;
              check.found == if hashes == [] then None else Some(hashes[0])
  {
    var hashes := node.BlockHashesAt(pin.height);
    check := CheckChainPin(pin, hashes);
  }

  class LocalWallet {
    var pin: Option<Pin>
    var commits: nat

    constructor (pin: Option<Pin>)
      ensures this.pin == pin && commits == 0
    {
      this.pin := pin;
      commits := 0;
    }

    /**
     `resync_with`. The replacement pin is taken before the check, and stored
     after the commit. When the check answers that the chain is the same, and the
     old pin's block is on one chain only, the new pin names a block of that chain,
     however often the node was replaced in between.
     */
    method ResyncWith(node: Node, depth: ResyncDepth, replayed: bool)
      returns (r: Result<(), WalletError>, check: Option<ChainCheck>)
      requires node.Valid()
      modifies this, node
      ensures node.Valid() && node.era >= old(node.era)
      ensures check.Some? <==> old(pin).Some?
      ensures r.Err? ==> pin == old(pin) && commits == old(commits)
      ensures r.Ok? ==> commits == old(commits) + 1 && replayed
      ensures r.Ok? && old(pin).Some? ==>
                pin == if PinFrom(old(node.script)).Some? then PinFrom(old(node.script)) else old(pin)
      ensures check.Some? && check.value.Replaced? && depth == Delta ==>
                r == Err(ChainMismatch(old(pin).value, check.value.found))
      ensures r.Err? ==> (check.Some? && check.value.Replaced? && depth == Delta) || !replayed
      ensures r.Err? && !(check.Some? && check.value.Replaced? && depth == Delta) ==> r.error == ReplayFailed
      ensures var script := old(node.script);
              r.Ok? && old(pin).Some? && |script| >= 2 && script[0].finalized.Some?
              && script[1].blocks(script[0].finalized.value).Some?
              && |script[1].blocks(script[0].finalized.value).value| > 0 ==>
                var height := script[0].finalized.value;
                pin == Some(Pin(height, script[1].blocks(height).value[0]))
      ensures old(pin).Some? ==>
                var rest, held := AfterPin(old(node.script)), old(pin).value;
                && (check == Some(Unknown) <==> rest == [] || rest[0].blocks(held.height).None?)
                && (check == Some(SameChain) <==>
                      rest != [] && rest[0].blocks(held.height).Some?
                      && exists h :: h in rest[0].blocks(held.height).value && EqIgnoreAsciiCase(h, held.hash))
      ensures old(pin).None? <==> pin.None?
      ensures forall home ::
                old(pin).Some? && OnlyOn(node.chains, home, old(pin).value) && old(node.era) >= home
                && check == Some(SameChain) ==>
                  pin.Some? && Names(node.chains, home, pin.value)
    {
      var held := pin;
      var replacement: Option<Pin> := None;
      if held.Some? {
        replacement := CurrentPin(node);
      }
      check := None;
      if held.Some? {
        ghost var taken := node.era;
        var answer := VerifyPin(node, held.value);
        check := Some(answer);
        if answer.Replaced? && depth == Delta {
          return Err(ChainMismatch(held.value, answer.found)), check;
        }
      }
      if !replayed {
        return Err(ReplayFailed), check;
      }
      commits := commits + 1;
      if replacement.Some? {
        pin := replacement;
      }
      r := Ok(());
    }
  }

  /** No two chains share a block. */
  ghost predicate Apart(chains: Chains) {
    forall a, b, pin :: Names(chains, a, pin) && Names(chains, b, pin) ==> a == b
  }

  /** How many of the first `n` replays worked. */
  ghost function Worked(replays: seq<bool>, n: nat): (count: nat)
    requires n <= |replays|
  {
    if n == 0 then 0 else Worked(replays, n - 1) + if replays[n - 1] then 1 else 0
  }

  /**
   A wallet that resyncs again and again stays pinned to the chain its state came
   from, as long as the node answers the checks: the first answer from another
   chain is a mismatch. Up to there every replay that works is committed.
   */
  method KeepResyncing(wallet: LocalWallet, node: Node, replays: seq<bool>, ghost home: nat)
    returns (passed: nat, check: ChainCheck)
    requires node.Valid() && Apart(node.chains)
    requires wallet.pin.Some? && Names(node.chains, home, wallet.pin.value) && node.era >= home
    modifies wallet, node
    ensures node.Valid() && wallet.pin.Some?
    ensures passed <= |replays| && (passed == |replays| <==> check.SameChain?)
    ensures !check.Unknown? ==> Names(node.chains, home, wallet.pin.value)
    ensures wallet.commits
         == old(wallet.commits) + Worked(replays, passed) + if check.Unknown? && replays[passed] then 1 else 0
  {
    check := SameChain;
    for i := 0 to |replays|
      invariant node.Valid() && node.era >= home
      invariant wallet.pin.Some? && Names(node.chains, home, wallet.pin.value)
      invariant check.SameChain? && wallet.commits == old(wallet.commits) + Worked(replays, i)
    {
      var r, answer := wallet.ResyncWith(node, Delta, replays[i]);
      check := answer.value;
      if !check.SameChain? {
        return i, check;
      }
    }
    return |replays|, check;
  }

  /**
   A stored pin of chain `home` convicts every other chain that answers: its
   check can only be Replaced, or Unknown when the node does not answer.
   */
  method DetectsReplacement(node: Node, pin: Pin, ghost home: nat) returns (check: ChainCheck)
    requires node.Valid() && OnlyOn(node.chains, home, pin) && node.era > home
    modifies node
    ensures var script := old(node.script);
            if script == [] || script[0].blocks(pin.height).None? then check == Unknown
            else
              var hashes := script[0].blocks(pin.height).value;
              check == Replaced(if hashes == [] then None else Some(hashes[0]))
  {
    check := VerifyPin(node, pin);
  }

  // ---------------------------------------------------------------------------
  // The two orders of the two steps
  // ---------------------------------------------------------------------------

  /** The eras the two steps of a resync meet, in the order they run. */
  ghost predicate Ordered(first: nat, second: nat, start: nat) {
    start <= first <= second
  }

  /**
   Pin, then check: a check that passes proves that the pin before it came from
   the old pin's chain. Check, then pin proves nothing: for every later chain
   there is a run whose check passes and whose pin is that chain's.
   */
  lemma PinBeforeCheck(chains: Chains, home: nat, held: Pin, start: nat, other: nat)
    requires OnlyOn(chains, home, held) && start >= home
    ensures forall pinned, checked :: Ordered(pinned, checked, start) && Names(chains, checked, held) ==> pinned == home
    ensures other > home && start == home ==>
              exists checked, pinned ::
                Ordered(checked, pinned, start) && Names(chains, checked, held) && pinned == other
  {
    if other > home && start == home {
      assert Ordered(home, other, start) && Names(chains, home, held);
    }
  }
}
