/** What a build spends, each input with the stamp of its reservation. */
module Inputs {

  datatype Input =
    | Dust(nullifier: string)
    | Utxo(intentHash: string, outputIndex: nat)
    | Coin(coinNullifier: string)

  datatype ReservedInput = ReservedInput(input: Input, reservedAt: nat)

  datatype SpentInputs = SpentInputs(
    dust: seq<ReservedInput>, unshielded: seq<ReservedInput>, shielded: seq<ReservedInput>)

  const NOTHING: SpentInputs := SpentInputs([], [], [])

  function Merge(a: SpentInputs, b: SpentInputs): (r: SpentInputs) {
    SpentInputs(a.dust + b.dust, a.unshielded + b.unshielded, a.shielded + b.shielded)
  }

  predicate IsEmpty(s: SpentInputs) {
    s.dust == [] && s.unshielded == [] && s.shielded == []
  }

  ghost predicate Names(s: SpentInputs, input: Input, stamp: nat) {
    ReservedInput(input, stamp) in s.dust + s.unshielded + s.shielded
  }

  /** What is empty names nothing, so nothing that names an input is taken for empty; `NOTHING` is one such. */
  lemma EmptyNamesNothing(s: SpentInputs)
    ensures IsEmpty(s) <==> forall input, stamp :: !Names(s, input, stamp)
    ensures IsEmpty(NOTHING)
  {
    if r :| r in s.dust + s.unshielded + s.shielded {
      assert Names(s, r.input, r.reservedAt);
    }
    if !IsEmpty(s) {
      var all := s.dust + s.unshielded + s.shielded;
      assert all[0] in all;
    }
  }

  /** A merge names exactly what its two parts name, each input under its own stamp. */
  lemma MergeKeepsStamps(a: SpentInputs, b: SpentInputs, input: Input, stamp: nat)
    ensures Names(Merge(a, b), input, stamp) <==> Names(a, input, stamp) || Names(b, input, stamp)
    ensures IsEmpty(Merge(a, b)) <==> IsEmpty(a) && IsEmpty(b)
  {
    var r := ReservedInput(input, stamp);
    assert r in Merge(a, b).dust <==> r in a.dust || r in b.dust;
    assert r in Merge(a, b).unshielded <==> r in a.unshielded || r in b.unshielded;
    assert r in Merge(a, b).shielded <==> r in a.shielded || r in b.shielded;
  }
}
