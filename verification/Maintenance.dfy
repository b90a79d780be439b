/**
 The maintenance committee: k-of-n checks on committees and signatures, and the
 check of a batch of verifier-key steps through an overlay of the chain's set.
 */
module Maintenance {
  import opened Wrappers
  import opened Orders
  import opened Walk

  const U32: nat := 0x1_0000_0000

  newtype u32 = x: int | 0 <= x < 0x1_0000_0000

  datatype MaintenanceError =
    | EmptyCommittee
    | ZeroThreshold
    | UnmeetableThreshold
    | DuplicateMember
    | IndexOutside(index: u32)
    | DuplicateSignature(index: u32)
    | InvalidSignature(index: u32)
    | TooFewSignatures
    | ForeignMember
    | AlreadyPresent(circuit: string)
    | NotPresent(circuit: string)
    | NoOperations
    | TwoReplacements

  /** A committee that `threshold` distinct members can govern, and nobody else. */
  ghost predicate Governable<K>(committee: seq<K>, threshold: u32) {
    NoDup(committee) && 1 <= threshold as int <= |committee|
  }

  /** `validate_committee`. */
  method ValidateCommittee<K(==)>(committee: seq<K>, threshold: u32) returns (r: Result<(), MaintenanceError>)
    ensures r.Ok? <==> Governable(committee, threshold)
    ensures r.Ok? <==>
              && 1 <= threshold as int <= |committee|
              && forall i, j :: 0 <= i < j < |committee| ==> committee[i] != committee[j]
    ensures r.Err? ==>
              r.error == if |committee| == 0 then EmptyCommittee
                         else if threshold == 0 then ZeroThreshold
                         else if threshold as int > |committee| then UnmeetableThreshold
                         else DuplicateMember
  {
    if |committee| == 0 {
      return Err(EmptyCommittee);
    }
    if threshold == 0 {
      return Err(ZeroThreshold);
    }
    if threshold as int > |committee| {
      return Err(UnmeetableThreshold);
    }
    for i := 0 to |committee|
      invariant NoDup(committee[..i])
    {
      if committee[i] in committee[..i] {
        ghost var j :| 0 <= j < i && committee[..i][j] == committee[i];
        assert committee[j] == committee[i];
        return Err(DuplicateMember);
      }
      assert committee[..i + 1] == committee[..i] + [committee[i]];
    }
    assert committee[..|committee|] == committee;
    return Ok(());
  }

  /** Every signature is by a member of the committee, no member signs twice, and each verifies. */
  ghost predicate Normalized<K, S>(
      signatures: seq<(u32, S)>, committee: seq<K>, verifies: (K, S) -> bool)
  {
    && (forall i :: 0 <= i < |signatures| ==>
          signatures[i].0 as int < |committee| && verifies(committee[signatures[i].0 as int], signatures[i].1))
    && (forall i, j :: 0 <= i < j < |signatures| ==> signatures[i].0 != signatures[j].0)
  }

  /** The count the threshold is compared with: the source casts it to 32 bits. */
  function CountAsU32(n: nat): (count: nat) {
    n % U32
  }

  /** What is wrong with the signature at `i`, after normalized ones. */
  ghost function BadSignature<K, S>(
      signatures: seq<(u32, S)>, committee: seq<K>, verifies: (K, S) -> bool, i: nat)
    : (e: Option<MaintenanceError>)
    requires i < |signatures|
  {
    var (idx, sig) := signatures[i];
    if idx as int >= |committee| then Some(IndexOutside(idx))
    else if exists j :: 0 <= j < i && signatures[j].0 == idx then Some(DuplicateSignature(idx))
    else if !verifies(committee[idx as int], sig) then Some(InvalidSignature(idx))
    else None
  }

  /** `validate_signatures`, over one message; `verifies` is the signature scheme on it. */
  method ValidateSignatures<K, S>(
      signatures: seq<(u32, S)>, committee: seq<K>, threshold: u32, verifies: (K, S) -> bool)
    returns (r: Result<(), MaintenanceError>)
    ensures r.Ok? <==>
              Normalized(signatures, committee, verifies) && CountAsU32(|signatures|) >= threshold as int
    ensures r == Err(TooFewSignatures) ==>
              Normalized(signatures, committee, verifies) && CountAsU32(|signatures|) < threshold as int
    ensures r.Ok? <==>
              && (forall i :: 0 <= i < |signatures| ==>
                    && signatures[i].0 as int < |committee|
                    && verifies(committee[signatures[i].0 as int], signatures[i].1))
              && (forall i, j :: 0 <= i < j < |signatures| ==> signatures[i].0 != signatures[j].0)
              && CountAsU32(|signatures|) >= threshold as int
    ensures r.Err? && r.error != TooFewSignatures ==>
              exists i :: 0 <= i < |signatures| && Normalized(signatures[..i], committee, verifies)
                          && BadSignature(signatures, committee, verifies, i) == Some(r.error)
  {
    hide Normalized, Indices;
    var seen: set<u32> := {};
    NormalizedStart(signatures, committee, verifies);
    NormalizedMeans(signatures, committee, verifies);
    for i := 0 to |signatures|
      invariant Normalized(signatures[..i], committee, verifies)
      invariant seen == Indices(signatures, i) && |seen| == i
    {
      var (idx, sig) := signatures[i];
      NormalizedNext(signatures, committee, verifies, i);
      IndicesMembers(signatures, i, idx);
      if idx as int >= |committee| {
        return Err(IndexOutside(idx));
      }
      if idx in seen {
        return Err(DuplicateSignature(idx));
      }
      seen := seen + {idx};
      if !verifies(committee[idx as int], sig) {
        return Err(InvalidSignature(idx));
      }
    }
    assert signatures[..|signatures|] == signatures;
    if CountAsU32(|seen|) < threshold as int {
      return Err(TooFewSignatures);
    }
    return Ok(());
  }

  /** The indices of the first `n` signatures. */
  ghost function Indices<S>(signatures: seq<(u32, S)>, n: nat): (r: set<u32>)
    requires n <= |signatures|
  {
    if n == 0 then {} else Indices(signatures, n - 1) + {signatures[n - 1].0}
  }

  lemma {:induction false} IndicesMembers<S>(signatures: seq<(u32, S)>, n: nat, x: u32)
    requires n <= |signatures|
    ensures x in Indices(signatures, n) <==> exists k :: 0 <= k < n && signatures[k].0 == x
  {
    if n > 0 {
      IndicesMembers(signatures, n - 1, x);
    }
  }

  lemma NormalizedMeans<K, S>(signatures: seq<(u32, S)>, committee: seq<K>, verifies: (K, S) -> bool)
    ensures Normalized(signatures, committee, verifies) <==>
              && (forall i :: 0 <= i < |signatures| ==>
                    && signatures[i].0 as int < |committee|
                    && verifies(committee[signatures[i].0 as int], signatures[i].1))
              && (forall i, j :: 0 <= i < j < |signatures| ==> signatures[i].0 != signatures[j].0)
  {
  }

  lemma NormalizedStart<K, S>(signatures: seq<(u32, S)>, committee: seq<K>, verifies: (K, S) -> bool)
    ensures Normalized(signatures[..0], committee, verifies) && Indices(signatures, 0) == {}
  {
  }

  /** The next signature is in range, new and verifies if the whole list is normalized; if it is, one more is. */
  lemma NormalizedNext<K, S>(
      signatures: seq<(u32, S)>, committee: seq<K>, verifies: (K, S) -> bool, i: nat)
    requires i < |signatures| && Normalized(signatures[..i], committee, verifies)
    ensures var (idx, sig) := signatures[i];
            var admitted := idx as int < |committee| && idx !in Indices(signatures, i)
                            && verifies(committee[idx as int], sig);
            && (admitted ==> Normalized(signatures[..i + 1], committee, verifies))
            && (Normalized(signatures, committee, verifies) ==> admitted)
            && Indices(signatures, i + 1) == Indices(signatures, i) + {idx}
  {
    var next := signatures[..i + 1];
    IndicesMembers(signatures, i, signatures[i].0);
    assert next == signatures[..i] + [signatures[i]];
    forall j, k | 0 <= j < k < |next| && next[i].0 !in Indices(signatures, i) ensures next[j].0 != next[k].0 {
      if k < i {
        assert signatures[..i][j].0 != signatures[..i][k].0;
      }
    }
  }

  /** The members whose key verifies one of the signatures. */
  ghost function Signers<K(!new), S>(signatures: seq<(u32, S)>, committee: seq<K>): (r: set<K>)
    requires forall i :: 0 <= i < |signatures| ==> signatures[i].0 as int < |committee|
  {
    set i | 0 <= i < |signatures| :: committee[signatures[i].0 as int]
  }

  lemma {:induction false} SignersAreDistinct<K(!new), S>(
      signatures: seq<(u32, S)>, committee: seq<K>, verifies: (K, S) -> bool)
    requires Normalized(signatures, committee, verifies) && NoDup(committee)
    ensures |Signers(signatures, committee)| == |signatures|
  {
    if signatures == [] {
      assert Signers(signatures, committee) == {};
    } else {
      var last := |signatures| - 1;
      var front := signatures[..last];
      SignersAreDistinct(front, committee, verifies);
      var key := committee[signatures[last].0 as int];
      forall i | 0 <= i < last ensures committee[front[i].0 as int] != key {
        assert signatures[i].0 != signatures[last].0;
      }
      assert Signers(signatures, committee) == Signers(front, committee) + {key};
    }
  }

  /**
   Quorum: an accepted committee and an accepted signature list mean that at least
   `threshold` distinct keys each verify a signature of the list.
   */
  lemma Quorum<K(!new), S>(
      signatures: seq<(u32, S)>, committee: seq<K>, threshold: u32, verifies: (K, S) -> bool)
    returns (signers: set<K>)
    requires Governable(committee, threshold)
    requires Normalized(signatures, committee, verifies) && CountAsU32(|signatures|) >= threshold as int
    ensures |signers| >= threshold as int >= 1
    ensures forall key :: key in signers ==>
              key in committee && exists i :: 0 <= i < |signatures| && verifies(key, signatures[i].1)
  {
    SignersAreDistinct(signatures, committee, verifies);
    signers := Signers(signatures, committee);
    forall key | key in signers
      ensures key in committee && exists i :: 0 <= i < |signatures| && verifies(key, signatures[i].1)
    {
      var i :| 0 <= i < |signatures| && committee[signatures[i].0 as int] == key;
      assert verifies(key, signatures[i].1);
    }
  }

  /**
   The cast to 32 bits changes the verdict for no list shorter than 2^32, and no
   list of distinct indices is longer than that.
   */
  lemma CastIsHarmless<K, S>(signatures: seq<(u32, S)>, committee: seq<K>, threshold: u32, verifies: (K, S) -> bool)
    requires Normalized(signatures, committee, verifies)
    ensures |signatures| <= U32
    ensures |signatures| < U32 ==> (CountAsU32(|signatures|) >= threshold as int <==> |signatures| >= threshold as int)
    ensures |signatures| == U32 ==> (CountAsU32(|signatures|) >= threshold as int <==> threshold == 0)
  {
    DistinctIndicesFit(signatures);
  }

  lemma DistinctIndicesFit<S>(signatures: seq<(u32, S)>)
    requires forall i, j :: 0 <= i < j < |signatures| ==> signatures[i].0 != signatures[j].0
    ensures |signatures| <= U32
  {
    hide Range;
    var indices := seq(|signatures|, i requires 0 <= i < |signatures| => signatures[i].0 as int);
    NoDupCardinality(indices);
    RangeSize(U32);
    SubsetCardinality(Elements(indices), Range(U32));
  }

  ghost function Range(n: nat): (r: set<int>) {
    if n == 0 then {} else Range(n - 1) + {n - 1}
  }

  lemma {:induction false} RangeSize(n: nat)
    ensures |Range(n)| == n
    ensures forall x :: x in Range(n) <==> 0 <= x < n
  {
    if n > 0 {
      RangeSize(n - 1);
    }
  }

  /** A retired authority, an empty committee at threshold 1, is met by no signature list. */
  lemma RetiredIsFinal<K, S>(signatures: seq<(u32, S)>, verifies: (K, S) -> bool)
    ensures !(Normalized(signatures, [], verifies) && CountAsU32(|signatures|) >= 1)
  {
    if |signatures| > 0 {
      assert Normalized<K, S>(signatures, [], verifies) ==> signatures[0].0 as int < 0;
    }
  }

  // ---------------------------------------------------------------------------
  // Batches
  // ---------------------------------------------------------------------------

  datatype OpSpec<K> =
    | Insert(circuit: string, verifierKey: seq<bv8>)
    | Remove(removed: string)
    | Replace(committee: seq<K>, threshold: u32)
    | Retire

  /** A verifier-key step: the circuit, and whether it is inserted. */
  type VkOp = (string, bool)

  predicate Legal(present: set<string>, op: VkOp) {
    if op.1 then op.0 !in present else op.0 in present
  }

  function ApplyOp(present: set<string>, op: VkOp): (after: set<string>) {
    if op.1 then present + {op.0} else present - {op.0}
  }

  /** The operations set after the first `n` steps, applied for real. */
  function Simulated(present: set<string>, ops: seq<VkOp>, n: nat): (after: set<string>)
    requires n <= |ops|
  {
    if n == 0 then present else ApplyOp(Simulated(present, ops, n - 1), ops[n - 1])
  }

  /** Applying the steps in order never inserts a present circuit or removes an absent one. */
  ghost predicate AllLegal(present: set<string>, ops: seq<VkOp>) {
    forall n :: 0 <= n < |ops| ==> Legal(Simulated(present, ops, n), ops[n])
  }

  /** The overlay, over the chain's set: it answers for every circuit as the simulated set does. */
  ghost predicate Agrees(overlay: map<string, bool>, present: set<string>, simulated: set<string>) {
    forall c :: (if c in overlay then overlay[c] else c in present) <==> c in simulated
  }

  /** `validate_vk_sequence`: it accepts exactly the legal sequences, and names the first illegal step. */
  method ValidateVkSequence(present: set<string>, ops: seq<VkOp>) returns (r: Result<(), MaintenanceError>)
    ensures r.Ok? <==> AllLegal(present, ops)
    ensures r.Err? ==>
              exists n :: 0 <= n < |ops| && !Legal(Simulated(present, ops, n), ops[n])
                          && (forall m :: 0 <= m < n ==> Legal(Simulated(present, ops, m), ops[m]))
                          && r.error == if ops[n].1 then AlreadyPresent(ops[n].0) else NotPresent(ops[n].0)
  {
    var overlay: map<string, bool> := map[];
    for i := 0 to |ops|
      invariant Agrees(overlay, present, Simulated(present, ops, i))
      invariant forall m :: 0 <= m < i ==> Legal(Simulated(present, ops, m), ops[m])
    {
      var (circuit, isInsert) := ops[i];
      var there := if circuit in overlay then overlay[circuit] else circuit in present;
      assert there <==> circuit in Simulated(present, ops, i);
      if isInsert && there {
        assert !Legal(Simulated(present, ops, i), ops[i]);
        return Err(AlreadyPresent(circuit));
      }
      if !isInsert && !there {
        assert !Legal(Simulated(present, ops, i), ops[i]);
        return Err(NotPresent(circuit));
      }
      overlay := overlay[circuit := isInsert];
    }
    return Ok(());
  }

  /** Before step `n` the last step on its circuit is at `j`. */
  ghost predicate LastOn(ops: seq<VkOp>, n: nat, j: nat)
    requires n < |ops|
  {
    j < n && ops[j].0 == ops[n].0 && forall k :: j < k < n ==> ops[k].0 != ops[n].0
  }

  /** The step undoes the last one on its circuit; the first one on a circuit goes by the chain's set. */
  ghost predicate Alternates(present: set<string>, ops: seq<VkOp>, n: nat)
    requires n < |ops|
  {
    && (forall j: nat :: LastOn(ops, n, j) ==> ops[j].1 != ops[n].1)
    && ((forall j :: 0 <= j < n ==> ops[j].0 != ops[n].0) ==> (ops[n].1 <==> ops[n].0 !in present))
  }

  /** The last step on a circuit says whether it is there. */
  lemma {:induction false} LastStepDecides(present: set<string>, ops: seq<VkOp>, n: nat, j: nat)
    requires j < n <= |ops| && forall k :: j < k < n ==> ops[k].0 != ops[j].0
    ensures ops[j].0 in Simulated(present, ops, n) <==> ops[j].1
  {
    if j < n - 1 {
      LastStepDecides(present, ops, n - 1, j);
    }
  }

  /** What no step names is there when it was before. */
  lemma {:induction false} UntouchedStays(present: set<string>, ops: seq<VkOp>, n: nat, c: string)
    requires n <= |ops| && forall k :: 0 <= k < n ==> ops[k].0 != c
    ensures c in Simulated(present, ops, n) <==> c in present
  {
    if n > 0 {
      UntouchedStays(present, ops, n - 1, c);
    }
  }

  lemma {:induction false} LastOnExists(ops: seq<VkOp>, n: nat, m: nat) returns (j: nat)
    requires m <= n < |ops|
    requires exists k :: 0 <= k < m && ops[k].0 == ops[n].0
    requires forall k :: m <= k < n ==> ops[k].0 != ops[n].0
    ensures LastOn(ops, n, j)
  {
    j := m - 1;
    if ops[j].0 != ops[n].0 {
      j := LastOnExists(ops, n, m - 1);
    }
  }

  /**
   A sequence is legal exactly when on every circuit inserts and removals take
   turns, and the first one is an insert just when the chain has no key for it.
   */
  lemma LegalIsAlternating(present: set<string>, ops: seq<VkOp>)
    ensures AllLegal(present, ops) <==> forall n :: 0 <= n < |ops| ==> Alternates(present, ops, n)
  {
    forall n | 0 <= n < |ops| ensures Legal(Simulated(present, ops, n), ops[n]) <==> Alternates(present, ops, n) {
      if k :| 0 <= k < n && ops[k].0 == ops[n].0 {
        var j := LastOnExists(ops, n, n);
        LastStepDecides(present, ops, n, j);
        assert forall i: nat :: LastOn(ops, n, i) ==> i == j;
      } else {
        UntouchedStays(present, ops, n, ops[n].0);
      }
    }
  }

  /** The verifier-key steps of a batch, replace and retire steps left out. */
  function VkOps<K>(specs: seq<OpSpec<K>>): (ops: seq<VkOp>) {
    if specs == [] then []
    else
      var last := |specs| - 1;
      VkOps(specs[..last]) +
      match specs[last]
      case Insert(c, _) => [(c, true)]
      case Remove(c) => [(c, false)]
      case Replace(_, _) => []
      case Retire => []
  }

  /** What a step of the whole batch does to the operations set. */
  function ApplySpec<K>(present: set<string>, spec: OpSpec<K>): (after: set<string>) {
    match spec
    case Insert(c, _) => present + {c}
    case Remove(c) => present - {c}
    case Replace(_, _) => present
    case Retire => present
  }

  predicate LegalSpec<K>(present: set<string>, spec: OpSpec<K>) {
    match spec
    case Insert(c, _) => c !in present
    case Remove(c) => c in present
    case Replace(_, _) => true
    case Retire => true
  }

  function BatchSet<K>(present: set<string>, specs: seq<OpSpec<K>>, n: nat): (after: set<string>)
    requires n <= |specs|
  {
    if n == 0 then present else ApplySpec(BatchSet(present, specs, n - 1), specs[n - 1])
  }

  ghost predicate BatchLegal<K(!new)>(present: set<string>, specs: seq<OpSpec<K>>) {
    forall n :: 0 <= n < |specs| ==> LegalSpec(BatchSet(present, specs, n), specs[n])
  }

  lemma {:induction false} SimulatedPrefix(present: set<string>, a: seq<VkOp>, b: seq<VkOp>, n: nat)
    requires n <= |a|
    ensures Simulated(present, a + b, n) == Simulated(present, a, n)
  {
    if n > 0 {
      SimulatedPrefix(present, a, b, n - 1);
    }
  }

  lemma {:induction false} BatchSetPrefix<K>(present: set<string>, specs: seq<OpSpec<K>>, m: nat, n: nat)
    requires n <= m <= |specs|
    ensures BatchSet(present, specs[..m], n) == BatchSet(present, specs, n)
  {
    if n > 0 {
      BatchSetPrefix(present, specs, m, n - 1);
    }
  }

  /** One more step: the sequence is legal when it was before and the step is. */
  lemma LegalNext(present: set<string>, ops: seq<VkOp>, op: VkOp)
    ensures AllLegal(present, ops + [op]) <==>
              AllLegal(present, ops) && Legal(Simulated(present, ops, |ops|), op)
    ensures Simulated(present, ops + [op], |ops| + 1) == ApplyOp(Simulated(present, ops, |ops|), op)
  {
    forall n | 0 <= n <= |ops| ensures Simulated(present, ops + [op], n) == Simulated(present, ops, n) {
      SimulatedPrefix(present, ops, [op], n);
    }
    assert forall n :: 0 <= n < |ops| ==> (ops + [op])[n] == ops[n];
    if AllLegal(present, ops + [op]) {
      forall n | 0 <= n < |ops| ensures Legal(Simulated(present, ops, n), ops[n]) {
        assert Legal(Simulated(present, ops + [op], n), (ops + [op])[n]);
      }
      assert Legal(Simulated(present, ops + [op], |ops|), (ops + [op])[|ops|]);
    }
  }

  lemma BatchLegalNext<K(!new)>(present: set<string>, specs: seq<OpSpec<K>>)
    requires specs != []
    ensures var last := |specs| - 1;
            && (BatchLegal(present, specs) <==>
                  BatchLegal(present, specs[..last]) && LegalSpec(BatchSet(present, specs[..last], last), specs[last]))
            && BatchSet(present, specs, last + 1) == ApplySpec(BatchSet(present, specs[..last], last), specs[last])
  {
    hide LegalSpec, ApplySpec;
    var last := |specs| - 1;
    forall n | 0 <= n <= last ensures BatchSet(present, specs[..last], n) == BatchSet(present, specs, n) {
      BatchSetPrefix(present, specs, last, n);
    }
    if BatchLegal(present, specs) {
      forall n | 0 <= n < last ensures LegalSpec(BatchSet(present, specs[..last], n), specs[..last][n]) {
        assert LegalSpec(BatchSet(present, specs, n), specs[n]);
      }
    }
  }

  lemma NothingIsLegal<K(!new)>(present: set<string>, specs: seq<OpSpec<K>>)
    requires specs == []
    ensures AllLegal(present, []) && BatchLegal(present, specs)
    ensures Simulated(present, [], 0) == BatchSet(present, specs, 0)
  {
  }

  lemma StepsAgree<K>(present: set<string>, spec: OpSpec<K>)
    ensures spec.Insert? ==>
              Legal(present, (spec.circuit, true)) == LegalSpec(present, spec)
              && ApplyOp(present, (spec.circuit, true)) == ApplySpec(present, spec)
    ensures spec.Remove? ==>
              Legal(present, (spec.removed, false)) == LegalSpec(present, spec)
              && ApplyOp(present, (spec.removed, false)) == ApplySpec(present, spec)
    ensures IsReplacement(spec) ==> LegalSpec(present, spec) && ApplySpec(present, spec) == present
  {
  }

  /** Leaving the replace and retire steps out changes neither the verdict nor the final set. */
  lemma {:induction false} ReplacesDoNotMatter<K(!new)>(present: set<string>, specs: seq<OpSpec<K>>)
    ensures AllLegal(present, VkOps(specs)) <==> BatchLegal(present, specs)
    ensures Simulated(present, VkOps(specs), |VkOps(specs)|) == BatchSet(present, specs, |specs|)
  {
    hide AllLegal, BatchLegal, Simulated, BatchSet, Legal, ApplyOp, LegalSpec, ApplySpec;
    if specs == [] {
      NothingIsLegal(present, specs);
    } else {
      var last := |specs| - 1;
      var front := VkOps(specs[..last]);
      StepsAgree(Simulated(present, front, |front|), specs[last]);
      ReplacesDoNotMatter(present, specs[..last]);
      BatchLegalNext(present, specs);
      match specs[last]
      case Insert(c, _) => LegalNext(present, front, (c, true));
      case Remove(c) => LegalNext(present, front, (c, false));
      case Replace(_, _) => assert VkOps(specs) == front;
      case Retire => assert VkOps(specs) == front;
    }
  }

  function IsReplacement<K>(spec: OpSpec<K>): (b: bool) {
    spec.Replace? || spec.Retire?
  }

  ghost predicate NoneYet<K>(specs: seq<OpSpec<K>>, n: nat)
    requires n <= |specs|
  {
    forall i :: 0 <= i < n ==> !IsReplacement(specs[i])
  }

  ghost predicate AtMostOne<K>(specs: seq<OpSpec<K>>, n: nat)
    requires n <= |specs|
  {
    forall i, j :: 0 <= i < j < n ==> !(IsReplacement(specs[i]) && IsReplacement(specs[j]))
  }

  lemma OneMoreSpec<K>(specs: seq<OpSpec<K>>, n: nat)
    requires n < |specs|
    ensures NoneYet(specs, n + 1) <==> NoneYet(specs, n) && !IsReplacement(specs[n])
    ensures AtMostOne(specs, n + 1) <==> AtMostOne(specs, n) && (!IsReplacement(specs[n]) || NoneYet(specs, n))
  {
    forall i | 0 <= i < n && IsReplacement(specs[i]) && IsReplacement(specs[n]) ensures !AtMostOne(specs, n + 1) {
    }
  }

  ghost predicate GovernableUpTo<K>(specs: seq<OpSpec<K>>, n: nat)
    requires n <= |specs|
  {
    forall i :: 0 <= i < n && specs[i].Replace? ==> Governable(specs[i].committee, specs[i].threshold)
  }

  /** The batch replaces the authority at most once, by a committee that can govern. */
  ghost predicate SoundReplacements<K>(specs: seq<OpSpec<K>>) {
    GovernableUpTo(specs, |specs|) && AtMostOne(specs, |specs|)
  }

  method CheckReplacements<K(==)>(specs: seq<OpSpec<K>>) returns (r: Result<(), MaintenanceError>)
    ensures r.Ok? <==> SoundReplacements(specs)
    ensures r.Ok? <==>
              && (forall i :: 0 <= i < |specs| && specs[i].Replace? ==>
                    1 <= specs[i].threshold as int <= |specs[i].committee| && NoDup(specs[i].committee))
              && (forall i, j :: 0 <= i < j < |specs| ==>
                    !((specs[i].Replace? || specs[i].Retire?) && (specs[j].Replace? || specs[j].Retire?)))
    ensures r.Err? ==>
              || (exists i :: 0 <= i < |specs| && specs[i].Replace?
                              && !Governable(specs[i].committee, specs[i].threshold))
              || (r.error == TwoReplacements
                  && exists i, j :: 0 <= i < j < |specs|
                       && (specs[i].Replace? || specs[i].Retire?) && (specs[j].Replace? || specs[j].Retire?))
  {
    hide Governable, NoneYet, AtMostOne;
    var count: nat := 0;
    EmptyStart(specs);
    SoundMeans(specs);
    for i := 0 to |specs|
      invariant GovernableUpTo(specs, i)
      invariant count == 0 <==> NoneYet(specs, i)
      invariant count <= 1 <==> AtMostOne(specs, i)
    {
      OneMoreSpec(specs, i);
      match specs[i] {
        case Replace(committee, threshold) =>
          count := count + 1;
          var valid := ValidateCommittee(committee, threshold);
          if valid.Err? {
            return Err(valid.error);
          }
        case Retire => count := count + 1;
        case Insert(_, _) =>
        case Remove(_) =>
      }
    }
    return if count > 1 then Err(TwoReplacements) else Ok(());
  }

  lemma SoundMeans<K>(specs: seq<OpSpec<K>>)
    ensures AtMostOne(specs, |specs|) <==>
              forall i, j :: 0 <= i < j < |specs| ==>
                !((specs[i].Replace? || specs[i].Retire?) && (specs[j].Replace? || specs[j].Retire?))
    ensures GovernableUpTo(specs, |specs|) <==>
              forall i :: 0 <= i < |specs| && specs[i].Replace? ==>
                1 <= specs[i].threshold as int <= |specs[i].committee| && NoDup(specs[i].committee)
  {
  }

  lemma EmptyStart<K>(specs: seq<OpSpec<K>>)
    ensures NoneYet(specs, 0) && AtMostOne(specs, 0)
  {
  }

  method CollectVkOps<K>(specs: seq<OpSpec<K>>) returns (ops: seq<VkOp>)
    ensures ops == VkOps(specs)
  {
    ops := [];
    for i := 0 to |specs|
      invariant ops == VkOps(specs[..i])
    {
      assert specs[..i + 1][..i] == specs[..i];
      match specs[i] {
        case Insert(c, _) => ops := ops + [(c, true)];
        case Remove(c) => ops := ops + [(c, false)];
        case Replace(_, _) =>
        case Retire =>
      }
    }
    assert specs[..|specs|] == specs;
  }

  /** The checks of a batch before it is built: accepted exactly when the whole batch is sound. */
  method CheckBatch<K(==, !new)>(present: set<string>, schnorr: bool, specs: seq<OpSpec<K>>)
    returns (r: Result<(), MaintenanceError>)
    ensures r.Ok? <==>
              specs != [] && schnorr && BatchLegal(present, specs) && SoundReplacements(specs)
    ensures specs == [] ==> r == Err(NoOperations)
    ensures specs != [] && !schnorr ==> r == Err(ForeignMember)
  {
    if |specs| == 0 {
      return Err(NoOperations);
    }
    if !schnorr {
      return Err(ForeignMember);
    }
    var ops := CollectVkOps(specs);
    var legal := ValidateVkSequence(present, ops);
    ReplacesDoNotMatter(present, specs);
    if legal.Err? {
      return Err(legal.error);
    }
    r := CheckReplacements(specs);
  }
}
