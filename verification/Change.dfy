/**
 The shielded change of calls and deploys, in u128: totals by key, the change
 each key is owed, and the refusal of an offer that pays more than it holds.
 */
module Change {
  import opened Wrappers
  import opened Orders

  const U128_MAX: nat := 0xFFFF_FFFF_FFFF_FFFF_FFFF_FFFF_FFFF_FFFF

  newtype u128 = x: int | 0 <= x <= 0xFFFF_FFFF_FFFF_FFFF_FFFF_FFFF_FFFF_FFFF

  /** The key the ledger balances by: a token, or a token and a segment. */
  datatype Key = Key(token: string, fallible: bool)

  datatype OfferError = Overflow | Shortfall(token: Key, held: u128, paid: u128)

  predicate KeyLe(a: Key, b: Key) {
    if a.token == b.token then !a.fallible || b.fallible else StringLe(a.token, b.token)
  }

  lemma KeyOrder()
    ensures TotalOrder(KeyLe)
  {
    StringOrder();
  }

  /** The true sum of the values under `k`, unbounded. */
  ghost function Sum(values: seq<(Key, u128)>, k: Key): (sum: nat) {
    if values == [] then 0
    else
      var last := |values| - 1;
      Sum(values[..last], k) + if values[last].0 == k then values[last].1 as nat else 0
  }

  function At(totals: map<Key, u128>, k: Key): (v: u128) {
    if k in totals then totals[k] else 0
  }

  lemma {:induction false} SumGrows(values: seq<(Key, u128)>, n: nat, k: Key)
    requires n <= |values|
    ensures Sum(values[..n], k) <= Sum(values, k)
  {
    if n < |values| {
      assert values[..|values| - 1][..n] == values[..n];
      SumGrows(values[..|values| - 1], n, k);
    } else {
      assert values[..n] == values;
    }
  }

  lemma {:induction false} SumConcat(a: seq<(Key, u128)>, b: seq<(Key, u128)>, k: Key)
    ensures Sum(a + b, k) == Sum(a, k) + Sum(b, k)
  {
    if b == [] {
      assert a + b == a;
    } else {
      assert (a + b)[..|a + b| - 1] == a + b[..|b| - 1];
      SumConcat(a, b[..|b| - 1], k);
    }
  }

  /** The sum forgets the order of the values. */
  lemma {:induction false} SumPermutes(a: seq<(Key, u128)>, b: seq<(Key, u128)>, k: Key)
    requires multiset(a) == multiset(b)
    ensures Sum(a, k) == Sum(b, k)
  {
    SameElements(a, b);
    if a != [] {
      var i := TakeOut(a, b);
      SumPermutes(a[1..], b[..i] + b[i + 1..], k);
      assert a == [a[0]] + a[1..] && b == b[..i] + ([b[i]] + b[i + 1..]);
      SumConcat([a[0]], a[1..], k);
      SumConcat(b[..i], [b[i]] + b[i + 1..], k);
      SumConcat([b[i]], b[i + 1..], k);
      SumConcat(b[..i], b[i + 1..], k);
    }
  }

  /** `total_by_key`: it fails exactly when the true sum of some key does not fit. */
  method TotalByKey(values: seq<(Key, u128)>) returns (r: Result<map<Key, u128>, OfferError>)
    ensures r.Ok? <==> forall k :: Sum(values, k) <= U128_MAX
    ensures r.Err? ==> r.error == Overflow
    ensures r.Ok? ==> forall k :: At(r.value, k) as nat == Sum(values, k)
    ensures r.Ok? ==> forall k :: k in r.value <==> exists i :: 0 <= i < |values| && values[i].0 == k
  {
    var totals: map<Key, u128> := map[];
    for i := 0 to |values|
      invariant forall k :: At(totals, k) as nat == Sum(values[..i], k)
      invariant forall k :: k in totals <==> exists j :: 0 <= j < i && values[j].0 == k
    {
      assert values[..i + 1][..i] == values[..i];
      var (key, value) := values[i];
      SumGrows(values, i + 1, key);
      assert Sum(values[..i + 1], key) == At(totals, key) as nat + value as nat;
      if U128_MAX - (At(totals, key) as nat) < value as nat {
        return Err(Overflow);
      }
      totals := totals[key := At(totals, key) + value];
    }
    assert values[..|values|] == values;
    return Ok(totals);
  }

  /** What the outputs of a key draw beyond what a mint credits to it. */
  function Uncovered(drawn: u128, minted: u128): (v: u128) {
    if drawn < minted then 0 else drawn - minted
  }

  /** The change each key is owed, in key order. */
  ghost predicate IsChange(
      change: seq<(Key, u128)>, attached: map<Key, u128>, drawn: map<Key, u128>, minted: map<Key, u128>)
  {
    && (forall i, j :: 0 <= i < j < |change| ==> change[i].0 != change[j].0 && KeyLe(change[i].0, change[j].0))
    && forall k, c :: (k, c) in change <==>
         && k in attached && c > 0
         && attached[k] as int - Uncovered(At(drawn, k), At(minted, k)) as int == c as int
  }

  /** The change of one key, if it is owed any. */
  function Owed(attached: u128, drawn: u128, minted: u128): (owed: Option<u128>)
    ensures owed == None <==> attached <= Uncovered(drawn, minted)
    ensures owed.Some? ==> owed.value > 0 && owed.value as int == attached as int - Uncovered(drawn, minted) as int
  {
    var uncovered := Uncovered(drawn, minted);
    if attached <= uncovered then None else Some(attached - uncovered)
  }

  /** The change of the first `n` keys. */
  ghost function ChangeOf(
      attached: map<Key, u128>, drawn: map<Key, u128>, minted: map<Key, u128>, keys: seq<Key>, n: nat)
    : (change: seq<(Key, u128)>)
    requires n <= |keys|
  {
    if n == 0 then []
    else
      var key, rest := keys[n - 1], ChangeOf(attached, drawn, minted, keys, n - 1);
      var owed := Owed(At(attached, key), At(drawn, key), At(minted, key));
      if owed.Some? then rest + [(key, owed.value)] else rest
  }

  lemma {:induction false} ChangeMembers(
      attached: map<Key, u128>, drawn: map<Key, u128>, minted: map<Key, u128>, keys: seq<Key>, n: nat, k: Key, c: u128)
    requires n <= |keys|
    ensures (k, c) in ChangeOf(attached, drawn, minted, keys, n) <==>
              k in keys[..n] && Owed(At(attached, k), At(drawn, k), At(minted, k)) == Some(c)
  {
    hide Owed, At;
    if n > 0 {
      ChangeMembers(attached, drawn, minted, keys, n - 1, k, c);
      assert keys[..n] == keys[..n - 1] + [keys[n - 1]];
    }
  }

  ghost predicate Among(k: Key, keys: seq<Key>, n: nat)
    requires n <= |keys|
  {
    exists m :: 0 <= m < n && keys[m] == k
  }

  ghost predicate AllAmong(change: seq<(Key, u128)>, keys: seq<Key>, n: nat)
    requires n <= |keys|
  {
    forall a :: 0 <= a < |change| ==> Among(change[a].0, keys, n)
  }

  lemma LastIsAmong(keys: seq<Key>, n: nat)
    requires 0 < n <= |keys|
    ensures Among(keys[n - 1], keys, n)
  {
  }

  lemma LastComesLast(keys: seq<Key>, n: nat, k: Key)
    requires 0 < n <= |keys| && NoDup(keys) && SortedBy(keys, KeyLe) && Among(k, keys, n - 1)
    ensures k != keys[n - 1] && KeyLe(k, keys[n - 1]) && Among(k, keys, n)
  {
  }

  /** The keys of the change stand in the order of the keys. */
  lemma {:induction false} ChangeOrder(
      attached: map<Key, u128>, drawn: map<Key, u128>, minted: map<Key, u128>, keys: seq<Key>, n: nat)
    requires n <= |keys| && NoDup(keys) && SortedBy(keys, KeyLe)
    ensures var change := ChangeOf(attached, drawn, minted, keys, n);
            && AllAmong(change, keys, n)
            && forall a, b :: 0 <= a < b < |change| ==>
                 change[a].0 != change[b].0 && KeyLe(change[a].0, change[b].0)
  {
    hide Owed, At, KeyLe, NoDup, SortedBy, Among;
    if n > 0 {
      ChangeOrder(attached, drawn, minted, keys, n - 1);
      var front := ChangeOf(attached, drawn, minted, keys, n - 1);
      forall a | 0 <= a < |front|
        ensures front[a].0 != keys[n - 1] && KeyLe(front[a].0, keys[n - 1]) && Among(front[a].0, keys, n)
      {
        assert Among(front[a].0, keys, n - 1);
        LastComesLast(keys, n, front[a].0);
      }
      LastIsAmong(keys, n);
    }
  }

  lemma AllOfChange(
      attached: map<Key, u128>, drawn: map<Key, u128>, minted: map<Key, u128>, keys: seq<Key>)
    requires NoDup(keys) && SortedBy(keys, KeyLe) && forall k :: k in keys <==> k in attached
    ensures IsChange(ChangeOf(attached, drawn, minted, keys, |keys|), attached, drawn, minted)
  {
    hide KeyLe, NoDup, SortedBy, Uncovered, ChangeOf;
    ChangeOrder(attached, drawn, minted, keys, |keys|);
    assert keys[..|keys|] == keys;
    var change := ChangeOf(attached, drawn, minted, keys, |keys|);
    forall k, c
      ensures (k, c) in change <==>
        k in attached && c > 0 && attached[k] as int - Uncovered(At(drawn, k), At(minted, k)) as int == c as int
    {
      ChangeMembers(attached, drawn, minted, keys, |keys|, k, c);
    }
  }

  /** `change_due`. */
  method ChangeDue(attached: map<Key, u128>, drawn: map<Key, u128>, minted: map<Key, u128>)
    returns (change: seq<(Key, u128)>)
    ensures IsChange(change, attached, drawn, minted)
  {
    KeyOrder();
    hide KeyLe, TotalOrder, NoDup, SortedBy, SortedElements, Uncovered, IsChange, Owed;
    var keys := SortedElements(attached.Keys, KeyLe);
    change := [];
    for i := 0 to |keys|
      invariant change == ChangeOf(attached, drawn, minted, keys, i)
    {
      var key := keys[i];
      var owed := Owed(attached[key], At(drawn, key), At(minted, key));
      if owed.Some? {
        change := change + [(key, owed.value)];
      }
    }
    AllOfChange(attached, drawn, minted, keys);
  }

  /** The change of a key is one entry or none. */
  lemma {:induction false} SumOfChange(change: seq<(Key, u128)>, k: Key)
    requires forall i, j :: 0 <= i < j < |change| ==> change[i].0 != change[j].0
    ensures forall c :: (k, c) in change ==> Sum(change, k) == c as nat
    ensures (forall c :: (k, c) !in change) ==> Sum(change, k) == 0
  {
    if change != [] {
      var last := |change| - 1;
      var front := change[..last];
      assert change == front + [change[last]];
      SumOfChange(front, k);
      if change[last].0 == k {
        forall c, i | 0 <= i < last ensures front[i] != (k, c) {
          assert change[i].0 != change[last].0;
        }
      }
    }
  }

  /**
   Conservation: for a key that its coins cover, what comes in and what goes out
   differ by the unused mint alone; a key they do not cover gets no change.
   */
  lemma ChangeConserves(
      change: seq<(Key, u128)>, attached: map<Key, u128>, drawn: map<Key, u128>, minted: map<Key, u128>, k: Key)
    requires IsChange(change, attached, drawn, minted)
    ensures var a, d, m := At(attached, k) as int, At(drawn, k) as int, At(minted, k) as int;
            if a + m >= d || d <= m
            then a + m - d - Sum(change, k) == if m > d then m - d else 0
            else Sum(change, k) == 0
  {
    SumOfChange(change, k);
    var uncovered := Uncovered(At(drawn, k), At(minted, k));
    if k in attached && attached[k] > uncovered {
      var c := attached[k] - uncovered;
      assert (k, c) in change;
    } else {
      assert forall c :: (k, c) !in change;
    }
  }

  lemma FirstComesFirst(keys: seq<Key>, i: nat, other: Key)
    requires SortedBy(keys, KeyLe) && i < |keys| && other in keys
    requires forall m :: 0 <= m < i ==> keys[m] != other
    ensures KeyLe(keys[i], other)
  {
    KeyOrder();
    var m :| 0 <= m < |keys| && keys[m] == other;
  }

  /** `refuse_shortfall`. */
  method RefuseShortfall(held: map<Key, u128>, paid: map<Key, u128>) returns (r: Result<(), OfferError>)
    ensures r.Ok? <==> forall k :: k in paid ==> paid[k] <= At(held, k)
    ensures r.Err? ==>
              exists k :: k in paid && paid[k] > At(held, k) && r.error == Shortfall(k, At(held, k), paid[k])
                          && forall other :: other in paid && paid[other] > At(held, other) ==> KeyLe(k, other)
  {
    KeyOrder();
    hide KeyLe, TotalOrder, SortedElements, NoDup;
    var keys := SortedElements(paid.Keys, KeyLe);
    for i := 0 to |keys|
      invariant forall m :: 0 <= m < i ==> paid[keys[m]] <= At(held, keys[m])
    {
      if paid[keys[i]] > At(held, keys[i]) {
        forall other | other in paid && paid[other] > At(held, other) ensures KeyLe(keys[i], other) {
          FirstComesFirst(keys, i, other);
        }
        return Err(Shortfall(keys[i], At(held, keys[i]), paid[keys[i]]));
      }
    }
    forall k | k in paid ensures paid[k] <= At(held, k) {
      assert k in keys;
    }
    return Ok(());
  }

  /** The token a refusal names is short by the true sums, and the first one that is. */
  lemma ShortToken(
      coins: seq<(Key, u128)>, payments: seq<(Key, u128)>, held: map<Key, u128>, paid: map<Key, u128>,
      error: OfferError)
    returns (k: Key)
    requires forall t :: At(held, t) as nat == Sum(coins, t)
    requires forall t :: At(paid, t) as nat == Sum(payments, t)
    requires exists t :: t in paid && paid[t] > At(held, t) && error == Shortfall(t, At(held, t), paid[t])
                         && forall other :: other in paid && paid[other] > At(held, other) ==> KeyLe(t, other)
    ensures error.Shortfall? && error.token == k && Sum(payments, k) > Sum(coins, k)
    ensures error.paid as nat == Sum(payments, k) && error.held as nat == Sum(coins, k)
    ensures forall other :: Sum(payments, other) > Sum(coins, other) ==> KeyLe(k, other)
  {
    hide KeyLe;
    k :| k in paid && paid[k] > At(held, k) && error == Shortfall(k, At(held, k), paid[k])
         && forall other :: other in paid && paid[other] > At(held, other) ==> KeyLe(k, other);
    assert At(paid, k) as nat == Sum(payments, k) && At(held, k) as nat == Sum(coins, k);
    forall other | Sum(payments, other) > Sum(coins, other) ensures KeyLe(k, other) {
      assert At(paid, other) as nat == Sum(payments, other) && At(held, other) as nat == Sum(coins, other);
    }
  }

  /**
   The change of a deploy's offer: it is refused exactly when a total overflows or
   some token is paid beyond what the coins hold, and otherwise every token's
   coins are its payments and its change, to the unit.
   */
  method PayOffer(coins: seq<(Key, u128)>, payments: seq<(Key, u128)>)
    returns (r: Result<seq<(Key, u128)>, OfferError>)
    ensures r.Ok? <==>
              && (forall k :: Sum(coins, k) <= U128_MAX)
              && (forall k :: Sum(payments, k) <= Sum(coins, k))
    ensures r.Err? ==>
              if (exists k :: Sum(coins, k) > U128_MAX) || (exists k :: Sum(payments, k) > U128_MAX) then
                r.error == Overflow
              else
                && r.error.Shortfall?
                && exists k :: Sum(payments, k) > Sum(coins, k) && r.error.token == k
                               && r.error.paid as nat == Sum(payments, k) && r.error.held as nat == Sum(coins, k)
                               && forall other :: Sum(payments, other) > Sum(coins, other) ==> KeyLe(k, other)
    ensures r.Ok? ==> forall k :: Sum(coins, k) == Sum(payments + r.value, k)
    ensures r.Ok? ==> forall c :: c in r.value ==> c.1 > 0
  {
    var held := TotalByKey(coins);
    if held.Err? {
      return Err(held.error);
    }
    var paid := TotalByKey(payments);
    if paid.Err? {
      ghost var k :| Sum(payments, k) > U128_MAX;
      return Err(paid.error);
    }
    var covered := RefuseShortfall(held.value, paid.value);
    if covered.Err? {
      ghost var k := ShortToken(coins, payments, held.value, paid.value, covered.error);
      return Err(covered.error);
    }
    var change := ChangeDue(held.value, paid.value, map[]);
    forall k ensures Sum(payments, k) <= Sum(coins, k) && Sum(coins, k) == Sum(payments + change, k) {
      assert At(paid.value, k) <= At(held.value, k);
      ChangeConserves(change, held.value, paid.value, map[], k);
      SumConcat(payments, change, k);
    }
    return Ok(change);
  }

  /** Whether totals fit, and what they are, is the same for every order of the values. */
  lemma TotalsPermute(a: seq<(Key, u128)>, b: seq<(Key, u128)>)
    requires multiset(a) == multiset(b)
    ensures forall k :: Sum(a, k) == Sum(b, k)
  {
    forall k ensures Sum(a, k) == Sum(b, k) {
      SumPermutes(a, b, k);
    }
  }
}
