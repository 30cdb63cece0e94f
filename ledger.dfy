/** The `users` dictionary of the simplifier: a balance per member name,
    iterated in key insertion order (`Object.keys`). Negative = owes,
    positive = is owed. */
module Ledger {
  import opened Keyed

  type Balances = map<string, real>

  /** Every key of the iteration order has a balance. */
  predicate Covers(keys: seq<string>, m: Balances)
  {
    forall k :: k in keys ==> k in m
  }

  /** Sum of the balances of `keys`. */
  function Sum(keys: seq<string>, m: Balances): real
    requires Covers(keys, m)
  {
    if keys == [] then 0.0 else m[keys[0]] + Sum(keys[1..], m)
  }

  /** Setting one balance changes the sum by the difference, and only when
      the key is one of the summed keys. */
  lemma {:induction false} SumUpdate(keys: seq<string>, m: Balances, k: string, v: real)
    requires Covers(keys, m) && DistinctKeys(keys, Itself)
    ensures Covers(keys, m[k := v])
    ensures Sum(keys, m[k := v]) == Sum(keys, m) + (if k in keys then v - m[k] else 0.0)
  {
    if keys != [] {
      assert DistinctKeys(keys[1..], Itself);
      SumUpdate(keys[1..], m, k, v);
      if keys[0] == k {
        assert k !in keys[1..];
      } else {
        assert k in keys <==> k in keys[1..];
      }
    }
  }

  /** Moving `amount` from one summed key to another keeps the sum. */
  lemma MoveKeepsSum(keys: seq<string>, m: Balances, from: string, to: string, amount: real)
    requires Covers(keys, m) && DistinctKeys(keys, Itself) && from in keys && to in keys
    ensures Covers(keys, m[from := m[from] - amount][to := m[from := m[from] - amount][to] + amount])
    ensures Sum(keys, m[from := m[from] - amount][to := m[from := m[from] - amount][to] + amount]) == Sum(keys, m)
  {
    var m1 := m[from := m[from] - amount];
    SumUpdate(keys, m, from, m[from] - amount);
    SumUpdate(keys, m1, to, m1[to] + amount);
  }

  /** Non-negative balances have a non-negative sum, which is zero only when
      every balance is zero. */
  lemma {:induction false} NonNegativeSum(keys: seq<string>, m: Balances)
    requires Covers(keys, m)
    requires forall k :: k in keys ==> m[k] >= 0.0
    ensures Sum(keys, m) >= 0.0
    ensures Sum(keys, m) == 0.0 ==> forall k :: k in keys ==> m[k] == 0.0
  {
    if keys != [] {
      NonNegativeSum(keys[1..], m);
      assert forall k :: k in keys ==> k == keys[0] || k in keys[1..];
    }
  }

  /** Non-positive balances have a non-positive sum, which is zero only when
      every balance is zero. */
  lemma {:induction false} NonPositiveSum(keys: seq<string>, m: Balances)
    requires Covers(keys, m)
    requires forall k :: k in keys ==> m[k] <= 0.0
    ensures Sum(keys, m) <= 0.0
    ensures Sum(keys, m) == 0.0 ==> forall k :: k in keys ==> m[k] == 0.0
  {
    if keys != [] {
      NonPositiveSum(keys[1..], m);
      assert forall k :: k in keys ==> k == keys[0] || k in keys[1..];
    }
  }
}
