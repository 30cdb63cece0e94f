/** The greedy debtor/creditor pass of `simplifyTransactions`: for every key
    whose balance is negative when it is reached, visit every key in order
    and, while it is positive, pay it `min(|sender|, receiver)` in place. */
module GreedyReduction {
  import opened SimplifyTypes
  import opened Keyed
  import opened Ledger

  function Min(a: real, b: real): real { if a <= b then a else b }

  function Abs(a: real): real { if a < 0.0 then -a else a }

  /** The transfers emitted so far and the balances they left. */
  datatype Pass = Pass(out: seq<Transfer>, bal: Balances)

  /** One visit of `receiver` by `sender`: when the receiver's balance is
      positive, emit `min(|sender|, receiver)` and move it, updating the
      sender first and then the receiver. */
  function Visit(p: Pass, sender: string, receiver: string): (q: Pass)
    requires sender in p.bal && receiver in p.bal
    ensures q.bal.Keys == p.bal.Keys
  {
    if p.bal[receiver] > 0.0 then
      var amount := Min(Abs(p.bal[sender]), p.bal[receiver]);
      var b := p.bal[sender := p.bal[sender] + amount];
      Pass(p.out + [Transfer(sender, receiver, amount)], b[receiver := b[receiver] - amount])
    else p
  }

  /** The inner loop after visiting the first `j` keys as receivers. */
  function Receivers(keys: seq<string>, sender: string, p: Pass, j: nat): (q: Pass)
    requires j <= |keys| && Covers(keys, p.bal) && sender in p.bal
    ensures q.bal.Keys == p.bal.Keys
  {
    if j == 0 then p else Visit(Receivers(keys, sender, p, j - 1), sender, keys[j - 1])
  }

  /** The outer loop after considering the first `i` keys as senders. */
  function Senders(keys: seq<string>, p: Pass, i: nat): (q: Pass)
    requires i <= |keys| && Covers(keys, p.bal)
    ensures q.bal.Keys == p.bal.Keys
  {
    if i == 0 then p
    else
      var q := Senders(keys, p, i - 1);
      var sender := keys[i - 1];
      if q.bal[sender] < 0.0 then Receivers(keys, sender, q, |keys|) else q
  }

  /** The whole pass over the balances, from no transfers. */
  function Greedy(keys: seq<string>, bal: Balances): Pass
    requires Covers(keys, bal)
  {
    Senders(keys, Pass([], bal), |keys|)
  }

  /** The inner loop for one sender in debt: every key with a positive
      balance, in order, is paid `min(|sender|, receiver)`. */
  method PayCreditors(keys: seq<string>, sender: string, transfers0: seq<Transfer>, balances0: Balances)
    returns (transfers: seq<Transfer>, balances: Balances)
    requires Covers(keys, balances0) && sender in balances0
    ensures Pass(transfers, balances) == Receivers(keys, sender, Pass(transfers0, balances0), |keys|)
  {
    transfers, balances := transfers0, balances0;
    for j := 0 to |keys|
      invariant balances.Keys == balances0.Keys
      invariant Pass(transfers, balances) == Receivers(keys, sender, Pass(transfers0, balances0), j)
    {
      var receiver := keys[j];
      if balances[receiver] > 0.0 {
        var amount := Min(Abs(balances[sender]), balances[receiver]);
        transfers := transfers + [Transfer(sender, receiver, amount)];
        balances := balances[sender := balances[sender] + amount];
        balances := balances[receiver := balances[receiver] - amount];
      }
    }
  }

  /** The nested loops over `Object.keys(users)` (Simplify.tsx:128-143, and
      again on the copy at 173-184), mutating the balances in place. */
  method GreedyReduce(keys: seq<string>, users: Balances) returns (transfers: seq<Transfer>, balances: Balances)
    requires Covers(keys, users)
    ensures Pass(transfers, balances) == Greedy(keys, users)
  {
    transfers, balances := [], users;
    for i := 0 to |keys|
      invariant balances.Keys == users.Keys
      invariant Pass(transfers, balances) == Senders(keys, Pass([], users), i)
    {
      var sender := keys[i];
      if balances[sender] < 0.0 {
        transfers, balances := PayCreditors(keys, sender, transfers, balances);
      }
    }
  }

  /** A transfer the pass emits for `sender`: to another key, of a
      non-negative amount. */
  predicate Emitted(t: Transfer, keys: seq<string>, sender: string)
  {
    t.from == sender && t.to in keys && t.to != sender && t.amount >= 0.0
  }

  /** The inner loop keeps the sum of the balances. */
  lemma {:induction false} ReceiversKeepSum(keys: seq<string>, sender: string, p: Pass, j: nat)
    requires DistinctKeys(keys, Itself) && Covers(keys, p.bal) && sender in keys && j <= |keys|
    ensures Sum(keys, Receivers(keys, sender, p, j).bal) == Sum(keys, p.bal)
  {
    if j > 0 {
      ReceiversKeepSum(keys, sender, p, j - 1);
      var v := Receivers(keys, sender, p, j - 1);
      var r := keys[j - 1];
      if v.bal[r] > 0.0 {
        var amount := Min(Abs(v.bal[sender]), v.bal[r]);
        var b := v.bal[sender := v.bal[sender] + amount];
        SumUpdate(keys, v.bal, sender, v.bal[sender] + amount);
        SumUpdate(keys, b, r, b[r] - amount);
      }
    }
  }

  /** One visit by a sender that is not owed anything: the sender moves up
      towards zero without passing it, a positive receiver moves down towards
      zero without passing it, and nothing else changes. If the sender is
      still in debt afterwards, the receiver has been paid off. */
  lemma VisitBounds(v: Pass, sender: string, r: string)
    requires sender in v.bal && r in v.bal && v.bal[sender] <= 0.0
    ensures var w := Visit(v, sender, r);
      && v.bal[sender] <= w.bal[sender] <= 0.0
      && (v.bal[r] <= 0.0 ==> w == v)
      && (r != sender && v.bal[r] > 0.0 ==> 0.0 <= w.bal[r] <= v.bal[r])
      && (r != sender && w.bal[sender] < 0.0 ==> w.bal[r] <= 0.0)
      && (forall k :: k in v.bal && k != sender && k != r ==> w.bal[k] == v.bal[k])
  {
    if v.bal[r] > 0.0 {
      assert r != sender;
      var amount := Min(Abs(v.bal[sender]), v.bal[r]);
      assert 0.0 <= amount <= -v.bal[sender] && amount <= v.bal[r];
      assert v.bal[sender] + amount < 0.0 ==> amount == v.bal[r];
    }
  }

  /** For a sender whose balance is not positive the inner loop never lets
      the sender become positive, only lowers positive receivers, down to
      zero at most, and leaves the others alone. */
  lemma {:induction false} ReceiversBounds(keys: seq<string>, sender: string, p: Pass, j: nat)
    requires Covers(keys, p.bal) && sender in keys && j <= |keys|
    requires p.bal[sender] <= 0.0
    ensures var q := Receivers(keys, sender, p, j);
      && p.bal[sender] <= q.bal[sender] <= 0.0
      && (forall k :: k in keys && k != sender && p.bal[k] > 0.0 ==> 0.0 <= q.bal[k] <= p.bal[k])
      && (forall k :: k in keys && k != sender && p.bal[k] <= 0.0 ==> q.bal[k] == p.bal[k])
  {
    if j > 0 {
      ReceiversBounds(keys, sender, p, j - 1);
      VisitBounds(Receivers(keys, sender, p, j - 1), sender, keys[j - 1]);
    }
  }

  /** While the sender is still in debt, every key it has visited is at or
      below zero: it has paid off every creditor it met. */
  lemma {:induction false} ReceiversPayOff(keys: seq<string>, sender: string, p: Pass, j: nat)
    requires Covers(keys, p.bal) && sender in keys && j <= |keys|
    requires p.bal[sender] <= 0.0
    ensures var q := Receivers(keys, sender, p, j);
      q.bal[sender] < 0.0 ==> forall jj :: 0 <= jj < j ==> q.bal[keys[jj]] <= 0.0
  {
    if j > 0 {
      ReceiversPayOff(keys, sender, p, j - 1);
      ReceiversBounds(keys, sender, p, j - 1);
      var v := Receivers(keys, sender, p, j - 1);
      var r := keys[j - 1];
      VisitBounds(v, sender, r);
      var w := Visit(v, sender, r);
      if w.bal[sender] < 0.0 {
        assert v.bal[sender] < 0.0;
        forall jj | 0 <= jj < j ensures w.bal[keys[jj]] <= 0.0 {
          if keys[jj] != r && keys[jj] != sender {
            assert v.bal[keys[jj]] <= 0.0;
          }
        }
      }
    }
  }

  /** The inner loop only appends transfers from the sender to another key,
      each of a non-negative amount. */
  lemma {:induction false} ReceiversOut(keys: seq<string>, sender: string, p: Pass, j: nat)
    requires Covers(keys, p.bal) && sender in keys && j <= |keys|
    requires p.bal[sender] <= 0.0
    ensures var q := Receivers(keys, sender, p, j);
      && q.bal[sender] <= 0.0
      && |p.out| <= |q.out| && q.out[..|p.out|] == p.out
      && (forall n :: |p.out| <= n < |q.out| ==> Emitted(q.out[n], keys, sender))
  {
    if j > 0 {
      ReceiversOut(keys, sender, p, j - 1);
      var v := Receivers(keys, sender, p, j - 1);
      var r := keys[j - 1];
      if v.bal[r] > 0.0 {
        assert r != sender;
      }
    }
  }

  /** One sender in debt: the inner loop keeps the sum and the signs, and
      from a zero sum it clears the sender completely. */
  lemma SenderStep(keys: seq<string>, v: Pass, s: string)
    requires DistinctKeys(keys, Itself) && Covers(keys, v.bal) && s in keys && v.bal[s] < 0.0
    ensures var q := Receivers(keys, s, v, |keys|);
      && Sum(keys, q.bal) == Sum(keys, v.bal)
      && (forall k :: k in keys && v.bal[k] >= 0.0 ==> q.bal[k] >= 0.0)
      && (forall k :: k in keys && v.bal[k] <= 0.0 ==> q.bal[k] <= 0.0)
      && (Sum(keys, v.bal) == 0.0 ==> q.bal[s] == 0.0)
  {
    ReceiversKeepSum(keys, s, v, |keys|);
    ReceiversBounds(keys, s, v, |keys|);
    ReceiversPayOff(keys, s, v, |keys|);
    var q := Receivers(keys, s, v, |keys|);
    if q.bal[s] < 0.0 {
      forall k | k in keys ensures q.bal[k] <= 0.0 {
        var jj :| 0 <= jj < |keys| && keys[jj] == k;
      }
      NonPositiveSum(keys, q.bal);
    }
  }

  /** The outer loop keeps the sum and no balance changes sign. */
  lemma {:induction false} SendersKeepSumAndSigns(keys: seq<string>, p: Pass, i: nat)
    requires DistinctKeys(keys, Itself) && Covers(keys, p.bal) && i <= |keys|
    ensures var q := Senders(keys, p, i);
      && Sum(keys, q.bal) == Sum(keys, p.bal)
      && (forall k :: k in keys && p.bal[k] >= 0.0 ==> q.bal[k] >= 0.0)
      && (forall k :: k in keys && p.bal[k] <= 0.0 ==> q.bal[k] <= 0.0)
  {
    if i > 0 {
      SendersKeepSumAndSigns(keys, p, i - 1);
      var v := Senders(keys, p, i - 1);
      var s := keys[i - 1];
      if v.bal[s] < 0.0 {
        SenderStep(keys, v, s);
        assert Senders(keys, p, i) == Receivers(keys, s, v, |keys|);
      }
    }
  }

  /** One step of the outer loop from a zero sum: if the senders before
      `keys[i - 1]` are at or above zero, so are they and `keys[i - 1]` after
      it is considered. */
  lemma ClearStep(keys: seq<string>, v: Pass, i: nat)
    requires DistinctKeys(keys, Itself) && Covers(keys, v.bal) && 0 < i <= |keys|
    requires Sum(keys, v.bal) == 0.0
    requires forall ii :: 0 <= ii < i - 1 ==> v.bal[keys[ii]] >= 0.0
    ensures var s := keys[i - 1];
      var q := if v.bal[s] < 0.0 then Receivers(keys, s, v, |keys|) else v;
      forall ii :: 0 <= ii < i ==> q.bal[keys[ii]] >= 0.0
  {
    var s := keys[i - 1];
    if v.bal[s] < 0.0 {
      SenderStep(keys, v, s);
    }
  }

  /** From a zero sum, every sender already considered ends at or above zero:
      each debtor is cleared before the creditors run out. */
  lemma {:induction false} SendersClearDebtors(keys: seq<string>, p: Pass, i: nat)
    requires DistinctKeys(keys, Itself) && Covers(keys, p.bal) && i <= |keys|
    requires Sum(keys, p.bal) == 0.0
    ensures forall ii :: 0 <= ii < i ==> Senders(keys, p, i).bal[keys[ii]] >= 0.0
  {
    if i > 0 {
      SendersClearDebtors(keys, p, i - 1);
      SendersKeepSumAndSigns(keys, p, i - 1);
      ClearStep(keys, Senders(keys, p, i - 1), i);
    }
  }

  /** Every transfer of the outer loop goes from a key to a different key
      with a non-negative amount, appended after those already there. */
  lemma {:induction false} SendersOut(keys: seq<string>, p: Pass, i: nat)
    requires Covers(keys, p.bal) && i <= |keys|
    ensures var q := Senders(keys, p, i);
      && |p.out| <= |q.out| && q.out[..|p.out|] == p.out
      && (forall n :: |p.out| <= n < |q.out| ==> q.out[n].from in keys && Emitted(q.out[n], keys, q.out[n].from))
  {
    if i > 0 {
      SendersOut(keys, p, i - 1);
      var v := Senders(keys, p, i - 1);
      var s := keys[i - 1];
      if v.bal[s] < 0.0 {
        ReceiversOut(keys, s, v, |keys|);
        var q := Receivers(keys, s, v, |keys|);
        assert Senders(keys, p, i) == q;
        forall n | 0 <= n < |v.out| ensures q.out[n] == v.out[n] {
          assert q.out[..|v.out|][n] == q.out[n];
        }
        assert q.out[..|p.out|] == p.out by {
          assert q.out[..|p.out|] == v.out[..|p.out|];
        }
      }
    }
  }

  /** From a zero-sum ledger the pass leaves every balance at zero and keeps
      every transfer between two distinct keys with a non-negative amount. */
  lemma GreedyClearsZeroSum(keys: seq<string>, bal: Balances)
    requires DistinctKeys(keys, Itself) && Covers(keys, bal) && Sum(keys, bal) == 0.0
    ensures forall k :: k in keys ==> Greedy(keys, bal).bal[k] == 0.0
  {
    SendersClearDebtors(keys, Pass([], bal), |keys|);
    SendersKeepSumAndSigns(keys, Pass([], bal), |keys|);
    var q := Greedy(keys, bal);
    forall k | k in keys ensures q.bal[k] >= 0.0 {
      var ii :| 0 <= ii < |keys| && keys[ii] == k;
    }
    NonNegativeSum(keys, q.bal);
  }

  /** The pass keeps the sum of the balances, no balance changes sign, and
      every transfer goes from a key to a different key with an amount of at
      least zero. */
  lemma GreedyKeepsSumAndSigns(keys: seq<string>, bal: Balances)
    requires DistinctKeys(keys, Itself) && Covers(keys, bal)
    ensures var q := Greedy(keys, bal);
      && Sum(keys, q.bal) == Sum(keys, bal)
      && (forall k :: k in keys && bal[k] >= 0.0 ==> q.bal[k] >= 0.0)
      && (forall k :: k in keys && bal[k] <= 0.0 ==> q.bal[k] <= 0.0)
      && (forall t :: t in q.out ==> t.from in keys && t.to in keys && t.from != t.to && t.amount >= 0.0)
  {
    SendersKeepSumAndSigns(keys, Pass([], bal), |keys|);
    SendersOut(keys, Pass([], bal), |keys|);
    var q := Greedy(keys, bal);
    forall t | t in q.out ensures t.from in keys && t.to in keys && t.from != t.to && t.amount >= 0.0 {
      var n :| 0 <= n < |q.out| && q.out[n] == t;
    }
  }

  /** Once a debtor is cleared it still visits the remaining creditors and
      emits transfers of 0: with A at -5, B at 5, C at 5 and D at -5, A pays
      B 5, then "pays" C 0, and D pays C 5. */
  lemma ZeroAmountAfterClearing()
    ensures Greedy(["A", "B", "C", "D"], map["A" := -5.0, "B" := 5.0, "C" := 5.0, "D" := -5.0]).out ==
      [Transfer("A", "B", 5.0), Transfer("A", "C", 0.0), Transfer("D", "C", 5.0)]
  {
    var keys := ["A", "B", "C", "D"];
    var p0 := Pass([], map["A" := -5.0, "B" := 5.0, "C" := 5.0, "D" := -5.0]);
    var p1 := FirstDebtorOfFour(keys, p0);
    assert Senders(keys, p0, 1) == p1;
    assert Senders(keys, p0, 2) == p1;
    assert Senders(keys, p0, 3) == p1;
    var p2 := LastDebtorOfFour(keys, p1);
    assert Senders(keys, p0, 4) == p2;
  }

  lemma FirstDebtorOfFour(keys: seq<string>, p0: Pass) returns (p1: Pass)
    requires keys == ["A", "B", "C", "D"]
    requires p0 == Pass([], map["A" := -5.0, "B" := 5.0, "C" := 5.0, "D" := -5.0])
    ensures Covers(keys, p0.bal)
    ensures p1 == Receivers(keys, "A", p0, 4)
    ensures p1 == Pass([Transfer("A", "B", 5.0), Transfer("A", "C", 0.0)],
                       map["A" := 0.0, "B" := 0.0, "C" := 5.0, "D" := -5.0])
  {
    assert Receivers(keys, "A", p0, 1) == p0;
    var q := Pass([Transfer("A", "B", 5.0)], map["A" := 0.0, "B" := 0.0, "C" := 5.0, "D" := -5.0]);
    assert Receivers(keys, "A", p0, 2) == q;
    var r := Pass([Transfer("A", "B", 5.0), Transfer("A", "C", 0.0)], q.bal);
    assert Receivers(keys, "A", p0, 3) == r;
    p1 := r;
  }

  lemma LastDebtorOfFour(keys: seq<string>, p1: Pass) returns (p2: Pass)
    requires keys == ["A", "B", "C", "D"]
    requires p1 == Pass([Transfer("A", "B", 5.0), Transfer("A", "C", 0.0)],
                        map["A" := 0.0, "B" := 0.0, "C" := 5.0, "D" := -5.0])
    ensures Covers(keys, p1.bal)
    ensures p2 == Receivers(keys, "D", p1, 4)
    ensures p2.out == [Transfer("A", "B", 5.0), Transfer("A", "C", 0.0), Transfer("D", "C", 5.0)]
  {
    assert Receivers(keys, "D", p1, 1) == p1;
    assert Receivers(keys, "D", p1, 2) == p1;
    var q := Pass(p1.out + [Transfer("D", "C", 5.0)], map["A" := 0.0, "B" := 0.0, "C" := 0.0, "D" := 0.0]);
    assert Receivers(keys, "D", p1, 3) == q;
    p2 := q;
  }
}
