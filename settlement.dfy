/** Recorded settlements. As written, `simplifyTransactions` applies them to
    the balances left by the first greedy pass, which are all zero, and books
    a payment as a new debt of the payer; so with any settlement recorded the
    result no longer depends on the expenses, and a repayment is suggested
    again. The corrected definition applies each settlement to the pairwise
    balances, as a repayment, before the one greedy pass. */
module SettlementFix {
  import opened SimplifyTypes
  import opened Keyed
  import opened Ledger
  import opened PairwiseNet
  import opened PairTable
  import opened GreedyReduction
  import opened SimplifyEngine

  /** One settlement, corrected: the payer paid, so the payer's balance goes
      up by the amount and the receiver's goes down. */
  function ApplySettlementCorrected(users: Balances, idToName: map<string, string>, s: Settlement): (r: Balances)
    requires NamesIn(idToName, users)
    ensures r.Keys == users.Keys
  {
    if Applies(idToName, s) then
      var payerName, receiverName := idToName[s.payerId], idToName[s.receiverId];
      var u := users[payerName := users[payerName] + Amount(s)];
      u[receiverName := u[receiverName] - Amount(s)]
    else users
  }

  function ApplySettlementsCorrected(users: Balances, idToName: map<string, string>, ss: seq<Settlement>): (r: Balances)
    requires NamesIn(idToName, users)
    ensures r.Keys == users.Keys
  {
    if ss == [] then users
    else ApplySettlementCorrected(ApplySettlementsCorrected(users, idToName, ss[..|ss| - 1]), idToName, ss[|ss| - 1])
  }

  /** The corrected greedy pass: over the pairwise balances with the
      settlements already repaid. */
  function CorrectedPass(groups: seq<Group>, settlements: seq<Settlement>): Pass
    requires MembersAreArrays(groups) && IdsDefined(groups)
  {
    var fs := Friends(groups);
    NameKeysFacts(fs);
    Greedy(NameKeys(fs), ApplySettlementsCorrected(Owing(groups), IdToName(fs), settlements))
  }

  /** `simplifyTransactions` as evidently intended. */
  function SimplifiedCorrected(groups: seq<Group>, settlements: seq<Settlement>): Option<seq<Transfer>>
    requires IdsDefined(groups)
  {
    if !MembersAreArrays(groups) then None else Some(CorrectedPass(groups, settlements).out)
  }

  // ---------------------------------------------------------------------
  // As written.

  /** As written, a settlement of `amt` from payer to receiver changes the
      balances exactly as a new debt of `amt` of the payer to the receiver
      would. */
  lemma SettlementAddsDebt(users: Balances, idToName: map<string, string>, s: Settlement)
    requires NamesIn(idToName, users) && Applies(idToName, s)
    ensures Payable([Transfer(idToName[s.payerId], idToName[s.receiverId], Amount(s))], users)
    ensures ApplySettlement(users, idToName, s) ==
      Fold(users, [Transfer(idToName[s.payerId], idToName[s.receiverId], Amount(s))])
  {
    assert [Transfer(idToName[s.payerId], idToName[s.receiverId], Amount(s))][..0] == [];
  }

  /** As written, once any settlement is recorded the result depends only on
      the members and the settlements: the first pass has zeroed every
      balance, so the expenses are forgotten. */
  lemma SettledResultIgnoresExpenses(groups: seq<Group>, settlements: seq<Settlement>)
    requires MembersAreArrays(groups) && IdsDefined(groups) && |settlements| > 0
    ensures NamesIn(IdToName(Friends(groups)), Zeros(Friends(groups)))
    ensures Covers(NameKeys(Friends(groups)), ApplySettlements(Zeros(Friends(groups)), IdToName(Friends(groups)), settlements))
    ensures Simplified(groups, settlements) ==
      Some(Greedy(NameKeys(Friends(groups)), ApplySettlements(Zeros(Friends(groups)), IdToName(Friends(groups)), settlements)).out)
  {
    NameKeysFacts(Friends(groups));
    FirstPassSettlesEveryone(groups);
  }

  lemma {:induction false} NoneApplies(users: Balances, idToName: map<string, string>, ss: seq<Settlement>)
    requires NamesIn(idToName, users)
    requires forall k :: 0 <= k < |ss| ==> !Applies(idToName, ss[k])
    ensures ApplySettlements(users, idToName, ss) == users
  {
    if ss != [] {
      NoneApplies(users, idToName, ss[..|ss| - 1]);
    }
  }

  /** As written, recording only settlements that do not apply (an unknown
      id, a zero amount) wipes out every suggested payment. */
  lemma UnmatchedSettlementsClearResult(groups: seq<Group>, settlements: seq<Settlement>)
    requires MembersAreArrays(groups) && IdsDefined(groups) && |settlements| > 0
    requires forall k :: 0 <= k < |settlements| ==> !Applies(IdToName(Friends(groups)), settlements[k])
    ensures Simplified(groups, settlements) == Some([])
  {
    var fs := Friends(groups);
    SettledResultIgnoresExpenses(groups, settlements);
    NoneApplies(Zeros(fs), IdToName(fs), settlements);
    NameKeysFacts(fs);
    SendersIdle(NameKeys(fs), Pass([], Zeros(fs)), |NameKeys(fs)|);
  }

  const A := Member(Some("a"), "A")
  const B := Member(Some("b"), "B")
  /** B paid 100 for A alone. */
  const Meal := Expense(0, "b", 100.0, ["a"])
  const IdsAB := map["a" := "A", "b" := "B"]

  /** One group of A and B in which A owes B 100. */
  function Lunch(): seq<Group>
  {
    [Group(Some([A, B]), [Meal])]
  }

  /** A records having paid B `amt`. */
  function Repaid(amt: real): seq<Settlement>
  {
    [Settlement("a", "b", Some(amt))]
  }

  lemma LunchRoster()
    ensures MembersAreArrays(Lunch()) && IdsDefined(Lunch())
    ensures Roster(Lunch()) == [A, B]
    ensures Expenses(Lunch()) == [Meal]
  {
    assert Lunch()[..0] == [];
    assert Activity(Lunch()) == [Meal];
    assert [Meal][..0] == [];
  }

  lemma DedupAB()
    ensures Fresh({}, [A, B], IdOf) == [A, B]
    ensures Fresh({}, [A, B], NameOf) == [A, B]
  {
    assert DistinctKeys([A, B], IdOf);
    assert DistinctKeys([A, B], NameOf);
    FreshOfDistinct({}, [A, B], IdOf);
    FreshOfDistinct({}, [A, B], NameOf);
  }

  lemma NamesAB()
    ensures Names([A, B]) == ["A", "B"]
    ensures Zeros([A, B]) == map["A" := 0.0, "B" := 0.0]
  {
    assert Names([A, B]) == ["A", "B"];
  }

  lemma IdToNameAB()
    ensures IdToName([A, B]) == IdsAB
  {
    assert [A, B][..1] == [A];
    assert [A][..0] == [];
  }

  lemma LunchFriends()
    ensures MembersAreArrays(Lunch()) && IdsDefined(Lunch())
    ensures Friends(Lunch()) == [A, B] && Expenses(Lunch()) == [Meal]
    ensures NameKeys([A, B]) == ["A", "B"]
    ensures Zeros([A, B]) == map["A" := 0.0, "B" := 0.0]
    ensures IdToName([A, B]) == IdsAB
  {
    LunchRoster();
    DedupAB();
    NamesAB();
    IdToNameAB();
  }

  lemma MealOwed()
    ensures Owed([Meal], "b", "a") == 100.0
    ensures Owed([Meal], "a", "b") == 0.0
  {
    assert [Meal][..0] == [];
    assert PerPerson(Meal) == 100.0 / 1.0;
    assert Portion(Meal, "a", 1) == PerPerson(Meal);
  }

  lemma KeysAB()
    ensures PairKey("a", "b") != PairKey("b", "a")
  {
    assert PairKey("a", "b")[0] == 'a';
  }

  /** The pair loop of the example nets A and B once. */
  lemma LunchPairs()
    ensures Defined([A, B])
    ensures PairRows([A, B], [Meal], 2).transactions == [Transfer("A", "B", 100.0), Transfer("B", "A", 0.0)]
  {
    var fs, txs := [A, B], [Meal];
    MealOwed();
    KeysAB();
    var keys := {PairKey("a", "b"), PairKey("b", "a")};
    var row0 := PairState([Transfer("A", "B", 100.0), Transfer("B", "A", 0.0)], keys);
    assert PairRow(fs, txs, 0, 1) == PairState([], {});
    assert PairOut(fs, txs, 0, 1) == row0.transactions;
    assert PairRow(fs, txs, 0, 2) == row0;
    assert PairRow(fs, txs, 1, 1) == row0;
  }

  lemma LunchFold()
    ensures Payable([Transfer("A", "B", 100.0), Transfer("B", "A", 0.0)], map["A" := 0.0, "B" := 0.0])
    ensures Fold(map["A" := 0.0, "B" := 0.0], [Transfer("A", "B", 100.0), Transfer("B", "A", 0.0)])
      == map["A" := -100.0, "B" := 100.0]
  {
    var ts := [Transfer("A", "B", 100.0), Transfer("B", "A", 0.0)];
    assert ts[..1] == [Transfer("A", "B", 100.0)];
    assert ts[..1][..0] == [];
  }

  /** After the pair loop of the example A owes B 100. */
  lemma LunchOwing()
    ensures MembersAreArrays(Lunch()) && IdsDefined(Lunch())
    ensures Owing(Lunch()) == map["A" := -100.0, "B" := 100.0]
  {
    LunchFriends();
    LunchPairs();
    LunchFold();
  }

  /** Applying A's record of having paid B `x`, as written. */
  lemma RepaidAsWritten(u: Balances, x: real)
    requires "A" in u && "B" in u && x > 0.0
    ensures NamesIn(IdsAB, u)
    ensures ApplySettlements(u, IdsAB, Repaid(x)) == u["A" := u["A"] - x]["B" := u["B"] + x]
  {
    assert Repaid(x)[..0] == [];
    assert Applies(IdsAB, Repaid(x)[0]);
  }

  /** Applying A's record of having paid B `x`, corrected. */
  lemma RepaidCorrected(u: Balances, x: real)
    requires "A" in u && "B" in u && x > 0.0
    ensures NamesIn(IdsAB, u)
    ensures ApplySettlementsCorrected(u, IdsAB, Repaid(x)) == u["A" := u["A"] + x]["B" := u["B"] - x]
  {
    assert Repaid(x)[..0] == [];
    assert Applies(IdsAB, Repaid(x)[0]);
  }

  lemma RepaidOnZeros()
    ensures NamesIn(IdsAB, map["A" := 0.0, "B" := 0.0])
    ensures ApplySettlements(map["A" := 0.0, "B" := 0.0], IdsAB, Repaid(100.0)) == map["A" := -100.0, "B" := 100.0]
  {
    RepaidAsWritten(map["A" := 0.0, "B" := 0.0], 100.0);
  }

  /** The counterexample, as written: A owes B 100 and records having repaid
      all of it, yet A is still told to pay B 100. */
  lemma FullRepaymentAsWritten()
    ensures IdsDefined(Lunch())
    ensures Simplified(Lunch(), Repaid(100.0)) == Some([Transfer("A", "B", 100.0)])
  {
    LunchFriends();
    SettledResultIgnoresExpenses(Lunch(), Repaid(100.0));
    var u := map["A" := -100.0, "B" := 100.0];
    RepaidOnZeros();
    GreedyOfDebt(100.0, u);
    calc {
      Simplified(Lunch(), Repaid(100.0));
      Some(Greedy(NameKeys(Friends(Lunch())), ApplySettlements(Zeros(Friends(Lunch())), IdToName(Friends(Lunch())), Repaid(100.0))).out);
      { assert Friends(Lunch()) == [A, B]; }
      Some(Greedy(["A", "B"], ApplySettlements(map["A" := 0.0, "B" := 0.0], IdsAB, Repaid(100.0))).out);
      Some(Greedy(["A", "B"], u).out);
    }
  }

  /** The same group without the expense gives the same answer: as written
      the settlement alone decides it. */
  lemma RepaymentWithoutDebtAsWritten()
    ensures IdsDefined([Group(Some([A, B]), [])])
    ensures Simplified([Group(Some([A, B]), [])], Repaid(100.0)) == Simplified(Lunch(), Repaid(100.0))
  {
    var g := [Group(Some([A, B]), [])];
    assert g[..0] == [] && Lunch()[..0] == [];
    assert Roster(g) == Roster(Lunch());
    SettledResultIgnoresExpenses(g, Repaid(100.0));
    SettledResultIgnoresExpenses(Lunch(), Repaid(100.0));
  }

  /** The greedy pass over A at -x and B at x: A pays B x. */
  lemma GreedyOfDebt(x: real, u: Balances)
    requires x > 0.0 && u == map["A" := -x, "B" := x]
    ensures Greedy(["A", "B"], u).out == [Transfer("A", "B", x)]
  {
    var keys := ["A", "B"];
    var p := Pass([], u);
    assert Senders(keys, p, 0) == p;
    assert Receivers(keys, "A", p, 1) == p;
    var q := Pass([Transfer("A", "B", x)], map["A" := 0.0, "B" := 0.0]);
    assert Receivers(keys, "A", p, 2) == q;
    assert Senders(keys, p, 1) == q;
    assert Senders(keys, p, 2) == q;
  }

  // ---------------------------------------------------------------------
  // Corrected.

  /** A corrected settlement is a repayment: it changes the balances exactly
      as a debt of `amt` of the receiver to the payer would, ... */
  lemma SettlementRepaysDebt(users: Balances, idToName: map<string, string>, s: Settlement)
    requires NamesIn(idToName, users) && Applies(idToName, s)
    ensures Payable([Transfer(idToName[s.receiverId], idToName[s.payerId], Amount(s))], users)
    ensures ApplySettlementCorrected(users, idToName, s) ==
      Fold(users, [Transfer(idToName[s.receiverId], idToName[s.payerId], Amount(s))])
  {
    var p, r, x := idToName[s.payerId], idToName[s.receiverId], Amount(s);
    assert [Transfer(r, p, x)][..0] == [];
    if p == r {
      assert users[p := users[p] + x][p := users[p] + x - x] == users;
      assert users[p := users[p] - x][p := users[p] - x + x] == users;
    }
  }

  /** The repayments a list of settlements stands for, in order: for each
      settlement that applies, its amount moves from the receiver to the
      payer. */
  function Repayments(idToName: map<string, string>, ss: seq<Settlement>): (ts: seq<Transfer>)
    ensures |ts| <= |ss|
    ensures forall t :: t in ts ==> t.amount > 0.0 && t.from in idToName.Values && t.to in idToName.Values
  {
    if ss == [] then []
    else
      var s := ss[|ss| - 1];
      Repayments(idToName, ss[..|ss| - 1]) +
        (if Applies(idToName, s) then [Transfer(idToName[s.receiverId], idToName[s.payerId], Amount(s))] else [])
  }

  /** Corrected, a whole list of settlements moves the balances exactly as
      the repayments of the settlements that apply would. */
  lemma {:induction false} SettlementsRepayDebts(users: Balances, idToName: map<string, string>, ss: seq<Settlement>)
    requires NamesIn(idToName, users)
    ensures Payable(Repayments(idToName, ss), users)
    ensures ApplySettlementsCorrected(users, idToName, ss) == Fold(users, Repayments(idToName, ss))
  {
    if ss != [] {
      var init, s := ss[..|ss| - 1], ss[|ss| - 1];
      SettlementsRepayDebts(users, idToName, init);
      var before := Repayments(idToName, init);
      var u := Fold(users, before);
      if Applies(idToName, s) {
        var t := Transfer(idToName[s.receiverId], idToName[s.payerId], Amount(s));
        assert Repayments(idToName, ss) == before + [t];
        assert (before + [t])[..|before|] == before;
        SettlementRepaysDebt(u, idToName, s);
        assert [t][..0] == [];
      } else {
        assert Repayments(idToName, ss) == before;
      }
    }
  }

  /** ... which cancels a debt of the same amount in the other direction. */
  lemma RepaymentCancelsDebt(users: Balances, payer: string, receiver: string, x: real)
    requires payer in users && receiver in users
    ensures Payable([Transfer(payer, receiver, x)], users)
    ensures Payable([Transfer(receiver, payer, x)], Fold(users, [Transfer(payer, receiver, x)]))
    ensures Fold(Fold(users, [Transfer(payer, receiver, x)]), [Transfer(receiver, payer, x)]) == users
  {
    assert [Transfer(payer, receiver, x)][..0] == [];
    assert [Transfer(receiver, payer, x)][..0] == [];
  }

  lemma {:induction false} SettlementsCorrectedKeepSum(keys: seq<string>, users: Balances, idToName: map<string, string>, ss: seq<Settlement>)
    requires DistinctKeys(keys, Itself) && Covers(keys, users)
    requires forall id :: id in idToName ==> idToName[id] in keys
    ensures Covers(keys, ApplySettlementsCorrected(users, idToName, ss))
    ensures Sum(keys, ApplySettlementsCorrected(users, idToName, ss)) == Sum(keys, users)
  {
    if ss != [] {
      SettlementsCorrectedKeepSum(keys, users, idToName, ss[..|ss| - 1]);
      var u := ApplySettlementsCorrected(users, idToName, ss[..|ss| - 1]);
      var s := ss[|ss| - 1];
      if Applies(idToName, s) {
        MoveKeepsSum(keys, u, idToName[s.payerId], idToName[s.receiverId], -Amount(s));
        assert ApplySettlementCorrected(u, idToName, s) ==
          u[idToName[s.payerId] := u[idToName[s.payerId]] - -Amount(s)]
           [idToName[s.receiverId] := u[idToName[s.payerId] := u[idToName[s.payerId]] - -Amount(s)][idToName[s.receiverId]] + -Amount(s)];
      }
    }
  }

  /** The corrected pass still settles everybody. */
  lemma CorrectedPassSettlesEveryone(groups: seq<Group>, settlements: seq<Settlement>)
    requires MembersAreArrays(groups) && IdsDefined(groups)
    ensures CorrectedPass(groups, settlements).bal == Zeros(Friends(groups))
  {
    var fs := Friends(groups);
    NameKeysFacts(fs);
    OwingSumsToZero(groups);
    SettlementsCorrectedKeepSum(NameKeys(fs), Owing(groups), IdToName(fs), settlements);
    GreedyClearsZeroSum(NameKeys(fs), ApplySettlementsCorrected(Owing(groups), IdToName(fs), settlements));
  }

  /** Without settlements the corrected result is the one of the source. */
  lemma CorrectedAgreesWithoutSettlements(groups: seq<Group>)
    requires IdsDefined(groups)
    ensures SimplifiedCorrected(groups, []) == Simplified(groups, [])
  {
  }

  lemma {:induction false} NoneAppliesCorrected(users: Balances, idToName: map<string, string>, ss: seq<Settlement>)
    requires NamesIn(idToName, users)
    requires forall k :: 0 <= k < |ss| ==> !Applies(idToName, ss[k])
    ensures ApplySettlementsCorrected(users, idToName, ss) == users
  {
    if ss != [] {
      NoneAppliesCorrected(users, idToName, ss[..|ss| - 1]);
    }
  }

  /** Corrected, settlements that do not apply change nothing: the result is
      the one without settlements, where the source clears it. */
  lemma CorrectedIgnoresUnmatchedSettlements(groups: seq<Group>, settlements: seq<Settlement>)
    requires IdsDefined(groups)
    requires MembersAreArrays(groups) ==>
      forall k :: 0 <= k < |settlements| ==> !Applies(IdToName(Friends(groups)), settlements[k])
    ensures SimplifiedCorrected(groups, settlements) == Simplified(groups, [])
  {
    if MembersAreArrays(groups) {
      var fs := Friends(groups);
      NameKeysFacts(fs);
      NoneAppliesCorrected(Owing(groups), IdToName(fs), settlements);
    }
  }

  /** Corrected, the suggested payments are one greedy pass over the
      pairwise balances after the repayments: the expenses still count once
      settlements are recorded. */
  lemma CorrectedSettlesPairwiseBalances(groups: seq<Group>, settlements: seq<Settlement>)
    requires MembersAreArrays(groups) && IdsDefined(groups)
    ensures NamesIn(IdToName(Friends(groups)), Owing(groups))
    ensures Payable(Repayments(IdToName(Friends(groups)), settlements), Owing(groups))
    ensures Covers(NameKeys(Friends(groups)), Fold(Owing(groups), Repayments(IdToName(Friends(groups)), settlements)))
    ensures SimplifiedCorrected(groups, settlements) ==
      Some(Greedy(NameKeys(Friends(groups)), Fold(Owing(groups), Repayments(IdToName(Friends(groups)), settlements))).out)
  {
    var fs := Friends(groups);
    NameKeysFacts(fs);
    SettlementsRepayDebts(Owing(groups), IdToName(fs), settlements);
  }

  /** Corrected, a full repayment leaves nothing to pay ... */
  lemma FullRepaymentCorrected()
    ensures IdsDefined(Lunch())
    ensures SimplifiedCorrected(Lunch(), Repaid(100.0)) == Some([])
  {
    LunchOwing();
    LunchFriends();
    var u := map["A" := 0.0, "B" := 0.0];
    RepaidCorrected(Owing(Lunch()), 100.0);
    SendersIdle(["A", "B"], Pass([], u), 2);
  }

  /** ... and a partial one of 40 leaves 60 to pay. */
  lemma PartialRepaymentCorrected()
    ensures IdsDefined(Lunch())
    ensures SimplifiedCorrected(Lunch(), Repaid(40.0)) == Some([Transfer("A", "B", 60.0)])
  {
    LunchOwing();
    LunchFriends();
    var u := map["A" := -60.0, "B" := 60.0];
    RepaidCorrected(Owing(Lunch()), 40.0);
    assert ApplySettlementsCorrected(Owing(Lunch()), IdToName(Friends(Lunch())), Repaid(40.0)) == u;
    GreedyOfDebt(60.0, u);
  }
}
