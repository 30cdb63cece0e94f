/** `processTransactions`: what two members owe each other through a list
    of expenses, each split evenly among its split members. */
module PairwiseNet {
  import opened SimplifyTypes

  /** Occurrences of `id` in a list of split member ids. */
  function Count(ids: seq<string>, id: string): nat
  {
    if ids == [] then 0
    else Count(ids[..|ids| - 1], id) + (if ids[|ids| - 1] == id then 1 else 0)
  }

  /** `Amout / splitMember.length`; only ever used when the list is non-empty. */
  function PerPerson(e: Expense): real
    requires |e.splitMember| > 0
  {
    e.amount / (|e.splitMember| as real)
  }

  /** What `debtor` owes through the first `j` split members of `e`: one
      `PerPerson` share per position holding `debtor`. */
  function Portion(e: Expense, debtor: string, j: nat): real
    requires j <= |e.splitMember|
  {
    if j == 0 then 0.0
    else Portion(e, debtor, j - 1) + (if e.splitMember[j - 1] == debtor then PerPerson(e) else 0.0)
  }

  /** What `debtor` owes `payer` through one expense: the debtor's portion of
      an expense `payer` paid. An expense with no split members contributes
      nothing. */
  function Share(e: Expense, payer: string, debtor: string): real
  {
    if e.paidBy == payer then Portion(e, debtor, |e.splitMember|) else 0.0
  }

  /** What `debtor` owes `payer` through all of `txs`. */
  function Owed(txs: seq<Expense>, payer: string, debtor: string): real
  {
    if txs == [] then 0.0
    else Owed(txs[..|txs| - 1], payer, debtor) + Share(txs[|txs| - 1], payer, debtor)
  }

  /** Walks every split member of every expense and accumulates the share
      into `userCanPay` (the friend's shares of what the user paid) or, in the
      `else` branch, into `friendCanPay` (the user's shares of what the friend
      paid). When both ids are equal the first branch always wins. */
  method ProcessTransactions(userId: string, transactions: seq<Expense>, userFriendsId: string)
    returns (userCanPay: real, friendCanPay: real)
    ensures userCanPay == Owed(transactions, userId, userFriendsId)
    ensures friendCanPay == if userId == userFriendsId then 0.0 else Owed(transactions, userFriendsId, userId)
  {
    friendCanPay, userCanPay := 0.0, 0.0;
    for i := 0 to |transactions|
      invariant userCanPay == Owed(transactions[..i], userId, userFriendsId)
      invariant friendCanPay == if userId == userFriendsId then 0.0 else Owed(transactions[..i], userFriendsId, userId)
    {
      var t := transactions[i];
      var isUserPayer := t.paidBy == userId;
      var isFriendPayer := t.paidBy == userFriendsId;
      ghost var userBefore, friendBefore := userCanPay, friendCanPay;
      for j := 0 to |t.splitMember|
        invariant userCanPay == userBefore + (if isUserPayer then Portion(t, userFriendsId, j) else 0.0)
        invariant friendCanPay == friendBefore +
          (if isFriendPayer && userId != userFriendsId then Portion(t, userId, j) else 0.0)
      {
        var amountPerPerson := t.amount / (|t.splitMember| as real);
        var friend := t.splitMember[j];
        var isFriend := friend == userFriendsId;
        var isUser := friend == userId;
        if isUserPayer && isFriend {
          userCanPay := userCanPay + amountPerPerson;
        } else if isFriendPayer && isUser {
          friendCanPay := friendCanPay + amountPerPerson;
        }
      }
      assert transactions[..i + 1][..i] == transactions[..i];
    }
    assert transactions[..|transactions|] == transactions;
  }

  /** Owed distributes over concatenation of expense lists. */
  lemma {:induction false} OwedAppend(a: seq<Expense>, b: seq<Expense>, payer: string, debtor: string)
    ensures Owed(a + b, payer, debtor) == Owed(a, payer, debtor) + Owed(b, payer, debtor)
  {
    if b == [] {
      assert a + b == a;
    } else {
      assert (a + b)[..|a + b| - 1] == a + b[..|b| - 1];
      OwedAppend(a, b[..|b| - 1], payer, debtor);
    }
  }

  /** Expenses paid by someone else contribute nothing. */
  lemma {:induction false} OwedIgnoresOtherPayers(txs: seq<Expense>, payer: string, debtor: string)
    requires forall e :: e in txs ==> e.paidBy != payer
    ensures Owed(txs, payer, debtor) == 0.0
  {
    if txs != [] {
      OwedIgnoresOtherPayers(txs[..|txs| - 1], payer, debtor);
    }
  }

  /** Owed only depends on the expenses `payer` paid: adding an expense paid
      by anyone else leaves it unchanged. */
  lemma OwedUnchangedByOtherPayer(txs: seq<Expense>, e: Expense, payer: string, debtor: string)
    requires e.paidBy != payer
    ensures Owed(txs + [e], payer, debtor) == Owed(txs, payer, debtor)
  {
    OwedAppend(txs, [e], payer, debtor);
    OwedIgnoresOtherPayers([e], payer, debtor);
  }

  /** With non-negative amounts nothing owed is negative. */
  lemma {:induction false} OwedNonNegative(txs: seq<Expense>, payer: string, debtor: string)
    requires forall e :: e in txs ==> e.amount >= 0.0
    ensures Owed(txs, payer, debtor) >= 0.0
  {
    if txs != [] {
      OwedNonNegative(txs[..|txs| - 1], payer, debtor);
      var e := txs[|txs| - 1];
      if e.paidBy == payer && |e.splitMember| > 0 {
        PortionCountsOccurrences(e, debtor, |e.splitMember|);
        assert PerPerson(e) >= 0.0;
      }
    }
  }

  /** A debtor's portion is one share per occurrence among the split
      members considered so far. */
  lemma {:induction false} PortionCountsOccurrences(e: Expense, debtor: string, j: nat)
    requires 0 < j <= |e.splitMember|
    ensures Portion(e, debtor, j) == Count(e.splitMember[..j], debtor) as real * PerPerson(e)
  {
    assert e.splitMember[..j][..j - 1] == e.splitMember[..j - 1];
    if j > 1 {
      PortionCountsOccurrences(e, debtor, j - 1);
    } else {
      assert e.splitMember[..0] == [];
    }
  }

  /** An expense of 100 paid by A and split between A and B: B owes A 50 and
      A owes B nothing. */
  lemma HalfOfHundred()
    ensures Owed([Expense(0, "A", 100.0, ["A", "B"])], "A", "B") == 50.0
    ensures Owed([Expense(0, "A", 100.0, ["A", "B"])], "B", "A") == 0.0
  {
    var e := Expense(0, "A", 100.0, ["A", "B"]);
    assert Portion(e, "B", 1) == 0.0;
    assert Portion(e, "B", 2) == 50.0;
  }
}
