/** The loop over every ordered pair of distinct members of
    `simplifyTransactions`, guarded by the `processedPairs` set of
    `"<id>-<id>"` strings so that each unordered pair is netted once and
    yields two directed amounts. */
module PairTable {
  import opened SimplifyTypes
  import opened Keyed
  import opened PairwiseNet

  /** Every member has a defined, non-empty id (an empty one would be
      replaced by `[]` at the call of `processTransactions`). */
  predicate Defined(fs: seq<Member>)
  {
    forall k :: 0 <= k < |fs| ==> fs[k].id.Some? && fs[k].id.value != ""
  }

  function Id(m: Member): string
    requires m.id.Some?
  {
    m.id.value
  }

  /** The template string `${a}-${b}`. */
  function PairKey(a: string, b: string): string
  {
    a + "-" + b
  }

  /** The two transfers pushed for the pair (i, j): what member i owes member
      j (`friendCanPay`) and what j owes i (`userCanPay`). */
  function PairOut(fs: seq<Member>, txs: seq<Expense>, i: nat, j: nat): seq<Transfer>
    requires i < |fs| && j < |fs| && Defined(fs)
  {
    [Transfer(fs[i].name, fs[j].name, Owed(txs, Id(fs[j]), Id(fs[i]))),
     Transfer(fs[j].name, fs[i].name, Owed(txs, Id(fs[i]), Id(fs[j])))]
  }

  datatype PairState = PairState(transactions: seq<Transfer>, processed: set<string>)

  /** One inner iteration with `friendList` = fs[i] and `friend` = fs[j]. */
  function PairVisit(fs: seq<Member>, txs: seq<Expense>, st: PairState, i: nat, j: nat): PairState
    requires i < |fs| && j < |fs| && Defined(fs)
  {
    var a, b := Id(fs[i]), Id(fs[j]);
    if b != a then
      var pair1, pair2 := PairKey(a, b), PairKey(b, a);
      if pair1 !in st.processed && pair2 !in st.processed
      then PairState(st.transactions + PairOut(fs, txs, i, j), st.processed + {pair1, pair2})
      else st
    else st
  }

  /** The state after the outer loop has finished rows 0..i-1 and row i has
      visited its first j friends. */
  function PairRow(fs: seq<Member>, txs: seq<Expense>, i: nat, j: nat): PairState
    requires i < |fs| && j <= |fs| && Defined(fs)
    decreases i, j + 1
  {
    if j == 0 then PairRows(fs, txs, i) else PairVisit(fs, txs, PairRow(fs, txs, i, j - 1), i, j - 1)
  }

  /** The state after the outer loop has finished rows 0..i-1. */
  function PairRows(fs: seq<Member>, txs: seq<Expense>, i: nat): PairState
    requires i <= |fs| && Defined(fs)
    decreases i, 0
  {
    if i == 0 then PairState([], {}) else PairRow(fs, txs, i - 1, |fs|)
  }

  /** The nested `forEach` over `userFriends` (Simplify.tsx:86-119). */
  method PairTransactions(userFriends: seq<Member>, jsonData: seq<Expense>) returns (transactions: seq<Transfer>)
    requires Defined(userFriends)
    ensures transactions == PairRows(userFriends, jsonData, |userFriends|).transactions
  {
    transactions := [];
    var processedPairs: set<string> := {};
    for i := 0 to |userFriends|
      invariant PairState(transactions, processedPairs) == PairRows(userFriends, jsonData, i)
    {
      var friendList := userFriends[i];
      for j := 0 to |userFriends|
        invariant PairState(transactions, processedPairs) == PairRow(userFriends, jsonData, i, j)
      {
        var friend := userFriends[j];
        var updatedUserFriendsId := Id(friend);
        if updatedUserFriendsId != Id(friendList) {
          var pair1 := PairKey(Id(friendList), updatedUserFriendsId);
          var pair2 := PairKey(updatedUserFriendsId, Id(friendList));
          if pair1 !in processedPairs && pair2 !in processedPairs {
            var userCanPay, friendCanPay := ProcessTransactions(Id(friendList), jsonData, updatedUserFriendsId);
            transactions := transactions + [Transfer(friendList.name, friend.name, friendCanPay)];
            transactions := transactions + [Transfer(friend.name, friendList.name, userCanPay)];
            processedPairs := processedPairs + {pair1, pair2};
          }
        }
      }
    }
  }

  // ---------------------------------------------------------------------
  // Reference definition: every unordered pair {p, q}, p < q, once, in
  // discovery order.

  /** Pairs (p, q) with p < q < j. */
  function RowAfter(fs: seq<Member>, txs: seq<Expense>, p: nat, j: nat): seq<Transfer>
    requires p < |fs| && j <= |fs| && Defined(fs)
  {
    if j == 0 then [] else RowAfter(fs, txs, p, j - 1) + (if p < j - 1 then PairOut(fs, txs, p, j - 1) else [])
  }

  /** All pairs (p, q) with p < q and p < i. */
  function PairsBefore(fs: seq<Member>, txs: seq<Expense>, i: nat): seq<Transfer>
    requires i <= |fs| && Defined(fs)
  {
    if i == 0 then [] else PairsBefore(fs, txs, i - 1) + RowAfter(fs, txs, i - 1, |fs|)
  }

  /** Has the unordered pair {p, q} been netted once row i has visited its
      first j friends? */
  predicate Done(i: nat, j: nat, p: nat, q: nat)
  {
    var lo, hi := if p < q then p else q, if p < q then q else p;
    lo < i || (lo == i && hi < j)
  }

  predicate NoDash(s: string)
  {
    forall k :: 0 <= k < |s| ==> s[k] != '-'
  }

  predicate DashFreeIds(fs: seq<Member>)
    requires Defined(fs)
  {
    forall k :: 0 <= k < |fs| ==> NoDash(Id(fs[k]))
  }

  /** In the key of a dash-free first id, the first dash sits right after
      that id. */
  lemma DashAfterFirst(a: string, b: string)
    requires NoDash(a)
    ensures PairKey(a, b)[|a|] == '-'
    ensures forall k :: 0 <= k < |a| ==> PairKey(a, b)[k] != '-'
  {
  }

  /** Keys of dash-free ids determine the ids. */
  lemma PairKeyInjective(a: string, b: string, c: string, d: string)
    requires NoDash(a) && NoDash(c)
    requires PairKey(a, b) == PairKey(c, d)
    ensures a == c && b == d
  {
    var s := PairKey(a, b);
    DashAfterFirst(a, b);
    DashAfterFirst(c, d);
    assert |a| == |c|;
    assert a == s[..|a|] == c;
    assert b == s[|a| + 1..] == d;
  }

  /** The set of keys records exactly the pairs already netted. */
  predicate ProcessedMatches(fs: seq<Member>, i: nat, j: nat, processed: set<string>)
    requires Defined(fs)
  {
    forall p, q :: 0 <= p < |fs| && 0 <= q < |fs| && p != q ==>
      (PairKey(Id(fs[p]), Id(fs[q])) in processed <==> Done(i, j, p, q))
  }

  /** Visiting (i, i) changes nothing. */
  lemma VisitSelf(fs: seq<Member>, txs: seq<Expense>, st: PairState, i: nat)
    requires i < |fs| && Defined(fs) && ProcessedMatches(fs, i, i, st.processed)
    ensures PairVisit(fs, txs, st, i, i) == st
    ensures ProcessedMatches(fs, i, i + 1, st.processed)
  {
    forall p, p' | 0 <= p < |fs| && 0 <= p' < |fs| && p != p'
      ensures Done(i, i + 1, p, p') == Done(i, i, p, p')
    {
    }
  }

  /** Visiting (i, q) with q < i: the pair was netted in row q, so the guard
      rejects it. */
  lemma VisitBefore(fs: seq<Member>, txs: seq<Expense>, st: PairState, i: nat, q: nat)
    requires q < i < |fs| && Defined(fs) && DistinctKeys(fs, IdOf)
    requires ProcessedMatches(fs, i, q, st.processed)
    ensures PairVisit(fs, txs, st, i, q) == st
    ensures ProcessedMatches(fs, i, q + 1, st.processed)
  {
    assert Done(i, q, i, q);
    assert PairKey(Id(fs[i]), Id(fs[q])) in st.processed;
    forall p, p' | 0 <= p < |fs| && 0 <= p' < |fs| && p != p'
      ensures Done(i, q + 1, p, p') == Done(i, q, p, p')
    {
    }
  }

  /** Visiting (i, q) with i < q: the pair is new, both keys go in. */
  lemma VisitAfter(fs: seq<Member>, txs: seq<Expense>, st: PairState, i: nat, q: nat)
    requires i < q < |fs| && Defined(fs) && DistinctKeys(fs, IdOf) && DashFreeIds(fs)
    requires ProcessedMatches(fs, i, q, st.processed)
    ensures PairVisit(fs, txs, st, i, q).transactions == st.transactions + PairOut(fs, txs, i, q)
    ensures ProcessedMatches(fs, i, q + 1, PairVisit(fs, txs, st, i, q).processed)
  {
    assert !Done(i, q, i, q) && !Done(i, q, q, i);
    assert PairKey(Id(fs[i]), Id(fs[q])) !in st.processed;
    assert PairKey(Id(fs[q]), Id(fs[i])) !in st.processed;
    var added := {PairKey(Id(fs[i]), Id(fs[q])), PairKey(Id(fs[q]), Id(fs[i]))};
    assert PairVisit(fs, txs, st, i, q).processed == st.processed + added;
    forall p, p' | 0 <= p < |fs| && 0 <= p' < |fs| && p != p'
      ensures PairKey(Id(fs[p]), Id(fs[p'])) in st.processed + added <==> Done(i, q + 1, p, p')
    {
      if PairKey(Id(fs[p]), Id(fs[p'])) == PairKey(Id(fs[i]), Id(fs[q])) {
        PairKeyInjective(Id(fs[p]), Id(fs[p']), Id(fs[i]), Id(fs[q]));
      }
      if PairKey(Id(fs[p]), Id(fs[p'])) == PairKey(Id(fs[q]), Id(fs[i])) {
        PairKeyInjective(Id(fs[p]), Id(fs[p']), Id(fs[q]), Id(fs[i]));
      }
    }
  }

  /** One visit of the inner loop: a transfer pair is pushed exactly when
      q comes after i, and the keys keep matching the netted pairs. */
  lemma VisitStep(fs: seq<Member>, txs: seq<Expense>, st: PairState, i: nat, q: nat)
    requires i < |fs| && q < |fs| && Defined(fs) && DistinctKeys(fs, IdOf) && DashFreeIds(fs)
    requires ProcessedMatches(fs, i, q, st.processed)
    ensures PairVisit(fs, txs, st, i, q).transactions ==
      st.transactions + (if i < q then PairOut(fs, txs, i, q) else [])
    ensures ProcessedMatches(fs, i, q + 1, PairVisit(fs, txs, st, i, q).processed)
  {
    if q == i {
      VisitSelf(fs, txs, st, i);
      assert st.transactions + [] == st.transactions;
    } else if q < i {
      VisitBefore(fs, txs, st, i, q);
      assert st.transactions + [] == st.transactions;
    } else {
      VisitAfter(fs, txs, st, i, q);
    }
  }

  /** Visiting (i, q) keeps the row's transfers equal to the reference
      definition and the keys matching the netted pairs. */
  lemma RowStep(fs: seq<Member>, txs: seq<Expense>, i: nat, q: nat)
    requires i < |fs| && q < |fs| && Defined(fs) && DistinctKeys(fs, IdOf) && DashFreeIds(fs)
    requires PairRow(fs, txs, i, q).transactions == PairsBefore(fs, txs, i) + RowAfter(fs, txs, i, q)
    requires ProcessedMatches(fs, i, q, PairRow(fs, txs, i, q).processed)
    ensures PairRow(fs, txs, i, q + 1).transactions == PairsBefore(fs, txs, i) + RowAfter(fs, txs, i, q + 1)
    ensures ProcessedMatches(fs, i, q + 1, PairRow(fs, txs, i, q + 1).processed)
  {
    var st := PairRow(fs, txs, i, q);
    VisitStep(fs, txs, st, i, q);
    assert PairRow(fs, txs, i, q + 1) == PairVisit(fs, txs, st, i, q);
  }

  /** With distinct dash-free ids the `processedPairs` guard lets through
      exactly the pairs (i, j) with i < j: the loop nets each unordered pair
      of members once, in discovery order. */
  lemma {:induction false} PairRowOncePerPair(fs: seq<Member>, txs: seq<Expense>, i: nat, j: nat)
    requires i < |fs| && j <= |fs| && Defined(fs) && DistinctKeys(fs, IdOf) && DashFreeIds(fs)
    ensures PairRow(fs, txs, i, j).transactions == PairsBefore(fs, txs, i) + RowAfter(fs, txs, i, j)
    ensures ProcessedMatches(fs, i, j, PairRow(fs, txs, i, j).processed)
    decreases i, j + 1
  {
    if j == 0 {
      PairRowsOncePerPair(fs, txs, i);
      assert RowAfter(fs, txs, i, 0) == [];
    } else {
      PairRowOncePerPair(fs, txs, i, j - 1);
      RowStep(fs, txs, i, j - 1);
    }
  }

  lemma {:induction false} PairRowsOncePerPair(fs: seq<Member>, txs: seq<Expense>, i: nat)
    requires i <= |fs| && Defined(fs) && DistinctKeys(fs, IdOf) && DashFreeIds(fs)
    ensures PairRows(fs, txs, i).transactions == PairsBefore(fs, txs, i)
    ensures ProcessedMatches(fs, i, 0, PairRows(fs, txs, i).processed)
    decreases i, 0
  {
    if i > 0 {
      PairRowOncePerPair(fs, txs, i - 1, |fs|);
      forall p, q | 0 <= p < |fs| && 0 <= q < |fs| && p != q
        ensures Done(i - 1, |fs|, p, q) == Done(i, 0, p, q)
      {
      }
    }
  }

  /** Two transfers per unordered pair: row p contributes one pair for each
      later member. */
  lemma {:induction false} RowAfterLength(fs: seq<Member>, txs: seq<Expense>, p: nat, j: nat)
    requires p < |fs| && j <= |fs| && Defined(fs)
    ensures |RowAfter(fs, txs, p, j)| == if j <= p + 1 then 0 else 2 * (j - p - 1)
  {
    if j > 0 {
      RowAfterLength(fs, txs, p, j - 1);
    }
  }

  lemma RowCountStep(n: int, i: int)
    ensures i * (2 * n - i - 1) == (i - 1) * (2 * n - (i - 1) - 1) + 2 * (n - i)
  {
    calc {
      (i - 1) * (2 * n - (i - 1) - 1) + 2 * (n - i);
      (i - 1) * (2 * n - i) + 2 * n - 2 * i;
      i * (2 * n - i) - (2 * n - i) + 2 * n - 2 * i;
      i * (2 * n - i) - i;
      i * (2 * n - i - 1);
    }
  }

  /** n members yield n * (n - 1) transfers: two for each of the
      n * (n - 1) / 2 unordered pairs. */
  lemma {:induction false} PairsBeforeLength(fs: seq<Member>, txs: seq<Expense>, i: nat)
    requires i <= |fs| && Defined(fs)
    ensures |PairsBefore(fs, txs, i)| == i * (2 * |fs| - i - 1)
  {
    if i > 0 {
      PairsBeforeLength(fs, txs, i - 1);
      RowAfterLength(fs, txs, i - 1, |fs|);
      RowCountStep(|fs|, i);
    }
  }

  /** The whole pair loop: with distinct dash-free ids it nets every
      unordered pair once, in discovery order, pushing |fs| * (|fs| - 1)
      transfers. */
  lemma PairLoopOncePerPair(fs: seq<Member>, txs: seq<Expense>)
    requires Defined(fs) && DistinctKeys(fs, IdOf) && DashFreeIds(fs)
    ensures PairRows(fs, txs, |fs|).transactions == PairsBefore(fs, txs, |fs|)
    ensures |PairRows(fs, txs, |fs|).transactions| == |fs| * (|fs| - 1)
  {
    PairRowsOncePerPair(fs, txs, |fs|);
    PairsBeforeLength(fs, txs, |fs|);
    assert |fs| * (2 * |fs| - |fs| - 1) == |fs| * (|fs| - 1);
  }

  /** Every transfer of the pair loop runs between two member names. */
  predicate NamedBy(fs: seq<Member>, ts: seq<Transfer>)
  {
    forall t :: t in ts ==> t.from in Names(fs) && t.to in Names(fs)
  }

  lemma {:induction false} PairRowNamed(fs: seq<Member>, txs: seq<Expense>, i: nat, j: nat)
    requires i < |fs| && j <= |fs| && Defined(fs)
    ensures NamedBy(fs, PairRow(fs, txs, i, j).transactions)
    decreases i, j + 1
  {
    if j == 0 {
      PairRowsNamed(fs, txs, i);
    } else {
      PairRowNamed(fs, txs, i, j - 1);
      assert Names(fs)[i] == fs[i].name && Names(fs)[j - 1] == fs[j - 1].name;
    }
  }

  lemma {:induction false} PairRowsNamed(fs: seq<Member>, txs: seq<Expense>, i: nat)
    requires i <= |fs| && Defined(fs)
    ensures NamedBy(fs, PairRows(fs, txs, i).transactions)
    decreases i, 0
  {
    if i > 0 {
      PairRowNamed(fs, txs, i - 1, |fs|);
    }
  }
}
