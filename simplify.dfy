/** `simplifyTransactions`: collect the members of all groups (one per `$id`)
    and their expenses, net every pair of members, fold the pairwise debts
    into one balance per member name, and greedily turn the balances into
    suggested payments; when settlements were recorded, adjust the balances
    and run the greedy pass again. */
module SimplifyEngine {
  import opened SimplifyTypes
  import opened Keyed
  import opened Ledger
  import opened PairwiseNet
  import opened PairTable
  import opened GreedyReduction

  /** Every group's `Members` is an array; otherwise `obj.Members.forEach`
      throws. */
  predicate MembersAreArrays(groups: seq<Group>)
  {
    forall i :: 0 <= i < |groups| ==> groups[i].members.Some?
  }

  predicate HasId(m: Member)
  {
    m.id.Some? && m.id.value != ""
  }

  /** Every member carries a non-empty `$id`. */
  predicate IdsDefined(groups: seq<Group>)
  {
    forall i, m :: 0 <= i < |groups| && groups[i].members.Some? && m in groups[i].members.value ==> HasId(m)
  }

  /** All members of all groups, in order, repeats included. */
  function Roster(groups: seq<Group>): seq<Member>
    requires MembersAreArrays(groups)
  {
    if groups == [] then [] else Roster(groups[..|groups| - 1]) + groups[|groups| - 1].members.value
  }

  /** All expenses of all groups, in order, repeats included. */
  function Activity(groups: seq<Group>): seq<Expense>
  {
    if groups == [] then [] else Activity(groups[..|groups| - 1]) + groups[|groups| - 1].activity
  }

  /** `userFriends`: the first member seen with each `$id`. */
  function Friends(groups: seq<Group>): seq<Member>
    requires MembersAreArrays(groups)
  {
    Fresh({}, Roster(groups), IdOf)
  }

  /** `jsonData`: each expense object once, at its first occurrence. */
  function Expenses(groups: seq<Group>): seq<Expense>
  {
    Fresh({}, Activity(groups), RefOf)
  }

  /** `Object.keys(users)`: the friends' names in first-insertion order. */
  function NameKeys(fs: seq<Member>): seq<string>
  {
    Names(Fresh({}, fs, NameOf))
  }

  /** `users` before the pair loop: every friend's name at 0. */
  function Zeros(fs: seq<Member>): Balances
  {
    map n | n in Names(fs) :: 0.0
  }

  /** Every transfer runs between two keys of `users`. */
  predicate Payable(ts: seq<Transfer>, users: Balances)
  {
    forall t :: t in ts ==> t.from in users && t.to in users
  }

  /** The balances after `users[from] -= amount; users[to] += amount` for
      every transfer in order. */
  function Fold(users: Balances, ts: seq<Transfer>): (r: Balances)
    requires Payable(ts, users)
    ensures r.Keys == users.Keys
  {
    if ts == [] then users
    else
      var t := ts[|ts| - 1];
      var u := Fold(users, ts[..|ts| - 1]);
      var u1 := u[t.from := u[t.from] - t.amount];
      u1[t.to := u1[t.to] + t.amount]
  }

  /** The friends have distinct, non-empty ids. */
  lemma FriendsFacts(groups: seq<Group>)
    requires MembersAreArrays(groups) && IdsDefined(groups)
    ensures Defined(Friends(groups)) && DistinctKeys(Friends(groups), IdOf)
    ensures forall k :: 0 <= k < |Friends(groups)| ==> HasId(Friends(groups)[k])
  {
    var fs := Friends(groups);
    RosterHasIds(groups);
    FreshFacts({}, Roster(groups), IdOf);
    forall k | 0 <= k < |fs| ensures HasId(fs[k]) {
      assert fs[k] in fs;
    }
  }

  lemma {:induction false} RosterHasIds(groups: seq<Group>)
    requires MembersAreArrays(groups) && IdsDefined(groups)
    ensures forall m :: m in Roster(groups) ==> HasId(m)
  {
    if groups != [] {
      var init := groups[..|groups| - 1];
      assert MembersAreArrays(init) && IdsDefined(init) by {
        forall i | 0 <= i < |init| ensures init[i] == groups[i] { }
      }
      RosterHasIds(init);
    }
  }

  /** The balance keys are the friends' names, each once. */
  lemma NameKeysFacts(fs: seq<Member>)
    ensures DistinctKeys(NameKeys(fs), Itself)
    ensures forall n :: n in NameKeys(fs) <==> n in Names(fs)
  {
    NameKeysDistinct(fs);
    NameKeysCover(fs);
  }

  lemma NameKeysDistinct(fs: seq<Member>)
    ensures DistinctKeys(NameKeys(fs), Itself)
  {
    var first := Fresh({}, fs, NameOf);
    FreshFacts({}, fs, NameOf);
    forall i, j | 0 <= i < j < |first| ensures NameKeys(fs)[i] != NameKeys(fs)[j] {
      assert NameOf(first[i]) != NameOf(first[j]);
    }
  }

  lemma NameKeysCover(fs: seq<Member>)
    ensures forall n :: n in NameKeys(fs) <==> n in Names(fs)
  {
    var first := Fresh({}, fs, NameOf);
    FreshFacts({}, fs, NameOf);
    NamesOfKeySet(fs);
    NamesOfKeySet(first);
  }

  /** `users` after the pair loop (Simplify.tsx:78-124). */
  function Owing(groups: seq<Group>): (r: Balances)
    requires MembersAreArrays(groups) && IdsDefined(groups)
    ensures r.Keys == Zeros(Friends(groups)).Keys
  {
    var fs := Friends(groups);
    FriendsFacts(groups);
    PairRowsNamed(fs, Expenses(groups), |fs|);
    Fold(Zeros(fs), PairRows(fs, Expenses(groups), |fs|).transactions)
  }

  /** The first greedy pass over `users` (Simplify.tsx:126-143). */
  function FirstPass(groups: seq<Group>): (r: Pass)
    requires MembersAreArrays(groups) && IdsDefined(groups)
    ensures r.bal.Keys == Zeros(Friends(groups)).Keys
  {
    NameKeysFacts(Friends(groups));
    Greedy(NameKeys(Friends(groups)), Owing(groups))
  }

  /** `idToName`: every friend with a non-empty `$id`, the last one written
      winning. */
  function IdToName(fs: seq<Member>): (r: map<string, string>)
    ensures forall id :: id in r ==> r[id] in Names(fs)
  {
    if fs == [] then map[]
    else
      var init, f := fs[..|fs| - 1], fs[|fs| - 1];
      assert forall k :: 0 <= k < |init| ==> Names(init)[k] == Names(fs)[k];
      assert Names(fs)[|fs| - 1] == f.name;
      if f.id.Some? && f.id.value != "" then IdToName(init)[f.id.value := f.name] else IdToName(init)
  }

  /** The keys of `idToName` are exactly the friends' non-empty ids and,
      when the ids are distinct, each maps to its friend's name. */
  lemma {:induction false} IdToNameFacts(fs: seq<Member>)
    ensures forall id :: id in IdToName(fs) <==> exists k :: 0 <= k < |fs| && fs[k].id == Some(id) && id != ""
    ensures DistinctKeys(fs, IdOf) ==> forall k :: 0 <= k < |fs| && HasId(fs[k]) ==>
      fs[k].id.value in IdToName(fs) && IdToName(fs)[fs[k].id.value] == fs[k].name
  {
    if fs != [] {
      var init, f := fs[..|fs| - 1], fs[|fs| - 1];
      IdToNameFacts(init);
      forall id | id in IdToName(fs) ensures exists k :: 0 <= k < |fs| && fs[k].id == Some(id) && id != "" {
        if HasId(f) && id == f.id.value {
          assert fs[|fs| - 1].id == Some(id);
        } else {
          var k :| 0 <= k < |init| && init[k].id == Some(id) && id != "";
          assert fs[k] == init[k];
        }
      }
      forall id | exists k :: 0 <= k < |fs| && fs[k].id == Some(id) && id != "" ensures id in IdToName(fs) {
        var k :| 0 <= k < |fs| && fs[k].id == Some(id) && id != "";
        if k < |init| {
          assert init[k] == fs[k];
        }
      }
      if DistinctKeys(fs, IdOf) {
        assert DistinctKeys(init, IdOf);
        forall k | 0 <= k < |fs| && HasId(fs[k])
          ensures fs[k].id.value in IdToName(fs) && IdToName(fs)[fs[k].id.value] == fs[k].name
        {
          if k < |init| {
            assert init[k] == fs[k];
            assert IdOf(fs[k]) != IdOf(fs[|fs| - 1]);
          }
        }
      }
    }
  }

  /** `parseFloat(s.Amount || s.amount || 0) || 0`. */
  function Amount(s: Settlement): real
  {
    s.amount.GetOr(0.0)
  }

  /** Both ids name a friend with a non-empty name and the amount is
      positive. */
  predicate Applies(idToName: map<string, string>, s: Settlement)
  {
    && s.payerId in idToName && s.receiverId in idToName
    && idToName[s.payerId] != "" && idToName[s.receiverId] != ""
    && Amount(s) > 0.0
  }

  /** A settlement whose payer or receiver id is no friend's id is
      skipped. */
  lemma StrangerSettlementSkipped(fs: seq<Member>, s: Settlement)
    requires (forall k :: 0 <= k < |fs| ==> fs[k].id != Some(s.payerId))
          || (forall k :: 0 <= k < |fs| ==> fs[k].id != Some(s.receiverId))
    ensures !Applies(IdToName(fs), s)
  {
    IdToNameFacts(fs);
  }

  predicate NamesIn(idToName: map<string, string>, users: Balances)
  {
    forall id :: id in idToName ==> idToName[id] in users
  }

  /** One settlement as written: the payer's balance goes down by the
      amount and the receiver's goes up. */
  function ApplySettlement(users: Balances, idToName: map<string, string>, s: Settlement): (r: Balances)
    requires NamesIn(idToName, users)
    ensures r.Keys == users.Keys
  {
    if Applies(idToName, s) then
      var payerName, receiverName := idToName[s.payerId], idToName[s.receiverId];
      var u := users[payerName := users[payerName] - Amount(s)];
      u[receiverName := u[receiverName] + Amount(s)]
    else users
  }

  function ApplySettlements(users: Balances, idToName: map<string, string>, ss: seq<Settlement>): (r: Balances)
    requires NamesIn(idToName, users)
    ensures r.Keys == users.Keys
  {
    if ss == [] then users
    else ApplySettlement(ApplySettlements(users, idToName, ss[..|ss| - 1]), idToName, ss[|ss| - 1])
  }

  /** The result of `simplifyTransactions`; None when some group's
      `Members` is not an array and the call throws. */
  function Simplified(groups: seq<Group>, settlements: seq<Settlement>): Option<seq<Transfer>>
    requires IdsDefined(groups)
  {
    if !MembersAreArrays(groups) then None
    else
      var fs := Friends(groups);
      var first := FirstPass(groups);
      if |settlements| == 0 then Some(first.out)
      else
        NameKeysFacts(fs);
        Some(Greedy(NameKeys(fs), ApplySettlements(first.bal, IdToName(fs), settlements)).out)
  }

  // ---------------------------------------------------------------------
  // The loops of the source, each proved against its definition above.

  /** `GroupData.forEach(obj => obj.Members.forEach(...))` with `idMap`
      (Simplify.tsx:59-69); the Map only records which ids were seen. */
  method CollectFriends(groupData: seq<Group>) returns (userFriends: Option<seq<Member>>)
    ensures userFriends.Some? <==> MembersAreArrays(groupData)
    ensures userFriends.Some? ==> userFriends.value == Friends(groupData)
  {
    var friends: seq<Member> := [];
    var idMap: set<Option<string>> := {};
    for i := 0 to |groupData|
      invariant MembersAreArrays(groupData[..i])
      invariant friends == Fresh({}, Roster(groupData[..i]), IdOf)
      invariant idMap == KeySet(Roster(groupData[..i]), IdOf)
    {
      if groupData[i].members.None? {
        return None;
      }
      assert groupData[..i + 1][..i] == groupData[..i];
      friends, idMap := PushUnseen(groupData[i].members.value, IdOf, friends, idMap, Roster(groupData[..i]));
    }
    assert groupData[..|groupData|] == groupData;
    return Some(friends);
  }

  /** `Array.from(new Set(GroupData.flatMap(obj => obj.activity)))`
      (Simplify.tsx:71-77). */
  method MergeActivities(groupData: seq<Group>) returns (jsonData: seq<Expense>)
    ensures jsonData == Expenses(groupData)
  {
    jsonData := [];
    var seen: set<nat> := {};
    for i := 0 to |groupData|
      invariant jsonData == Fresh({}, Activity(groupData[..i]), RefOf)
      invariant seen == KeySet(Activity(groupData[..i]), RefOf)
    {
      assert groupData[..i + 1][..i] == groupData[..i];
      jsonData, seen := PushUnseen(groupData[i].activity, RefOf, jsonData, seen, Activity(groupData[..i]));
    }
    assert groupData[..|groupData|] == groupData;
  }

  /** `users[friend.name] = 0` for every friend (Simplify.tsx:78-81); `keys`
      is the insertion order of the names. */
  method InitBalances(userFriends: seq<Member>) returns (keys: seq<string>, users: Balances)
    ensures keys == NameKeys(userFriends) && users == Zeros(userFriends)
  {
    keys, users := [], map[];
    for i := 0 to |userFriends|
      invariant keys == NameKeys(userFriends[..i])
      invariant users == Zeros(userFriends[..i])
    {
      var friend := userFriends[i];
      assert userFriends[..i + 1] == userFriends[..i] + [friend];
      InitStep(userFriends[..i], friend);
      if friend.name !in users {
        keys := keys + [friend.name];
      }
      users := users[friend.name := 0.0];
    }
    assert userFriends[..|userFriends|] == userFriends;
  }

  /** `users[friend.name] = 0` for one more friend: a new name is appended to
      the key order, a known one keeps its place. */
  lemma InitStep(prefix: seq<Member>, friend: Member)
    ensures NameKeys(prefix + [friend]) ==
      NameKeys(prefix) + (if friend.name in Zeros(prefix) then [] else [friend.name])
    ensures Zeros(prefix + [friend]) == Zeros(prefix)[friend.name := 0.0]
  {
    FreshSnoc(prefix, friend, NameOf);
    NamesSnoc(prefix, friend);
    NamesOfKeySet(prefix);
    if friend.name !in Names(prefix) {
      NamesSnoc(Fresh({}, prefix, NameOf), friend);
    }
  }

  lemma NamesSnoc(ms: seq<Member>, m: Member)
    ensures Names(ms + [m]) == Names(ms) + [m.name]
  {
  }

  lemma NamesOfKeySet(ms: seq<Member>)
    ensures forall n :: n in Names(ms) <==> n in KeySet(ms, NameOf)
  {
    forall n | n in KeySet(ms, NameOf) ensures n in Names(ms) {
      var p :| 0 <= p < |ms| && NameOf(ms[p]) == n;
      assert Names(ms)[p] == n;
    }
    forall n | n in Names(ms) ensures n in KeySet(ms, NameOf) {
      var p :| 0 <= p < |ms| && Names(ms)[p] == n;
      InKeySet(ms, NameOf, p);
    }
  }

  /** The `forEach` over `transactions` (Simplify.tsx:121-124). */
  method ApplyTransactions(users0: Balances, transactions: seq<Transfer>) returns (users: Balances)
    requires Payable(transactions, users0)
    ensures users == Fold(users0, transactions)
  {
    users := users0;
    for i := 0 to |transactions|
      invariant Payable(transactions[..i], users0)
      invariant users == Fold(users0, transactions[..i])
    {
      var t := transactions[i];
      assert transactions[..i + 1][..i] == transactions[..i];
      users := users[t.from := users[t.from] - t.amount];
      users := users[t.to := users[t.to] + t.amount];
    }
    assert transactions[..|transactions|] == transactions;
  }

  /** The `forEach` filling `idToName` (Simplify.tsx:148-151). */
  method MapIdsToNames(userFriends: seq<Member>) returns (idToName: map<string, string>)
    ensures idToName == IdToName(userFriends)
  {
    idToName := map[];
    for i := 0 to |userFriends|
      invariant idToName == IdToName(userFriends[..i])
    {
      var f := userFriends[i];
      assert userFriends[..i + 1][..i] == userFriends[..i];
      if f.id.Some? && f.id.value != "" {
        idToName := idToName[f.id.value := f.name];
      }
    }
    assert userFriends[..|userFriends|] == userFriends;
  }

  /** The `forEach` over `settlements` (Simplify.tsx:153-168). */
  method ApplyRecordedSettlements(users0: Balances, idToName: map<string, string>, settlements: seq<Settlement>)
    returns (users: Balances)
    requires NamesIn(idToName, users0)
    ensures users == ApplySettlements(users0, idToName, settlements)
  {
    users := users0;
    for i := 0 to |settlements|
      invariant users == ApplySettlements(users0, idToName, settlements[..i])
    {
      var s := settlements[i];
      assert settlements[..i + 1][..i] == settlements[..i];
      var amt := s.amount.GetOr(0.0);
      if s.payerId in idToName && s.receiverId in idToName {
        var payerName, receiverName := idToName[s.payerId], idToName[s.receiverId];
        if payerName != "" && receiverName != "" && amt > 0.0 {
          users := users[payerName := users[payerName] - amt];
          users := users[receiverName := users[receiverName] + amt];
        }
      }
    }
    assert settlements[..|settlements|] == settlements;
  }

  /** `simplifyTransactions(GroupData, settlements)` (Simplify.tsx:58-189). */
  method SimplifyTransactions(groupData: seq<Group>, settlements: seq<Settlement>) returns (result: Option<seq<Transfer>>)
    requires IdsDefined(groupData)
    ensures result == Simplified(groupData, settlements)
  {
    var collected := CollectFriends(groupData);
    if collected.None? {
      return None;
    }
    var userFriends := collected.value;
    FriendsFacts(groupData);
    NameKeysFacts(userFriends);
    var jsonData := MergeActivities(groupData);
    var keys, users := InitBalances(userFriends);
    var transactions := PairTransactions(userFriends, jsonData);
    PairRowsNamed(userFriends, jsonData, |userFriends|);
    users := ApplyTransactions(users, transactions);
    var simplifiedTransactions;
    simplifiedTransactions, users := GreedyReduce(keys, users);
    if |settlements| > 0 {
      var idToName := MapIdsToNames(userFriends);
      users := ApplyRecordedSettlements(users, idToName, settlements);
      var recomputed := users;
      var recomputedSimplified, _ := GreedyReduce(keys, recomputed);
      return Some(recomputedSimplified);
    }
    return Some(simplifiedTransactions);
  }

  // ---------------------------------------------------------------------
  // Properties.

  /** Every pairwise debt is added to one name and taken from another, so
      folding transfers keeps the total. */
  lemma {:induction false} FoldKeepsSum(keys: seq<string>, users: Balances, ts: seq<Transfer>)
    requires DistinctKeys(keys, Itself) && Covers(keys, users) && Payable(ts, users)
    requires forall t :: t in ts ==> t.from in keys && t.to in keys
    ensures Covers(keys, Fold(users, ts))
    ensures Sum(keys, Fold(users, ts)) == Sum(keys, users)
  {
    if ts != [] {
      var init, t := ts[..|ts| - 1], ts[|ts| - 1];
      assert forall x :: x in init ==> x in ts;
      FoldKeepsSum(keys, users, init);
      MoveKeepsSum(keys, Fold(users, init), t.from, t.to, t.amount);
    }
  }

  /** Transfers of nothing leave the balances as they are. */
  lemma {:induction false} FoldOfNothing(users: Balances, ts: seq<Transfer>)
    requires Payable(ts, users)
    requires forall t :: t in ts ==> t.amount == 0.0
    ensures Fold(users, ts) == users
  {
    if ts != [] {
      var init, t := ts[..|ts| - 1], ts[|ts| - 1];
      assert forall x :: x in init ==> x in ts;
      FoldOfNothing(users, init);
      assert users[t.from := users[t.from] - 0.0] == users;
    }
  }

  lemma ZerosSumToZero(fs: seq<Member>)
    requires Covers(NameKeys(fs), Zeros(fs))
    ensures Sum(NameKeys(fs), Zeros(fs)) == 0.0
  {
    NonNegativeSum(NameKeys(fs), Zeros(fs));
    NonPositiveSum(NameKeys(fs), Zeros(fs));
  }

  /** The balances after the pair loop sum to zero: whatever one member is
      owed, others owe. */
  lemma OwingSumsToZero(groups: seq<Group>)
    requires MembersAreArrays(groups) && IdsDefined(groups)
    ensures Covers(NameKeys(Friends(groups)), Owing(groups))
    ensures Sum(NameKeys(Friends(groups)), Owing(groups)) == 0.0
  {
    var fs := Friends(groups);
    FriendsFacts(groups);
    NameKeysFacts(fs);
    PairRowsNamed(fs, Expenses(groups), |fs|);
    ZerosSumToZero(fs);
    FoldKeepsSum(NameKeys(fs), Zeros(fs), PairRows(fs, Expenses(groups), |fs|).transactions);
  }

  /** The first greedy pass settles everybody: every balance it leaves is 0. */
  lemma FirstPassSettlesEveryone(groups: seq<Group>)
    requires MembersAreArrays(groups) && IdsDefined(groups)
    ensures FirstPass(groups).bal == Zeros(Friends(groups))
  {
    var fs := Friends(groups);
    NameKeysFacts(fs);
    OwingSumsToZero(groups);
    GreedyClearsZeroSum(NameKeys(fs), Owing(groups));
  }

  /** A greedy pass over balances nobody owes on emits nothing. */
  lemma {:induction false} SendersIdle(keys: seq<string>, p: Pass, i: nat)
    requires i <= |keys| && Covers(keys, p.bal)
    requires forall k :: k in keys ==> p.bal[k] >= 0.0
    ensures Senders(keys, p, i) == p
  {
    if i > 0 {
      SendersIdle(keys, p, i - 1);
    }
  }

  lemma {:induction false} PairRowFree(fs: seq<Member>, i: nat, j: nat)
    requires i < |fs| && j <= |fs| && Defined(fs)
    ensures forall t :: t in PairRow(fs, [], i, j).transactions ==> t.amount == 0.0
    decreases i, j + 1
  {
    if j == 0 {
      PairRowsFree(fs, i);
    } else {
      PairRowFree(fs, i, j - 1);
    }
  }

  lemma {:induction false} PairRowsFree(fs: seq<Member>, i: nat)
    requires i <= |fs| && Defined(fs)
    ensures forall t :: t in PairRows(fs, [], i).transactions ==> t.amount == 0.0
    decreases i, 0
  {
    if i > 0 {
      PairRowFree(fs, i - 1, |fs|);
    }
  }

  lemma {:induction false} NoActivity(groups: seq<Group>)
    requires forall i :: 0 <= i < |groups| ==> groups[i].activity == []
    ensures Activity(groups) == []
  {
    if groups != [] {
      NoActivity(groups[..|groups| - 1]);
    }
  }

  /** Groups without expenses need no payments. */
  lemma NoExpensesNoPayments(groups: seq<Group>)
    requires MembersAreArrays(groups) && IdsDefined(groups)
    requires forall i :: 0 <= i < |groups| ==> groups[i].activity == []
    ensures Simplified(groups, []) == Some([])
  {
    var fs := Friends(groups);
    NoActivity(groups);
    FriendsFacts(groups);
    NameKeysFacts(fs);
    PairRowsFree(fs, |fs|);
    PairRowsNamed(fs, [], |fs|);
    FoldOfNothing(Zeros(fs), PairRows(fs, [], |fs|).transactions);
    assert Owing(groups) == Zeros(fs);
    SendersIdle(NameKeys(fs), Pass([], Zeros(fs)), |NameKeys(fs)|);
  }

  /** Settlements move an amount from one name to another: the total is
      kept. */
  lemma {:induction false} SettlementsKeepSum(keys: seq<string>, users: Balances, idToName: map<string, string>, ss: seq<Settlement>)
    requires DistinctKeys(keys, Itself) && Covers(keys, users)
    requires forall id :: id in idToName ==> idToName[id] in keys
    ensures Covers(keys, ApplySettlements(users, idToName, ss))
    ensures Sum(keys, ApplySettlements(users, idToName, ss)) == Sum(keys, users)
  {
    if ss != [] {
      SettlementsKeepSum(keys, users, idToName, ss[..|ss| - 1]);
      var u := ApplySettlements(users, idToName, ss[..|ss| - 1]);
      var s := ss[|ss| - 1];
      if Applies(idToName, s) {
        MoveKeepsSum(keys, u, idToName[s.receiverId], idToName[s.payerId], -Amount(s));
        assert ApplySettlement(u, idToName, s) ==
          u[idToName[s.receiverId] := u[idToName[s.receiverId]] - -Amount(s)]
           [idToName[s.payerId] := u[idToName[s.receiverId] := u[idToName[s.receiverId]] - -Amount(s)][idToName[s.payerId]] + -Amount(s)];
      }
    }
  }

  /** Every suggested payment runs between two distinct member names and is
      never negative, with or without settlements. */
  lemma SimplifiedPaymentsWellFormed(groups: seq<Group>, settlements: seq<Settlement>)
    requires MembersAreArrays(groups) && IdsDefined(groups)
    ensures Simplified(groups, settlements).Some?
    ensures forall t :: t in Simplified(groups, settlements).value ==>
      t.from in Names(Friends(groups)) && t.to in Names(Friends(groups)) && t.from != t.to && t.amount >= 0.0
  {
    var fs := Friends(groups);
    NameKeysFacts(fs);
    if |settlements| == 0 {
      GreedyKeepsSumAndSigns(NameKeys(fs), Owing(groups));
    } else {
      GreedyKeepsSumAndSigns(NameKeys(fs), ApplySettlements(FirstPass(groups).bal, IdToName(fs), settlements));
    }
  }
}
