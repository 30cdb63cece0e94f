# PayEasy debt simplification, modelled in Dafny

This project models the debt-simplification core of PayEasy, a
group-expense splitter. It covers the following pieces of
`src/components/shared/Simplify.tsx`:

- `processTransactions`, which nets what two members owe each other through a list of expenses.
- `getUniqueUserIdsFromGroups`, which lists a user's fellow group members once per `$id`.
- `simplifyTransactions`, which runs these steps:
  - collects the members and expenses of all groups;
  - nets every pair of members;
  - folds the pairwise debts into one balance per member name;
  - greedily turns the balances into suggested payments;
  - when settlements were recorded, adjusts the balances and runs the greedy pass again.

It also models `mergeUniqueUsers` of `src/_root/pages/AllFriends.tsx`. That
helper merges two user lists without duplicate ids.

Each loop of the source is a Dafny `method` with a loop. Each is proved
against a recursive specification function that describes the same
computation one step at a time, for example `Owed`, `Greedy`, `PairRows` or
`Fresh`. The properties the code promises are then proved about those
functions as lemmas.

Files and modules:

| file | module | what it holds |
|---|---|---|
| `types.dfy` | `SimplifyTypes` | members, expenses, groups, settlements, transfers |
| `keyed.dfy` | `Keyed` | first-occurrence deduplication by a key (`Set`/`Map`-guarded pushes) |
| `ledger.dfy` | `Ledger` | the `users` balance dictionary and its sum |
| `pairwise.dfy` | `PairwiseNet` | `processTransactions` |
| `members.dfy` | `GroupMembers` | `getUniqueUserIdsFromGroups` |
| `pairs.dfy` | `PairTable` | the pair loop guarded by `processedPairs` |
| `greedy.dfy` | `GreedyReduction` | the greedy debtor/creditor pass |
| `simplify.dfy` | `SimplifyEngine` | `simplifyTransactions` as written |
| `settlement.dfy` | `SettlementFix` | the settlement findings and the corrected definition |
| `merge.dfy` | `FriendMerge` | `mergeUniqueUsers` |

Modelling choices:

- **Member ids.** A member's `$id` is an `Option<string>`, because the source explicitly tests for `undefined`.
- **Non-array `Members`.** A group whose `Members` is not an array has `members == None`.
- **Expense identity.** An expense carries an explicit `ref` that stands for its object identity. This is what the `Set` in `simplifyTransactions` deduplicates on.
- **Money.** Amounts are exact `real`s.
- **Balance key order.** `Object.keys(users)` is the order in which names were first inserted.
- **Thrown errors.** `simplifyTransactions` throws when some group's `Members` is not an array. It is modelled as returning `None`. That is the only throw the model represents: the types rule out the other inputs on which the source throws (see "## Left out").

## Model

| member | source | states |
|---|---|---|
| PairwiseNet.ProcessTransactions | src/components/shared/Simplify.tsx:7-40 | `userCanPay` is what the friend owes the user: one `Amout / splitMember.length` share per occurrence of the friend in each expense the user paid. `friendCanPay` is the same with the roles swapped, so swapping the two distinct ids swaps the outputs. When both ids are equal, the `else if` leaves `friendCanPay` at 0. |
| PairwiseNet.PortionCountsOccurrences | src/components/shared/Simplify.tsx:24-35 | A debtor's portion of one expense is its number of occurrences among the split members times the per-person share. |
| PairwiseNet.OwedAppend | src/components/shared/Simplify.tsx:15-38 | What is owed through two expense lists is the sum of what is owed through each. |
| PairwiseNet.OwedIgnoresOtherPayers | src/components/shared/Simplify.tsx:21-22 | Expenses paid by neither party contribute nothing. |
| PairwiseNet.OwedUnchangedByOtherPayer | src/components/shared/Simplify.tsx:21-22 | Adding an expense paid by someone else leaves the amount owed to a payer unchanged. |
| PairwiseNet.OwedNonNegative | src/components/shared/Simplify.tsx:24-35 | With non-negative amounts, both outputs are non-negative. |
| PairwiseNet.HalfOfHundred | src/components/shared/Simplify.tsx:21-35 | Example: when A pays 100 split between A and B, B owes A 50 and A owes B nothing. |
| Keyed.FreshFacts | src/components/shared/Simplify.tsx:62-77 | Deduplication by a key keeps exactly the keys not seen before. The kept keys are pairwise distinct, and every kept element comes from the input. |
| Keyed.FreshAppend | src/components/shared/Simplify.tsx:62-69 | Deduplicating a concatenation is deduplicating the prefix, then the rest against the prefix's keys. This is the discovery order of `idMap`/`userFriends`. |
| Keyed.FreshOfDistinct | src/components/shared/Simplify.tsx:62-69 | A list whose keys are already distinct is kept unchanged. |
| Keyed.PushUnseen | src/components/shared/Simplify.tsx:62-69 | Pushing each element whose key is not yet recorded, then recording the key, extends the deduplicated list and its key set by the new elements. The same loop deduplicates the expenses at 71-77. |
| GroupMembers.GetUniqueUserIdsFromGroups | src/components/shared/Simplify.tsx:42-56 | Returns one member per eligible `$id`, in the order the id was first inserted into the `Map`. Each entry is the last member inserted under that id. |
| GroupMembers.SetMembers | src/components/shared/Simplify.tsx:47-51 | The inner loop sets every member whose `$id` is defined and differs from the user's. |
| GroupMembers.Latest | src/components/shared/Simplify.tsx:49 | The `Map` holds exactly the ids inserted, each under a member with that id. |
| GroupMembers.UniqueMembersFacts | src/components/shared/Simplify.tsx:45-55 | The result has pairwise-distinct ids. It never contains the excluded user's id or an undefined id. Its ids are exactly the eligible ids. |
| GroupMembers.NonArrayGroupIgnored | src/components/shared/Simplify.tsx:46 | A group whose `Members` is not an array contributes nothing, wherever it stands. |
| GroupMembers.EligibleOfFacts | src/components/shared/Simplify.tsx:48 | Only members with a defined id other than the user's are inserted. |
| SimplifyEngine.CollectFriends | src/components/shared/Simplify.tsx:59-69 | Returns the first member seen with each `$id`, in discovery order. Returns `None` (the call throws) exactly when some group's `Members` is not an array. |
| SimplifyEngine.FriendsFacts | src/components/shared/Simplify.tsx:62-69 | The collected members have pairwise-distinct, non-empty ids. |
| SimplifyEngine.MergeActivities | src/components/shared/Simplify.tsx:71-77 | Returns every expense object once, at its first occurrence across the groups. |
| SimplifyEngine.InitBalances | src/components/shared/Simplify.tsx:78-81 | Every friend's name gets balance 0. The key order is the names' first-insertion order. |
| SimplifyEngine.InitStep | src/components/shared/Simplify.tsx:78-81 | Assigning one more friend adds the friend's name as a new key with balance 0, unless the name is already a key. |
| SimplifyEngine.NameKeysFacts | src/components/shared/Simplify.tsx:78-81 | The balance keys are exactly the friends' names, each once. |
| PairTable.PairTransactions | src/components/shared/Simplify.tsx:86-119 | For members with defined, non-empty ids, the nested loop over ordered pairs of members is guarded by the `processedPairs` key strings. It pushes the two directed amounts of `processTransactions` for each pair it lets through. |
| PairTable.PairLoopOncePerPair | src/components/shared/Simplify.tsx:86-119 | With distinct ids that contain no `-`, the loop nets each unordered pair of members exactly once, in discovery order. It pushes n·(n−1) transfers for n members. |
| PairTable.PairRowOncePerPair | src/components/shared/Simplify.tsx:90-116 | After each inner step, `processedPairs` holds exactly the keys of the pairs already netted, and the transfers are those pairs' amounts in order. |
| PairTable.VisitStep | src/components/shared/Simplify.tsx:89-111 | One visit (i, q) of the guarded inner loop pushes the pair's two transfers exactly when q comes after i, and the recorded keys still match the pairs already netted. |
| PairTable.PairKeyInjective | src/components/shared/Simplify.tsx:91-92 | For ids without `-`, the key `${a}-${b}` determines both ids. |
| PairTable.PairsBeforeLength | src/components/shared/Simplify.tsx:101-111 | Two transfers are pushed per unordered pair. |
| PairTable.PairRowsNamed | src/components/shared/Simplify.tsx:101-111 | Every pair transfer runs between two member names. |
| SimplifyEngine.ApplyTransactions | src/components/shared/Simplify.tsx:121-124 | For each transfer in order, subtracts its amount from the sender's balance and adds it to the receiver's. |
| SimplifyEngine.FoldKeepsSum | src/components/shared/Simplify.tsx:121-124 | Folding transfers into the balances keeps their sum. |
| SimplifyEngine.FoldOfNothing | src/components/shared/Simplify.tsx:121-124 | Transfers of 0 leave the balances unchanged. |
| SimplifyEngine.OwingSumsToZero | src/components/shared/Simplify.tsx:78-124 | The balances after the pair loop sum to zero. |
| GreedyReduction.GreedyReduce | src/components/shared/Simplify.tsx:128-143 | Each member with a negative balance, in key order, pays every member with a positive balance `min(|sender|, receiver)`, updating both balances in place. The same method models the second pass at 173-184. |
| GreedyReduction.GreedyKeepsSumAndSigns | src/components/shared/Simplify.tsx:128-143 | The greedy pass keeps the sum. Debtors stay ≤ 0 and creditors ≥ 0. Every emitted transfer runs between two distinct keys and is ≥ 0. |
| GreedyReduction.GreedyClearsZeroSum | src/components/shared/Simplify.tsx:128-143 | From zero-sum balances, every balance is 0 after the pass. |
| GreedyReduction.SendersClearDebtors | src/components/shared/Simplify.tsx:128-143 | With a zero sum, every sender considered so far has been cleared. |
| GreedyReduction.VisitBounds | src/components/shared/Simplify.tsx:131-139 | One payment `min(|sender|, receiver)` moves a non-positive sender up towards 0 without passing it. It moves a positive receiver down towards 0 without passing it and changes no other balance. If the sender is still in debt afterwards, the receiver was paid off. |
| GreedyReduction.ReceiversBounds | src/components/shared/Simplify.tsx:130-141 | Within one sender's pass, the sender never goes above 0 and no creditor drops below 0. Members that were not creditors are left alone. |
| GreedyReduction.ReceiversPayOff | src/components/shared/Simplify.tsx:130-141 | While the sender is still in debt, every member it has visited has been paid off. |
| GreedyReduction.PayCreditors | src/components/shared/Simplify.tsx:130-141 | The inner loop over the keys yields exactly one sender's pass: the payments are appended and the balances updated in place. |
| GreedyReduction.ReceiversOut | src/components/shared/Simplify.tsx:130-141 | Within one sender's pass, earlier transfers are kept and each new one goes from that sender to a key. |
| GreedyReduction.SendersOut | src/components/shared/Simplify.tsx:128-143 | The transfers of earlier senders are kept as a prefix. |
| GreedyReduction.ZeroAmountAfterClearing | src/components/shared/Simplify.tsx:130-140 | Example: for balances A −5, B 5, C 5, D −5, A pays B 5 and is cleared, yet still emits a transfer of 0 to C. D then pays C 5. |
| SimplifyEngine.FirstPassSettlesEveryone | src/components/shared/Simplify.tsx:121-143 | After the first greedy pass, every balance is 0. |
| SimplifyEngine.NoExpensesNoPayments | src/components/shared/Simplify.tsx:86-143 | Groups without expenses and with no settlements yield no payments. |
| SimplifyEngine.MapIdsToNames | src/components/shared/Simplify.tsx:148-151 | The loop builds `IdToName` of the friends. What that map holds is stated by `IdToNameFacts`. |
| SimplifyEngine.IdToNameFacts | src/components/shared/Simplify.tsx:148-151 | The keys of `idToName` are exactly the friends' non-empty `$id`s. When the ids are distinct, each key maps to its friend's name. |
| SimplifyEngine.StrangerSettlementSkipped | src/components/shared/Simplify.tsx:155-160 | A settlement whose payer or receiver id is no friend's id is not applied. |
| SimplifyEngine.IdToName | src/components/shared/Simplify.tsx:148-151 | Every name in `idToName` is a friend's name. |
| SimplifyEngine.ApplyRecordedSettlements | src/components/shared/Simplify.tsx:153-168 | For each settlement whose ids both map to non-empty names and whose amount is > 0, lowers the payer's balance by the amount and raises the receiver's. Any other settlement is skipped. |
| SimplifyEngine.SettlementsKeepSum | src/components/shared/Simplify.tsx:153-168 | Applying the settlements keeps the balance sum. |
| SimplifyEngine.SimplifyTransactions | src/components/shared/Simplify.tsx:58-189 | The result is the first pass's transfers when there are no settlements. Otherwise it is a second greedy pass over the settled balances. It is `None` when a group's `Members` is not an array. |
| SimplifyEngine.SimplifiedPaymentsWellFormed | src/components/shared/Simplify.tsx:128-188 | Every suggested payment runs between two distinct member names and is ≥ 0, with or without settlements. |
| SettlementFix.SettledResultIgnoresExpenses | src/components/shared/Simplify.tsx:147-185 | As written, once any settlement is recorded, the result is the greedy pass over the settlements applied to all-zero balances. The expenses no longer matter. |
| SettlementFix.UnmatchedSettlementsClearResult | src/components/shared/Simplify.tsx:147-185 | As written, a non-empty list of settlements none of which applies (unknown id, amount ≤ 0) wipes out every suggested payment. |
| SettlementFix.SettlementAddsDebt | src/components/shared/Simplify.tsx:160-164 | As written, a settlement changes the balances exactly as a new debt of the payer to the receiver would. |
| SettlementFix.FullRepaymentAsWritten | src/components/shared/Simplify.tsx:147-185 | Example: A owes B 100 and records having repaid 100, yet A is told to pay B 100. |
| SettlementFix.RepaymentWithoutDebtAsWritten | src/components/shared/Simplify.tsx:147-185 | Example: the same group without the expense gets the same answer. |
| SettlementFix.SettlementRepaysDebt | src/components/shared/Simplify.tsx:160-164 | Corrected, a settlement changes the balances exactly as a debt of the receiver to the payer would. |
| SettlementFix.RepaymentCancelsDebt | src/components/shared/Simplify.tsx:160-164 | A repayment cancels a debt of the same amount. |
| SettlementFix.SettlementsCorrectedKeepSum | src/components/shared/Simplify.tsx:153-168 | Corrected settlements keep the balance sum. |
| SettlementFix.CorrectedPassSettlesEveryone | src/components/shared/Simplify.tsx:147-185 | Corrected: after the one greedy pass over the repaid pairwise balances, every balance is 0. |
| SettlementFix.SettlementsRepayDebts | src/components/shared/Simplify.tsx:153-167 | Corrected, a whole list of settlements moves the balances exactly as folding the repayments of the applying settlements, receiver to payer, in order. |
| SettlementFix.CorrectedIgnoresUnmatchedSettlements | src/components/shared/Simplify.tsx:147-185 | Corrected, settlements that do not apply leave the result equal to the one without settlements. As written, the same input clears the result. |
| SettlementFix.CorrectedSettlesPairwiseBalances | src/components/shared/Simplify.tsx:147-185 | Corrected, the suggestions are one greedy pass over the pairwise balances after those repayments, so the expenses still count once settlements exist. |
| SettlementFix.FullRepaymentCorrected | src/components/shared/Simplify.tsx:147-185 | Corrected: a full repayment leaves nothing to pay. |
| SettlementFix.PartialRepaymentCorrected | src/components/shared/Simplify.tsx:147-185 | Corrected: after a partial repayment of 40 on a debt of 100, A still pays B 60. |
| FriendMerge.MergeUniqueUsers | src/_root/pages/AllFriends.tsx:71-83 | The result is `json1` unchanged as a prefix, followed by the first element of `json2` for each id not in `json1`, in `json2` order. |
| FriendMerge.AppendedIff | src/_root/pages/AllFriends.tsx:73-80 | Reading aid: the definition of `Merged` unfolded at one position. The element at position k of `json2` is appended if and only if its id is neither in `json1` nor the id of an earlier element of `json2`. |
| FriendMerge.MergedLength | src/_root/pages/AllFriends.tsx:72-82 | The result is at least as long as `json1` and at most as long as both inputs together. |
| FriendMerge.MergedIds | src/_root/pages/AllFriends.tsx:72-82 | The ids of the result are exactly the ids of the two inputs. |
| FriendMerge.MergedDistinct | src/_root/pages/AllFriends.tsx:73-80 | If `json1` has pairwise-distinct ids, so does the result. |

## Left out

- Floating point: amounts are exact reals. Rounding drift, `NaN` and the `|| 0` guards against it are not modelled, and neither is the string parsing of `parseFloat`. A settlement's amount is an optional number that defaults to 0.
- Key order: `Object.keys` lists integer-like keys first. The model takes plain insertion order, which matches only for names that do not look like array indices.
- Object identity: the `Set` over expense objects is modelled by an explicit `ref` per expense. Two distinct objects describing the same expense are counted twice, as in the source.
- SimplifyEngine.SimplifyTransactions, SimplifyEngine.FriendsFacts, PairTable.PairTransactions: require every member to have a defined, non-empty `$id`. For undefined or empty ids the source produces `"undefined"` keys and passes `[]` as an id to `processTransactions`; that path is not modelled.
- PairTable.PairLoopOncePerPair: the once-per-pair guarantee is stated only for ids that contain no `-`. With ids such as `a-b`, two different pairs can share a key string and one of them is skipped.
- Other thrown errors: besides a non-array `Members`, the source throws a `TypeError` when a group has no `activity` array (Simplify.tsx:74), when an expense's `PaidBy` is null, for example after the payer was deleted (:21-22), when `splitMember` is missing or holds a null entry (:25-28), and when a member is null (:48, :64). The types `Group.activity: seq<Expense>`, `Expense.paidBy: string`, `Expense.splitMember: seq<string>` and `Member` make these inputs impossible to write, so the model does not return `None` for them.
- Malformed settlement entries: entries that throw inside the `try` (for example `null`) are not modelled. Every entry is a well-formed record, and the `Amount`/`amount` fields are folded into one optional amount.
- FriendMerge.MergeUniqueUsers: generic in the element type and the `id` key. Which field the callers' documents carry under `id` is not part of this model.
- Network, React state, hooks and rendering around these functions are not modelled.
- The rest of the repository is not modelled: `src/lib/appwrite/api.ts`, `UserCard.tsx` and the other pages and forms. `api.ts` creates expenses with a non-empty `splitMember`, but the model does not rely on that: `Portion` applies `PerPerson` only while it walks an actual element of `splitMember`, so an empty list contributes nothing, as the empty `forEach` does.

## Findings

| source | as written | input that shows it | evidently intended | confidence | as-written member | corrected member |
|---|---|---|---|---|---|---|
| src/components/shared/Simplify.tsx:147-185 | Settlements are applied to the balances left by the first greedy pass, which are all 0. So once any settlement exists, the expenses no longer affect the result, and settlements that do not apply wipe it out. | B paid 100 for A alone, and A records a repayment of 100. As written the result is "A pays B 100", the same as with no expense at all. | Apply the settlements to the pairwise balances and run one greedy pass. A full repayment then leaves nothing to pay, and a repayment of 40 leaves "A pays B 60". | high, not executed | SettlementFix.SettledResultIgnoresExpenses | SettlementFix.CorrectedIgnoresUnmatchedSettlements |
| src/components/shared/Simplify.tsx:162-163 | A settlement lowers the payer's balance and raises the receiver's. That books the payment as a new debt of the payer, although the comment at line 161 says the payer's net owed decreases. | Balances A −100, B +100 and a settlement of 100 from A to B give A −200, B +200. | The payer's balance rises by the amount and the receiver's falls, cancelling the debt. | high, not executed | SettlementFix.SettlementAddsDebt | SettlementFix.SettlementRepaysDebt |
