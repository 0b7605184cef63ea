# Trip ledger and payment reconciler

This is a Dafny model of the settlement core of the trip-expense backend. It
covers three controllers.

- `calculateSettlements` in backend/src/controllers/paymentsController.js is a
  pipeline of four stages: the validity filter, the balance fold, the
  completed-payment adjustment and the greedy debt simplifier.
- The payments table, with the handlers that change it:
  `syncPendingPaymentsForTrip`, `createPayment`, `completePayment`,
  `listTripPayments` and `resetTripPayments`.
- `getTripSettlements` in settlementController.js repeats the same pipeline
  inline and adds a summary of the counted expenses.
- `getTripAnalytics` in analyticsController.js sums spending per payer and per
  category, builds the chart arrays, and computes the total, count and
  average.

Modules, one per file:

| file | module | contents |
|---|---|---|
| ledger.dfy | Ledger | records, `Eps = 0.01`, `Round2`, the member set, sums over keys |
| balances.dfy | Balances | the filter, the fold and the adjustment, as loops proved against `Paid`, `Owes`, `Sent`, `Received`; conservation of money |
| simplifier.dfy | Simplifier | the creditor/debtor partition, the stable descending sort, the greedy loop proved against the recursive `GreedyExact` |
| payments.dfy | Payments | `CalculateSettlements` and what its instructions guarantee, plus a worked example |
| payment_table.dfy | PaymentTable | the class `PaymentStore` (rows in insertion order, next id) and its handlers, the sync as a function of the old table, name normalisation, mode parsing |
| settlement_view.dfy | SettlementView | `getTripSettlements` and its agreement with the sync |
| analytics.dfy | Analytics | `getTripAnalytics` |

How values are modelled:

- Money is `real`, so `amount / participants.length` is exact.
- `parseFloat(x.toFixed(2))` is `Round2`: rounding half away from zero, with
  an error of at most 0.005.
- Database queries are replaced by method inputs: the trip's expenses, its
  `trip_members` rows, the completed payments, the outcome of the access
  checks, the clock and which storage call fails.
- The access checks (trip lookup, trip missing, not a group member) are the
  `Access` input of the handlers that run them: `createPayment`,
  `listTripPayments`, `resetTripPayments`, `getTripSettlements` and
  `getTripAnalytics`. `createPayment` checks its required fields before the
  access checks, and `resetTripPayments` parses `mode` before them.
- `completePayment` runs no trip or group check. It only looks up the
  payment (404) and compares the receiver with the caller (403), so it takes
  no `Access` input.

## Model

| member | source | states |
|---|---|---|
| Ledger.Round2 | backend/src/controllers/paymentsController.js:100 | the rounded amount is within half a cent of the exact one; above the tolerance stays at least the tolerance; non-negative stays non-negative |
| Ledger.MemberSet | backend/src/controllers/paymentsController.js:20 | `new Set(rows)`: no repeats, exactly the handles of the rows, no longer than the rows |
| Balances.ValidExpenses | backend/src/controllers/paymentsController.js:24-30 | an expense is kept (with its multiplicity) iff its payer is a member and every listed participant is a member |
| Balances.SeedBalances | backend/src/controllers/paymentsController.js:33-36 | one zero entry per member and no other key |
| Balances.AddExpense | backend/src/controllers/paymentsController.js:38-51 | an expense with participants adds its amount to the payer's `paid` and one share per listing to each participant's `owes`; one without participants changes nothing; keys unchanged |
| Balances.SetNets | backend/src/controllers/paymentsController.js:53-55 | every entry gets `net = paid - owes`; nothing else changes |
| Balances.ComputeBalances | backend/src/controllers/paymentsController.js:32-55 | the map is keyed by exactly the members, with `paid`, `owes` and `net = paid - owes` given by the fold functions |
| Balances.ApplyPayment | backend/src/controllers/paymentsController.js:63-69 | a completed payment raises the payer's net and lowers the receiver's, each only when that party has an entry |
| Balances.ApplyCompleted | backend/src/controllers/paymentsController.js:57-69 | each net moves by what the member sent minus what it received; `paid`, `owes` and keys unchanged |
| Balances.AdjustedBalances | backend/src/controllers/paymentsController.js:32-69 | the balance map after fold and adjustment equals `BalanceMap` over the counted expenses |
| Balances.TotalPaid | backend/src/controllers/paymentsController.js:43-45 | each counted amount with participants lands once in its payer's `paid` |
| Balances.OwedInTotal | backend/src/controllers/paymentsController.js:46-50 | spreading a share over a participant list hands out share × list length |
| Balances.TotalOwes | backend/src/controllers/paymentsController.js:42-50 | each counted amount is split fully over the participants' `owes` |
| Balances.FoldConservesMoney | backend/src/controllers/paymentsController.js:38-55 | before the adjustment, the members' nets sum to 0 |
| Balances.BetweenMembersBalance | backend/src/controllers/paymentsController.js:63-69 | payments between members move as much out of one side as into the other |
| Balances.AdjustmentTotal | backend/src/controllers/paymentsController.js:63-69 | the adjustment changes the sum of nets by what members paid minus what members received |
| Balances.AdjustedConservesMoney | backend/src/controllers/paymentsController.js:57-69 | when every completed payment is between members, the adjusted nets sum to 0 |
| Balances.RejectedExpenseIgnored | backend/src/controllers/paymentsController.js:24-30 | an expense the filter rejects leaves the counted expenses as they were |
| Balances.EmptySplitIgnored | backend/src/controllers/paymentsController.js:40 | an expense without participants adds nothing, not even to its payer's `paid` |
| Simplifier.Partition | backend/src/controllers/paymentsController.js:76-83 | the creditors and debtors are `CreditorsOf` and `DebtorsOf`, in member order |
| Simplifier.CreditorsMembership | backend/src/controllers/paymentsController.js:78-79 | a creditor entry is exactly a member with net above 0.01, carrying that net |
| Simplifier.DebtorsMembership | backend/src/controllers/paymentsController.js:80-81 | a debtor entry is exactly a member with net below -0.01, carrying its absolute value |
| Simplifier.PartiesCount | backend/src/controllers/paymentsController.js:76-83 | there are at most as many creditors and debtors together as members |
| Simplifier.NoCreditors | backend/src/controllers/paymentsController.js:78 | with no net above the tolerance there is no creditor |
| Simplifier.NoDebtors | backend/src/controllers/paymentsController.js:80 | with no net below minus the tolerance there is no debtor |
| Simplifier.SortDesc | backend/src/controllers/paymentsController.js:85-86 | the sorted list has the same length and the same entries as the input; its order is stated by `SortDescSorts` and `SortStable` |
| Simplifier.SortDescSorts | backend/src/controllers/paymentsController.js:85-86 | the sort orders by amount, largest first, and is a permutation |
| Simplifier.SortStable | backend/src/controllers/paymentsController.js:85-86 | entries with equal amounts keep their relative order |
| Simplifier.SortKeepsNamesDistinct | backend/src/controllers/paymentsController.js:85-86 | the sort keeps the names distinct and the same set of names |
| Simplifier.SimplifyDebts | backend/src/controllers/paymentsController.js:88-109 | the loop emits the rounded `GreedyExact` transfers and runs at most \|creditors\| + \|debtors\| − 1 rounds, none when a side is empty |
| Simplifier.SettleStep | backend/src/controllers/paymentsController.js:91-109 | one round (settle the minimum, emit it above 0.01, subtract it, advance heads below 0.01) is one step of `GreedyExact` |
| Simplifier.GreedyExact | backend/src/controllers/paymentsController.js:91-109 | the matching emits no more transfers than there are creditors and debtors together; `GreedyEndpoints` and `GreedyCount` state what the transfers are and the tighter bound |
| Simplifier.NextDs | backend/src/controllers/paymentsController.js:104-108 | every round passes at least one head, so the loop terminates |
| Simplifier.GreedyEndpoints | backend/src/controllers/paymentsController.js:96-101 | every transfer goes from a debtor to a creditor, with an amount above 0.01 |
| Simplifier.GreedyCount | backend/src/controllers/paymentsController.js:91-109 | at most \|creditors\| + \|debtors\| − 1 transfers; none when a side is empty |
| Simplifier.GreedyNoOverpay | backend/src/controllers/paymentsController.js:94-108 | no debtor is told to pay more in total than it owes |
| Simplifier.GreedyNoOverReceive | backend/src/controllers/paymentsController.js:94-108 | no creditor is told to receive more in total than it is owed |
| Simplifier.RoundAmountsAt | backend/src/controllers/paymentsController.js:100 | rounding keeps the transfers and their order and rounds only the amount |
| Payments.CalculateSettlements | backend/src/controllers/paymentsController.js:5-112 | the method computes `Settlements`: the filter, fold, adjustment, partition, sorts and greedy loop; an empty member set gives no transfer |
| Payments.Settlements | backend/src/controllers/paymentsController.js:5-112 | no transfer for a trip without members, and never more transfers than members |
| Payments.SettlementsFollowBalances | backend/src/controllers/paymentsController.js:71-111 | the instructions depend on the expenses and payments only through the adjusted balances |
| Payments.SortedParties | backend/src/controllers/paymentsController.js:76-86 | the sorted creditors and debtors are exactly the members beyond the tolerance, with distinct names and non-negative amounts |
| Payments.SettlementEndpoints | backend/src/controllers/paymentsController.js:76-103 | every transfer goes from a member with net below −0.01 to another member with net above 0.01, for at least 0.01; a member within the tolerance is in none |
| Payments.SettlementCount | backend/src/controllers/paymentsController.js:88-111 | at most one transfer fewer than there are members |
| Payments.SettlementOneSided | backend/src/controllers/paymentsController.js:88-111 | no transfer at all when no member is beyond the tolerance on one side |
| Payments.SettlementNoOverpay | backend/src/controllers/paymentsController.js:88-109 | before rounding, no member pays more than its negative net or receives more than its positive net, and a member within the tolerance moves nothing |
| Payments.SettlementRounding | backend/src/controllers/paymentsController.js:96-101 | each returned amount is its exact amount within half a cent, between the same two members |
| Payments.DinnerSettled | backend/src/controllers/paymentsController.js:57-69 | a 10 dinner split by a and b, with b's completed payment of 5, leaves nothing to settle |
| Payments.DinnerOwed | backend/src/controllers/paymentsController.js:71-111 | the same dinner without the payment tells b to pay a 5 |
| PaymentTable.PaymentStore.constructor | backend/src/controllers/paymentsController.js:114-150 | an empty, well-formed table |
| PaymentTable.PaymentStore.Sync | backend/src/controllers/paymentsController.js:114-150 | the new table, next id and `created` answer are `SyncEffect` of the old table, and the table stays well-formed |
| PaymentTable.SyncEffect | backend/src/controllers/paymentsController.js:114-150 | the next id moves by exactly the `created` count on success and not at all on failure; a failed read or delete leaves the table as it was |
| PaymentTable.PendingRow | backend/src/controllers/paymentsController.js:134-141 | the inserted row is pending with no completion time, carries the settlement's debtor, creditor and amount, and is created by the caller, or by the debtor when there is no caller name |
| PaymentTable.PendingRows | backend/src/controllers/paymentsController.js:134-141 | one row per settlement |
| PaymentTable.SyncKeepsWellFormed | backend/src/controllers/paymentsController.js:118-147 | ids stay increasing and below the next id, and completed rows carry a completion time |
| PaymentTable.SyncReplacesPending | backend/src/controllers/paymentsController.js:118-149 | a sync that reaches the delete leaves exactly one pending row per settlement, in order, and answers their number; if the insert fails there are none |
| PaymentTable.SyncTouchesOnlyTrip | backend/src/controllers/paymentsController.js:118-147 | rows of other trips are neither removed nor added |
| PaymentTable.SoftSyncKeepsCompleted | backend/src/controllers/paymentsController.js:123-125 | a soft sync keeps every completed row |
| PaymentTable.HardSyncClearsCompleted | backend/src/controllers/paymentsController.js:115-127 | a hard sync removes the trip's completed rows, yet its pending rows are the settlements computed with those completions |
| PaymentTable.HardResetLagsOneSync | backend/src/controllers/paymentsController.js:116-132 | on the dinner trip a hard reset clears the payment and creates nothing; the next sync asks b for the 5 again |
| PaymentTable.SoftSyncIdempotent | backend/src/controllers/paymentsController.js:114-149 | two soft syncs in a row leave the same pending and completed instructions and answer the same count |
| PaymentTable.PendingRowDropped | backend/src/controllers/paymentsController.js:118-128 | a pending row of the trip, such as a manual one, does not survive a sync that reaches the delete |
| PaymentTable.PendingRowsIn | backend/src/controllers/paymentsController.js:134-141 | the inserted rows are pending, one per settlement, with its parties and amount |
| PaymentTable.KeptMembers | backend/src/controllers/paymentsController.js:118-125 | the delete removes exactly the trip's pending rows (soft) or all its rows (hard) |
| PaymentTable.Kept | backend/src/controllers/paymentsController.js:118-128 | the delete never adds rows; which rows it removes is stated by `KeptMembers` |
| PaymentTable.PaymentStore.CreatePayment | backend/src/controllers/paymentsController.js:191-236 | missing fields or a zero amount give 400, then the access errors, then 400 unless both parties are trip members, then the storage error; otherwise one pending row with the next id, created by the requester |
| PaymentTable.PaymentStore.CompletePayment | backend/src/controllers/paymentsController.js:239-273 | an unknown id gives 404 and a caller who is not the receiver 403, with no change; otherwise the row becomes completed with the time, the soft sync runs and its failure is swallowed, and the answer is the updated row |
| PaymentTable.CompleteKeepsWellFormed | backend/src/controllers/paymentsController.js:256-260 | marking a row completed keeps the table well-formed |
| PaymentTable.IndexOf | backend/src/controllers/paymentsController.js:244-250 | the lookup finds a row with the id, or reports that none has it |
| PaymentTable.Normalize | backend/src/controllers/paymentsController.js:252 | the compared form is no longer than the name and holds no upper-case ASCII letter |
| PaymentTable.NormalizeIdempotent | backend/src/controllers/paymentsController.js:252 | trimming and lower-casing twice is the same as once |
| PaymentTable.NormalizeIgnoresCase | backend/src/controllers/paymentsController.js:252 | the receiver check ignores letter case |
| PaymentTable.NormalizeIgnoresPadding | backend/src/controllers/paymentsController.js:252 | the receiver check ignores surrounding whitespace |
| PaymentTable.NormalizeKeepsNormal | backend/src/controllers/paymentsController.js:252 | a handle with no white space at either end and no upper-case ASCII letter is compared as it is |
| PaymentTable.NormalizeSeparates | backend/src/controllers/paymentsController.js:252 | two different handles of that form are different to the receiver check, so the 403 guard does not let another user through |
| PaymentTable.PaymentStore.ListTripPayments | backend/src/controllers/paymentsController.js:153-188 | the access errors without change; otherwise a soft sync, whose failure is an error, then the trip's rows newest first |
| PaymentTable.NewestFirstLists | backend/src/controllers/paymentsController.js:177-181 | the listing holds exactly the trip's rows, ids strictly decreasing |
| PaymentTable.NewestFirst | backend/src/controllers/paymentsController.js:177-182 | the listing is no longer than the table; its contents and order are stated by `NewestFirstLists` |
| PaymentTable.HardModeIff | backend/src/controllers/paymentsController.js:279-280 | the reset is hard iff the given mode lower-cases to "hard"; a missing or empty mode is soft |
| PaymentTable.HardMode | backend/src/controllers/paymentsController.js:279-280 | hard mode needs a mode of four letters, so a missing or empty mode is soft |
| PaymentTable.PaymentStore.ResetTripPayments | backend/src/controllers/paymentsController.js:275-308 | the access errors without change; otherwise a sync in the parsed mode, answering the mode and the count created |
| SettlementView.CopyMembers | backend/src/controllers/settlementController.js:124-134 | the copy holds the entry of every member that has one, unchanged, keyed in member order |
| SettlementView.DropNonMembers | backend/src/controllers/settlementController.js:136-141 | the pass deletes exactly the listed non-members and changes no value |
| SettlementView.FilteredBalances | backend/src/controllers/settlementController.js:76-141 | after the copy and the pass, the balances are those of the payment reconciler, keyed by the members in order |
| SettlementView.BuildView | backend/src/controllers/settlementController.js:143-202 | for a trip with members, the view is `ViewOf`: the reconciler's balances and settlements, and the total and count of the counted expenses |
| SettlementView.ViewOf | backend/src/controllers/settlementController.js:143-202 | the summary counts at most all expenses, and there are never more settlements than members |
| SettlementView.TripSettlements | backend/src/controllers/settlementController.js:4-207 | the access errors, a failed expense or member read, an empty answer for a trip without members, a failed payment read only after that, and otherwise the view |
| SettlementView.EmptyTripView | backend/src/controllers/settlementController.js:52-61 | a trip without members has empty balances, no settlements and a zero summary |
| SettlementView.ViewKeys | backend/src/controllers/settlementController.js:187-194 | the balances are keyed by exactly the trip members |
| SettlementView.ViewNet | backend/src/controllers/settlementController.js:83-120 | completed payments leave `paid` and `owes` alone; net = paid − owes + sent − received |
| SettlementView.ViewNetSumZero | backend/src/controllers/settlementController.js:103-120 | when every completed payment is between members, the nets sum to 0 |
| SettlementView.EmptySplitInSummaryOnly | backend/src/controllers/settlementController.js:83-202 | a counted expense without participants adds to the total and the count, and changes no balance and no settlement |
| SettlementView.ViewMatchesSync | backend/src/controllers/settlementController.js:143-185 | the settlements shown are the pending rows a soft sync leaves, and that sync does not change the view |
| SettlementView.HasOwnPropertyCall | backend/src/controllers/settlementController.js:127 | as written, `balances.hasOwnProperty(u)` is a TypeError exactly when a member named "hasOwnProperty" owns that key, and otherwise tells whether `u` has an entry |
| SettlementView.CopyMembersAsWritten | backend/src/controllers/settlementController.js:124-134 | as written, the copy loop fails exactly when there is a member and one member is named "hasOwnProperty"; otherwise it copies the entry of every member that has one |
| SettlementView.TripSettlementsAsWritten | backend/src/controllers/settlementController.js:4-207 | as written, the handler answers 500 for a trip with a member named "hasOwnProperty", once the reads succeed; otherwise it answers as `TripSettlements` |
| SettlementView.HasOwnPropertyMemberBreaksView | backend/src/controllers/settlementController.js:76-134 | for members "hasOwnProperty" and "bob", the corrected view holds an entry for both, where the as-written handler answers 500 |
| Analytics.Tally | backend/src/controllers/analyticsController.js:56-67 | the tally has a key for every seeded key and every expense's key, each holding the sum of the amounts filed under it |
| Analytics.SpendingPerUser | backend/src/controllers/analyticsController.js:50-59 | the map is keyed by the group members then the other payers, each with what it paid |
| Analytics.SpendingByCategory | backend/src/controllers/analyticsController.js:61-67 | the map is keyed by the categories met, each with what was spent under it |
| Analytics.CategoryOf | backend/src/controllers/analyticsController.js:64 | the key of an expense is its category when it has one, and is never empty |
| Analytics.SummaryOf | backend/src/controllers/analyticsController.js:80-89 | the count is the number of all expenses; total and average are within half a cent of the exact ones; average 0 when there are none |
| Analytics.Chart | backend/src/controllers/analyticsController.js:70-78 | one entry per key, in key order, named after the key |
| Analytics.TripAnalytics | backend/src/controllers/analyticsController.js:4-100 | a failed or empty trip lookup is a storage error, a non-member 403, a failed read a storage error; otherwise the summary, both maps and both charts |
| Analytics.TallySum | backend/src/controllers/analyticsController.js:56-67 | over distinct keys that cover every expense, the tallies add up to the total |
| Analytics.PerUserSumsToTotal | backend/src/controllers/analyticsController.js:56-80 | the per-user amounts add up to the unrounded total |
| Analytics.PerCategorySumsToTotal | backend/src/controllers/analyticsController.js:62-80 | the per-category amounts add up to the unrounded total |
| Analytics.PerUserKeys | backend/src/controllers/analyticsController.js:51-59 | a user has an entry iff it is a group member or a payer; one who paid nothing has 0 |
| Analytics.CategoryBuckets | backend/src/controllers/analyticsController.js:64 | an expense without a category is counted under "Uncategorized", and no category key is empty |
| Analytics.ChartPerKey | backend/src/controllers/analyticsController.js:70-78 | a chart has one entry per key of its map, named after the key, with the amount within half a cent |
| Analytics.AddToObject | backend/src/controllers/analyticsController.js:63-66 | as written, one bucket update on a plain object adds no key for `__proto__` and adds `k` otherwise, leaving every other bucket alone |
| Analytics.TallyAsWritten | backend/src/controllers/analyticsController.js:61-67 | as written, the object has an own key for every seed key and every filed key except `__proto__` |
| Analytics.InheritedKeyIsText | backend/src/controllers/analyticsController.js:63-66 | as written, a key named after an inherited `Object.prototype` method with no seeded number becomes a string |
| Analytics.InheritedCategoryThrows | backend/src/controllers/analyticsController.js:61-78 | as written, one expense whose category is an inherited method name makes `.toFixed(2)` throw, so the handler answers 500 |
| Analytics.ConstructorCategoryThrows | backend/src/controllers/analyticsController.js:61-78 | one expense of 10 under "constructor": as written the chart throws, while the model files 10 under "constructor" |
| Analytics.ProtoCategoryDropped | backend/src/controllers/analyticsController.js:61-78 | one expense of 10 under "__proto__": as written it has no key, while the model files 10 under it |
| Analytics.AsWrittenAgrees | backend/src/controllers/analyticsController.js:50-67 | where no key collides with `Object.prototype`, the tally as written equals the model's tally, bucket by bucket |

## Left out

- Database queries, HTTP status codes other than those listed, and JSON envelopes are replaced by method inputs and results.
- The access checks are not modelled. Their outcome is the `Access` input of the five handlers that run them; `completePayment` has none.
- Concurrent syncs racing on one trip are not modelled; the source takes no lock.
- Floating point is not modelled. Amounts are exact reals and `toFixed(2)` is `Round2`, with its error bound only.
- `parseFloat` of string amounts, `|| 0` for NaN, and non-string `mode` values are left out. Amounts are reals and the mode is an optional string.
- `completed_at` and `created_at` are not real timestamps. The completion time is an opaque clock reading passed in as `now`, and the newest-first order of the listing is the order of the ids.
- `ToLower` folds only the ASCII letters A–Z; lower-casing of other scripts is not modelled.
- JavaScript object-key order for numeric-looking names is not modelled. Key order is the order of first insertion.
- Balances.SeedBalances: keys that collide with `Object.prototype` are not modelled. A member named `__proto__` gets no own key in the source (the assignment sets the prototype), so it is never a creditor or debtor; the model gives it an entry like any other member.
- Payments.Settlements: for a trip with a member named `__proto__` the source's settlements leave that member out (members `__proto__` and `bob`, bob pays 10 split between both, gives no transfer); the model gives `__proto__` pays bob 5.
- SettlementView.TripSettlements: the same `__proto__` member is missing from the source's balances and settlements; the model shows it. A member named `hasOwnProperty` makes the call at line 127 throw, and the source answers 500 for the whole view; the model answers the view, the corrected behaviour, and `TripSettlementsAsWritten` states the source's answer (see "## Findings").
- SettlementView.CopyMembers: reads `balances.hasOwnProperty(username)` as key membership. In the source the call throws once a member named `hasOwnProperty` has replaced the method; `CopyMembersAsWritten` models that.
- SettlementView.FilteredBalances: built on `CopyMembers`, so it too leaves out the throw for a member named `hasOwnProperty`.
- Analytics.TripAnalytics: the model tallies on maps, the corrected behaviour. The source's plain objects answer 500 for a category, or a payer who is not a group member, named after an inherited method, and drop a `__proto__` key; see "## Findings" and `TallyAsWritten`.
- Analytics.Tally: the map keeps every key; the source's object drops `__proto__` and turns inherited method names into strings.
- Analytics.PerUserKeys: a member or payer named `__proto__` has no entry in the source.
- Analytics.PerCategorySumsToTotal: in the source an amount under a `__proto__` category is missing from the map, so the buckets can add up to less than the total.
- PaymentTable.PaymentStore.ListTripPayments: a failure of the final `select` after the sync is not modelled.
- PaymentTable.PaymentStore.CreatePayment: a failed read of the trip members is not an error in the source and reads as no members; the caller passes an empty list for it.
- PaymentTable.PaymentStore.Sync: the `created` count is the number of settlements; the model assumes the insert returns every inserted row.
- Payments.SettlementNoOverpay: the greedy loop does not in general bring every member within the tolerance, because small residues can remain. The model proves no-overpay bounds, the transfer endpoints and the count instead.
- PaymentTable.HardSyncClearsCompleted: a hard reset computes its settlements before it deletes the completed rows. This is stated as the source behaves, and HardResetLagsOneSync shows the effect on an example.
- Analytics.TripAnalytics: the trip is looked up with `.single()`, which reports a missing trip as an error. The handler's own 404 branch therefore cannot be reached, and a missing trip is a storage error.
- Authentication, invitations, email, member removal, plain CRUD handlers, routes and the frontend are not part of this model.

## Findings

| source | as written | input that shows it | evidently intended | confidence | as-written member | corrected member |
|---|---|---|---|---|---|---|
| backend/src/controllers/analyticsController.js:61-78 | the category tally is a plain object, so a category named after an inherited method starts from that function; `+` makes the bucket a string and `.toFixed(2)` throws, answering 500 on every later call for the trip | one expense of 10 with category "constructor" | a numeric bucket of 10 under "constructor" | high; not executed | Analytics.ConstructorCategoryThrows | Analytics.SpendingByCategory |
| backend/src/controllers/analyticsController.js:61-67 | a category named `__proto__` is assigned through the prototype setter, so it gets no key and its amount is missing from the map and the chart | one expense of 10 with category "__proto__" | a bucket of 10 under "__proto__", so the buckets add up to the total | high; not executed | Analytics.ProtoCategoryDropped | Analytics.PerCategorySumsToTotal |
| backend/src/controllers/settlementController.js:124-134 | `balances` is a plain object keyed by username, so a member named "hasOwnProperty" replaces the method with its balance record and `balances.hasOwnProperty(username)` throws; the whole view answers 500 for that trip | a trip with members "hasOwnProperty" and "bob" | the view with an entry for each member | high; not executed | SettlementView.TripSettlementsAsWritten | SettlementView.TripSettlements |
