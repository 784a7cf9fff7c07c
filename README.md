# Karbon expense ledger: a verified model of the money pipeline

Karbon is a group expense-splitting ledger. Each group has up to a few
participants plus its owning user. Each expense has a payer and a list of
per-participant splits. The money logic has three stages, and this project
models each of them in Dafny:

1. **Split allocation** (`calculateSplits` in the expense-creation endpoint).
   It turns an expense amount and a split mode into per-participant splits:
   - `equal`: a rounded equal share for each participant, with the first
     participant absorbing the rounding difference;
   - `custom`: the requested amounts, rounded to the cent;
   - `percentage`: the rounded percentage of the amount for each entry.
   A custom split without its amounts, or a percentage split without its
   percentages, raises "Invalid split configuration". So does an unknown
   mode string, which the model does not represent (see "## Left out").
2. **Net balances** (`calculateBalances`). This starts every participant
   at zero, with the owning user appended as an implicit participant. It
   debits each payer the full amount and credits each split its share.
   Positive means "owes"; negative means "is owed".
3. **Settlement planning** (`calculateSettlements`). This drops settled
   balances and stably sorts the rest largest first. It then walks two
   pointers inward: the largest remaining debtor pays the most negative
   remaining creditor `min(debt, |credit|)`, until the pointers meet.
   `calculateGroupTotals` returns the total spent, with its two per-user
   figures left at zero.

Modules:

- `ledger.dfy` (`Ledger`): the records, money helpers, sums and id
  distinctness.
- `splits.dfy` (`Splits`): split allocation.
- `balances.dfy` (`Balances`): net balances and group totals.
- `stable_sort.dfy` (`StableSort`): the stable descending sort. It has a
  reference insertion sort on sequences and an in-place insertion sort on
  an array proved equal to it.
- `settlements.dfy` (`Settlements`): the filter and ordering, the
  two-pointer walk as a function (`Walk`), and the imperative loop over
  an array proved equal to it. It also holds the properties of the
  resulting plan.

How money is modelled:

- Money is held in whole cents (`int`), and percentages are exact
  rationals (`real`).
- `Math.round(v * 100) / 100` becomes `RoundHalfUp`, the nearest cent with
  halves rounded up. It is the identity on whole cents.
- The `0.01` tolerances translate as follows:
  - `Math.abs(b) > 0.01` keeps balances of at least two cents, so a
    one-cent balance is dropped.
  - `Math.abs(b) < 0.01` means "exactly zero".
  - The settlement properties therefore assume that the *kept* balances
    sum to zero.
- The equal split corrects the first share whenever the rounded shares
  miss the amount. This is the reading of the threshold that the
  correction is there for (see "## Findings").

The settlement order is the code's. The stable descending sort puts the
largest debtor first and the most negative creditor last, and the walk
pairs the first entry with the last. So balances X 50.00, Y −30.00,
Z −20.00 sort to X, Z, Y, and the plan pays X→Y 30.00 first, then
X→Z 20.00. `Settlements.ThreeWayPlan` states this plan. After 100.00 is
paid by A and split three ways, the balances are A −66.66, B 33.33,
C 33.33. `Settlements.HundredThreeWaysPlan` states that B and C each pay
A 33.33.

## Model

| member | source | states |
|---|---|---|
| Ledger.RoundHalfUp | app/api/expenses/route.ts:13 | the rounded cent lies within half a cent of the exact value, halves going up |
| Ledger.RoundWholeCents | lib/balance.ts:76 | rounding a whole number of cents leaves it unchanged, so a transfer amount is copied exactly |
| Splits.EqualShare | app/api/expenses/route.ts:13 | the equal share is the integer nearest to amount / k, halves rounded up |
| Splits.EqualShareResidue | app/api/expenses/route.ts:13-20 | k rounded shares miss the amount by at most k/2 cents |
| Splits.AllocateEqually | app/api/expenses/route.ts:12-23 | the equal allocation under a given threshold: it fails exactly when there is no id and the amount exceeds the threshold, and otherwise returns one split per id |
| Splits.AllocateEquallyShape | app/api/expenses/route.ts:12-23 | for any threshold: fails exactly when there is no id and the amount exceeds the threshold; otherwise there is one split per id, in id order, and every split after the first equals the rounded share |
| Splits.AllocateEquallyResidue | app/api/expenses/route.ts:18-23 | for any threshold, the splits miss the amount by at most that threshold; under the literal one-cent threshold, by at most one cent |
| Splits.AllocateEquallyExact | app/api/expenses/route.ts:18-23 | correcting whenever the difference is nonzero, the splits add up to the amount exactly; the first split is the amount minus k−1 shares and stays within k/2 cents of the share |
| Splits.LiteralThresholdLeavesResidue | app/api/expenses/route.ts:21 | with the literal one-cent threshold, 2 cents split three ways gives 1, 1, 1, which sums to 3 |
| Splits.HundredThreeWays | app/api/expenses/route.ts:12-24 | 100.00 split three ways gives 33.34, 33.33, 33.33 |
| Splits.EqualSplits | app/api/expenses/route.ts:12-24 | the loop that builds, sums and corrects the splits equals the corrected allocation; it fails exactly when there are no ids and the amount is nonzero; otherwise it returns one split per id, summing to the amount; `Uniform` is the `map` at lines 14-17 and `Ledger.SplitSum` the `reduce` at line 19 |
| Splits.CustomSplits | app/api/expenses/route.ts:27-32 | entry for entry and in order: the id is copied and the amount is rounded to within half a cent |
| Splits.CustomSplitsRoundTrip | app/api/expenses/route.ts:28-31 | whole-cent custom amounts come back unchanged |
| Splits.PercentageSplits | app/api/expenses/route.ts:34-39 | entry for entry and in order: each split is within half a cent of amount × percentage / 100 |
| Splits.PercentageSplitsSum | app/api/expenses/route.ts:34-39 | the splits sum to the amount's share of the total percentage, within half a cent per entry; the percentages need not total 100 |
| Splits.PercentagesOfHundred | app/api/expenses/route.ts:34-39 | once the percentages total 100, the splits miss the amount by at most half a cent per entry |
| Splits.CalculateSplits | app/api/expenses/route.ts:5-42 | "Invalid split configuration" exactly when custom mode lacks its amounts or percentage mode lacks its percentages; otherwise it dispatches to the equal, custom or percentage result, and an empty list yields no splits |
| Balances.OwnerName | lib/balance.ts:23 | the owner's stored name, or "You" when the user is missing or the name is empty |
| Balances.AllParticipants | lib/balance.ts:21-24 | the stored participants followed by the owning user; no contract of its own, and `CalculateBalances` states the balance list built over it |
| Balances.CalculateBalances | lib/balance.ts:15-47 | one balance per listed participant, in input order, then one for the owner; each net balance is the splits naming that id minus the amounts it paid; `Lookup` is `balances.get(id) || 0` (lines 32, 37, 45) |
| Balances.ZeroBalances | lib/balance.ts:26-27 | every participant, the owner included, is entered at zero |
| Balances.ChargeSplits | lib/balance.ts:36-39 | each id's balance grows by exactly the amounts of the splits naming it |
| Balances.NetOfUninvolved | lib/balance.ts:26-46 | a participant in no expense, neither as payer nor in any split, has balance 0 |
| Balances.BalancesSumToZero | lib/balance.ts:30-40 | if ids are distinct, every expense's splits sum to its amount, and every payer and split id is listed, then the net balances sum to 0 |
| Balances.SheetDistinct | lib/balance.ts:42-46 | participants with distinct ids give balances with distinct ids, which is what the settlement properties require |
| Balances.CalculateGroupTotals | lib/balance.ts:89-112 | the two per-user totals are always 0; the total spent is `AmountSum`, the `reduce` at line 95, which the two `TotalSpent…` lemmas below characterise |
| Balances.TotalSpentIsPaidByMembers | lib/balance.ts:95 | the total spent equals what the listed participants paid, when every payer is listed |
| Balances.TotalSpentIsSplitTotal | lib/balance.ts:95 | the total spent equals the sum of all splits, when every expense's splits sum to its amount |
| StableSort.InsertElements | lib/balance.ts:54 | insertion adds exactly one element to the multiset |
| StableSort.InsertSorted | lib/balance.ts:54 | inserting into a descending list keeps it descending |
| StableSort.InsertStable | lib/balance.ts:54 | an inserted balance goes after the entries with the same balance |
| StableSort.SortDesc | lib/balance.ts:54 | the reference stable descending sort, inserting each element in turn with `Insert`; it has no contract of its own, and its properties are the `Insert…` and `SortDesc…` lemmas below |
| StableSort.SortDescPermutes | lib/balance.ts:54 | the sort is a permutation of its input |
| StableSort.SortDescSorted | lib/balance.ts:54 | the sort's output is in descending order of net balance |
| StableSort.SortDescStable | lib/balance.ts:54 | balances that tie keep their input order |
| StableSort.SortDescNetSum | lib/balance.ts:54 | sorting keeps the sum of the balances |
| StableSort.SortDescDistinct | lib/balance.ts:54 | sorting a list of distinct ids keeps them distinct |
| StableSort.InsertInPlace | lib/balance.ts:54 | shifting one element left into a sorted prefix performs the reference insertion and leaves the suffix alone |
| StableSort.SortInPlace | lib/balance.ts:54 | the in-place array sort leaves exactly the reference stable descending sort of the old contents |
| Settlements.KeptMembers | lib/balance.ts:51 | a balance is kept exactly when it is in the input and its absolute value exceeds one cent |
| Settlements.KeptAppend | lib/balance.ts:51 | filtering a concatenation is the concatenation of the filtered parts, so the kept balances stay in input order |
| Settlements.KeptTies | lib/balance.ts:51 | for every balance value the filter keeps, the entries with that value are exactly the input's, in input order and with their multiplicity |
| Settlements.KeptUnsettled | lib/balance.ts:51 | a list with no balance within one cent of zero passes the filter unchanged |
| Settlements.Kept | lib/balance.ts:51 | the filter `Math.abs(b) > 0.01`, read on whole cents as "at least two cents from zero": it never lengthens the list; `KeptMembers` states which balances it keeps, `KeptAppend` that it keeps their input order, and `KeptTies` their order and multiplicity among equal balances |
| Settlements.KeptDistinct | lib/balance.ts:51 | filtering keeps ids distinct |
| Settlements.KeptOfSettled | lib/balance.ts:51 | when every balance is within one cent of zero, nothing is kept |
| Settlements.Order | lib/balance.ts:51-54 | the working copy: the copied, filtered and stably sorted balances; it has no contract of its own, and its properties are the `Order…` lemmas below |
| Settlements.OrderProperties | lib/balance.ts:51-54 | the working copy is sorted descending and is a permutation of the kept balances, with ties in input order |
| Settlements.OrderTies | lib/balance.ts:51-54 | for every unsettled value, the working copy lists the entries with that value exactly as the caller's list does, so ties stay in input order; with `OrderProperties` this fixes the working copy from the caller's list |
| Settlements.OrderUnsettled | lib/balance.ts:51-54 | no balance in the working copy is zero |
| Settlements.OrderSums | lib/balance.ts:51-54 | the working copy has as many entries as the kept balances and the same total |
| Settlements.CalculateSettlements | lib/balance.ts:49-87 | the loop produces exactly the walk over the sorted copy of the kept balances; no kept balance gives no settlement; if the kept balances sum to zero, every amount is positive and there are fewer settlements than kept balances |
| Settlements.SettleSorted | lib/balance.ts:56-84 | the pointer loop, with its skips and in-place updates, emits exactly `Walk` of the array it started from |
| Settlements.SortedCopy | lib/balance.ts:51-54 | a fresh array holding the filtered, stably sorted copy; the input is not touched |
| Settlements.PayCreditor | lib/balance.ts:72-80 | pushes `from` the debtor `to` the creditor for `min(debt, |credit|)`, lowers the debtor and raises the creditor by that amount, and changes nothing else |
| Settlements.Walk | lib/balance.ts:56-84 | the two-pointer loop written as a recursive function over the sorted copy; it has no contract of its own, `SettleSorted` is proved equal to it, and its properties are `WalkTransfers`, `WalkLength`, `WalkSettles` and `WalkFirst` |
| Settlements.Pay | lib/balance.ts:72 | the payment `min(debt, |credit|)` between the two ends; part of `Walk`, with no contract of its own |
| Settlements.AfterPay | lib/balance.ts:79-80 | the working copy after the payment, of the same length; `PayCreditor` is proved to perform it on the array |
| Settlements.NextDebtor | lib/balance.ts:82 | the debtor pointer after a payment, moved on when the debtor is settled; part of `Walk`, with no contract of its own |
| Settlements.NextCreditor | lib/balance.ts:83 | the creditor pointer after a payment, moved back when the creditor is settled; part of `Walk`, with no contract of its own |
| Settlements.WalkEmits | lib/balance.ts:60-83 | a proof step tying the loop to `Walk`, for its emitting branch: when neither end is zero, the walk emits the payment between the two ends and continues from the updated copy |
| Settlements.SkipDebtor | lib/balance.ts:63-66 | a proof step tying the loop to `Walk`, for its first `continue`: a zero debtor is passed over without emitting |
| Settlements.SkipCreditor | lib/balance.ts:67-70 | a proof step tying the loop to `Walk`, for its second `continue`: a zero creditor is passed over without emitting |
| Settlements.StepSettleable | lib/balance.ts:72-83 | from a zero-sum, sign-separated state, the debtor end is positive, the creditor end is negative and the payment is positive; it zeroes the debtor, the creditor or both, and the next state is zero-sum and sign-separated again |
| Settlements.AfterPaySum | lib/balance.ts:79-80 | a payment keeps the total of the working copy |
| Settlements.WalkTransfers | lib/balance.ts:59-80 | every settlement of the walk has a positive amount and goes from a positive balance at an earlier position to a negative balance at a later one |
| Settlements.WalkLength | lib/balance.ts:59-84 | a walk between positions i < j emits at most j − i settlements |
| Settlements.TransferIsPayment | lib/balance.ts:73-80 | with distinct ids, carrying out an emitted settlement is the walk's own update |
| Settlements.WalkSettles | lib/balance.ts:59-84 | with distinct ids, applying the walk's settlements to a zero-sum, sign-separated copy brings every balance to 0 |
| Settlements.WalkFirst | lib/balance.ts:54-61 | the first settlement of the walk goes from the first, largest, balance to the last, most negative, one |
| Settlements.PlanOfSettled | lib/balance.ts:51-59 | when every balance is within one cent of zero, the plan is empty |
| Settlements.Plan | lib/balance.ts:49-87 | the whole settlement plan: the walk over the stably sorted kept balances; when nothing is kept, there are no settlements |
| Settlements.PlanStart | lib/balance.ts:54-57 | once the kept balances sum to zero, the sorted copy satisfies the walk's invariant |
| Settlements.PlanEmptyIff | lib/balance.ts:51-59 | under zero-sum kept balances, the plan is empty exactly when nothing is kept |
| Settlements.PlanFirst | lib/balance.ts:54-61 | the first settlement goes from the largest kept balance to the most negative one |
| Settlements.PlanTransfers | lib/balance.ts:59-80 | under zero-sum kept balances, every settlement is positive and goes from an earlier debtor to a later creditor |
| Settlements.PlanLength | lib/balance.ts:72-84 | under zero-sum kept balances, N kept balances give at most N − 1 settlements |
| Settlements.PlanHeadline | lib/balance.ts:49-87 | empty or fully settled input gives no settlements; under zero-sum kept balances the amounts are positive and there are fewer settlements than kept balances |
| Settlements.PlanNoSelfPayment | lib/balance.ts:73-75 | with distinct ids and zero-sum kept balances, nobody pays themself |
| Settlements.PlanSettlesAll | lib/balance.ts:54-84 | with distinct ids and zero-sum kept balances, applying every settlement leaves every kept balance at 0 |
| Settlements.ApplyEntry | lib/balance.ts:79-80 | applying settlements changes each balance by exactly what it receives minus what it pays, and keeps its id and name |
| Settlements.DroppedUntouched | lib/balance.ts:51 | with distinct ids and zero-sum kept balances, a balance the filter dropped takes part in no settlement and keeps its value |
| Settlements.KeptSettled | lib/balance.ts:51-84 | with distinct ids and zero-sum kept balances, a kept balance ends at 0 once the plan is applied to the caller's own list |
| Settlements.PlanSettlesBalances | lib/balance.ts:49-87 | with distinct ids and zero-sum kept balances, applying the plan to the caller's list keeps its length, brings every balance beyond one cent to 0 and leaves every other balance unchanged |
| Settlements.KeptSumWithoutCents | lib/balance.ts:51 | when no balance is exactly one cent from zero, the kept balances have the same total as all balances, so zero-sum net balances meet the plan's precondition |
| Settlements.ThreeWayPlan | lib/balance.ts:49-87 | X 50.00, Y −30.00, Z −20.00 give X→Y 30.00, then X→Z 20.00 |
| Settlements.ThreeWayOrder | lib/balance.ts:51-54 | proof step for `ThreeWayPlan`: the sorted copy is X, Z, Y |
| Settlements.ThreeWaySort | lib/balance.ts:54 | proof step for `ThreeWayOrder`: the stable descending sort of X, Y, Z is X, Z, Y |
| Settlements.ThreeWayWalk | lib/balance.ts:56-84 | proof step for `ThreeWayPlan`: the walk over X, Z, Y emits the two payments |
| Settlements.HundredThreeWaysPlan | lib/balance.ts:49-87 | A −66.66, B 33.33, C 33.33 give B→A 33.33, then C→A 33.33 |
| Settlements.HundredThreeWaysOrder | lib/balance.ts:51-54 | proof step for `HundredThreeWaysPlan`: the sorted copy is B, C, A, ties kept in input order |
| Settlements.HundredThreeWaysSort | lib/balance.ts:54 | proof step for `HundredThreeWaysOrder`: the stable descending sort of A, B, C is B, C, A, with B before C as in the input |
| Settlements.HundredThreeWaysWalk | lib/balance.ts:56-84 | proof step for `HundredThreeWaysPlan`: the walk over B, C, A emits the two payments |

## Left out

- Record storage (`lib/db.ts`): the expenses, the participants and the
  owner's id and optional name are parameters, not file reads.
- HTTP handlers, authentication, the AI group-summary and expense-parsing
  endpoints, and the dashboard UI are not part of this model. They cover
  request parsing, status codes, bcrypt and JWT, text formatting and React.
- Floating point: amounts are whole cents and percentages exact
  rationals, so IEEE-754 drift is not modelled. Custom amounts and
  percentage shares are modelled as exact values rounded to the cent.
- The cap of three stored participants per group, which the participant
  and group endpoints enforce, is not modelled. Every property holds for
  any number of participants.
- The per-user totals that the balance endpoint computes are outside
  `calculateGroupTotals`. They are not part of this model.
- Splits.EqualSplits: with no participants and a one-cent amount, the
  system returns no splits, because the literal threshold tolerates the
  cent. The model, which corrects every nonzero difference, reports
  `NoParticipants` instead. `Splits.AllocateEqually` with tolerance 1
  keeps the literal behaviour.
- Settlements.CalculateSettlements: positivity and the bound on the number
  of settlements are stated only when the kept balances sum to zero. A
  dropped one-cent balance can break that. Nothing is claimed otherwise,
  beyond equality with `Walk`.
- Settlements.Kept: its own contract only bounds the length. Membership,
  input order, order and multiplicity among equal balances, and
  distinctness are separate lemmas: `KeptMembers`, `KeptAppend`,
  `KeptTies` and `KeptDistinct`.
- Splits.CalculateSplits: the split mode is taken as the TypeScript union
  type `'equal' | 'custom' | 'percentage'`. The endpoint passes the
  request's mode string through unchecked, and an unknown string raises
  "Invalid split configuration"; that input is not modelled.
- Concurrency and the time at which expenses are recorded play no part.

## Findings

| source | as written | input that shows it | evidently intended | confidence | as-written member | corrected member |
|---|---|---|---|---|---|---|
| app/api/expenses/route.ts:21 | the equal split corrects the first share only when the rounded shares miss the amount by more than 0.01 | 0.02 split three ways: each share rounds to 0.01, the shares total 0.03, and the difference of one cent (−0.0099… in binary floating point) is not corrected | the splits add up to the expense amount; the first participant absorbs any difference | medium, not executed | Splits.LiteralThresholdLeavesResidue | Splits.AllocateEquallyExact |
