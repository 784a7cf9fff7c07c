/** Net balances of a group (`calculateBalances`) and the group totals
    (`calculateGroupTotals`).  The expense list, the participant list and
    the owning user's id and name, which the system reads from its record
    store, are parameters here. */
module Balances {
  import opened Ledger

  /** The owning user's display name: the stored name, or "You" when the
      user is missing or the name is empty (the `||` fallback). */
  function OwnerName(userName: Option<string>): (r: string)
    ensures userName.Some? && userName.value != "" ==> r == userName.value
    ensures userName.None? || userName.value == "" ==> r == "You"
  {
    if userName.Some? && userName.value != "" then userName.value else "You"
  }

  /** The stored participants followed by the owning user. */
  function AllParticipants(participants: seq<Participant>, userId: Id, userName: Option<string>): seq<Participant>
  {
    participants + [Participant(userId, OwnerName(userName))]
  }

  function Ids(all: seq<Participant>): (r: seq<Id>)
    ensures |r| == |all| && forall k :: 0 <= k < |all| ==> r[k] == all[k].id
  {
    seq(|all|, k requires 0 <= k < |all| => all[k].id)
  }

  predicate Unique(ids: seq<Id>)
  {
    forall p, q :: 0 <= p < q < |ids| ==> ids[p] != ids[q]
  }

  // ---- the reference definition of a net balance ----

  /** What `id` is charged by a list of splits: the sum of the splits naming it. */
  function ShareOf(splits: seq<Split>, id: Id): int
  {
    if splits == [] then 0
    else ShareOf(splits[..|splits| - 1], id)
         + (if splits[|splits| - 1].participantId == id then splits[|splits| - 1].amount else 0)
  }

  /** What `id` advanced for an expense: all of it if it paid, else nothing. */
  function Paid(e: Expense, id: Id): int
  {
    if e.payerId == id then e.amount else 0
  }

  function ExpenseNet(e: Expense, id: Id): int
  {
    ShareOf(e.splits, id) - Paid(e, id)
  }

  /** Net balance of `id`: the splits naming it minus what it paid. */
  function Net(expenses: seq<Expense>, id: Id): int
  {
    if expenses == [] then 0
    else Net(expenses[..|expenses| - 1], id) + ExpenseNet(expenses[|expenses| - 1], id)
  }

  /** The balance list: one entry per participant, in order, with its name
      and net balance. */
  function BalanceSheet(expenses: seq<Expense>, all: seq<Participant>): (r: seq<Balance>)
    ensures |r| == |all|
    ensures forall k :: 0 <= k < |all| ==> r[k] == Balance(all[k].id, all[k].name, Net(expenses, all[k].id))
  {
    seq(|all|, k requires 0 <= k < |all| => Balance(all[k].id, all[k].name, Net(expenses, all[k].id)))
  }

  /** `balances.get(id) || 0`. */
  function Lookup(m: map<Id, int>, id: Id): int
  {
    if id in m then m[id] else 0
  }

  /** `calculateBalances`: start every participant (and the owner) at 0,
      debit each payer the full amount, credit each split its share. */
  method CalculateBalances(expenses: seq<Expense>, participants: seq<Participant>,
                           userId: Id, userName: Option<string>) returns (balances: seq<Balance>)
    ensures balances == BalanceSheet(expenses, AllParticipants(participants, userId, userName))
    ensures |balances| == |participants| + 1
    ensures forall k :: 0 <= k < |participants| ==>
      balances[k] == Balance(participants[k].id, participants[k].name, Net(expenses, participants[k].id))
    ensures balances[|participants|] == Balance(userId, OwnerName(userName), Net(expenses, userId))
  {
    var all := AllParticipants(participants, userId, userName);
    var m := ZeroBalances(all);
    var x := 0;
    while x < |expenses|
      invariant 0 <= x <= |expenses|
      invariant forall id :: Lookup(m, id) == Net(expenses[..x], id)
      invariant forall t :: 0 <= t < |all| ==> all[t].id in m
    {
      var expense := expenses[x];
      var payerBalance := Lookup(m, expense.payerId);
      m := m[expense.payerId := payerBalance - expense.amount];
      m := ChargeSplits(m, expense.splits);
      assert expenses[..x + 1][..x] == expenses[..x];
      x := x + 1;
    }
    assert expenses[..x] == expenses;
    balances := seq(|all|, t requires 0 <= t < |all| => Balance(all[t].id, all[t].name, Lookup(m, all[t].id)));
  }

  /** Every participant starts at zero. */
  method ZeroBalances(all: seq<Participant>) returns (m: map<Id, int>)
    ensures forall id :: Lookup(m, id) == 0
    ensures forall t :: 0 <= t < |all| ==> all[t].id in m
  {
    m := map[];
    var k := 0;
    while k < |all|
      invariant 0 <= k <= |all|
      invariant forall id :: id in m ==> m[id] == 0
      invariant forall t :: 0 <= t < k ==> all[t].id in m
    {
      m := m[all[k].id := 0];
      k := k + 1;
    }
  }

  /** Each split adds its amount to the balance of the participant it names. */
  method ChargeSplits(m0: map<Id, int>, splits: seq<Split>) returns (m: map<Id, int>)
    ensures forall id :: Lookup(m, id) == Lookup(m0, id) + ShareOf(splits, id)
    ensures m0.Keys <= m.Keys
  {
    m := m0;
    var y := 0;
    while y < |splits|
      invariant 0 <= y <= |splits|
      invariant forall id :: Lookup(m, id) == Lookup(m0, id) + ShareOf(splits[..y], id)
      invariant m0.Keys <= m.Keys
    {
      var split := splits[y];
      var participantBalance := Lookup(m, split.participantId);
      m := m[split.participantId := participantBalance + split.amount];
      assert splits[..y + 1][..y] == splits[..y];
      y := y + 1;
    }
    assert splits[..y] == splits;
  }

  /** A participant named in no expense has a zero balance. */
  lemma {:induction false} NetOfUninvolved(expenses: seq<Expense>, id: Id)
    requires forall k :: 0 <= k < |expenses| ==> expenses[k].payerId != id
    requires forall k, t :: 0 <= k < |expenses| && 0 <= t < |expenses[k].splits| ==>
      expenses[k].splits[t].participantId != id
    ensures Net(expenses, id) == 0
  {
    if expenses != [] {
      var n := |expenses|;
      NetOfUninvolved(expenses[..n - 1], id);
      ShareOfOthers(expenses[n - 1].splits, id);
    }
  }

  lemma {:induction false} ShareOfOthers(splits: seq<Split>, id: Id)
    requires forall t :: 0 <= t < |splits| ==> splits[t].participantId != id
    ensures ShareOf(splits, id) == 0
  {
    if splits != [] {
      ShareOfOthers(splits[..|splits| - 1], id);
    }
  }

  // ---- zero sum ----

  /** Sum over `ids` of the amount credited to `y` alone. */
  function SumIndicator(ids: seq<Id>, y: Id, amount: int): int
  {
    if ids == [] then 0
    else SumIndicator(ids[..|ids| - 1], y, amount) + (if ids[|ids| - 1] == y then amount else 0)
  }

  lemma {:induction false} SumIndicatorAbsent(ids: seq<Id>, y: Id, amount: int)
    requires y !in ids
    ensures SumIndicator(ids, y, amount) == 0
  {
    if ids != [] {
      SumIndicatorAbsent(ids[..|ids| - 1], y, amount);
    }
  }

  /** Over distinct ids, an amount credited to one listed id is counted once. */
  lemma {:induction false} SumIndicatorPresent(ids: seq<Id>, y: Id, amount: int)
    requires Unique(ids) && y in ids
    ensures SumIndicator(ids, y, amount) == amount
  {
    var n := |ids|;
    var init := ids[..n - 1];
    assert Unique(init);
    if ids[n - 1] == y {
      assert y !in init;
      SumIndicatorAbsent(init, y, amount);
    } else {
      assert y in init;
      SumIndicatorPresent(init, y, amount);
    }
  }

  function SumShares(ids: seq<Id>, splits: seq<Split>): int
  {
    if ids == [] then 0 else SumShares(ids[..|ids| - 1], splits) + ShareOf(splits, ids[|ids| - 1])
  }

  lemma {:induction false} SumSharesLast(ids: seq<Id>, splits: seq<Split>)
    requires splits != []
    ensures SumShares(ids, splits) == SumShares(ids, splits[..|splits| - 1])
      + SumIndicator(ids, splits[|splits| - 1].participantId, splits[|splits| - 1].amount)
  {
    if ids != [] {
      SumSharesLast(ids[..|ids| - 1], splits);
    }
  }

  /** Splits that all name distinct listed ids are charged in full to those ids. */
  lemma {:induction false} SumSharesIsSplitSum(ids: seq<Id>, splits: seq<Split>)
    requires Unique(ids)
    requires forall t :: 0 <= t < |splits| ==> splits[t].participantId in ids
    ensures SumShares(ids, splits) == SplitSum(splits)
  {
    if splits != [] {
      var n := |splits|;
      SumSharesLast(ids, splits);
      SumSharesIsSplitSum(ids, splits[..n - 1]);
      SumIndicatorPresent(ids, splits[n - 1].participantId, splits[n - 1].amount);
    } else {
      SumSharesOfNone(ids);
    }
  }

  lemma {:induction false} SumSharesOfNone(ids: seq<Id>)
    ensures SumShares(ids, []) == 0
  {
    if ids != [] {
      SumSharesOfNone(ids[..|ids| - 1]);
    }
  }

  function SumExpenseNet(ids: seq<Id>, e: Expense): int
  {
    if ids == [] then 0 else SumExpenseNet(ids[..|ids| - 1], e) + ExpenseNet(e, ids[|ids| - 1])
  }

  lemma {:induction false} SumExpenseNetSplit(ids: seq<Id>, e: Expense)
    ensures SumExpenseNet(ids, e) == SumShares(ids, e.splits) - SumIndicator(ids, e.payerId, e.amount)
  {
    if ids != [] {
      SumExpenseNetSplit(ids[..|ids| - 1], e);
    }
  }

  function SumNet(ids: seq<Id>, expenses: seq<Expense>): int
  {
    if ids == [] then 0 else SumNet(ids[..|ids| - 1], expenses) + Net(expenses, ids[|ids| - 1])
  }

  lemma {:induction false} SumNetLast(ids: seq<Id>, expenses: seq<Expense>)
    requires expenses != []
    ensures SumNet(ids, expenses) == SumNet(ids, expenses[..|expenses| - 1])
      + SumExpenseNet(ids, expenses[|expenses| - 1])
  {
    if ids != [] {
      SumNetLast(ids[..|ids| - 1], expenses);
    }
  }

  lemma {:induction false} SumNetOfNone(ids: seq<Id>)
    ensures SumNet(ids, []) == 0
  {
    if ids != [] {
      SumNetOfNone(ids[..|ids| - 1]);
    }
  }

  /** An expense whose splits add up to its amount. */
  predicate Balanced(e: Expense)
  {
    SplitSum(e.splits) == e.amount
  }

  /** An expense whose payer and split targets are all listed. */
  predicate Covered(e: Expense, ids: seq<Id>)
  {
    && e.payerId in ids
    && forall t :: 0 <= t < |e.splits| ==> e.splits[t].participantId in ids
  }

  lemma {:induction false} SumNetZero(ids: seq<Id>, expenses: seq<Expense>)
    requires Unique(ids)
    requires forall k :: 0 <= k < |expenses| ==> Balanced(expenses[k]) && Covered(expenses[k], ids)
    ensures SumNet(ids, expenses) == 0
  {
    if expenses == [] {
      SumNetOfNone(ids);
    } else {
      var n := |expenses|;
      var e := expenses[n - 1];
      assert Balanced(e) && Covered(e, ids);
      SumNetLast(ids, expenses);
      SumNetZero(ids, expenses[..n - 1]);
      SumExpenseNetSplit(ids, e);
      SumSharesIsSplitSum(ids, e.splits);
      SumIndicatorPresent(ids, e.payerId, e.amount);
    }
  }

  lemma {:induction false} SheetSum(expenses: seq<Expense>, all: seq<Participant>)
    ensures NetSum(BalanceSheet(expenses, all)) == SumNet(Ids(all), expenses)
  {
    if all != [] {
      var n := |all|;
      assert BalanceSheet(expenses, all)[..n - 1] == BalanceSheet(expenses, all[..n - 1]);
      assert Ids(all)[..n - 1] == Ids(all[..n - 1]);
      SheetSum(expenses, all[..n - 1]);
    }
  }

  /** Zero sum: when every expense's splits add up to its amount, every
      payer and split target is a participant or the owner, and no id is
      listed twice, the balances add up to exactly zero. */
  lemma BalancesSumToZero(expenses: seq<Expense>, participants: seq<Participant>,
                          userId: Id, userName: Option<string>)
    requires Unique(Ids(AllParticipants(participants, userId, userName)))
    requires forall k :: 0 <= k < |expenses| ==>
      Balanced(expenses[k]) && Covered(expenses[k], Ids(AllParticipants(participants, userId, userName)))
    ensures NetSum(BalanceSheet(expenses, AllParticipants(participants, userId, userName))) == 0
  {
    var all := AllParticipants(participants, userId, userName);
    SheetSum(expenses, all);
    SumNetZero(Ids(all), expenses);
  }

  /** Distinct participant ids give a balance list with distinct ids, the
      form the settlement stage asks for. */
  lemma SheetDistinct(expenses: seq<Expense>, all: seq<Participant>)
    requires Unique(Ids(all))
    ensures DistinctIds(BalanceSheet(expenses, all))
  {
    var r := BalanceSheet(expenses, all);
    forall p, q | 0 <= p < q < |r| ensures r[p].participantId != r[q].participantId {
      assert r[p].participantId == Ids(all)[p] && r[q].participantId == Ids(all)[q];
    }
  }

  // ---- group totals ----

  datatype Totals = Totals(totalSpent: int, totalOwed: int, totalOwedToUser: int)

  /** `expenses.reduce((sum, e) => sum + e.amount, 0)`. */
  function AmountSum(expenses: seq<Expense>): int
  {
    if expenses == [] then 0 else AmountSum(expenses[..|expenses| - 1]) + expenses[|expenses| - 1].amount
  }

  /** `calculateGroupTotals`: the total spent; the per-user figures are
      left at zero (its loop over the splits does nothing). */
  function CalculateGroupTotals(expenses: seq<Expense>): (r: Totals)
    ensures r.totalOwed == 0 && r.totalOwedToUser == 0
  {
    Totals(AmountSum(expenses), 0, 0)
  }

  function PaidTotal(expenses: seq<Expense>, id: Id): int
  {
    if expenses == [] then 0 else PaidTotal(expenses[..|expenses| - 1], id) + Paid(expenses[|expenses| - 1], id)
  }

  function SumPaid(ids: seq<Id>, expenses: seq<Expense>): int
  {
    if ids == [] then 0 else SumPaid(ids[..|ids| - 1], expenses) + PaidTotal(expenses, ids[|ids| - 1])
  }

  lemma {:induction false} SumPaidLast(ids: seq<Id>, expenses: seq<Expense>)
    requires expenses != []
    ensures SumPaid(ids, expenses) == SumPaid(ids, expenses[..|expenses| - 1])
      + SumIndicator(ids, expenses[|expenses| - 1].payerId, expenses[|expenses| - 1].amount)
  {
    if ids != [] {
      SumPaidLast(ids[..|ids| - 1], expenses);
    }
  }

  lemma {:induction false} SumPaidOfNone(ids: seq<Id>)
    ensures SumPaid(ids, []) == 0
  {
    if ids != [] {
      SumPaidOfNone(ids[..|ids| - 1]);
    }
  }

  /** The total spent is what the listed participants paid between them,
      when every payer is listed once. */
  lemma {:induction false} TotalSpentIsPaidByMembers(expenses: seq<Expense>, ids: seq<Id>)
    requires Unique(ids)
    requires forall k :: 0 <= k < |expenses| ==> expenses[k].payerId in ids
    ensures CalculateGroupTotals(expenses).totalSpent == SumPaid(ids, expenses)
  {
    if expenses == [] {
      SumPaidOfNone(ids);
    } else {
      var n := |expenses|;
      SumPaidLast(ids, expenses);
      TotalSpentIsPaidByMembers(expenses[..n - 1], ids);
      SumIndicatorPresent(ids, expenses[n - 1].payerId, expenses[n - 1].amount);
    }
  }

  function SplitTotal(expenses: seq<Expense>): int
  {
    if expenses == [] then 0 else SplitTotal(expenses[..|expenses| - 1]) + SplitSum(expenses[|expenses| - 1].splits)
  }

  /** When every expense's splits add up to its amount, the total spent is
      also the total of all shares. */
  lemma {:induction false} TotalSpentIsSplitTotal(expenses: seq<Expense>)
    requires forall k :: 0 <= k < |expenses| ==> Balanced(expenses[k])
    ensures CalculateGroupTotals(expenses).totalSpent == SplitTotal(expenses)
  {
    if expenses != [] {
      var n := |expenses|;
      assert Balanced(expenses[n - 1]);
      TotalSpentIsSplitTotal(expenses[..n - 1]);
    }
  }
}
