/** Settlement planning (`calculateSettlements`): drop the settled
    balances, sort the rest largest first, and walk two pointers inward,
    letting the largest remaining debtor pay the most negative remaining
    creditor until the pointers meet.

    All comparisons are on whole cents: `Math.abs(b) > 0.01` keeps the
    balances of at least two cents, and `Math.abs(b) < 0.01` means "is
    exactly zero" (written `Abs(b) < 1`).  Rounding a transfer amount to the
    cent (`Math.round(amount * 100) / 100`) changes nothing on whole cents. */
module Settlements {
  import opened Ledger
  import opened StableSort

  // ---- filtering and ordering ----

  /** The balances that are not settled, in input order. */
  function Kept(bs: seq<Balance>): (r: seq<Balance>)
    ensures |r| <= |bs|
  {
    if bs == [] then []
    else Kept(bs[..|bs| - 1]) + (if Abs(bs[|bs| - 1].netBalance) > 1 then [bs[|bs| - 1]] else [])
  }

  /** A balance is kept exactly when it is in the input and at least two
      cents away from zero. */
  lemma {:induction false} KeptMembers(bs: seq<Balance>)
    ensures forall b :: b in Kept(bs) <==> b in bs && Abs(b.netBalance) > 1
  {
    if bs != [] {
      var n := |bs|;
      KeptMembers(bs[..n - 1]);
      assert bs == bs[..n - 1] + [bs[n - 1]];
    }
  }

  /** A participant absent from a list is absent from what is kept of it. */
  lemma {:induction false} AbsentFromKept(bs: seq<Balance>, x: Balance)
    requires forall k :: 0 <= k < |bs| ==> bs[k].participantId != x.participantId
    ensures forall k :: 0 <= k < |Kept(bs)| ==> Kept(bs)[k].participantId != x.participantId
  {
    if bs != [] {
      AbsentFromKept(bs[..|bs| - 1], x);
    }
  }

  lemma {:induction false} KeptDistinct(bs: seq<Balance>)
    requires DistinctIds(bs)
    ensures DistinctIds(Kept(bs))
  {
    if bs != [] {
      var n := |bs|;
      var init := bs[..n - 1];
      DistinctPrefix(bs, n - 1);
      KeptDistinct(init);
      if Abs(bs[n - 1].netBalance) > 1 {
        AbsentFromKept(init, bs[n - 1]);
        DistinctAppend(Kept(init), bs[n - 1]);
        assert Kept(bs) == Kept(init) + [bs[n - 1]];
      } else {
        assert Kept(bs) == Kept(init) + [];
        assert Kept(init) + [] == Kept(init);
      }
    }
  }

  /** Filtering a concatenation filters each part in turn: together with
      the one-element case, the filter keeps the input's order. */
  lemma {:induction false} KeptAppend(bs: seq<Balance>, cs: seq<Balance>)
    ensures Kept(bs + cs) == Kept(bs) + Kept(cs)
  {
    if cs == [] {
      assert bs + cs == bs;
    } else {
      var n := |cs|;
      assert (bs + cs)[..|bs + cs| - 1] == bs + cs[..n - 1];
      KeptAppend(bs, cs[..n - 1]);
    }
  }

  /** For any balance the filter keeps, the entries with that balance are
      the input's own, in the input's order and with their multiplicity. */
  lemma {:induction false} KeptTies(bs: seq<Balance>, v: int)
    requires Abs(v) > 1
    ensures WithBalance(Kept(bs), v) == WithBalance(bs, v)
  {
    if bs != [] {
      var n := |bs|;
      var init, x := bs[..n - 1], bs[n - 1];
      KeptTies(init, v);
      assert bs == init + [x];
      WithBalanceAppend(init, [x], v);
      assert WithBalance([x], v) == (if x.netBalance == v then [x] else []) + WithBalance([], v);
      if Abs(x.netBalance) > 1 {
        assert Kept(bs) == Kept(init) + [x];
        WithBalanceAppend(Kept(init), [x], v);
      } else {
        assert Kept(bs) == Kept(init) + [];
        assert Kept(init) + [] == Kept(init);
      }
    }
  }

  /** A list with no settled balance passes the filter unchanged. */
  lemma {:induction false} KeptUnsettled(bs: seq<Balance>)
    requires Unsettled(bs)
    ensures Kept(bs) == bs
  {
    if bs != [] {
      var n := |bs|;
      KeptUnsettled(bs[..n - 1]);
      assert bs == bs[..n - 1] + [bs[n - 1]];
    }
  }

  /** The working copy: unsettled balances sorted largest first, ties in
      input order. */
  function Order(bs: seq<Balance>): seq<Balance>
  {
    SortDesc(Kept(bs))
  }

  /** The working copy is a sorted, tie-stable permutation of the
      unsettled balances. */
  lemma OrderProperties(bs: seq<Balance>)
    ensures SortedDesc(Order(bs))
    ensures multiset(Order(bs)) == multiset(Kept(bs))
    ensures forall v :: WithBalance(Order(bs), v) == WithBalance(Kept(bs), v)
  {
    var kept := Kept(bs);
    SortDescSorted(kept);
    SortDescPermutes(kept);
    forall v ensures WithBalance(Order(bs), v) == WithBalance(kept, v) {
      SortDescStable(kept, v);
    }
  }

  /** The working copy lists the entries of each unsettled balance exactly
      as the caller's list does: ties stay in input order. */
  lemma OrderTies(bs: seq<Balance>, v: int)
    requires Abs(v) > 1
    ensures WithBalance(Order(bs), v) == WithBalance(bs, v)
  {
    SortDescStable(Kept(bs), v);
    KeptTies(bs, v);
  }

  /** Every balance of a list is at least two cents away from zero. */
  predicate Unsettled(o: seq<Balance>)
  {
    forall k :: 0 <= k < |o| ==> Abs(o[k].netBalance) > 1
  }

  lemma OrderUnsettled(bs: seq<Balance>)
    ensures Unsettled(Order(bs))
  {
    var kept := Kept(bs);
    SortDescMembers(kept);
    KeptMembers(bs);
    forall k | 0 <= k < |Order(bs)| ensures Abs(Order(bs)[k].netBalance) > 1 {
      assert Order(bs)[k] in Order(bs);
    }
  }

  lemma OrderSums(bs: seq<Balance>)
    ensures |Order(bs)| == |Kept(bs)|
    ensures NetSum(Order(bs)) == NetSum(Kept(bs))
  {
    SortDescPermutes(Kept(bs));
    SortDescNetSum(Kept(bs));
    assert |Order(bs)| == |multiset(Order(bs))|;
  }

  // ---- the two-pointer walk ----

  /** What the debtor at `i` pays the creditor at `j`. */
  function Pay(a: seq<Balance>, i: nat, j: nat): int
    requires i < |a| && j < |a|
  {
    Min(a[i].netBalance, Abs(a[j].netBalance))
  }

  /** The working copy after that payment. */
  function AfterPay(a: seq<Balance>, i: nat, j: nat): (b: seq<Balance>)
    requires i < |a| && j < |a| && i != j
    ensures |b| == |a|
  {
    var amount := Pay(a, i, j);
    a[i := a[i].(netBalance := a[i].netBalance - amount)][j := a[j].(netBalance := a[j].netBalance + amount)]
  }

  /** The pointers after a payment: a pointer moves past a balance the
      payment brought to zero. */
  function NextDebtor(b: seq<Balance>, i: nat): int
    requires i < |b|
  {
    if Abs(b[i].netBalance) < 1 then i + 1 else i
  }

  function NextCreditor(b: seq<Balance>, j: nat): int
    requires j < |b|
  {
    if Abs(b[j].netBalance) < 1 then j - 1 else j
  }

  function Measure(a: seq<Balance>, i: int): nat
  {
    if 0 <= i < |a| && a[i].netBalance > 0 then a[i].netBalance else 0
  }

  /** The settlements the pointer walk emits from pointers `i` and `j` on. */
  function Walk(a: seq<Balance>, i: int, j: int): seq<Settlement>
    requires 0 <= i && j < |a| && i <= j + 1
    decreases j - i, Measure(a, i)
  {
    if i >= j then []
    else if Abs(a[i].netBalance) < 1 then Walk(a, i + 1, j)
    else if Abs(a[j].netBalance) < 1 then Walk(a, i, j - 1)
    else
      var b := AfterPay(a, i, j);
      [Settlement(a[i].participantId, a[j].participantId, Pay(a, i, j))]
        + Walk(b, NextDebtor(b, i), NextCreditor(b, j))
  }

  /** The settlement list for a balance list. */
  function Plan(bs: seq<Balance>): (r: seq<Settlement>)
    ensures Kept(bs) == [] ==> r == []
  {
    Walk(Order(bs), 0, |Order(bs)| - 1)
  }

  /** `calculateSettlements`: copy and filter the balances, sort the copy in
      place, then walk the pointers, updating the copy in place. */
  method CalculateSettlements(balances: seq<Balance>) returns (settlements: seq<Settlement>)
    ensures settlements == Plan(balances)
    ensures Kept(balances) == [] ==> settlements == []
    ensures NetSum(Kept(balances)) == 0 ==>
      && (forall k :: 0 <= k < |settlements| ==> settlements[k].amount > 0)
      && (|Kept(balances)| > 0 ==> |settlements| < |Kept(balances)|)
  {
    var a := SortedCopy(balances);
    settlements := SettleSorted(a);
    PlanHeadline(balances);
  }

  /** The pointer walk over the sorted working copy, which it updates in
      place as balances are paid off.  What the array holds afterwards is
      not part of the contract: the caller discards the copy, as
      `calculateSettlements` discards `balancesCopy`. */
  method SettleSorted(a: array<Balance>) returns (settlements: seq<Settlement>)
    modifies a
    ensures settlements == Walk(old(a[..]), 0, a.Length - 1)
  {
    ghost var plan := Walk(a[..], 0, a.Length - 1);
    ghost var cur := a[..];
    var i := 0;
    var j := a.Length - 1;
    settlements := [];
    while i < j
      invariant 0 <= i <= j + 1 <= a.Length == |cur|
      invariant cur == a[..]
      invariant settlements + Walk(cur, i, j) == plan
      decreases j - i, Measure(cur, i)
    {
      var debtor := a[i];
      var creditor := a[j];
      if Abs(debtor.netBalance) < 1 {
        SkipDebtor(cur, i, j);
        i := i + 1;
        continue;
      }
      if Abs(creditor.netBalance) < 1 {
        SkipCreditor(cur, i, j);
        j := j - 1;
        continue;
      }
      WalkEmits(cur, i, j);
      var settlement := PayCreditor(a, i, j);
      ghost var rest := Walk(a[..], NextDebtor(a[..], i), NextCreditor(a[..], j));
      assert Walk(cur, i, j) == [settlement] + rest;
      assert settlements + ([settlement] + rest) == (settlements + [settlement]) + rest;
      settlements := settlements + [settlement];
      cur := a[..];
      if Abs(a[i].netBalance) < 1 {
        i := i + 1;
      }
      if Abs(a[j].netBalance) < 1 {
        j := j - 1;
      }
    }
  }

  /** The working copy: the unsettled balances in a new array, sorted in place. */
  method SortedCopy(balances: seq<Balance>) returns (a: array<Balance>)
    ensures fresh(a)
    ensures a[..] == Order(balances)
  {
    var kept := Kept(balances);
    a := new Balance[|kept|](k requires 0 <= k < |kept| => kept[k]);
    assert a[..] == kept;
    SortInPlace(a);
  }

  /** The debtor at `i` pays the creditor at `j` as much as it can: both
      balances move towards zero by the smaller of the two magnitudes. */
  method PayCreditor(a: array<Balance>, i: nat, j: nat) returns (settlement: Settlement)
    requires i < j < a.Length
    modifies a
    ensures settlement == Settlement(old(a[i]).participantId, old(a[j]).participantId, Pay(old(a[..]), i, j))
    ensures a[..] == AfterPay(old(a[..]), i, j)
  {
    var debtor := a[i];
    var creditor := a[j];
    var amount := Min(debtor.netBalance, Abs(creditor.netBalance));
    settlement := Settlement(debtor.participantId, creditor.participantId, amount);
    a[i] := debtor.(netBalance := debtor.netBalance - amount);
    a[j] := creditor.(netBalance := creditor.netBalance + amount);
  }

  // ---- the walk's invariant ----

  /** The shape of the working copy between steps: everything outside the
      pointers is settled and no creditor precedes a debtor between them. */
  predicate Separated(a: seq<Balance>, i: int, j: int)
  {
    && 0 <= i && j < |a| && i <= j + 1
    && (forall p :: 0 <= p < |a| && (p < i || j < p) ==> a[p].netBalance == 0)
    && (forall p, q :: i <= p < q <= j ==> a[p].netBalance >= 0 || a[q].netBalance <= 0)
  }

  /** What holds of the working copy at every step when the unsettled
      balances add up to zero: it is separated and still adds up to zero. */
  predicate Settleable(a: seq<Balance>, i: int, j: int)
  {
    Separated(a, i, j) && NetSum(a) == 0
  }

  lemma {:induction false} NetSumNonPositive(s: seq<Balance>, k: nat)
    requires k < |s|
    requires forall p :: 0 <= p < |s| ==> s[p].netBalance <= 0
    requires s[k].netBalance < 0
    ensures NetSum(s) < 0
  {
    var n := |s|;
    if k < n - 1 {
      NetSumNonPositive(s[..n - 1], k);
    } else if n > 1 {
      NetSumAtMostZero(s[..n - 1]);
    }
  }

  lemma {:induction false} NetSumAtMostZero(s: seq<Balance>)
    requires forall p :: 0 <= p < |s| ==> s[p].netBalance <= 0
    ensures NetSum(s) <= 0
  {
    if s != [] {
      NetSumAtMostZero(s[..|s| - 1]);
    }
  }

  lemma {:induction false} NetSumNonNegative(s: seq<Balance>, k: nat)
    requires k < |s|
    requires forall p :: 0 <= p < |s| ==> s[p].netBalance >= 0
    requires s[k].netBalance > 0
    ensures NetSum(s) > 0
  {
    var n := |s|;
    if k < n - 1 {
      NetSumNonNegative(s[..n - 1], k);
    } else if n > 1 {
      NetSumAtLeastZero(s[..n - 1]);
    }
  }

  lemma {:induction false} NetSumAtLeastZero(s: seq<Balance>)
    requires forall p :: 0 <= p < |s| ==> s[p].netBalance >= 0
    ensures NetSum(s) >= 0
  {
    if s != [] {
      NetSumAtLeastZero(s[..|s| - 1]);
    }
  }

  /** A list whose entries other than `k` are zero adds up to entry `k`. */
  lemma {:induction false} NetSumSingle(s: seq<Balance>, k: nat)
    requires k < |s|
    requires forall p :: 0 <= p < |s| && p != k ==> s[p].netBalance == 0
    ensures NetSum(s) == s[k].netBalance
  {
    var n := |s|;
    if k < n - 1 {
      NetSumSingle(s[..n - 1], k);
    } else {
      NetSumZero(s[..n - 1]);
    }
  }

  lemma {:induction false} NetSumZero(s: seq<Balance>)
    requires forall p :: 0 <= p < |s| ==> s[p].netBalance == 0
    ensures NetSum(s) == 0
  {
    if s != [] {
      NetSumZero(s[..|s| - 1]);
    }
  }

  /** Moving a pointer past a settled balance keeps the invariant. */
  lemma SkipDebtorSettleable(a: seq<Balance>, i: nat, j: nat)
    requires Settleable(a, i, j) && i < j && Abs(a[i].netBalance) < 1
    ensures Settleable(a, i + 1, j)
  {
  }

  lemma SkipCreditorSettleable(a: seq<Balance>, i: nat, j: nat)
    requires Settleable(a, i, j) && i < j && Abs(a[j].netBalance) < 1
    ensures Settleable(a, i, j - 1)
  {
  }

  /** A negative debtor end makes every balance non-positive. */
  lemma DebtorEnd(a: seq<Balance>, i: nat, j: nat)
    requires Separated(a, i, j) && i <= j
    ensures a[i].netBalance < 0 ==> NetSum(a) < 0
  {
    if a[i].netBalance < 0 {
      forall p | 0 <= p < |a| ensures a[p].netBalance <= 0 {
        if i < p <= j {
          assert a[i].netBalance >= 0 || a[p].netBalance <= 0;
        }
      }
      NetSumNonPositive(a, i);
    }
  }

  /** A positive creditor end makes every balance non-negative. */
  lemma CreditorEnd(a: seq<Balance>, i: nat, j: nat)
    requires Separated(a, i, j) && i <= j
    ensures a[j].netBalance > 0 ==> NetSum(a) > 0
  {
    if a[j].netBalance > 0 {
      forall p | 0 <= p < |a| ensures a[p].netBalance >= 0 {
        if i <= p < j {
          assert a[j].netBalance <= 0 || a[p].netBalance >= 0;
        }
      }
      NetSumNonNegative(a, j);
    }
  }

  /** Between the pointers, a nonzero debtor end is positive and a nonzero
      creditor end is negative; the payment is positive and zeroes at least
      one of them, and the invariant carries over to the next pointers. */
  lemma StepSettleable(a: seq<Balance>, i: nat, j: nat)
    requires Settleable(a, i, j) && i < j
    requires Abs(a[i].netBalance) >= 1 && Abs(a[j].netBalance) >= 1
    ensures a[i].netBalance > 0 && a[j].netBalance < 0 && Pay(a, i, j) > 0
    ensures var b := AfterPay(a, i, j);
      && (b[i].netBalance == 0 || b[j].netBalance == 0)
      && Settleable(b, NextDebtor(b, i), NextCreditor(b, j))
  {
    DebtorEnd(a, i, j);
    CreditorEnd(a, i, j);
    AfterPaySum(a, i, j);
    AfterPaySeparated(a, i, j);
  }

  /** A payment moves money between two balances and keeps the total. */
  lemma AfterPaySum(a: seq<Balance>, i: nat, j: nat)
    requires i < |a| && j < |a| && i != j
    ensures NetSum(AfterPay(a, i, j)) == NetSum(a)
  {
    var amount := Pay(a, i, j);
    var b1 := a[i := a[i].(netBalance := a[i].netBalance - amount)];
    NetSumUpdate(a, i, b1[i]);
    NetSumUpdate(b1, j, AfterPay(a, i, j)[j]);
  }

  /** From a positive debtor end to a negative creditor end, the payment
      zeroes one of them and keeps the copy separated. */
  lemma AfterPaySeparated(a: seq<Balance>, i: nat, j: nat)
    requires Separated(a, i, j) && i < j
    requires a[i].netBalance > 0 && a[j].netBalance < 0
    ensures Pay(a, i, j) > 0
    ensures var b := AfterPay(a, i, j);
      && (b[i].netBalance == 0 || b[j].netBalance == 0)
      && Separated(b, NextDebtor(b, i), NextCreditor(b, j))
  {
  }

  /** One emission of the walk. */
  lemma WalkEmits(a: seq<Balance>, i: nat, j: nat)
    requires i < j < |a|
    requires Abs(a[i].netBalance) >= 1 && Abs(a[j].netBalance) >= 1
    ensures var b := AfterPay(a, i, j);
      Walk(a, i, j) == [Settlement(a[i].participantId, a[j].participantId, Pay(a, i, j))]
                       + Walk(b, NextDebtor(b, i), NextCreditor(b, j))
  {
  }

  // ---- properties of the walk ----

  /** `s` goes from a debtor to a later creditor of the working copy. */
  ghost predicate DebtorToCreditor(a: seq<Balance>, i: int, j: int, s: Settlement)
  {
    exists p, q :: 0 <= i <= p < q <= j < |a|
      && a[p].participantId == s.from && a[q].participantId == s.to
      && a[p].netBalance > 0 && a[q].netBalance < 0
  }

  lemma Widen(a: seq<Balance>, i: int, j: int, i': int, j': int, s: Settlement)
    requires i <= i' && j' <= j && 0 <= i && j < |a|
    requires DebtorToCreditor(a, i', j', s)
    ensures DebtorToCreditor(a, i, j, s)
  {
    var p, q :| 0 <= i' <= p < q <= j' < |a|
      && a[p].participantId == s.from && a[q].participantId == s.to
      && a[p].netBalance > 0 && a[q].netBalance < 0;
  }

  /** A debtor or creditor after the payment was one before it. */
  lemma PaymentCarries(a: seq<Balance>, i: nat, j: nat, s: Settlement)
    requires i < j < |a| && a[i].netBalance > 0 && a[j].netBalance < 0 && Pay(a, i, j) > 0
    requires var b := AfterPay(a, i, j);
      NextDebtor(b, i) <= NextCreditor(b, j) + 1 && DebtorToCreditor(b, NextDebtor(b, i), NextCreditor(b, j), s)
    ensures DebtorToCreditor(a, i, j, s)
  {
    var b := AfterPay(a, i, j);
    var p, q :| 0 <= NextDebtor(b, i) <= p < q <= NextCreditor(b, j) < |b|
      && b[p].participantId == s.from && b[q].participantId == s.to
      && b[p].netBalance > 0 && b[q].netBalance < 0;
    assert a[p].netBalance >= b[p].netBalance && a[p].participantId == b[p].participantId;
    assert a[q].netBalance <= b[q].netBalance && a[q].participantId == b[q].participantId;
  }

  /** Every settlement of `w` has a positive amount and goes from a debtor
      to a creditor that comes after it. */
  ghost predicate Transfers(a: seq<Balance>, i: int, j: int, w: seq<Settlement>)
  {
    forall k :: 0 <= k < |w| ==> w[k].amount > 0 && DebtorToCreditor(a, i, j, w[k])
  }

  lemma TransfersWiden(a: seq<Balance>, i: int, j: int, i': int, j': int, w: seq<Settlement>)
    requires i <= i' && j' <= j && 0 <= i && j < |a|
    requires Transfers(a, i', j', w)
    ensures Transfers(a, i, j, w)
  {
    forall k | 0 <= k < |w| ensures DebtorToCreditor(a, i, j, w[k]) {
      Widen(a, i, j, i', j', w[k]);
    }
  }

  lemma TransfersEmit(a: seq<Balance>, i: nat, j: nat)
    requires Settleable(a, i, j) && i < j
    requires Abs(a[i].netBalance) >= 1 && Abs(a[j].netBalance) >= 1
    requires var b := AfterPay(a, i, j);
      NextDebtor(b, i) >= 0 && NextCreditor(b, j) < |b| && NextDebtor(b, i) <= NextCreditor(b, j) + 1
      && Transfers(b, NextDebtor(b, i), NextCreditor(b, j), Walk(b, NextDebtor(b, i), NextCreditor(b, j)))
    ensures Transfers(a, i, j, Walk(a, i, j))
  {
    StepSettleable(a, i, j);
    WalkEmits(a, i, j);
    var b := AfterPay(a, i, j);
    var rest := Walk(b, NextDebtor(b, i), NextCreditor(b, j));
    var w := Walk(a, i, j);
    assert DebtorToCreditor(a, i, j, w[0]);
    forall k | 1 <= k < |w| ensures w[k].amount > 0 && DebtorToCreditor(a, i, j, w[k]) {
      assert w[k] == rest[k - 1];
      PaymentCarries(a, i, j, w[k]);
    }
  }

  /** Every emitted settlement has a positive amount and goes from a debtor
      to a creditor that comes after it. */
  lemma {:induction false} WalkTransfers(a: seq<Balance>, i: int, j: int)
    requires Settleable(a, i, j)
    ensures Transfers(a, i, j, Walk(a, i, j))
    decreases j - i, Measure(a, i)
  {
    if i >= j {
    } else if Abs(a[i].netBalance) < 1 {
      SkipDebtorSettleable(a, i, j);
      WalkTransfers(a, i + 1, j);
      TransfersWiden(a, i, j, i + 1, j, Walk(a, i + 1, j));
    } else if Abs(a[j].netBalance) < 1 {
      SkipCreditorSettleable(a, i, j);
      WalkTransfers(a, i, j - 1);
      TransfersWiden(a, i, j, i, j - 1, Walk(a, i, j - 1));
    } else {
      StepSettleable(a, i, j);
      var b := AfterPay(a, i, j);
      WalkTransfers(b, NextDebtor(b, i), NextCreditor(b, j));
      TransfersEmit(a, i, j);
    }
  }

  /** Each emission settles the debtor, the creditor or both, so the walk
      emits fewer settlements than there are balances between the pointers. */
  lemma {:induction false} WalkLength(a: seq<Balance>, i: int, j: int)
    requires Settleable(a, i, j)
    ensures |Walk(a, i, j)| <= if i < j then j - i else 0
    decreases j - i, Measure(a, i)
  {
    if i >= j {
    } else if Abs(a[i].netBalance) < 1 {
      SkipDebtorSettleable(a, i, j);
      WalkLength(a, i + 1, j);
    } else if Abs(a[j].netBalance) < 1 {
      SkipCreditorSettleable(a, i, j);
      WalkLength(a, i, j - 1);
    } else {
      StepSettleable(a, i, j);
      var b := AfterPay(a, i, j);
      WalkLength(b, NextDebtor(b, i), NextCreditor(b, j));
    }
  }

  /** Applying a settlement: `from` pays, so its balance goes down by the
      amount; `to` is paid, so its balance goes up by it. */
  function Transfer(bs: seq<Balance>, s: Settlement): (r: seq<Balance>)
    ensures |r| == |bs|
    ensures forall k :: 0 <= k < |bs| ==> r[k].participantId == bs[k].participantId
  {
    seq(|bs|, k requires 0 <= k < |bs| =>
      bs[k].(netBalance := bs[k].netBalance
                           - (if bs[k].participantId == s.from then s.amount else 0)
                           + (if bs[k].participantId == s.to then s.amount else 0)))
  }

  function Apply(bs: seq<Balance>, ss: seq<Settlement>): (r: seq<Balance>)
    ensures |r| == |bs|
    decreases |ss|
  {
    if ss == [] then bs else Apply(Transfer(bs, ss[0]), ss[1..])
  }

  predicate AllSettled(bs: seq<Balance>)
  {
    forall k :: 0 <= k < |bs| ==> bs[k].netBalance == 0
  }

  lemma TransferIsPayment(a: seq<Balance>, i: nat, j: nat)
    requires i < |a| && j < |a| && i != j && DistinctIds(a)
    ensures Transfer(a, Settlement(a[i].participantId, a[j].participantId, Pay(a, i, j))) == AfterPay(a, i, j)
  {
  }

  /** Carrying out an emitted settlement performs the walk's payment. */
  lemma ApplyEmits(a: seq<Balance>, i: nat, j: nat)
    requires i < j < |a| && DistinctIds(a)
    requires Abs(a[i].netBalance) >= 1 && Abs(a[j].netBalance) >= 1
    ensures var b := AfterPay(a, i, j);
      Apply(a, Walk(a, i, j)) == Apply(b, Walk(b, NextDebtor(b, i), NextCreditor(b, j)))
  {
    var b := AfterPay(a, i, j);
    var s := Settlement(a[i].participantId, a[j].participantId, Pay(a, i, j));
    var w := Walk(a, i, j);
    WalkEmits(a, i, j);
    assert w[0] == s && w[1..] == Walk(b, NextDebtor(b, i), NextCreditor(b, j));
    TransferIsPayment(a, i, j);
  }

  lemma AfterPayDistinct(a: seq<Balance>, i: nat, j: nat)
    requires i < |a| && j < |a| && i != j && DistinctIds(a)
    ensures DistinctIds(AfterPay(a, i, j))
  {
    var b := AfterPay(a, i, j);
    assert forall k :: 0 <= k < |a| ==> b[k].participantId == a[k].participantId;
  }

  /** Once the pointers meet, the working copy is settled. */
  lemma SettledAtMeeting(a: seq<Balance>, i: int, j: int)
    requires Settleable(a, i, j) && i >= j
    ensures AllSettled(Apply(a, Walk(a, i, j)))
  {
    if i == j {
      NetSumSingle(a, i);
    }
    assert Apply(a, Walk(a, i, j)) == a;
  }

  lemma SkipDebtor(a: seq<Balance>, i: nat, j: nat)
    requires i < j < |a| && Abs(a[i].netBalance) < 1
    ensures Walk(a, i, j) == Walk(a, i + 1, j)
  {
  }

  lemma SkipCreditor(a: seq<Balance>, i: nat, j: nat)
    requires i < j < |a| && Abs(a[i].netBalance) >= 1 && Abs(a[j].netBalance) < 1
    ensures Walk(a, i, j) == Walk(a, i, j - 1)
  {
  }

  lemma SettlesSkipDebtor(a: seq<Balance>, i: nat, j: nat)
    requires i < j < |a| && Abs(a[i].netBalance) < 1
    requires AllSettled(Apply(a, Walk(a, i + 1, j)))
    ensures AllSettled(Apply(a, Walk(a, i, j)))
  {
    SkipDebtor(a, i, j);
  }

  lemma SettlesSkipCreditor(a: seq<Balance>, i: nat, j: nat)
    requires i < j < |a| && Abs(a[i].netBalance) >= 1 && Abs(a[j].netBalance) < 1
    requires AllSettled(Apply(a, Walk(a, i, j - 1)))
    ensures AllSettled(Apply(a, Walk(a, i, j)))
  {
    SkipCreditor(a, i, j);
  }

  /** The emitting step of `WalkSettles`. */
  lemma {:induction false} SettlesEmit(a: seq<Balance>, i: nat, j: nat)
    requires Settleable(a, i, j) && DistinctIds(a) && i < j
    requires Abs(a[i].netBalance) >= 1 && Abs(a[j].netBalance) >= 1
    ensures AllSettled(Apply(a, Walk(a, i, j)))
    decreases j - i, Measure(a, i), 0
  {
    StepSettleable(a, i, j);
    var b := AfterPay(a, i, j);
    AfterPayDistinct(a, i, j);
    WalkSettles(b, NextDebtor(b, i), NextCreditor(b, j));
    ApplyEmits(a, i, j);
  }

  /** With distinct ids, carrying out the walk's settlements on the working
      copy brings every balance to zero. */
  lemma {:induction false} WalkSettles(a: seq<Balance>, i: int, j: int)
    requires Settleable(a, i, j) && DistinctIds(a)
    ensures AllSettled(Apply(a, Walk(a, i, j)))
    decreases j - i, Measure(a, i), 1
  {
    if i >= j {
      SettledAtMeeting(a, i, j);
    } else if Abs(a[i].netBalance) < 1 {
      SkipDebtorSettleable(a, i, j);
      WalkSettles(a, i + 1, j);
      SettlesSkipDebtor(a, i, j);
    } else if Abs(a[j].netBalance) < 1 {
      SkipCreditorSettleable(a, i, j);
      WalkSettles(a, i, j - 1);
      SettlesSkipCreditor(a, i, j);
    } else {
      SettlesEmit(a, i, j);
    }
  }

  // ---- properties of the plan ----

  /** A walk over nonzero balances that add up to zero emits something
      exactly when there are balances. */
  lemma WalkEmptyIff(o: seq<Balance>)
    requires Unsettled(o) && NetSum(o) == 0
    ensures Walk(o, 0, |o| - 1) == [] <==> o == []
  {
    NetSumOfOne(o);
    if |o| >= 2 {
      WalkEmits(o, 0, |o| - 1);
    }
  }

  lemma NetSumOfOne(s: seq<Balance>)
    ensures |s| == 1 ==> NetSum(s) == s[0].netBalance
  {
  }

  lemma WalkFirst(o: seq<Balance>)
    requires Unsettled(o)
    ensures Walk(o, 0, |o| - 1) != [] ==>
      Walk(o, 0, |o| - 1)[0] == Settlement(o[0].participantId, o[|o| - 1].participantId,
                                           Min(o[0].netBalance, Abs(o[|o| - 1].netBalance)))
  {
    if |o| >= 2 {
      WalkEmits(o, 0, |o| - 1);
    }
  }

  /** Settled input, including the empty list, gives no settlements. */
  lemma PlanOfSettled(bs: seq<Balance>)
    requires forall k :: 0 <= k < |bs| ==> Abs(bs[k].netBalance) <= 1
    ensures Plan(bs) == []
  {
    KeptOfSettled(bs);
  }

  lemma {:induction false} KeptOfSettled(bs: seq<Balance>)
    requires forall k :: 0 <= k < |bs| ==> Abs(bs[k].netBalance) <= 1
    ensures Kept(bs) == []
  {
    if bs != [] {
      KeptOfSettled(bs[..|bs| - 1]);
    }
  }

  /** A sorted list that adds up to zero is where the walk starts. */
  lemma SortedSettleable(o: seq<Balance>)
    requires SortedDesc(o) && NetSum(o) == 0
    ensures Settleable(o, 0, |o| - 1)
  {
  }

  lemma PlanStart(bs: seq<Balance>)
    requires NetSum(Kept(bs)) == 0
    ensures Settleable(Order(bs), 0, |Order(bs)| - 1)
  {
    OrderSums(bs);
    SortDescSorted(Kept(bs));
    SortedSettleable(Order(bs));
  }

  /** When the unsettled balances add up to zero, there are settlements
      exactly when some balance is unsettled. */
  lemma PlanEmptyIff(bs: seq<Balance>)
    requires NetSum(Kept(bs)) == 0
    ensures Plan(bs) == [] <==> Kept(bs) == []
  {
    OrderSums(bs);
    OrderUnsettled(bs);
    WalkEmptyIff(Order(bs));
  }

  /** The first settlement goes from the largest balance to the most
      negative one. */
  lemma PlanFirst(bs: seq<Balance>)
    ensures Plan(bs) != [] ==>
      var order := Order(bs);
      Plan(bs)[0] == Settlement(order[0].participantId, order[|order| - 1].participantId,
                                Min(order[0].netBalance, Abs(order[|order| - 1].netBalance)))
  {
    OrderUnsettled(bs);
    WalkFirst(Order(bs));
  }

  /** When the unsettled balances add up to zero, every settlement is
      positive and goes from a debtor to a creditor placed after it in the
      working copy. */
  lemma PlanTransfers(bs: seq<Balance>)
    requires NetSum(Kept(bs)) == 0
    ensures Transfers(Order(bs), 0, |Order(bs)| - 1, Plan(bs))
  {
    PlanStart(bs);
    WalkTransfers(Order(bs), 0, |Order(bs)| - 1);
  }

  /** When the unsettled balances add up to zero, there are at most N - 1
      settlements for N unsettled balances. */
  lemma PlanLength(bs: seq<Balance>)
    requires NetSum(Kept(bs)) == 0
    ensures |Kept(bs)| > 0 ==> |Plan(bs)| <= |Kept(bs)| - 1
  {
    PlanStart(bs);
    OrderSums(bs);
    WalkLength(Order(bs), 0, |Order(bs)| - 1);
  }

  /** What the settlement method promises about its result. */
  lemma PlanHeadline(bs: seq<Balance>)
    ensures Kept(bs) == [] ==> Plan(bs) == []
    ensures NetSum(Kept(bs)) == 0 ==>
      && (forall k :: 0 <= k < |Plan(bs)| ==> Plan(bs)[k].amount > 0)
      && (|Kept(bs)| > 0 ==> |Plan(bs)| < |Kept(bs)|)
  {
    if NetSum(Kept(bs)) == 0 {
      PlanTransfers(bs);
      PlanLength(bs);
    }
  }

  /** With distinct ids nobody pays themselves. */
  lemma PlanNoSelfPayment(bs: seq<Balance>)
    requires NetSum(Kept(bs)) == 0 && DistinctIds(bs)
    ensures forall k :: 0 <= k < |Plan(bs)| ==> Plan(bs)[k].from != Plan(bs)[k].to
  {
    PlanTransfers(bs);
    KeptDistinct(bs);
    SortDescDistinct(Kept(bs));
    var order := Order(bs);
    forall k | 0 <= k < |Plan(bs)| ensures Plan(bs)[k].from != Plan(bs)[k].to {
      var p, q :| 0 <= p < q < |order|
        && order[p].participantId == Plan(bs)[k].from && order[q].participantId == Plan(bs)[k].to
        && order[p].netBalance > 0 && order[q].netBalance < 0;
    }
  }

  /** With distinct ids, carrying out the plan leaves every unsettled
      balance at zero. */
  lemma PlanSettlesAll(bs: seq<Balance>)
    requires NetSum(Kept(bs)) == 0 && DistinctIds(bs)
    ensures AllSettled(Apply(Order(bs), Plan(bs)))
  {
    PlanStart(bs);
    KeptDistinct(bs);
    SortDescDistinct(Kept(bs));
    WalkSettles(Order(bs), 0, |Order(bs)| - 1);
  }

  // ---- the plan seen from the caller's balance list ----

  /** The net change a list of settlements makes to participant `id`:
      what it receives minus what it pays. */
  function Delta(ss: seq<Settlement>, id: Id): int
    decreases |ss|
  {
    if ss == [] then 0
    else (if ss[0].to == id then ss[0].amount else 0)
         - (if ss[0].from == id then ss[0].amount else 0)
         + Delta(ss[1..], id)
  }

  /** Settlements act on a balance through its participant id alone. */
  lemma {:induction false} ApplyEntry(bs: seq<Balance>, ss: seq<Settlement>, k: nat)
    requires k < |bs|
    ensures Apply(bs, ss)[k] == bs[k].(netBalance := bs[k].netBalance + Delta(ss, bs[k].participantId))
    decreases |ss|
  {
    if ss != [] {
      ApplyEntry(Transfer(bs, ss[0]), ss[1..], k);
    }
  }

  lemma {:induction false} DeltaOfOthers(ss: seq<Settlement>, id: Id)
    requires forall n :: 0 <= n < |ss| ==> ss[n].from != id && ss[n].to != id
    ensures Delta(ss, id) == 0
    decreases |ss|
  {
    if ss != [] {
      assert forall n :: 0 <= n < |ss[1..]| ==> ss[1..][n] == ss[n + 1];
      DeltaOfOthers(ss[1..], id);
    }
  }

  /** Every entry of the working copy is an input balance that was kept. */
  lemma {:induction false} OrderEntry(bs: seq<Balance>, p: nat)
    requires p < |Order(bs)|
    ensures Order(bs)[p] in bs && Abs(Order(bs)[p].netBalance) > 1
  {
    OrderProperties(bs);
    KeptMembers(bs);
    assert Order(bs)[p] in multiset(Order(bs));
  }

  /** With distinct ids, a kept balance and a dropped one name different
      participants. */
  lemma {:induction false} KeptIdNotDropped(bs: seq<Balance>, x: Balance, k: nat)
    requires DistinctIds(bs) && x in bs && Abs(x.netBalance) > 1
    requires k < |bs| && Abs(bs[k].netBalance) <= 1
    ensures x.participantId != bs[k].participantId
  {
    var m :| 0 <= m < |bs| && bs[m] == x;
    assert m != k;
  }

  /** Settlements that name neither side of a balance leave it alone. */
  lemma {:induction false} Untouched(bs: seq<Balance>, w: seq<Settlement>, k: nat)
    requires k < |bs|
    requires forall n :: 0 <= n < |w| ==> w[n].from != bs[k].participantId && w[n].to != bs[k].participantId
    ensures Apply(bs, w)[k] == bs[k]
  {
    DeltaOfOthers(w, bs[k].participantId);
    ApplyEntry(bs, w, k);
  }

  /** Settlements that settle a list settle any copy of one of its balances. */
  lemma {:induction false} SettledThrough(o: seq<Balance>, bs: seq<Balance>, w: seq<Settlement>, k: nat)
    requires AllSettled(Apply(o, w)) && k < |bs| && bs[k] in o
    ensures Apply(bs, w)[k].netBalance == 0
  {
    var q :| 0 <= q < |o| && o[q] == bs[k];
    assert Apply(o, w)[q].netBalance == 0;
    ApplyEntry(o, w, q);
    ApplyEntry(bs, w, k);
  }

  /** Each settlement of the plan names two kept participants, so neither
      is one the filter dropped. */
  lemma {:induction false} PartiesKept(bs: seq<Balance>, n: nat, k: nat)
    requires NetSum(Kept(bs)) == 0 && DistinctIds(bs)
    requires k < |bs| && Abs(bs[k].netBalance) <= 1
    requires n < |Plan(bs)|
    ensures Plan(bs)[n].from != bs[k].participantId && Plan(bs)[n].to != bs[k].participantId
  {
    var o := Order(bs);
    var s := Plan(bs)[n];
    PlanTransfers(bs);
    assert DebtorToCreditor(o, 0, |o| - 1, s);
    var p, q :| 0 <= p < q < |o|
      && o[p].participantId == s.from && o[q].participantId == s.to
      && o[p].netBalance > 0 && o[q].netBalance < 0;
    OrderEntry(bs, p);
    OrderEntry(bs, q);
    KeptIdNotDropped(bs, o[p], k);
    KeptIdNotDropped(bs, o[q], k);
  }

  /** A balance the filter dropped is named by no settlement, so carrying
      out the plan leaves it as it was. */
  lemma {:induction false} DroppedUntouched(bs: seq<Balance>, k: nat)
    requires NetSum(Kept(bs)) == 0 && DistinctIds(bs)
    requires k < |bs| && Abs(bs[k].netBalance) <= 1
    ensures Apply(bs, Plan(bs))[k] == bs[k]
  {
    var w := Plan(bs);
    forall n | 0 <= n < |w| ensures w[n].from != bs[k].participantId && w[n].to != bs[k].participantId {
      PartiesKept(bs, n, k);
    }
    Untouched(bs, w, k);
  }

  /** A balance the filter kept ends at zero once the plan is carried out. */
  lemma {:induction false} KeptSettled(bs: seq<Balance>, k: nat)
    requires NetSum(Kept(bs)) == 0 && DistinctIds(bs)
    requires k < |bs| && Abs(bs[k].netBalance) > 1
    ensures Apply(bs, Plan(bs))[k].netBalance == 0
  {
    KeptMembers(bs);
    OrderProperties(bs);
    assert bs[k] in multiset(Kept(bs));
    assert bs[k] in Order(bs);
    PlanSettlesAll(bs);
    SettledThrough(Order(bs), bs, Plan(bs), k);
  }

  /** With distinct ids and kept balances that add up to zero, carrying out
      the plan on the caller's balance list brings every kept balance to
      zero and leaves every dropped one, at most a cent from zero, as it
      was. */
  lemma {:induction false} PlanSettlesBalances(bs: seq<Balance>)
    requires NetSum(Kept(bs)) == 0 && DistinctIds(bs)
    ensures |Apply(bs, Plan(bs))| == |bs|
    ensures forall k :: 0 <= k < |bs| && Abs(bs[k].netBalance) > 1 ==>
      Apply(bs, Plan(bs))[k].netBalance == 0
    ensures forall k :: 0 <= k < |bs| && Abs(bs[k].netBalance) <= 1 ==>
      Apply(bs, Plan(bs))[k] == bs[k]
  {
    forall k | 0 <= k < |bs| && Abs(bs[k].netBalance) > 1
      ensures Apply(bs, Plan(bs))[k].netBalance == 0
    {
      KeptSettled(bs, k);
    }
    forall k | 0 <= k < |bs| && Abs(bs[k].netBalance) <= 1
      ensures Apply(bs, Plan(bs))[k] == bs[k]
    {
      DroppedUntouched(bs, k);
    }
  }

  /** Without one-cent balances the filter drops only zeros, so the kept
      balances add up to the same total as the whole list. */
  lemma {:induction false} KeptSumWithoutCents(bs: seq<Balance>)
    requires forall k :: 0 <= k < |bs| ==> Abs(bs[k].netBalance) != 1
    ensures NetSum(Kept(bs)) == NetSum(bs)
  {
    if bs != [] {
      var n := |bs|;
      var init := bs[..n - 1];
      var last := bs[n - 1];
      assert forall k :: 0 <= k < |init| ==> init[k] == bs[k];
      KeptSumWithoutCents(init);
      var ki := Kept(init);
      if Abs(last.netBalance) > 1 {
        assert Kept(bs) == ki + [last];
        assert (ki + [last])[..|ki + [last]| - 1] == ki;
      } else {
        assert last.netBalance == 0;
        assert Kept(bs) == ki + [];
        assert ki + [] == ki;
      }
    }
  }

  // ---- worked examples ----

  /** X owes 50.00, Y is owed 30.00 and Z is owed 20.00: the sorted copy is
      X, Z, Y, so X pays Y first. */
  lemma ThreeWayPlan()
    ensures Plan([Balance("X", "X", 5000), Balance("Y", "Y", -3000), Balance("Z", "Z", -2000)])
         == [Settlement("X", "Y", 3000), Settlement("X", "Z", 2000)]
  {
    ThreeWayOrder();
    ThreeWayWalk();
  }

  lemma ThreeWayOrder()
    ensures Order([Balance("X", "X", 5000), Balance("Y", "Y", -3000), Balance("Z", "Z", -2000)])
         == [Balance("X", "X", 5000), Balance("Z", "Z", -2000), Balance("Y", "Y", -3000)]
  {
    var bs := [Balance("X", "X", 5000), Balance("Y", "Y", -3000), Balance("Z", "Z", -2000)];
    assert Kept(bs) == bs by { KeptUnsettled(bs); }
    ThreeWaySort();
  }

  lemma ThreeWaySort()
    ensures SortDesc([Balance("X", "X", 5000), Balance("Y", "Y", -3000), Balance("Z", "Z", -2000)])
         == [Balance("X", "X", 5000), Balance("Z", "Z", -2000), Balance("Y", "Y", -3000)]
  {
    var x, y, z := Balance("X", "X", 5000), Balance("Y", "Y", -3000), Balance("Z", "Z", -2000);
    assert [x, y, z][..2] == [x, y];
    assert [x, y][..1] == [x];
    assert [x][..0] == [];
    assert SortDesc([x]) == [x];
    assert SortDesc([x, y]) == Insert(y, [x]) == [x, y];
    assert [x, y][1..] == [y];
    assert Insert(z, [y]) == [z, y];
    assert SortDesc([x, y, z]) == Insert(z, [x, y]) == [x] + Insert(z, [y]);
  }

  lemma ThreeWayWalk()
    ensures Walk([Balance("X", "X", 5000), Balance("Z", "Z", -2000), Balance("Y", "Y", -3000)], 0, 2)
         == [Settlement("X", "Y", 3000), Settlement("X", "Z", 2000)]
  {
    var o := [Balance("X", "X", 5000), Balance("Z", "Z", -2000), Balance("Y", "Y", -3000)];
    WalkEmits(o, 0, 2);
    var b := AfterPay(o, 0, 2);
    assert b == [Balance("X", "X", 2000), Balance("Z", "Z", -2000), Balance("Y", "Y", 0)];
    WalkEmits(b, 0, 1);
    var c := AfterPay(b, 0, 1);
    assert Walk(c, NextDebtor(c, 0), NextCreditor(c, 1)) == [];
  }

  /** The balances after A pays 100.00 split three ways
      (`Splits.HundredThreeWays`): B and C each pay A their share. */
  lemma HundredThreeWaysPlan()
    ensures Plan([Balance("A", "A", -6666), Balance("B", "B", 3333), Balance("C", "C", 3333)])
         == [Settlement("B", "A", 3333), Settlement("C", "A", 3333)]
  {
    HundredThreeWaysOrder();
    HundredThreeWaysWalk();
  }

  lemma HundredThreeWaysOrder()
    ensures Order([Balance("A", "A", -6666), Balance("B", "B", 3333), Balance("C", "C", 3333)])
         == [Balance("B", "B", 3333), Balance("C", "C", 3333), Balance("A", "A", -6666)]
  {
    var bs := [Balance("A", "A", -6666), Balance("B", "B", 3333), Balance("C", "C", 3333)];
    assert Kept(bs) == bs by { KeptUnsettled(bs); }
    HundredThreeWaysSort();
  }

  lemma HundredThreeWaysSort()
    ensures SortDesc([Balance("A", "A", -6666), Balance("B", "B", 3333), Balance("C", "C", 3333)])
         == [Balance("B", "B", 3333), Balance("C", "C", 3333), Balance("A", "A", -6666)]
  {
    var a, b, c := Balance("A", "A", -6666), Balance("B", "B", 3333), Balance("C", "C", 3333);
    assert [a, b, c][..2] == [a, b];
    assert [a, b][..1] == [a];
    assert [a][..0] == [];
    assert SortDesc([a]) == [a];
    assert SortDesc([a, b]) == Insert(b, [a]) == [b, a];
    assert [b, a][1..] == [a];
    assert Insert(c, [a]) == [c, a];
    assert SortDesc([a, b, c]) == Insert(c, [b, a]) == [b] + Insert(c, [a]);
  }

  lemma HundredThreeWaysWalk()
    ensures Walk([Balance("B", "B", 3333), Balance("C", "C", 3333), Balance("A", "A", -6666)], 0, 2)
         == [Settlement("B", "A", 3333), Settlement("C", "A", 3333)]
  {
    var o := [Balance("B", "B", 3333), Balance("C", "C", 3333), Balance("A", "A", -6666)];
    WalkEmits(o, 0, 2);
    var o1 := AfterPay(o, 0, 2);
    assert o1 == [Balance("B", "B", 0), Balance("C", "C", 3333), Balance("A", "A", -3333)];
    assert NextDebtor(o1, 0) == 1 && NextCreditor(o1, 2) == 2;
    WalkEmits(o1, 1, 2);
    var o2 := AfterPay(o1, 1, 2);
    assert Walk(o2, NextDebtor(o2, 1), NextCreditor(o2, 2)) == [];
  }
}
