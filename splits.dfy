/** Split allocation: turning an expense amount and a split mode into the
    per-participant list of splits that the balance stage later consumes
    (`calculateSplits` of the expense creation endpoint). */
module Splits {
  import opened Ledger

  datatype SplitMode = Equal | Custom | Percentage

  /** A requested custom share.  Its amount is in cents but may carry a
      fractional part, since the request value is not yet rounded. */
  datatype CustomAmount = CustomAmount(participantId: Id, amount: real)

  /** A requested percentage share (percent of the expense amount). */
  datatype PercentShare = PercentShare(participantId: Id, percentage: real)

  /** `InvalidSplitConfiguration` is the error the allocator throws;
      `NoParticipants` stands for the type error raised when the equal split
      has no participants but still tries to correct `splits[0]`. */
  datatype SplitError = InvalidSplitConfiguration | NoParticipants

  datatype Result = Success(value: seq<Split>) | Failure(error: SplitError)

  /** The rounded equal share of `amount` among `k` participants: the
      integer nearest to `amount / k`, halves rounded up, that is
      `Floor(amount / k + 1/2)` written in integer arithmetic. */
  function EqualShare(amount: int, k: nat): (r: int)
    requires k > 0
    ensures 2 * k * r <= 2 * amount + k < 2 * k * r + 2 * k
  {
    (2 * amount + k) / (2 * k)
  }

  /** `k` equal shares miss the amount by at most half a cent per share. */
  lemma EqualShareResidue(amount: int, k: nat)
    requires k > 0
    ensures 2 * Abs(amount - k * EqualShare(amount, k)) <= k
  {
    var r := EqualShare(amount, k);
    assert 2 * k * r == 2 * (k * r);
  }

  /** Every participant of `ids`, in order, with the same amount. */
  function Uniform(ids: seq<Id>, share: int): (r: seq<Split>)
    ensures |r| == |ids|
    ensures forall k :: 0 <= k < |ids| ==> r[k] == Split(ids[k], share)
  {
    seq(|ids|, k requires 0 <= k < |ids| => Split(ids[k], share))
  }

  lemma {:induction false} UniformSum(ids: seq<Id>, share: int)
    ensures SplitSum(Uniform(ids, share)) == |ids| * share
  {
    if ids != [] {
      var n := |ids|;
      assert Uniform(ids, share)[..n - 1] == Uniform(ids[..n - 1], share);
      UniformSum(ids[..n - 1], share);
    }
  }

  /** The equal split with the rounding correction applied only when the
      rounded shares miss `amount` by more than `tolerance` cents.  The
      system compares against 0.01 currency units; read in exact cents that
      is `tolerance == 1`, which leaves a one-cent residue uncorrected (see
      `LiteralThresholdLeavesResidue`).  The model of the allocator uses
      `tolerance == 0`: correct whenever the difference is not zero, which
      is what the correction is for and what the floating-point code does
      for a total such as 100.00 split three ways. */
  function AllocateEqually(amount: int, ids: seq<Id>, tolerance: nat): (r: Result)
    ensures r.Failure? <==> |ids| == 0 && Abs(amount) > tolerance
    ensures r.Success? ==> |r.value| == |ids|
  {
    var k := |ids|;
    if k == 0 then
      // nothing to correct into: `splits[0]` does not exist
      if Abs(amount) > tolerance then Failure(NoParticipants) else Success([])
    else
      var share := EqualShare(amount, k);
      var difference := amount - k * share;
      var splits := Uniform(ids, share);
      if Abs(difference) > tolerance then
        Success(splits[0 := Split(ids[0], share + difference)])
      else
        Success(splits)
  }

  /** The shape of an equal split: one split per id in order, all but the
      first equal to the rounded share; it fails only when there is no id
      and the amount is beyond the tolerance. */
  lemma AllocateEquallyShape(amount: int, ids: seq<Id>, tolerance: nat)
    ensures AllocateEqually(amount, ids, tolerance).Failure?
        <==> |ids| == 0 && Abs(amount) > tolerance
    ensures AllocateEqually(amount, ids, tolerance).Success? ==>
      var splits := AllocateEqually(amount, ids, tolerance).value;
      && |splits| == |ids|
      && (forall k :: 0 <= k < |ids| ==> splits[k].participantId == ids[k])
      && (forall k :: 1 <= k < |ids| ==> splits[k].amount == EqualShare(amount, |ids|))
  {
  }

  /** Whatever the tolerance, an equal split misses the amount by at most
      that tolerance. */
  lemma AllocateEquallyResidue(amount: int, ids: seq<Id>, tolerance: nat)
    ensures AllocateEqually(amount, ids, tolerance).Success? ==>
      Abs(amount - SplitSum(AllocateEqually(amount, ids, tolerance).value)) <= tolerance
  {
    var k := |ids|;
    if k > 0 {
      var share := EqualShare(amount, k);
      var difference := amount - k * share;
      UniformSum(ids, share);
      if Abs(difference) > tolerance {
        SplitSumUpdate(Uniform(ids, share), 0, Split(ids[0], share + difference));
      }
    }
  }

  /** Corrected whenever the difference is not zero, the splits add up to
      the amount exactly and the first participant absorbs the difference,
      which is at most half a cent per participant. */
  lemma AllocateEquallyExact(amount: int, ids: seq<Id>)
    requires |ids| > 0
    ensures AllocateEqually(amount, ids, 0).Success?
    ensures SplitSum(AllocateEqually(amount, ids, 0).value) == amount
    ensures AllocateEqually(amount, ids, 0).value[0].amount
         == amount - (|ids| - 1) * EqualShare(amount, |ids|)
    ensures 2 * Abs(AllocateEqually(amount, ids, 0).value[0].amount - EqualShare(amount, |ids|)) <= |ids|
  {
    AllocateEquallyResidue(amount, ids, 0);
    EqualShareResidue(amount, |ids|);
  }

  /** The literal one-cent threshold does not correct a one-cent residue:
      two cents split three ways stay at one cent each, three cents in all. */
  lemma LiteralThresholdLeavesResidue()
    ensures AllocateEqually(2, ["a", "b", "c"], 1)
         == Success([Split("a", 1), Split("b", 1), Split("c", 1)])
    ensures SplitSum(AllocateEqually(2, ["a", "b", "c"], 1).value) == 3
  {
    assert EqualShare(2, 3) == 1;
    var splits := Uniform(["a", "b", "c"], 1);
    assert splits == [Split("a", 1), Split("b", 1), Split("c", 1)];
    UniformSum(["a", "b", "c"], 1);
  }

  /** 100.00 split three ways: the first participant absorbs the cent. */
  lemma HundredThreeWays()
    ensures AllocateEqually(10000, ["a", "b", "c"], 0)
         == Success([Split("a", 3334), Split("b", 3333), Split("c", 3333)])
  {
    assert EqualShare(10000, 3) == 3333;
    assert Uniform(["a", "b", "c"], 3333) == [Split("a", 3333), Split("b", 3333), Split("c", 3333)];
  }

  /** The equal branch: build one split per id, sum them, and overwrite the
      first split when the sum misses the amount. */
  method EqualSplits(amount: int, ids: seq<Id>) returns (r: Result)
    ensures r == AllocateEqually(amount, ids, 0)
    ensures r.Failure? <==> |ids| == 0 && amount != 0
    ensures r.Success? ==> |r.value| == |ids| && SplitSum(r.value) == amount
  {
    // with no ids the share is never stored, so its value does not matter
    var splitAmount := if |ids| == 0 then 0 else EqualShare(amount, |ids|);
    var splits: seq<Split> := [];
    var k := 0;
    while k < |ids|
      invariant 0 <= k <= |ids|
      invariant splits == Uniform(ids[..k], splitAmount)
    {
      assert Uniform(ids[..k + 1], splitAmount) == splits + [Split(ids[k], splitAmount)];
      splits := splits + [Split(ids[k], splitAmount)];
      k := k + 1;
    }
    assert ids[..k] == ids;
    var total := 0;
    var t := 0;
    while t < |splits|
      invariant 0 <= t <= |splits|
      invariant total == SplitSum(splits[..t])
    {
      assert splits[..t + 1][..t] == splits[..t];
      total := total + splits[t].amount;
      t := t + 1;
    }
    assert splits[..t] == splits;
    UniformSum(ids, splitAmount);
    var difference := amount - total;
    if difference != 0 {
      if |splits| == 0 {
        r := Failure(NoParticipants);
        return;
      }
      // rounding a whole number of cents is the identity
      splits := splits[0 := Split(splits[0].participantId, splits[0].amount + difference)];
    }
    r := Success(splits);
    AllocateEquallyResidue(amount, ids, 0);
  }

  /** The custom branch: every requested amount rounded to the nearest cent,
      entry for entry; the expense amount and id list play no part. */
  function CustomSplits(customAmounts: seq<CustomAmount>): (r: seq<Split>)
    ensures |r| == |customAmounts|
    ensures forall k :: 0 <= k < |r| ==>
      && r[k].participantId == customAmounts[k].participantId
      && customAmounts[k].amount - 0.5 < r[k].amount as real <= customAmounts[k].amount + 0.5
  {
    seq(|customAmounts|, k requires 0 <= k < |customAmounts| =>
      Split(customAmounts[k].participantId, RoundHalfUp(customAmounts[k].amount)))
  }

  function AsCustomAmounts(splits: seq<Split>): (r: seq<CustomAmount>)
    ensures |r| == |splits|
    ensures forall k :: 0 <= k < |r| ==> r[k] == CustomAmount(splits[k].participantId, splits[k].amount as real)
  {
    seq(|splits|, k requires 0 <= k < |splits| => CustomAmount(splits[k].participantId, splits[k].amount as real))
  }

  /** Whole-cent custom amounts come back unchanged. */
  lemma CustomSplitsRoundTrip(splits: seq<Split>)
    ensures CustomSplits(AsCustomAmounts(splits)) == splits
  {
    var r := CustomSplits(AsCustomAmounts(splits));
    forall k | 0 <= k < |splits| ensures r[k] == splits[k] {
      RoundWholeCents(splits[k].amount);
    }
  }

  /** The exact value of `percentage` percent of `amount`, in cents. */
  function PercentOf(amount: int, percentage: real): real
  {
    amount as real * percentage / 100.0
  }

  /** The percentage branch: each entry gets the cent nearest to its
      percentage of the amount, in the order of the percentages. */
  function PercentageSplits(amount: int, percentages: seq<PercentShare>): (r: seq<Split>)
    ensures |r| == |percentages|
    ensures forall k :: 0 <= k < |r| ==>
      && r[k].participantId == percentages[k].participantId
      && PercentOf(amount, percentages[k].percentage) - 0.5 < r[k].amount as real
      && r[k].amount as real <= PercentOf(amount, percentages[k].percentage) + 0.5
  {
    seq(|percentages|, k requires 0 <= k < |percentages| =>
      Split(percentages[k].participantId, RoundHalfUp(PercentOf(amount, percentages[k].percentage))))
  }

  function PercentSum(percentages: seq<PercentShare>): real
  {
    if percentages == [] then 0.0
    else PercentSum(percentages[..|percentages| - 1]) + percentages[|percentages| - 1].percentage
  }

  lemma {:induction false} PercentOfSum(amount: int, percentages: seq<PercentShare>)
    ensures PercentOf(amount, PercentSum(percentages)) == ExactShares(amount, percentages)
  {
    if percentages != [] {
      var n := |percentages|;
      PercentOfSum(amount, percentages[..n - 1]);
      var s := PercentSum(percentages[..n - 1]);
      var p := percentages[n - 1].percentage;
      assert amount as real * (s + p) == amount as real * s + amount as real * p;
    }
  }

  /** Sum of the unrounded percentage shares. */
  function ExactShares(amount: int, percentages: seq<PercentShare>): real
  {
    if percentages == [] then 0.0
    else ExactShares(amount, percentages[..|percentages| - 1])
         + PercentOf(amount, percentages[|percentages| - 1].percentage)
  }

  /** Percentage splits add up to the amount's share of the total
      percentage, up to half a cent per entry; nothing makes the total
      percentage 100. */
  lemma {:induction false} PercentageSplitsSum(amount: int, percentages: seq<PercentShare>)
    ensures var d := SplitSum(PercentageSplits(amount, percentages)) as real
                     - PercentOf(amount, PercentSum(percentages));
            -(|percentages| as real) / 2.0 <= d <= |percentages| as real / 2.0
  {
    PercentOfSum(amount, percentages);
    RoundedSharesSum(amount, percentages);
  }

  lemma {:induction false} RoundedSharesSum(amount: int, percentages: seq<PercentShare>)
    ensures var d := SplitSum(PercentageSplits(amount, percentages)) as real
                     - ExactShares(amount, percentages);
            -(|percentages| as real) / 2.0 <= d <= |percentages| as real / 2.0
  {
    if percentages != [] {
      var n := |percentages|;
      var init := percentages[..n - 1];
      var r := PercentageSplits(amount, percentages);
      assert r[..n - 1] == PercentageSplits(amount, init);
      RoundedSharesSum(amount, init);
    }
  }

  lemma IntHalfBound(x: int, n: nat)
    requires -(n as real) / 2.0 <= x as real <= n as real / 2.0
    ensures 2 * Abs(x) <= n
  {
  }

  /** With percentages totalling 100 the splits miss the amount by at most
      half a cent per entry. */
  lemma PercentagesOfHundred(amount: int, percentages: seq<PercentShare>)
    requires PercentSum(percentages) == 100.0
    ensures 2 * Abs(SplitSum(PercentageSplits(amount, percentages)) - amount) <= |percentages|
  {
    PercentageSplitsSum(amount, percentages);
    var total := SplitSum(PercentageSplits(amount, percentages));
    var n := |percentages|;
    var d := total as real - PercentOf(amount, PercentSum(percentages));
    assert -(n as real) / 2.0 <= d <= n as real / 2.0;
    assert PercentOf(amount, 100.0) == amount as real;
    assert d == (total - amount) as real;
    IntHalfBound(total - amount, n);
  }

  /** `calculateSplits`: dispatch on the split mode.  Custom and percentage
      modes need their lists (an empty list is accepted); any other
      combination is an invalid configuration. */
  method CalculateSplits(amount: int, splitMode: SplitMode, participantIds: seq<Id>,
                         customAmounts: Option<seq<CustomAmount>>,
                         percentages: Option<seq<PercentShare>>) returns (r: Result)
    ensures r == Failure(InvalidSplitConfiguration) <==>
      ((splitMode == Custom && customAmounts.None?) || (splitMode == Percentage && percentages.None?))
    ensures splitMode == Equal ==> r == AllocateEqually(amount, participantIds, 0)
    ensures splitMode == Equal && r.Success? ==> SplitSum(r.value) == amount
    ensures splitMode == Custom && customAmounts.Some? ==> r == Success(CustomSplits(customAmounts.value))
    ensures splitMode == Percentage && percentages.Some? ==>
      r == Success(PercentageSplits(amount, percentages.value))
  {
    if splitMode == Equal {
      r := EqualSplits(amount, participantIds);
      return;
    }
    if splitMode == Custom && customAmounts.Some? {
      return Success(CustomSplits(customAmounts.value));
    }
    if splitMode == Percentage && percentages.Some? {
      return Success(PercentageSplits(amount, percentages.value));
    }
    r := Failure(InvalidSplitConfiguration);
  }
}
