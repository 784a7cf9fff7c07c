/** Records shared by the split, balance and settlement stages, and the
    money arithmetic they use.

    All money is held in whole cents (`int`); a currency value `x` of the
    system is `x * 100` cents here.  Identifiers are strings. */
module Ledger {

  type Id = string

  datatype Option<+T> = None | Some(value: T)

  /** A group member stored in the participant table. */
  datatype Participant = Participant(id: Id, name: string)

  /** One participant's share of an expense, in cents. */
  datatype Split = Split(participantId: Id, amount: int)

  /** The fields of an expense record that the balance stage reads; the
      description, date, group and timestamps play no part in it. */
  datatype Expense = Expense(amount: int, payerId: Id, splits: seq<Split>)

  /** Net position of a participant: positive owes, negative is owed. */
  datatype Balance = Balance(participantId: Id, participantName: string, netBalance: int)

  /** "from pays to" instruction, in cents. */
  datatype Settlement = Settlement(from: Id, to: Id, amount: int)

  function Abs(x: int): (r: nat)
    ensures r == x || r == -x
  {
    if x < 0 then -x else x
  }

  function Min(x: int, y: int): (r: int)
    ensures r <= x && r <= y && (r == x || r == y)
  {
    if x <= y then x else y
  }

  /** `Math.round(v * 100) / 100` on a value of `x / 100` units is the cent
      nearest to `x`, halves rounded towards positive infinity. */
  function RoundHalfUp(x: real): (r: int)
    ensures x - 0.5 < r as real <= x + 0.5
  {
    (x + 0.5).Floor
  }

  /** Rounding a whole number of cents changes nothing. */
  lemma RoundWholeCents(n: int)
    ensures RoundHalfUp(n as real) == n
  {
  }

  /** Sum of the amounts of a list of splits (`splits.reduce`). */
  function SplitSum(splits: seq<Split>): int
  {
    if splits == [] then 0 else SplitSum(splits[..|splits| - 1]) + splits[|splits| - 1].amount
  }

  /** Replacing one split's amount moves the sum by the difference. */
  lemma {:induction false} SplitSumUpdate(splits: seq<Split>, k: nat, x: Split)
    requires k < |splits|
    ensures SplitSum(splits[k := x]) == SplitSum(splits) - splits[k].amount + x.amount
  {
    var n := |splits|;
    var t := splits[k := x];
    if k == n - 1 {
      assert t[..n - 1] == splits[..n - 1];
    } else {
      assert t[..n - 1] == splits[..n - 1][k := x];
      SplitSumUpdate(splits[..n - 1], k, x);
    }
  }

  /** Sum of the net balances of a list of balances. */
  function NetSum(bs: seq<Balance>): int
  {
    if bs == [] then 0 else NetSum(bs[..|bs| - 1]) + bs[|bs| - 1].netBalance
  }

  lemma {:induction false} NetSumUpdate(bs: seq<Balance>, k: nat, x: Balance)
    requires k < |bs|
    ensures NetSum(bs[k := x]) == NetSum(bs) - bs[k].netBalance + x.netBalance
  {
    var n := |bs|;
    var t := bs[k := x];
    if k == n - 1 {
      assert t[..n - 1] == bs[..n - 1];
    } else {
      assert t[..n - 1] == bs[..n - 1][k := x];
      NetSumUpdate(bs[..n - 1], k, x);
    }
  }

  lemma {:induction false} NetSumAppend(bs: seq<Balance>, cs: seq<Balance>)
    ensures NetSum(bs + cs) == NetSum(bs) + NetSum(cs)
  {
    if cs != [] {
      var n := |cs|;
      assert (bs + cs)[..|bs + cs| - 1] == bs + cs[..n - 1];
      NetSumAppend(bs, cs[..n - 1]);
    } else {
      assert bs + cs == bs;
    }
  }

  /** No two balances of the list name the same participant. */
  predicate DistinctIds(bs: seq<Balance>)
  {
    forall p, q :: 0 <= p < q < |bs| ==> bs[p].participantId != bs[q].participantId
  }

  lemma DistinctPrefix(bs: seq<Balance>, n: nat)
    requires n <= |bs| && DistinctIds(bs)
    ensures DistinctIds(bs[..n])
  {
    assert forall k :: 0 <= k < n ==> bs[..n][k] == bs[k];
  }

  /** A balance whose participant is new to a list can join it at either end. */
  lemma DistinctAppend(bs: seq<Balance>, x: Balance)
    requires DistinctIds(bs)
    requires forall k :: 0 <= k < |bs| ==> bs[k].participantId != x.participantId
    ensures DistinctIds(bs + [x])
  {
    var r := bs + [x];
    forall p, q | 0 <= p < q < |r| ensures r[p].participantId != r[q].participantId {
      assert r[p] == bs[p];
      if q < |bs| {
        assert r[q] == bs[q];
      }
    }
  }

  lemma DistinctPrepend(x: Balance, bs: seq<Balance>)
    requires DistinctIds(bs)
    requires forall k :: 0 <= k < |bs| ==> bs[k].participantId != x.participantId
    ensures DistinctIds([x] + bs)
  {
    var r := [x] + bs;
    forall p, q | 0 <= p < q < |r| ensures r[p].participantId != r[q].participantId {
      assert r[q] == bs[q - 1];
      if p > 0 {
        assert r[p] == bs[p - 1];
      }
    }
  }
}
