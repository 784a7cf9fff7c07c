/** The ordering step of settlement planning: balances sorted by net
    balance, largest first, with equal balances kept in their input order
    (the comparator `b.netBalance - a.netBalance` under a stable sort). */
module StableSort {
  import opened Ledger

  predicate SortedDesc(s: seq<Balance>)
  {
    forall p, q :: 0 <= p < q < |s| ==> s[p].netBalance >= s[q].netBalance
  }

  /** Puts `x` after every leading element whose balance is at least its own. */
  function Insert(x: Balance, s: seq<Balance>): seq<Balance>
  {
    if s == [] then [x]
    else if s[0].netBalance >= x.netBalance then [s[0]] + Insert(x, s[1..])
    else [x] + s
  }

  /** Stable insertion sort, descending by net balance: each element in turn
      is inserted behind the ones before it that are at least as large. */
  function SortDesc(s: seq<Balance>): seq<Balance>
  {
    if s == [] then [] else Insert(s[|s| - 1], SortDesc(s[..|s| - 1]))
  }

  /** The elements of `s` with balance `v`, in order. */
  function WithBalance(s: seq<Balance>, v: int): seq<Balance>
  {
    if s == [] then [] else (if s[0].netBalance == v then [s[0]] else []) + WithBalance(s[1..], v)
  }

  lemma {:induction false} InsertElements(x: Balance, s: seq<Balance>)
    ensures multiset(Insert(x, s)) == multiset(s) + multiset{x}
  {
    if s != [] && s[0].netBalance >= x.netBalance {
      InsertElements(x, s[1..]);
      assert s == [s[0]] + s[1..];
    }
  }

  lemma {:induction false} InsertSorted(x: Balance, s: seq<Balance>)
    requires SortedDesc(s)
    ensures SortedDesc(Insert(x, s))
  {
    if s != [] && s[0].netBalance >= x.netBalance {
      var rest := Insert(x, s[1..]);
      InsertSorted(x, s[1..]);
      InsertElements(x, s[1..]);
      forall q | 0 <= q < |rest| ensures s[0].netBalance >= rest[q].netBalance {
        assert rest[q] in multiset(rest);
        assert rest[q] == x || rest[q] in s[1..];
      }
    }
  }

  lemma {:induction false} WithBalanceAppend(s: seq<Balance>, t: seq<Balance>, v: int)
    ensures WithBalance(s + t, v) == WithBalance(s, v) + WithBalance(t, v)
  {
    if s != [] {
      assert (s + t)[1..] == s[1..] + t;
      WithBalanceAppend(s[1..], t, v);
    } else {
      assert s + t == t;
    }
  }

  lemma {:induction false} WithBalanceNone(s: seq<Balance>, v: int)
    requires forall k :: 0 <= k < |s| ==> s[k].netBalance < v
    ensures WithBalance(s, v) == []
  {
    if s != [] {
      WithBalanceNone(s[1..], v);
    }
  }

  lemma {:induction false} InsertStable(x: Balance, s: seq<Balance>, v: int)
    requires SortedDesc(s)
    ensures WithBalance(Insert(x, s), v) == WithBalance(s, v) + (if x.netBalance == v then [x] else [])
  {
    var mine := if x.netBalance == v then [x] else [];
    if s == [] {
      assert Insert(x, s) == [x];
      assert WithBalance([x], v) == mine + WithBalance([], v);
    } else if s[0].netBalance >= x.netBalance {
      var head := if s[0].netBalance == v then [s[0]] else [];
      InsertStable(x, s[1..], v);
      var t := Insert(x, s[1..]);
      assert Insert(x, s) == [s[0]] + t;
      assert ([s[0]] + t)[1..] == t;
      assert WithBalance([s[0]] + t, v) == head + WithBalance(t, v);
      assert WithBalance(s, v) == head + WithBalance(s[1..], v);
      assert head + (WithBalance(s[1..], v) + mine) == (head + WithBalance(s[1..], v)) + mine;
    } else {
      if x.netBalance == v {
        WithBalanceNone(s, v);
      }
      assert Insert(x, s) == [x] + s;
      assert ([x] + s)[1..] == s;
      assert WithBalance([x] + s, v) == mine + WithBalance(s, v);
    }
  }

  /** The sort is a permutation. */
  lemma {:induction false} SortDescPermutes(s: seq<Balance>)
    ensures multiset(SortDesc(s)) == multiset(s)
  {
    if s != [] {
      var n := |s|;
      SortDescPermutes(s[..n - 1]);
      InsertElements(s[n - 1], SortDesc(s[..n - 1]));
      assert s == s[..n - 1] + [s[n - 1]];
    }
  }

  /** The sort orders by balance, largest first. */
  lemma {:induction false} SortDescSorted(s: seq<Balance>)
    ensures SortedDesc(SortDesc(s))
  {
    if s != [] {
      SortDescSorted(s[..|s| - 1]);
      InsertSorted(s[|s| - 1], SortDesc(s[..|s| - 1]));
    }
  }

  /** The sort is stable: balances that tie keep their input order. */
  lemma {:induction false} SortDescStable(s: seq<Balance>, v: int)
    ensures WithBalance(SortDesc(s), v) == WithBalance(s, v)
  {
    if s != [] {
      var n := |s|;
      var init, x := s[..n - 1], s[n - 1];
      var sorted := SortDesc(init);
      var mine := if x.netBalance == v then [x] else [];
      SortDescSorted(init);
      SortDescStable(init, v);
      InsertStable(x, sorted, v);
      assert SortDesc(s) == Insert(x, sorted);
      assert WithBalance(SortDesc(s), v) == WithBalance(init, v) + mine;
      assert s == init + [x];
      WithBalanceAppend(init, [x], v);
      assert WithBalance([x], v) == mine + WithBalance([], v);
    }
  }

  lemma {:induction false} InsertNetSum(x: Balance, s: seq<Balance>)
    ensures NetSum(Insert(x, s)) == NetSum(s) + x.netBalance
  {
    if s == [] {
      assert NetSum([x]) == NetSum([]) + x.netBalance;
    } else if s[0].netBalance >= x.netBalance {
      InsertNetSum(x, s[1..]);
      NetSumAppend([s[0]], Insert(x, s[1..]));
      NetSumAppend([s[0]], s[1..]);
      assert [s[0]] + s[1..] == s;
      assert NetSum([s[0]]) == NetSum([]) + s[0].netBalance;
    } else {
      NetSumAppend([x], s);
      assert NetSum([x]) == NetSum([]) + x.netBalance;
    }
  }

  lemma {:induction false} SortDescNetSum(s: seq<Balance>)
    ensures NetSum(SortDesc(s)) == NetSum(s)
  {
    if s != [] {
      SortDescNetSum(s[..|s| - 1]);
      InsertNetSum(s[|s| - 1], SortDesc(s[..|s| - 1]));
    }
  }

  lemma {:induction false} InsertDistinct(x: Balance, s: seq<Balance>)
    requires DistinctIds(s)
    requires forall k :: 0 <= k < |s| ==> s[k].participantId != x.participantId
    ensures DistinctIds(Insert(x, s))
  {
    if s != [] && s[0].netBalance >= x.netBalance {
      var rest := Insert(x, s[1..]);
      assert DistinctIds(s[1..]);
      InsertDistinct(x, s[1..]);
      InsertElements(x, s[1..]);
      forall q | 0 <= q < |rest| ensures rest[q].participantId != s[0].participantId {
        assert rest[q] in multiset(rest);
        assert rest[q] == x || rest[q] in s[1..];
      }
      DistinctPrepend(s[0], rest);
    } else if s != [] {
      DistinctPrepend(x, s);
    }
  }

  lemma SortDescMembers(s: seq<Balance>)
    ensures forall b :: b in SortDesc(s) <==> b in s
  {
    SortDescPermutes(s);
    forall b ensures b in SortDesc(s) <==> b in s {
      assert b in SortDesc(s) <==> b in multiset(SortDesc(s));
      assert b in s <==> b in multiset(s);
    }
  }

  /** A participant absent from a list is absent from its sorted form. */
  lemma AbsentFromSorted(s: seq<Balance>, x: Balance)
    requires forall k :: 0 <= k < |s| ==> s[k].participantId != x.participantId
    ensures forall k :: 0 <= k < |SortDesc(s)| ==> SortDesc(s)[k].participantId != x.participantId
  {
    var sorted := SortDesc(s);
    SortDescMembers(s);
    forall k | 0 <= k < |sorted| ensures sorted[k].participantId != x.participantId {
      assert sorted[k] in sorted;
      var p :| 0 <= p < |s| && s[p] == sorted[k];
    }
  }

  /** Sorting keeps participant ids distinct. */
  lemma {:induction false} SortDescDistinct(s: seq<Balance>)
    requires DistinctIds(s)
    ensures DistinctIds(SortDesc(s))
  {
    if s != [] {
      var n := |s|;
      var init := s[..n - 1];
      assert DistinctIds(init);
      SortDescDistinct(init);
      assert forall k :: 0 <= k < |init| ==> init[k] == s[k];
      AbsentFromSorted(init, s[n - 1]);
      InsertDistinct(s[n - 1], SortDesc(init));
    }
  }

  /** An in-place insertion into a sorted prefix lands where `Insert` puts it. */
  lemma {:induction false} InsertAt(x: Balance, s: seq<Balance>, j: nat)
    requires SortedDesc(s)
    requires j <= |s|
    requires j > 0 ==> s[j - 1].netBalance >= x.netBalance
    requires forall k :: j <= k < |s| ==> s[k].netBalance < x.netBalance
    ensures Insert(x, s) == s[..j] + [x] + s[j..]
  {
    if j > 0 {
      assert s[0].netBalance >= s[j - 1].netBalance;
      InsertAt(x, s[1..], j - 1);
      assert s[1..][..j - 1] == s[1..j];
      assert s[1..][j - 1..] == s[j..];
      assert s[..j] == [s[0]] + s[1..j];
    } else if s != [] {
      assert s[0].netBalance < x.netBalance;
    }
  }

  /** Swapping `x` with its left neighbour moves it one place left. */
  lemma SwapLeft(sorted: seq<Balance>, x: Balance, rest: seq<Balance>, j: nat)
    requires 0 < j <= |sorted|
    ensures (sorted[..j] + [x] + sorted[j..] + rest)[j - 1 := x][j := sorted[j - 1]]
            == sorted[..j - 1] + [x] + sorted[j - 1..] + rest
  {
    var before := sorted[..j] + [x] + sorted[j..] + rest;
    var after := sorted[..j - 1] + [x] + sorted[j - 1..] + rest;
    assert |before| == |after|;
    forall k | 0 <= k < |after| ensures before[j - 1 := x][j := sorted[j - 1]][k] == after[k] {
      if k < j - 1 {
        assert before[k] == sorted[k] && after[k] == sorted[k];
      } else if j < k <= |sorted| {
        assert before[k] == sorted[k - 1] && after[k] == sorted[k - 1];
      } else if k > |sorted| {
        assert before[k] == rest[k - |sorted| - 1] && after[k] == rest[k - |sorted| - 1];
      }
    }
  }

  /** One insertion step: `a[i]` is swapped left past the smaller balances
      of the sorted prefix `a[..i]`. */
  method InsertInPlace(a: array<Balance>, i: nat)
    requires i < a.Length
    requires SortedDesc(a[..i])
    modifies a
    ensures a[..i + 1] == Insert(old(a[i]), old(a[..i]))
    ensures a[i + 1..] == old(a[i + 1..])
  {
    ghost var sorted, rest := a[..i], a[i + 1..];
    var x := a[i];
    var j := i;
    assert a[..] == sorted[..j] + [x] + sorted[j..] + rest;
    while j > 0 && a[j - 1].netBalance < x.netBalance
      invariant 0 <= j <= i
      invariant a[..] == sorted[..j] + [x] + sorted[j..] + rest
      invariant forall k :: j <= k < i ==> sorted[k].netBalance < x.netBalance
    {
      assert a[j - 1] == sorted[j - 1] && a[j] == x;
      assert sorted[j - 1].netBalance < x.netBalance;
      SwapLeft(sorted, x, rest, j);
      a[j - 1], a[j] := a[j], a[j - 1];
      j := j - 1;
    }
    assert j > 0 ==> a[j - 1] == sorted[j - 1];
    InsertAt(x, sorted, j);
    assert a[..] == Insert(x, sorted) + rest;
  }

  /** The sort on the copied array, in place. */
  method SortInPlace(a: array<Balance>)
    modifies a
    ensures a[..] == SortDesc(old(a[..]))
  {
    ghost var input := a[..];
    var i := 0;
    while i < a.Length
      invariant 0 <= i <= a.Length
      invariant a[..i] == SortDesc(input[..i])
      invariant a[i..] == input[i..]
    {
      SortDescSorted(input[..i]);
      assert a[i] == input[i];
      InsertInPlace(a, i);
      assert input[..i + 1][..i] == input[..i];
      i := i + 1;
    }
    assert a[..] == a[..i] && input[..i] == input;
  }
}
