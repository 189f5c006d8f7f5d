/** Several limits filled one after the other over the same points (diploma/grade.py). */
module SuccessiveLimits {
  import opened Common
  import opened Sums
  import opened Padding

  predicate LimitRows(ls: seq<seq<int>>, n: nat) {
    forall s | 0 <= s < |ls| :: |ls[s]| == n && NonNegative(ls[s])
  }

  /**
   The points that places j and up must hold for a whole sequence of limits, filled in turn
   over the same dictionary, to succeed: the dearest way to walk from place j to the end,
   paying the limit of each place by the current limit row and changing to the next row at
   any place.
   */
  function Need(ls: seq<seq<int>>, n: nat, j: nat): (need: int)
    requires j <= n && forall s | 0 <= s < |ls| :: |ls[s]| == n
    decreases |ls|, n - j
  {
    if ls == [] || j == n then 0
    else Max(Need(ls[1..], n, j), ls[0][j] + Need(ls, n, j + 1))
  }

  /** The largest of the limits' own suffix sums. */
  function Peak(ls: seq<seq<int>>, n: nat, j: nat): int
    requires j <= n && forall s | 0 <= s < |ls| :: |ls[s]| == n
  {
    if ls == [] then 0 else Max(Sum(ls[0][j..]), Peak(ls[1..], n, j))
  }

  /** x holds what the whole sequence of limits needs. */
  ghost predicate Affords(x: seq<int>, ls: seq<seq<int>>)
    requires LimitRows(ls, |x|)
  {
    forall j | 0 <= j <= |x| :: Need(ls, |x|, j) <= Sum(x[j..])
  }

  lemma {:induction false} NeedStay(ls: seq<seq<int>>, n: nat, j: nat, k: nat)
    requires LimitRows(ls, n) && ls != [] && j <= k <= n
    ensures Sum(ls[0][j..k]) + Need(ls[1..], n, k) <= Need(ls, n, j)
    decreases k - j
  {
    if j < k {
      NeedStay(ls, n, j + 1, k);
      assert ls[0][j..k][1..] == ls[0][j + 1..k];
    }
  }

  lemma {:induction false} NeedTurn(ls: seq<seq<int>>, n: nat, j: nat) returns (k: nat)
    requires LimitRows(ls, n) && ls != [] && j <= n
    ensures j <= k <= n && Sum(ls[0][j..k]) + Need(ls[1..], n, k) == Need(ls, n, j)
    decreases n - j
  {
    if j == n || Need(ls, n, j) == Need(ls[1..], n, j) {
      k := j;
    } else {
      k := NeedTurn(ls, n, j + 1);
      assert ls[0][j..k][1..] == ls[0][j + 1..k];
    }
  }

  /** Filling the first limit and then affording the rest is affording them all. */
  lemma {:induction false} AffordsStep(x: seq<int>, ls: seq<seq<int>>)
    requires NonNegative(x) && LimitRows(ls, |x|) && ls != []
    ensures Affords(x, ls) <==> Pad(x, ls[0]).Some? && Affords(Pad(x, ls[0]).value, ls[1..])
  {
    var n, l := |x|, ls[0];
    PadSucceedsIff(x, l);
    if Affords(x, ls) {
      forall j | 0 <= j <= n
        ensures Sum(l[j..]) <= Sum(x[j..])
      {
        NeedStay(ls, n, j, n);
        assert l[j..n] == l[j..];
        assert Need(ls, n, j) <= Sum(x[j..]);
      }
      forall k | 0 <= k <= n
        ensures Need(ls[1..], n, k) <= Sum(Pad(x, l).value[k..])
      {
        var b := Need(ls[1..], n, k);
        forall j | 0 <= j <= k
          ensures CanKeep(x, l, j, k, b)
        {
          NeedStay(ls, n, j, k);
          assert Need(ls, n, j) <= Sum(x[j..]);
        }
        PadLeaves(x, l, k, b);
      }
    }
    if Pad(x, l).Some? && Affords(Pad(x, l).value, ls[1..]) {
      forall j | 0 <= j <= n
        ensures Need(ls, n, j) <= Sum(x[j..])
      {
        var k := NeedTurn(ls, n, j);
        var b := Need(ls[1..], n, k);
        assert b <= Sum(Pad(x, l).value[k..]);
        PadLeaves(x, l, k, b);
        assert CanKeep(x, l, j, k, b);
      }
    }
  }

  lemma AffordsNothing(x: seq<int>)
    requires NonNegative(x)
    ensures Affords(x, [])
  {
    forall j | 0 <= j <= |x|
      ensures 0 <= Sum(x[j..])
    {
      SuffixSumShrinks(x, j);
    }
  }

  /** The limits filled one after the other, each over what the one before it left. */
  function PadAll(x: seq<int>, ls: seq<seq<int>>): (r: Option<seq<int>>)
    requires NonNegative(x) && LimitRows(ls, |x|)
    decreases |ls|
  {
    if ls == [] then Some(x)
    else
      match Pad(x, ls[0])
      case None => None
      case Some(y) => PadAll(y, ls[1..])
  }

  /** A whole sequence of limits succeeds exactly when the points afford its dearest walks. */
  lemma {:induction false} AffordsExactly(x: seq<int>, ls: seq<seq<int>>)
    requires NonNegative(x) && LimitRows(ls, |x|)
    ensures PadAll(x, ls).Some? <==> Affords(x, ls)
    decreases |ls|
  {
    if ls == [] {
      AffordsNothing(x);
    } else {
      AffordsStep(x, ls);
      if Pad(x, ls[0]).Some? {
        AffordsExactly(Pad(x, ls[0]).value, ls[1..]);
      }
    }
  }

  lemma {:induction false} NeedCoversEach(ls: seq<seq<int>>, n: nat, s: nat, j: nat)
    requires LimitRows(ls, n) && s < |ls| && j <= n
    ensures Sum(ls[s][j..]) <= Need(ls, n, j)
  {
    if s == 0 {
      NeedStay(ls, n, j, n);
      assert ls[0][j..n] == ls[0][j..];
    } else {
      NeedCoversEach(ls[1..], n, s - 1, j);
      NeedStay(ls, n, j, j);
      assert ls[0][j..j] == [];
    }
  }

  /** Limits that never decrease, place by place. */
  ghost predicate Rising(ls: seq<seq<int>>, n: nat)
    requires LimitRows(ls, n)
  {
    forall s, t, i | 0 <= s <= t < |ls| && 0 <= i < n :: ls[s][i] <= ls[t][i]
  }

  lemma {:induction false} RisingNeed(ls: seq<seq<int>>, n: nat, j: nat)
    requires LimitRows(ls, n) && Rising(ls, n) && ls != [] && j <= n
    ensures Need(ls, n, j) == Sum(ls[|ls| - 1][j..])
    decreases |ls|, n - j
  {
    var last := ls[|ls| - 1];
    if j < n {
      RisingNeed(ls, n, j + 1);
      assert ls[0][j] <= last[j];
      assert last[j..][1..] == last[j + 1..];
      if |ls| > 1 {
        assert ls[1..][|ls| - 2] == last;
        RisingNeed(ls[1..], n, j);
      } else {
        SuffixSumShrinks(last[j..], 0);
        assert last[j..][0..] == last[j..];
      }
    }
  }

  // ----- The largest single limit ------------------------------------------------------------------

  lemma {:induction false} PeakCoversEach(ls: seq<seq<int>>, n: nat, s: nat, j: nat)
    requires LimitRows(ls, n) && s < |ls| && j <= n
    ensures Sum(ls[s][j..]) <= Peak(ls, n, j)
  {
    if s > 0 {
      PeakCoversEach(ls[1..], n, s - 1, j);
    }
  }

  lemma {:induction false} PeakWithin(ls: seq<seq<int>>, n: nat, j: nat, b: int)
    requires LimitRows(ls, n) && j <= n && 0 <= b
    requires forall s | 0 <= s < |ls| :: Sum(ls[s][j..]) <= b
    ensures Peak(ls, n, j) <= b
  {
    if ls != [] {
      PeakWithin(ls[1..], n, j, b);
    }
  }

  lemma {:induction false} PeakFalls(ls: seq<seq<int>>, n: nat, j: nat)
    requires LimitRows(ls, n) && j < n
    ensures Peak(ls, n, j + 1) <= Peak(ls, n, j) && Peak(ls, n, n) == 0
  {
    if ls != [] {
      PeakFalls(ls[1..], n, j);
      assert ls[0][j..][1..] == ls[0][j + 1..] && ls[0][n..] == [];
    }
  }

  /** The points whose suffix sums are the peaks: the least that cover every limit alone. */
  ghost function PeakRow(ls: seq<seq<int>>, n: nat, j: nat): (x: seq<int>)
    requires LimitRows(ls, n) && j <= n
    ensures |x| == n - j && NonNegative(x) && Sum(x) == Peak(ls, n, j)
    decreases n - j
  {
    if j == n then
      PeakWithin(ls, n, n, 0);
      PeakNonNegative(ls, n, n);
      []
    else
      PeakFalls(ls, n, j);
      var rest := PeakRow(ls, n, j + 1);
      assert ([Peak(ls, n, j) - Peak(ls, n, j + 1)] + rest)[1..] == rest;
      [Peak(ls, n, j) - Peak(ls, n, j + 1)] + rest
  }

  lemma {:induction false} PeakNonNegative(ls: seq<seq<int>>, n: nat, j: nat)
    requires LimitRows(ls, n) && j <= n
    ensures 0 <= Peak(ls, n, j)
  {
    if ls != [] {
      PeakNonNegative(ls[1..], n, j);
    }
  }

  lemma {:induction false} PeakRowSuffix(ls: seq<seq<int>>, n: nat, j: nat, k: nat)
    requires LimitRows(ls, n) && j <= k <= n
    ensures Sum(PeakRow(ls, n, j)[k - j..]) == Peak(ls, n, k)
    decreases k - j
  {
    var x := PeakRow(ls, n, j);
    if j == k {
      assert x[0..] == x;
    } else {
      PeakRowSuffix(ls, n, j + 1, k);
      assert x[k - j..] == PeakRow(ls, n, j + 1)[k - j - 1..];
    }
  }

  lemma PeakRowWhole(ls: seq<seq<int>>, n: nat, k: nat)
    requires LimitRows(ls, n) && k <= n
    ensures Sum(PeakRow(ls, n, 0)[k..]) == Peak(ls, n, k)
  {
    PeakRowSuffix(ls, n, 0, k);
  }

  /** No walk that changes limit on the way asks for more than the largest limit itself. */
  ghost predicate NoDearWalk(ls: seq<seq<int>>, n: nat)
    requires LimitRows(ls, n)
  {
    forall j | 0 <= j <= n :: Need(ls, n, j) <= Peak(ls, n, j)
  }

  lemma PeakRowFails(ls: seq<seq<int>>, n: nat)
    requires LimitRows(ls, n) && !NoDearWalk(ls, n)
    ensures !Affords(PeakRow(ls, n, 0), ls)
  {
    var x := PeakRow(ls, n, 0);
    if Affords(x, ls) {
      forall j | 0 <= j <= n
        ensures Need(ls, n, j) <= Peak(ls, n, j)
      {
        PeakRowWhole(ls, n, j);
        assert Need(ls, n, j) <= Sum(x[j..]);
      }
    }
  }

  lemma RisingHasNoDearWalk(ls: seq<seq<int>>, n: nat)
    requires LimitRows(ls, n) && Rising(ls, n)
    ensures NoDearWalk(ls, n)
  {
    forall j | 0 <= j <= n
      ensures Need(ls, n, j) <= Peak(ls, n, j)
    {
      if ls != [] {
        RisingNeed(ls, n, j);
        PeakCoversEach(ls, n, |ls| - 1, j);
      }
    }
  }

  /**
   Limits that do decrease can fail a student who covers each of them: filling the first
   place for [10, 0] empties the second, for which [0, 10] then asks.
   */
  lemma CarryingCanHarm()
    ensures Covers([0, 10], [10, 0]) && Covers([0, 10], [0, 10])
    ensures Pad([0, 10], [10, 0]) == Some([10, 0]) && Pad([10, 0], [0, 10]) == None
    ensures !NoDearWalk([[10, 0], [0, 10]], 2)
  {
    var x, l, ls := [0, 10], [10, 0], [[10, 0], [0, 10]];
    forall k | 0 <= k <= 2
      ensures Sum(l[k..]) <= Sum(x[k..])
    {
      SumOfTwo(l, k);
      SumOfTwo(x, k);
    }
    assert x[1..] == [10] && Drain([10], 10) == [0] && l[1..] == [0];
    assert Sum([10]) == 10 && Pad([0], [0]) == Some([0]) && [10] + [0] == l;
    assert l[1..] == [0] && x[1..] == [10] && Sum([0]) == 0 && Drain([0], 0) == [0];
    assert Pad([0], [10]) == None;
    SumOfTwo(l, 0);
    SumOfTwo(x, 0);
    assert ls[1..] == [x] && Need([x], 2, 1) == 10 && Need(ls, 2, 1) >= 10 && Need(ls, 2, 0) >= 20;
    assert l[0..] == l && x[0..] == x && Peak([x], 2, 0) == 10 && Peak(ls, 2, 0) == 10;
  }

  lemma SumOfTwo(l: seq<int>, k: nat)
    requires |l| == 2 && k <= 2
    ensures Sum(l[k..]) == if k == 0 then l[0] + l[1] else if k == 1 then l[1] else 0
  {
    assert l[0..] == l && l[1..] == [l[1]] && l[2..] == [];
    assert Sum([l[1]]) == l[1];
    assert Sum(l) == l[0] + Sum(l[1..]);
  }
}
