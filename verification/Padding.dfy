/**
 Filling limits by moving points towards the front of a sequence: the arithmetic of diploma
 padding (diploma/grade.py).
 */
module Padding {
  import opened Common
  import opened Sums

  predicate NonNegative(x: seq<int>) {
    forall i | 0 <= i < |x| :: 0 <= x[i]
  }

  /** Take n points from the front of x, each place in full before the next. */
  function Drain(x: seq<int>, n: nat): (y: seq<int>)
    requires NonNegative(x)
    ensures |y| == |x| && NonNegative(y)
  {
    if x == [] then []
    else if n < x[0] then [x[0] - n] + x[1..]
    else [0] + Drain(x[1..], n - x[0])
  }

  /** How many points are missing from a limit. */
  function Shortfall(x: int, l: int): nat {
    if x < l then l - x else 0
  }

  /**
   Fill each place of x up to its limit from the places after it, nearest first; `None`
   when some place cannot be filled.
   */
  function Pad(x: seq<int>, l: seq<int>): (r: Option<seq<int>>)
    requires |x| == |l| && NonNegative(x)
    ensures r.Some? ==> |r.value| == |x| && NonNegative(r.value)
    decreases |x|
  {
    if x == [] then Some([])
    else
      var need := Shortfall(x[0], l[0]);
      if Sum(x[1..]) < need then None
      else
        match Pad(Drain(x[1..], need), l[1..])
        case None => None
        case Some(y) => Some([x[0] + need] + y)
  }

  /** Every suffix of x holds at least as many points as the same suffix of l asks for. */
  ghost predicate Covers(x: seq<int>, l: seq<int>)
    requires |x| == |l|
  {
    forall k | 0 <= k <= |x| :: Sum(l[k..]) <= Sum(x[k..])
  }

  // ----- When filling succeeds ---------------------------------------------------------------------

  lemma SuffixOfTail<T>(s: seq<T>, k: nat)
    requires 0 < k <= |s|
    ensures s[k..] == s[1..][k - 1..]
  {
  }

  /** What Drain leaves behind the first place. */
  lemma DrainTail(x: seq<int>, n: nat)
    requires x != [] && NonNegative(x)
    ensures Drain(x, n)[1..] == if n < x[0] then x[1..] else Drain(x[1..], n - x[0])
  {
  }

  lemma {:induction false} DrainSum(x: seq<int>, n: nat)
    requires NonNegative(x) && n <= Sum(x)
    ensures Sum(Drain(x, n)) == Sum(x) - n
  {
    if x != [] {
      DrainTail(x, n);
      if x[0] <= n {
        DrainSum(x[1..], n - x[0]);
      }
    }
  }

  lemma {:induction false} DrainSuffix(x: seq<int>, n: nat, k: nat)
    requires NonNegative(x) && n <= Sum(x) && k <= |x|
    ensures Sum(Drain(x, n)[k..]) == if Sum(x) - n < Sum(x[k..]) then Sum(x) - n else Sum(x[k..])
    decreases k
  {
    if k == 0 {
      DrainSum(x, n);
      assert x[0..] == x && Drain(x, n)[0..] == Drain(x, n);
    } else {
      DrainTail(x, n);
      SuffixOfTail(x, k);
      SuffixOfTail(Drain(x, n), k);
      if n < x[0] {
        SuffixSumShrinks(x[1..], k - 1);
      } else {
        DrainSuffix(x[1..], n - x[0], k - 1);
      }
    }
  }

  lemma {:induction false} SuffixSumShrinks(x: seq<int>, k: nat)
    requires NonNegative(x) && k <= |x|
    ensures 0 <= Sum(x[k..]) <= Sum(x)
    decreases |x|
  {
    if x == [] {
    } else if k == 0 {
      assert x[0..] == x;
      SuffixSumShrinks(x[1..], 0);
      assert x[1..][0..] == x[1..];
    } else {
      SuffixSumShrinks(x[1..], k - 1);
      assert x[1..][k - 1..] == x[k..];
    }
  }

  /** Filling succeeds exactly when every suffix holds enough points. */
  lemma {:induction false} PadSucceedsIff(x: seq<int>, l: seq<int>)
    requires |x| == |l| && NonNegative(x) && NonNegative(l)
    ensures Pad(x, l).Some? <==> Covers(x, l)
    decreases |x|
  {
    if x == [] {
      assert x[0..] == [] && l[0..] == [];
    } else {
      var need, r, m := Shortfall(x[0], l[0]), x[1..], l[1..];
      assert x[0..] == x && l[0..] == l && r[0..] == r && m[0..] == m;
      forall k | 1 <= k <= |x|
        ensures x[k..] == r[k - 1..] && l[k..] == m[k - 1..] && Sum(m[k - 1..]) <= Sum(m)
      {
        SuffixSumShrinks(m, k - 1);
      }
      if Sum(r) < need {
        SuffixSumShrinks(m, 0);
        SuffixSumShrinks(r, 0);
        assert !(Sum(l[0..]) <= Sum(x[0..]));
      } else {
        var z := Drain(r, need);
        PadSucceedsIff(z, m);
        forall k | 0 <= k <= |r|
          ensures Sum(z[k..]) == if Sum(r) - need < Sum(r[k..]) then Sum(r) - need else Sum(r[k..])
        {
          DrainSuffix(r, need, k);
        }
        if Covers(z, m) {
          assert Sum(m[0..]) <= Sum(z[0..]);
          forall k | 0 <= k <= |x|
            ensures Sum(l[k..]) <= Sum(x[k..])
          {
            if k > 0 {
              assert Sum(m[k - 1..]) <= Sum(z[k - 1..]);
            }
          }
        }
        if Covers(x, l) {
          forall k | 0 <= k <= |r|
            ensures Sum(m[k..]) <= Sum(z[k..])
          {
            assert Sum(l[0..]) <= Sum(x[0..]) && Sum(l[1..]) <= Sum(x[1..]);
            assert Sum(l[k + 1..]) <= Sum(x[k + 1..]);
          }
        }
      }
    }
  }

  /** Padding only moves points. */
  lemma {:induction false} PadConserves(x: seq<int>, l: seq<int>)
    requires |x| == |l| && NonNegative(x) && Pad(x, l).Some?
    ensures Sum(Pad(x, l).value) == Sum(x)
    decreases |x|
  {
    if x != [] {
      var need := Shortfall(x[0], l[0]);
      var z := Drain(x[1..], need);
      DrainSuffix(x[1..], need, 0);
      assert z[0..] == z && x[1..][0..] == x[1..];
      PadConserves(z, l[1..]);
      var y := Pad(z, l[1..]).value;
      assert ([x[0] + need] + y)[1..] == y;
    }
  }

  // ----- What filling leaves -----------------------------------------------------------------------

  /** One step of the filling, seen from the suffixes: what the drained rest must still hold. */
  lemma {:induction false} DrainLeaves(x: seq<int>, l: seq<int>, j: nat, k: nat, b: int)
    requires 0 < |x| == |l| && NonNegative(x) && NonNegative(l) && j < k <= |x|
    requires Shortfall(x[0], l[0]) <= Sum(x[1..])
    ensures b + Sum(l[j + 1..k]) <= Sum(Drain(x[1..], Shortfall(x[0], l[0]))[j..]) <==>
            b + Sum(l[j + 1..k]) <= Sum(x[j + 1..]) &&
            b + Sum(l[j + 1..k]) <= Sum(x[1..]) - Shortfall(x[0], l[0])
    ensures Sum(l[j + 1..k]) <= Sum(l[1..k])
  {
    DrainSuffix(x[1..], Shortfall(x[0], l[0]), j);
    assert x[1..][j..] == x[j + 1..];
    SuffixSumShrinks(l[1..k], j);
    assert l[1..k][j..] == l[j + 1..k];
  }

  lemma SumFront(l: seq<int>, k: nat)
    requires 0 < k <= |l|
    ensures Sum(l[0..k]) == l[0] + Sum(l[1..k])
  {
    assert l[0..k][1..] == l[1..k];
  }

  /** Suffix j of x can pay for the limits from j up to k and keep b points. */
  ghost predicate CanKeep(x: seq<int>, l: seq<int>, j: nat, k: nat, b: int)
    requires |x| == |l| && j <= k <= |x|
  {
    b + Sum(l[j..k]) <= Sum(x[j..])
  }

  ghost predicate AllKeep(x: seq<int>, l: seq<int>, k: nat, b: int)
    requires |x| == |l| && k <= |x|
  {
    forall j | 0 <= j <= k :: CanKeep(x, l, j, k, b)
  }

  /**
   What is left after a limit has been filled: the k-th suffix still holds b points exactly
   when every earlier suffix could pay for the limits in between and keep b.
   */
  lemma {:induction false} PadLeaves(x: seq<int>, l: seq<int>, k: nat, b: int)
    requires |x| == |l| && NonNegative(x) && NonNegative(l) && Pad(x, l).Some? && k <= |x|
    ensures b <= Sum(Pad(x, l).value[k..]) <==> AllKeep(x, l, k, b)
    decreases |x|
  {
    var y := Pad(x, l).value;
    if k == 0 {
      PadConserves(x, l);
      assert y[0..] == y && x[0..] == x && l[0..0] == [];
      assert CanKeep(x, l, 0, 0, b) <==> b <= Sum(x);
    } else {
      var z := Drain(x[1..], Shortfall(x[0], l[0]));
      PadLeaves(z, l[1..], k - 1, b);
      assert y[k..] == Pad(z, l[1..]).value[k - 1..];
      PadLeavesStep(x, l, z, l[1..], k - 1, b);
    }
  }

  lemma {:induction false} PadLeavesStep(x: seq<int>, l: seq<int>, z: seq<int>, m: seq<int>, k: nat, b: int)
    requires 0 < |x| == |l| && NonNegative(x) && NonNegative(l) && k < |x|
    requires Shortfall(x[0], l[0]) <= Sum(x[1..])
    requires z == Drain(x[1..], Shortfall(x[0], l[0])) && m == l[1..]
    ensures AllKeep(z, m, k, b) <==> AllKeep(x, l, k + 1, b)
  {
    var h := k + 1;
    assert x[0..] == x;
    SumFront(l, h);
    forall j | 0 <= j <= k
      ensures CanKeep(z, m, j, k, b) <==>
              CanKeep(x, l, j + 1, h, b) && b + Sum(l[j + 1..h]) <= Sum(x[1..]) - Shortfall(x[0], l[0])
      ensures Sum(l[j + 1..h]) <= Sum(l[1..h])
    {
      DrainLeaves(x, l, j, h, b);
      assert m[j..k] == l[j + 1..h];
    }
    if AllKeep(z, m, k, b) {
      assert CanKeep(z, m, 0, k, b);
      forall j | 0 <= j <= h
        ensures CanKeep(x, l, j, h, b)
      {
        if j > 0 {
          assert CanKeep(z, m, j - 1, k, b);
        }
      }
    }
    if AllKeep(x, l, h, b) {
      assert CanKeep(x, l, 0, h, b) && CanKeep(x, l, 1, h, b);
    }
  }

  // ----- Filling place by place --------------------------------------------------------------------

  function Zeros(n: nat): seq<int> {
    seq(n, _ => 0)
  }

  /** Drain by place, when it comes to rest at place m (or takes everything, for m at the end). */
  lemma {:induction false} DrainAtPlace(x: seq<int>, m: nat, n: nat, h: nat)
    requires NonNegative(x) && m <= |x| && h < |x|
    requires Sum(x[..m]) <= n && (m < |x| ==> n < Sum(x[..m]) + x[m])
    ensures Drain(x, n)[h] == if h < m then 0 else if h == m then x[m] - (n - Sum(x[..m])) else x[h]
    decreases m
  {
    DrainIndex(x, n, h);
    if m > 0 {
      PrefixSum(x, m);
      if h > 0 {
        DrainAtPlace(x[1..], m - 1, n - x[0], h - 1);
      }
    }
  }

  lemma DrainIndex(x: seq<int>, n: nat, h: nat)
    requires NonNegative(x) && h < |x|
    ensures Drain(x, n)[h] == if h == 0 then (if n < x[0] then x[0] - n else 0)
                              else if n < x[0] then x[h] else Drain(x[1..], n - x[0])[h - 1]
  {
  }

  lemma PrefixSum(x: seq<int>, m: nat)
    requires NonNegative(x) && 0 < m <= |x|
    ensures Sum(x[..m]) == x[0] + Sum(x[1..][..m - 1]) && x[0] <= Sum(x[..m])
  {
    var front := x[1..][..m - 1];
    assert x[..m][1..] == front;
    SuffixSumShrinks(front, |front|);
  }

  lemma SumPush(s: seq<int>, i: nat, j: nat)
    requires i <= j < |s|
    ensures Sum(s[i..j + 1]) == Sum(s[i..j]) + s[j]
  {
    assert s[i..j + 1] == s[i..j] + [s[j]];
    SumConcat(s[i..j], [s[j]]);
  }

  /** The first place filled up to l from the places behind it, as far as they reach. */
  ghost function Filled(x: seq<int>, l: int): (y: seq<int>)
    requires x != [] && NonNegative(x) && x[0] <= l
    ensures |y| == |x|
  {
    var need, rest := l - x[0], x[1..];
    [x[0] + if Sum(rest) < need then Sum(rest) else need] + Drain(rest, need)
  }

  /** The row while the inner loop stands at j: the first place holds p, those up to j are empty. */
  ghost function Midway(x: seq<int>, p: int, j: nat): (y: seq<int>)
    requires 0 < j <= |x|
    ensures |y| == |x|
    ensures forall m | 0 <= m < |x| :: y[m] == if m == 0 then p else if m < j then 0 else x[m]
  {
    seq(|x|, m requires 0 <= m < |x| => if m == 0 then p else if m < j then 0 else x[m])
  }

  lemma MidwayStep(x: seq<int>, p: int, j: nat, q: int)
    requires 0 < j < |x|
    ensures Midway(x, p, j)[0 := q][j := 0] == Midway(x, q, j + 1)
  {
  }

  lemma {:induction false} DrainAt(x: seq<int>, m: nat, n: nat)
    requires NonNegative(x) && m < |x| && Sum(x[..m]) <= n < Sum(x[..m]) + x[m]
    ensures n <= Sum(x)
    ensures forall h | 0 <= h < |x| ::
              Drain(x, n)[h] == if h < m then 0 else if h == m then x[m] - (n - Sum(x[..m])) else x[h]
  {
    forall h | 0 <= h < |x|
      ensures Drain(x, n)[h] == if h < m then 0 else if h == m then x[m] - (n - Sum(x[..m])) else x[h]
    {
      DrainAtPlace(x, m, n, h);
    }
    SumConcat(x[..m], x[m..]);
    assert x == x[..m] + x[m..];
    SuffixSumShrinks(x[m..][1..], |x[m..][1..]|);
  }

  lemma {:induction false} DrainAll(x: seq<int>, n: nat)
    requires NonNegative(x) && Sum(x) <= n
    ensures Drain(x, n) == Zeros(|x|)
  {
    assert x[..|x|] == x;
    forall h | 0 <= h < |x|
      ensures Drain(x, n)[h] == 0
    {
      DrainAtPlace(x, |x|, n, h);
    }
  }

  lemma {:induction false} FilledAt(x: seq<int>, l: int, j: nat, p: int, q: int)
    requires 0 < j < |x| && NonNegative(x) && p == x[0] + Sum(x[1..j])
    requires x[0] <= l && p <= l < p + x[j] && q == x[j] - (l - p)
    ensures Midway(x, p, j)[j := q][0 := l] == Filled(x, l)
  {
    var rest := x[1..];
    assert rest[..j - 1] == x[1..j] && rest[j - 1] == x[j];
    DrainAt(rest, j - 1, l - x[0]);
  }

  lemma {:induction false} FilledAll(x: seq<int>, l: int)
    requires x != [] && NonNegative(x) && x[0] + Sum(x[1..]) <= l && x[0] <= l
    ensures Midway(x, x[0] + Sum(x[1..]), |x|) == Filled(x, l)
  {
    DrainAll(x[1..], l - x[0]);
  }

  lemma {:induction false} FilledConserves(x: seq<int>, l: int)
    requires x != [] && NonNegative(x) && x[0] <= l
    ensures Sum(Filled(x, l)) == Sum(x) && NonNegative(Filled(x, l))
    ensures Filled(x, l)[0] < l <==> Sum(x[1..]) < l - x[0]
  {
    var need, rest := l - x[0], x[1..];
    SuffixSumShrinks(rest, 0);
    assert rest[0..] == rest && Filled(x, l)[1..] == Drain(rest, need);
    if need <= Sum(rest) {
      DrainSuffix(rest, need, 0);
      assert Drain(rest, need)[0..] == Drain(rest, need);
    } else {
      DrainAll(rest, need);
      SumZeros(|rest|);
    }
  }

  lemma {:induction false} SumZeros(n: nat)
    ensures Sum(Zeros(n)) == 0
  {
    if n > 0 {
      SumZeros(n - 1);
      assert Zeros(n)[1..] == Zeros(n - 1);
    }
  }

  /** A result for the places behind a prefix, with the prefix put back. */
  ghost function Behind(prefix: seq<int>, r: Option<seq<int>>): Option<seq<int>> {
    match r
    case None => None
    case Some(y) => Some(prefix + y)
  }

  /** Borrowing for place i is one step of Pad. */
  lemma {:induction false} PadFromFilled(x: seq<int>, l: seq<int>)
    requires 0 < |x| == |l| && NonNegative(x) && x[0] < l[0]
    ensures NonNegative(Filled(x, l[0]))
    ensures Pad(x, l) == if Filled(x, l[0])[0] < l[0] then None
                         else Behind([Filled(x, l[0])[0]], Pad(Filled(x, l[0])[1..], l[1..]))
  {
    FilledConserves(x, l[0]);
    assert Filled(x, l[0])[1..] == Drain(x[1..], l[0] - x[0]);
  }

  lemma {:induction false} PadFromEnough(x: seq<int>, l: seq<int>)
    requires 0 < |x| == |l| && NonNegative(x) && l[0] <= x[0]
    ensures Pad(x, l) == Behind([x[0]], Pad(x[1..], l[1..]))
  {
    SuffixSumShrinks(x[1..], 0);
    assert x[1..][0..] == x[1..];
    DrainNothing(x[1..]);
  }

  lemma DrainNothing(x: seq<int>)
    requires NonNegative(x)
    ensures Drain(x, 0) == x
  {
  }

  lemma BehindBehind(a: seq<int>, v: int, r: Option<seq<int>>)
    ensures Behind(a, Behind([v], r)) == Behind(a + [v], r)
  {
    if r.Some? {
      assert a + ([v] + r.value) == a + [v] + r.value;
    }
  }

  /** The result of padding x from place i on, the places before it kept. */
  ghost function Toward(x: seq<int>, ls: seq<int>, i: nat): Option<seq<int>>
    requires i <= |x| == |ls| && NonNegative(x)
  {
    Behind(x[..i], Pad(x[i..], ls[i..]))
  }

  lemma {:induction false} TowardStart(x: seq<int>, ls: seq<int>)
    requires |x| == |ls| && NonNegative(x)
    ensures Toward(x, ls, 0) == Pad(x, ls)
  {
    assert x[0..] == x && ls[0..] == ls;
    assert Pad(x, ls).Some? ==> [] + Pad(x, ls).value == Pad(x, ls).value;
  }

  lemma {:induction false} TowardEnough(x: seq<int>, ls: seq<int>, i: nat)
    requires i < |x| == |ls| && NonNegative(x) && ls[i] <= x[i]
    ensures Toward(x, ls, i) == Toward(x, ls, i + 1)
  {
    assert x[i..][1..] == x[i + 1..] && ls[i..][1..] == ls[i + 1..] && x[..i + 1] == x[..i] + [x[i]];
    PadFromEnough(x[i..], ls[i..]);
    BehindBehind(x[..i], x[i], Pad(x[i + 1..], ls[i + 1..]));
  }

  lemma {:induction false} FillStep(x: seq<int>, ls: seq<int>, i: nat, z: seq<int>)
    requires i < |x| == |ls| && NonNegative(x) && x[i] < ls[i] && z == x[..i] + Filled(x[i..], ls[i])
    ensures NonNegative(z) && Sum(z) == Sum(x)
    ensures Toward(x, ls, i) == if z[i] < ls[i] then None else Toward(z, ls, i + 1)
  {
    var y := Filled(x[i..], ls[i]);
    FilledConserves(x[i..], ls[i]);
    assert x == x[..i] + x[i..];
    SumConcat(x[..i], x[i..]);
    SumConcat(x[..i], y);
    PadFromFilled(x[i..], ls[i..]);
    assert z[..i + 1] == x[..i] + [y[0]] && z[i + 1..] == y[1..] && ls[i..][1..] == ls[i + 1..];
    BehindBehind(x[..i], y[0], Pad(y[1..], ls[i + 1..]));
  }

  lemma {:induction false} PadKeepsEnough(x: seq<int>, l: seq<int>)
    requires |x| == |l| && NonNegative(x) && forall i | 0 <= i < |x| :: l[i] <= x[i]
    ensures Pad(x, l) == Some(x)
    decreases |x|
  {
    if x != [] {
      PadFromEnough(x, l);
      PadKeepsEnough(x[1..], l[1..]);
      assert [x[0]] + x[1..] == x;
    }
  }
}
