/**
 Moving points from harder to easier difficulties in any way, against which the nearest-first
 filling (diploma/grade.py) is measured.
 */
module Transfers {
  import opened Common
  import opened Sums
  import opened Padding

  /** Some points go from one place to an earlier one. */
  datatype Move = Move(from: nat, to: nat, amount: nat)

  predicate CanMove(x: seq<int>, m: Move) {
    m.to < m.from < |x| && m.amount <= x[m.from]
  }

  function Moved(x: seq<int>, m: Move): seq<int>
    requires CanMove(x, m)
  {
    x[m.to := x[m.to] + m.amount][m.from := x[m.from] - m.amount]
  }

  predicate CanMoveAll(x: seq<int>, ms: seq<Move>)
    decreases |ms|
  {
    ms == [] || (CanMove(x, ms[0]) && CanMoveAll(Moved(x, ms[0]), ms[1..]))
  }

  function MovedAll(x: seq<int>, ms: seq<Move>): seq<int>
    requires CanMoveAll(x, ms)
    decreases |ms|
  {
    if ms == [] then x else MovedAll(Moved(x, ms[0]), ms[1..])
  }

  /** Moves, one after the other, that make y of x. */
  ghost predicate Makes(x: seq<int>, ms: seq<Move>, y: seq<int>) {
    CanMoveAll(x, ms) && MovedAll(x, ms) == y
  }

  /** y has the points of x, with no more of them in any suffix. */
  ghost predicate MovesForward(x: seq<int>, y: seq<int>) {
    |x| == |y| && NonNegative(y) && Sum(y) == Sum(x) && forall k | 0 <= k <= |x| :: Sum(y[k..]) <= Sum(x[k..])
  }

  // ----- Moves only lower suffix sums --------------------------------------------------------------------

  lemma {:induction false} SumUpdated(x: seq<int>, i: nat, v: int)
    requires i < |x|
    ensures Sum(x[i := v]) == Sum(x) - x[i] + v
  {
    if i > 0 {
      SumUpdated(x[1..], i - 1, v);
      assert x[i := v][1..] == x[1..][i - 1 := v];
    }
  }

  lemma {:induction false} SuffixUpdated(x: seq<int>, i: nat, v: int, k: nat)
    requires i < |x| && k <= |x|
    ensures Sum(x[i := v][k..]) == Sum(x[k..]) + if k <= i then v - x[i] else 0
  {
    if k <= i {
      SumUpdated(x[k..], i - k, v);
      assert x[i := v][k..] == x[k..][i - k := v];
    } else {
      assert x[i := v][k..] == x[k..];
    }
  }

  lemma MoveLowersSuffixes(x: seq<int>, m: Move)
    requires NonNegative(x) && CanMove(x, m)
    ensures MovesForward(x, Moved(x, m))
  {
    var z := x[m.to := x[m.to] + m.amount];
    forall k | 0 <= k <= |x|
      ensures Sum(Moved(x, m)[k..]) <= Sum(x[k..]) && (k == 0 ==> Sum(Moved(x, m)[k..]) == Sum(x[k..]))
    {
      SuffixUpdated(x, m.to, z[m.to], k);
      SuffixUpdated(z, m.from, x[m.from] - m.amount, k);
    }
    assert x[0..] == x && Moved(x, m)[0..] == Moved(x, m);
  }

  lemma {:induction false} MovesLowerSuffixes(x: seq<int>, ms: seq<Move>)
    requires NonNegative(x) && CanMoveAll(x, ms)
    ensures MovesForward(x, MovedAll(x, ms))
    decreases |ms|
  {
    if ms != [] {
      MoveLowersSuffixes(x, ms[0]);
      MovesLowerSuffixes(Moved(x, ms[0]), ms[1..]);
    }
  }

  // ----- Filling is a sequence of moves ------------------------------------------------------------------

  /** The first place has taken n points from place k and those after it, nearest first. */
  ghost function Taken(x: seq<int>, k: nat, n: nat): (y: seq<int>)
    requires NonNegative(x) && 0 < k <= |x|
    ensures |y| == |x|
  {
    [x[0] + n] + x[1..k] + Drain(x[k..], n)
  }

  lemma TakeSome(x: seq<int>, k: nat, n: nat)
    requires NonNegative(x) && 0 < k < |x| && n < x[k]
    ensures CanMove(x, Move(k, 0, n)) && Moved(x, Move(k, 0, n)) == Taken(x, k, n)
  {
  }

  lemma TakeAllAt(x: seq<int>, y: seq<int>, k: nat, n: nat)
    requires NonNegative(x) && 0 < k < |x| && x[k] <= n <= Sum(x[k..]) && y == x[0 := x[0] + x[k]][k := 0]
    ensures NonNegative(y) && n - x[k] <= Sum(y[k + 1..]) && Taken(y, k + 1, n - x[k]) == Taken(x, k, n)
  {
    var rest := x[k..][1..];
    assert y[k + 1..] == rest;
    assert [x[0] + n] + x[1..k] + ([0] + Drain(rest, n - x[k])) == [x[0] + n] + y[1..k + 1] + Drain(rest, n - x[k]) by {
      assert y[1..k + 1] == x[1..k] + [0];
    }
  }

  lemma {:induction false} TakeByMoves(x: seq<int>, k: nat, n: nat) returns (ms: seq<Move>)
    requires NonNegative(x) && 0 < k <= |x| && n <= Sum(x[k..])
    ensures Makes(x, ms, Taken(x, k, n))
    decreases |x| - k
  {
    if k == |x| {
      ms := [];
      assert x == Taken(x, k, n);
    } else if n < x[k] {
      TakeSome(x, k, n);
      ms := [Move(k, 0, n)];
      assert CanMoveAll(Moved(x, ms[0]), []);
    } else {
      var m := Move(k, 0, x[k]);
      TakeAllAt(x, Moved(x, m), k, n);
      ms := TakeByMoves(Moved(x, m), k + 1, n - x[k]);
      ms := [m] + ms;
    }
  }

  function Shifted(ms: seq<Move>): (r: seq<Move>)
    ensures |r| == |ms|
  {
    if ms == [] then [] else [Move(ms[0].from + 1, ms[0].to + 1, ms[0].amount)] + Shifted(ms[1..])
  }

  lemma {:induction false} MovesBehind(h: int, x: seq<int>, ms: seq<Move>)
    requires CanMoveAll(x, ms)
    ensures Makes([h] + x, Shifted(ms), [h] + MovedAll(x, ms))
    decreases |ms|
  {
    if ms != [] {
      MovesBehind(h, Moved(x, ms[0]), ms[1..]);
      assert Moved([h] + x, Shifted(ms)[0]) == [h] + Moved(x, ms[0]);
    }
  }

  lemma {:induction false} MovesInTurn(x: seq<int>, a: seq<Move>, b: seq<Move>)
    requires CanMoveAll(x, a) && CanMoveAll(MovedAll(x, a), b)
    ensures Makes(x, a + b, MovedAll(MovedAll(x, a), b))
    decreases |a|
  {
    if a == [] {
      assert a + b == b;
    } else {
      MovesInTurn(Moved(x, a[0]), a[1..], b);
      assert (a + b)[1..] == a[1..] + b;
    }
  }

  lemma {:induction false} PadByMoves(x: seq<int>, l: seq<int>) returns (ms: seq<Move>)
    requires |x| == |l| && NonNegative(x) && Pad(x, l).Some?
    ensures Makes(x, ms, Pad(x, l).value)
    decreases |x|
  {
    ms := [];
    if x != [] {
      var need := Shortfall(x[0], l[0]);
      var z := Drain(x[1..], need);
      var first := TakeByMoves(x, 1, need);
      assert Taken(x, 1, need) == [x[0] + need] + z;
      var rest := PadByMoves(z, l[1..]);
      MovesBehind(x[0] + need, z, rest);
      MovesInTurn(x, first, Shifted(rest));
      ms := first + Shifted(rest);
    }
  }

  // ----- The greedy filling is the best possible -----------------------------------------------------------

  ghost predicate Meets(y: seq<int>, l: seq<int>) {
    |y| == |l| && forall i | 0 <= i < |y| :: l[i] <= y[i]
  }

  lemma {:induction false} PadMeets(x: seq<int>, l: seq<int>)
    requires |x| == |l| && NonNegative(x) && Pad(x, l).Some?
    ensures Meets(Pad(x, l).value, l)
    decreases |x|
  {
    if x != [] {
      PadMeets(Drain(x[1..], Shortfall(x[0], l[0])), l[1..]);
    }
  }

  /** Moves reach exactly the non-negative rows of the same total in which no suffix holds more points. */
  lemma ReachableByMovesIff(x: seq<int>, y: seq<int>)
    requires NonNegative(x)
    ensures (exists ms :: Makes(x, ms, y)) <==> MovesForward(x, y)
  {
    forall ms | Makes(x, ms, y)
      ensures MovesForward(x, y)
    {
      MovesLowerSuffixes(x, ms);
    }
    if MovesForward(x, y) {
      PadSucceedsIff(x, y);
      PadMeets(x, y);
      PadConserves(x, y);
      SumGrows(y, Pad(x, y).value);
      var ms := PadByMoves(x, y);
    }
  }

  /** Moves that meet the limit. */
  ghost predicate Fulfil(x: seq<int>, ms: seq<Move>, l: seq<int>) {
    CanMoveAll(x, ms) && Meets(MovedAll(x, ms), l)
  }

  lemma MovesNeedCover(x: seq<int>, ms: seq<Move>, l: seq<int>)
    requires |x| == |l| && NonNegative(x) && Fulfil(x, ms, l)
    ensures Covers(x, l)
  {
    var y := MovedAll(x, ms);
    MovesLowerSuffixes(x, ms);
    forall k | 0 <= k <= |x|
      ensures Sum(l[k..]) <= Sum(x[k..])
    {
      SumGrows(l[k..], y[k..]);
    }
  }

  /** If any moves meet the limit, then filling nearest first does, and by moves. */
  lemma GreedyIsOptimal(x: seq<int>, l: seq<int>)
    requires |x| == |l| && NonNegative(x) && NonNegative(l)
    ensures Pad(x, l).Some? ==> exists ms :: Fulfil(x, ms, l) && Makes(x, ms, Pad(x, l).value)
    ensures Pad(x, l).Some? <==> exists ms :: Fulfil(x, ms, l)
  {
    PadSucceedsIff(x, l);
    if Pad(x, l).Some? {
      PadMeets(x, l);
      var ms := PadByMoves(x, l);
      assert Fulfil(x, ms, l);
    } else {
      forall ms
        ensures !Fulfil(x, ms, l)
      {
        if Fulfil(x, ms, l) {
          MovesNeedCover(x, ms, l);
        }
      }
    }
  }
}
