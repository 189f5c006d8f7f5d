/**
 Diploma grades from points by difficulty (diploma/grade.py).

 A grade limit is either a bound on the total points or a list of bounds, one per
 difficulty, easiest first. With padding on, points of harder difficulties may stand in
 for missing points of easier ones: the code moves them, nearest difficulty first, inside
 one dictionary that all successive limits share.
 */
module DiplomaGrade {
  import opened Common
  import opened Sums
  import opened Padding
  import opened SuccessiveLimits

  datatype Limit = Limit(difficulty: string, points: int)

  datatype Bound = Total(points: int) | ByDifficulty(limits: seq<Limit>)

  // ----- The dictionary ----------------------------------------------------------------------------

  function Get(d: map<string, int>, difficulty: string): int {
    if difficulty in d then d[difficulty] else 0
  }

  ghost predicate SameGets(a: map<string, int>, b: map<string, int>) {
    forall k: string :: Get(a, k) == Get(b, k)
  }

  ghost predicate NonNegativePoints(d: map<string, int>) {
    forall k: string :: 0 <= Get(d, k)
  }

  ghost predicate Distinct(labels: seq<string>) {
    forall i, j | 0 <= i < j < |labels| :: labels[i] != labels[j]
  }

  function Labels(limits: seq<Limit>): (labels: seq<string>)
    ensures |labels| == |limits|
    ensures forall i | 0 <= i < |limits| :: labels[i] == limits[i].difficulty
  {
    seq(|limits|, i requires 0 <= i < |limits| => limits[i].difficulty)
  }

  function Values(limits: seq<Limit>): (l: seq<int>)
    ensures |l| == |limits|
    ensures forall i | 0 <= i < |limits| :: l[i] == limits[i].points
  {
    seq(|limits|, i requires 0 <= i < |limits| => limits[i].points)
  }

  /** The points the dictionary holds for the labels, in their order. */
  function Row(d: map<string, int>, labels: seq<string>): (x: seq<int>)
    ensures |x| == |labels|
    ensures forall i | 0 <= i < |labels| :: x[i] == Get(d, labels[i])
  {
    seq(|labels|, i requires 0 <= i < |labels| => Get(d, labels[i]))
  }

  /** The dictionary with the labels set to the values of x. */
  ghost function Store(d: map<string, int>, labels: seq<string>, x: seq<int>): (e: map<string, int>)
    requires |x| == |labels| && Distinct(labels)
    ensures Row(e, labels) == x
    ensures forall k: string | k !in labels :: Get(e, k) == Get(d, k)
  {
    if labels == [] then d
    else
      var n := |labels| - 1;
      var before := Store(d, labels[..n], x[..n]);
      var e := before[labels[n] := x[n]];
      assert forall i | 0 <= i < n :: Get(e, labels[i]) == Row(before, labels[..n])[i];
      e
  }

  /** The part of the dictionary that the labels do not name. */
  ghost function Outside(d: map<string, int>, labels: seq<string>): map<string, int> {
    d - (set k | k in labels)
  }

  lemma OutsideGet(d: map<string, int>, e: map<string, int>, labels: seq<string>, k: string)
    requires Outside(d, labels) == Outside(e, labels) && k !in labels
    ensures Get(d, k) == Get(e, k)
  {
    assert k in d <==> k in Outside(d, labels);
    assert k in e <==> k in Outside(e, labels);
  }

  lemma OutsideTail(d: map<string, int>, e: map<string, int>, labels: seq<string>, i: nat)
    requires Distinct(labels) && i <= |labels| && Outside(d, labels[i..]) == Outside(e, labels[i..])
    ensures Row(e, labels) == Row(d, labels)[..i] + Row(e, labels[i..])
    ensures Outside(d, labels) == Outside(e, labels)
  {
    forall m | 0 <= m < i
      ensures Get(d, labels[m]) == Get(e, labels[m])
    {
      OutsideGet(d, e, labels[i..], labels[m]);
    }
    assert Outside(d, labels) == Outside(Outside(d, labels[i..]), labels);
    assert Outside(e, labels) == Outside(Outside(e, labels[i..]), labels);
  }

  /** Two assignments to the dictionary, one after the other. */
  function Assign(d: map<string, int>, ds: seq<string>, i: nat, v: int, j: nat, w: int): (e: map<string, int>)
    requires Distinct(ds) && i < |ds| && j < |ds|
    ensures Row(e, ds) == Row(d, ds)[i := v][j := w]
    ensures Outside(e, ds) == Outside(d, ds)
  {
    d[ds[i] := v][ds[j] := w]
  }

  // ----- Grades over dictionaries ------------------------------------------------------------------

  /** A list limit names at least one difficulty and none twice. */
  ghost predicate WellFormed(bound: Bound) {
    bound.ByDifficulty? ==> bound.limits != [] && Distinct(Labels(bound.limits))
  }

  ghost predicate AllWellFormed(bounds: seq<Bound>) {
    forall i | 0 <= i < |bounds| :: WellFormed(bounds[i])
  }

  /** The dictionary after a passed limit; `None` for a limit that is not passed. */
  ghost function Passed(points: int, d: map<string, int>, bound: Bound, pad: bool): (r: Option<map<string, int>>)
    requires WellFormed(bound) && NonNegativePoints(d)
    ensures r.Some? ==> NonNegativePoints(r.value)
  {
    match bound
    case Total(b) => if b <= points then Some(d) else None
    case ByDifficulty(limits) =>
      var labels, l := Labels(limits), Values(limits);
      if pad then
        match Pad(Row(d, labels), l)
        case None => None
        case Some(y) =>
          var e := Store(d, labels, y);
          assert forall k: string :: 0 <= Get(e, k) by {
            forall k: string ensures 0 <= Get(e, k) {
              if k in labels {
                var i :| 0 <= i < |labels| && labels[i] == k;
                assert Row(e, labels)[i] == y[i];
              }
            }
          }
          Some(e)
      else if forall i | 0 <= i < |l| :: l[i] <= Row(d, labels)[i] then Some(d)
      else None
  }

  /** The number of leading limits passed, each over the dictionary the one before it left. */
  ghost function GradeOf(points: int, d: map<string, int>, bounds: seq<Bound>, pad: bool): (grade: nat)
    requires NonNegativePoints(d) && AllWellFormed(bounds)
    ensures grade <= |bounds|
    decreases |bounds|
  {
    if bounds == [] then 0
    else
      match Passed(points, d, bounds[0], pad)
      case None => 0
      case Some(e) => 1 + GradeOf(points, e, bounds[1..], pad)
  }

  // ----- The loops ---------------------------------------------------------------------------------

  /** The inner loop: fill difficulty ds[0] up to l from the difficulties after it, nearest first. */
  method Borrow(d: map<string, int>, ds: seq<string>, l: int) returns (e: map<string, int>)
    requires ds != [] && Distinct(ds) && NonNegative(Row(d, ds)) && Get(d, ds[0]) < l
    ensures Row(e, ds) == Filled(Row(d, ds), l)
    ensures Outside(e, ds) == Outside(d, ds)
  {
    e := d;
    var p := Get(d, ds[0]);
    ghost var x := Row(d, ds);
    assert x[1..1] == [] && x == Midway(x, p, 1);
    var j := 1;
    while j < |ds|
      invariant 0 < j <= |ds|
      invariant p <= l && p == x[0] + Sum(x[1..j])
      invariant Row(e, ds) == Midway(x, p, j)
      invariant Outside(e, ds) == Outside(d, ds)
    {
      var jp := Get(e, ds[j]);
      assert jp == Row(e, ds)[j] == x[j];
      if jp > l - p {
        var rest := e[ds[j]] - (l - p);
        FilledAt(x, l, j, p, rest);
        e := Assign(e, ds, j, rest, 0, l);
        return;
      }
      SumPush(x, 1, j);
      MidwayStep(x, p, j, p + jp);
      p := p + jp;
      e := Assign(e, ds, 0, p, j, 0);
      j := j + 1;
    }
    assert x[1..j] == x[1..];
    FilledAll(x, l);
  }

  /** Borrowing for place i of the whole row. */
  method FillPlace(d: map<string, int>, ds: seq<string>, ls: seq<int>, i: nat) returns (e: map<string, int>)
    requires i < |ds| == |ls| && Distinct(ds) && NonNegative(Row(d, ds)) && Get(d, ds[i]) < ls[i]
    ensures Outside(e, ds) == Outside(d, ds)
    ensures NonNegative(Row(e, ds)) && Sum(Row(e, ds)) == Sum(Row(d, ds))
    ensures Toward(Row(d, ds), ls, i) == if Get(e, ds[i]) < ls[i] then None else Toward(Row(e, ds), ls, i + 1)
  {
    assert Row(d, ds[i..]) == Row(d, ds)[i..];
    e := Borrow(d, ds[i..], ls[i]);
    OutsideTail(d, e, ds, i);
    FillStep(Row(d, ds), ls, i, Row(e, ds));
  }

  /** One list limit: the nested loops of pass_limit over the shared dictionary. */
  method PassListLimit(d: map<string, int>, limits: seq<Limit>, pad: bool) returns (ok: bool, e: map<string, int>)
    requires WellFormed(ByDifficulty(limits)) && NonNegativePoints(d)
    ensures Outside(e, Labels(limits)) == Outside(d, Labels(limits))
    ensures Sum(Row(e, Labels(limits))) == Sum(Row(d, Labels(limits))) && NonNegative(Row(e, Labels(limits)))
    ensures !pad ==> e == d && ok == forall i | 0 <= i < |limits| :: limits[i].points <= Get(d, limits[i].difficulty)
    ensures pad ==> ok == Pad(Row(d, Labels(limits)), Values(limits)).Some?
    ensures pad && ok ==> Row(e, Labels(limits)) == Pad(Row(d, Labels(limits)), Values(limits)).value
  {
    e := d;
    var ds, ls := Labels(limits), Values(limits);
    TowardStart(Row(d, ds), ls);
    var i := 0;
    while i < |ds|
      invariant 0 <= i <= |ds|
      invariant Outside(e, ds) == Outside(d, ds)
      invariant NonNegative(Row(e, ds)) && Sum(Row(e, ds)) == Sum(Row(d, ds))
      invariant !pad ==> e == d && forall m | 0 <= m < i :: ls[m] <= Get(d, ds[m])
      invariant pad ==> Pad(Row(d, ds), ls) == Toward(Row(e, ds), ls, i)
    {
      if pad {
        var p := Get(e, ds[i]);
        if p < ls[i] {
          e := FillPlace(e, ds, ls, i);
        } else {
          TowardEnough(Row(e, ds), ls, i);
          i := i + 1;
          continue;
        }
      }
      if Get(e, ds[i]) < ls[i] {
        return false, e;
      }
      i := i + 1;
    }
    ok := true;
    assert Row(e, ds)[..i] + [] == Row(e, ds);
  }

  /** pass_limit: one limit over the shared dictionary. */
  method PassLimit(points: int, d: map<string, int>, bound: Bound, pad: bool, ghost spec: map<string, int>)
      returns (ok: bool, e: map<string, int>)
    requires WellFormed(bound) && NonNegativePoints(spec) && SameGets(d, spec)
    ensures ok == Passed(points, spec, bound, pad).Some?
    ensures ok ==> SameGets(e, Passed(points, spec, bound, pad).value)
  {
    match bound {
      case Total(b) =>
        return points >= b, d;
      case ByDifficulty(limits) =>
        assert NonNegativePoints(d) && Row(d, Labels(limits)) == Row(spec, Labels(limits));
        ok, e := PassListLimit(d, limits, pad);
        if ok && pad {
          SameAfterPass(d, e, spec, Passed(points, spec, bound, pad).value, Labels(limits));
        }
    }
  }

  lemma SameAfterPass(d: map<string, int>, e: map<string, int>, spec: map<string, int>, next: map<string, int>,
                      labels: seq<string>)
    requires SameGets(d, spec) && Outside(d, labels) == Outside(e, labels) && Row(e, labels) == Row(next, labels)
    requires forall k: string | k !in labels :: Get(next, k) == Get(spec, k)
    ensures SameGets(e, next)
  {
    forall k: string
      ensures Get(e, k) == Get(next, k)
    {
      if k in labels {
        var i :| 0 <= i < |labels| && labels[i] == k;
        assert Row(e, labels)[i] == Row(next, labels)[i];
      } else {
        OutsideGet(d, e, labels, k);
      }
    }
  }

  /** calculate_grade: count the leading limits that are passed. */
  method CalculateGrade(points: int, pointsByDifficulty: map<string, int>, bounds: seq<Bound>, pad: bool)
      returns (grade: nat)
    requires NonNegativePoints(pointsByDifficulty) && AllWellFormed(bounds)
    ensures grade == GradeOf(points, pointsByDifficulty, bounds, pad)
  {
    var d := pointsByDifficulty;
    ghost var spec := d;
    grade := 0;
    assert bounds[0..] == bounds;
    while grade < |bounds|
      invariant 0 <= grade <= |bounds| && SameGets(d, spec) && NonNegativePoints(spec)
      invariant GradeOf(points, pointsByDifficulty, bounds, pad) == grade + GradeOf(points, spec, bounds[grade..], pad)
    {
      assert bounds[grade..][1..] == bounds[grade + 1..];
      var ok;
      ok, d := PassLimit(points, d, bounds[grade], pad, spec);
      if !ok {
        break;
      }
      spec := Passed(points, spec, bounds[grade], pad).value;
      grade := grade + 1;
    }
  }

  // ----- Difficulties without points -----------------------------------------------------------------

  lemma PassedSameGets(points: int, a: map<string, int>, b: map<string, int>, bound: Bound, pad: bool)
    requires SameGets(a, b) && NonNegativePoints(a) && NonNegativePoints(b) && WellFormed(bound)
    ensures Passed(points, a, bound, pad).Some? == Passed(points, b, bound, pad).Some?
    ensures Passed(points, a, bound, pad).Some? ==>
              SameGets(Passed(points, a, bound, pad).value, Passed(points, b, bound, pad).value)
  {
    if bound.ByDifficulty? {
      var labels := Labels(bound.limits);
      assert Row(a, labels) == Row(b, labels);
      if pad && Pad(Row(a, labels), Values(bound.limits)).Some? {
        var y := Pad(Row(a, labels), Values(bound.limits)).value;
        StoreSameGets(a, b, labels, y);
      }
    }
  }

  lemma StoreSameGets(a: map<string, int>, b: map<string, int>, labels: seq<string>, y: seq<int>)
    requires SameGets(a, b) && Distinct(labels) && |y| == |labels|
    ensures SameGets(Store(a, labels, y), Store(b, labels, y))
  {
    forall k: string
      ensures Get(Store(a, labels, y), k) == Get(Store(b, labels, y), k)
    {
      if k in labels {
        var i :| 0 <= i < |labels| && labels[i] == k;
        assert Row(Store(a, labels, y), labels)[i] == Row(Store(b, labels, y), labels)[i];
      }
    }
  }

  lemma {:induction false} GradeSameGets(points: int, a: map<string, int>, b: map<string, int>, bounds: seq<Bound>,
                                         pad: bool)
    requires SameGets(a, b) && NonNegativePoints(a) && NonNegativePoints(b) && AllWellFormed(bounds)
    ensures GradeOf(points, a, bounds, pad) == GradeOf(points, b, bounds, pad)
    decreases |bounds|
  {
    if bounds != [] {
      PassedSameGets(points, a, b, bounds[0], pad);
      if Passed(points, a, bounds[0], pad).Some? {
        GradeSameGets(points, Passed(points, a, bounds[0], pad).value, Passed(points, b, bounds[0], pad).value,
                      bounds[1..], pad);
      }
    }
  }

  /** A difficulty that is missing from the points counts as one with no points. */
  lemma MissingIsZero(points: int, d: map<string, int>, difficulty: string, bounds: seq<Bound>, pad: bool)
    requires (forall k | k in d :: 0 <= d[k]) && difficulty !in d && AllWellFormed(bounds)
    ensures NonNegativePoints(d) && NonNegativePoints(d[difficulty := 0])
    ensures GradeOf(points, d[difficulty := 0], bounds, pad) == GradeOf(points, d, bounds, pad)
  {
    GradeSameGets(points, d[difficulty := 0], d, bounds, pad);
  }

  // ----- What the padded grade means ---------------------------------------------------------------

  /** All list limits are over the same difficulties, in the same order, with non-negative bounds. */
  ghost predicate SameOrder(bounds: seq<Bound>, labels: seq<string>) {
    Distinct(labels) && labels != [] &&
    forall i | 0 <= i < |bounds| && bounds[i].ByDifficulty? ::
      Labels(bounds[i].limits) == labels && NonNegative(Values(bounds[i].limits))
  }

  ghost predicate TotalsPass(points: int, bounds: seq<Bound>) {
    forall i | 0 <= i < |bounds| && bounds[i].Total? :: bounds[i].points <= points
  }

  /** The list limits alone, as rows of points. */
  function Rows(bounds: seq<Bound>): (ls: seq<seq<int>>) {
    if bounds == [] then []
    else (if bounds[0].ByDifficulty? then [Values(bounds[0].limits)] else []) + Rows(bounds[1..])
  }

  lemma {:induction false} RowsAreLimits(bounds: seq<Bound>, labels: seq<string>)
    requires SameOrder(bounds, labels)
    ensures LimitRows(Rows(bounds), |labels|)
    decreases |bounds|
  {
    if bounds != [] {
      RowsAreLimits(bounds[1..], labels);
    }
  }

  /**
   The padded grade in closed form: at least t limits are passed exactly when the total
   meets the plain bounds among them and the original points hold what the list limits
   among them need.
   */
  lemma {:induction false} PaddedGradeExact(points: int, d: map<string, int>, bounds: seq<Bound>, labels: seq<string>,
                                            t: nat)
    requires NonNegativePoints(d) && SameOrder(bounds, labels) && t <= |bounds|
    requires AllWellFormed(bounds)
    ensures LimitRows(Rows(bounds[..t]), |labels|)
    ensures t <= GradeOf(points, d, bounds, true) <==>
            TotalsPass(points, bounds[..t]) && Affords(Row(d, labels), Rows(bounds[..t]))
    decreases |bounds|
  {
    RowsAreLimits(bounds[..t], labels);
    if t == 0 {
      AffordsNothing(Row(d, labels));
    } else {
      var passed := Passed(points, d, bounds[0], true);
      if passed.Some? {
        PaddedGradeExact(points, passed.value, bounds[1..], labels, t - 1);
      }
      NeededStep(points, d, bounds, labels, t);
    }
  }

  /** What the first t limits ask for is what the first asks for and then the others. */
  lemma {:induction false} NeededStep(points: int, d: map<string, int>, bounds: seq<Bound>, labels: seq<string>, t: nat)
    requires NonNegativePoints(d) && SameOrder(bounds, labels) && AllWellFormed(bounds) && 0 < t <= |bounds|
    ensures LimitRows(Rows(bounds[..t]), |labels|) && LimitRows(Rows(bounds[1..][..t - 1]), |labels|)
    ensures TotalsPass(points, bounds[..t]) && Affords(Row(d, labels), Rows(bounds[..t])) <==>
            var passed := Passed(points, d, bounds[0], true);
            passed.Some? && TotalsPass(points, bounds[1..][..t - 1]) &&
            Affords(Row(passed.value, labels), Rows(bounds[1..][..t - 1]))
  {
    RowsAreLimits(bounds[..t], labels);
    RowsAreLimits(bounds[1..][..t - 1], labels);
    TotalsPassStep(points, bounds, t);
    RowsStep(bounds, t);
    if bounds[0].ByDifficulty? {
      PassedRow(points, d, bounds[0], labels, Rows(bounds[1..][..t - 1]));
    }
  }

  /** Passing one list limit, for the limits that follow it. */
  lemma PassedRow(points: int, d: map<string, int>, b: Bound, labels: seq<string>, ls: seq<seq<int>>)
    requires b.ByDifficulty? && WellFormed(b) && Labels(b.limits) == labels && NonNegative(Values(b.limits))
    requires NonNegativePoints(d) && LimitRows(ls, |labels|) && LimitRows([Values(b.limits)] + ls, |labels|)
    ensures Affords(Row(d, labels), [Values(b.limits)] + ls) <==>
            Passed(points, d, b, true).Some? && Affords(Row(Passed(points, d, b, true).value, labels), ls)
  {
    var all := [Values(b.limits)] + ls;
    assert all[0] == Values(b.limits) && all[1..] == ls;
    AffordsStep(Row(d, labels), all);
  }

  lemma TotalsPassStep(points: int, bounds: seq<Bound>, t: nat)
    requires 0 < t <= |bounds|
    ensures TotalsPass(points, bounds[..t]) <==>
            (bounds[0].Total? ==> bounds[0].points <= points) && TotalsPass(points, bounds[1..][..t - 1])
  {
    assert bounds[..t] == [bounds[0]] + bounds[1..][..t - 1];
  }

  lemma RowsStep(bounds: seq<Bound>, t: nat)
    requires 0 < t <= |bounds|
    ensures Rows(bounds[..t]) ==
            if bounds[0].ByDifficulty? then [Values(bounds[0].limits)] + Rows(bounds[1..][..t - 1])
            else Rows(bounds[1..][..t - 1])
  {
    assert bounds[..t][1..] == bounds[1..][..t - 1];
  }

  /** A limit on its own, over the original points. */
  ghost predicate PassesAlone(points: int, x: seq<int>, b: Bound)
    requires b.ByDifficulty? ==> |b.limits| == |x|
  {
    match b
    case Total(p) => p <= points
    case ByDifficulty(limits) => Covers(x, Values(limits))
  }

  /** The number of leading limits that each pass on their own. */
  ghost function Leading(points: int, x: seq<int>, bounds: seq<Bound>): (n: nat)
    requires forall i | 0 <= i < |bounds| && bounds[i].ByDifficulty? :: |bounds[i].limits| == |x|
    ensures n <= |bounds|
    ensures forall i | 0 <= i < n :: PassesAlone(points, x, bounds[i])
    ensures n < |bounds| ==> !PassesAlone(points, x, bounds[n])
  {
    if bounds == [] || !PassesAlone(points, x, bounds[0]) then 0 else 1 + Leading(points, x, bounds[1..])
  }

  lemma {:induction false} RowsHold(bounds: seq<Bound>, i: nat) returns (s: nat)
    requires i < |bounds| && bounds[i].ByDifficulty?
    ensures s < |Rows(bounds)| && Rows(bounds)[s] == Values(bounds[i].limits)
    decreases i
  {
    if i == 0 {
      s := 0;
    } else {
      s := RowsHold(bounds[1..], i - 1);
      s := s + if bounds[0].ByDifficulty? then 1 else 0;
    }
  }

  lemma {:induction false} RowsCome(bounds: seq<Bound>, s: nat) returns (i: nat)
    requires s < |Rows(bounds)|
    ensures i < |bounds| && bounds[i].ByDifficulty? && Rows(bounds)[s] == Values(bounds[i].limits)
    decreases |bounds|
  {
    if bounds[0].ByDifficulty? && s == 0 {
      i := 0;
    } else {
      i := RowsCome(bounds[1..], if bounds[0].ByDifficulty? then s - 1 else s);
      i := i + 1;
    }
  }

  lemma {:induction false} RowsPrefix(bounds: seq<Bound>, t: nat)
    requires t <= |bounds|
    ensures Rows(bounds[..t]) <= Rows(bounds)
    decreases |bounds|
  {
    if t > 0 {
      RowsPrefix(bounds[1..], t - 1);
      assert bounds[..t][1..] == bounds[1..][..t - 1];
    }
  }

  /**
   Passing the first t limits in turn is passing each of them alone, if no walk through their
   rows is dearer than the largest of them.
   */
  lemma {:induction false} AffordsEach(points: int, x: seq<int>, bounds: seq<Bound>, labels: seq<string>, t: nat)
    requires NonNegative(x) && |x| == |labels| && SameOrder(bounds, labels) && t <= |bounds|
    requires AllWellFormed(bounds)
    requires LimitRows(Rows(bounds[..t]), |labels|) && NoDearWalk(Rows(bounds[..t]), |labels|)
    ensures TotalsPass(points, bounds[..t]) && Affords(x, Rows(bounds[..t])) <==>
            forall i | 0 <= i < t :: PassesAlone(points, x, bounds[i])
  {
    var n, ls := |x|, Rows(bounds[..t]);
    if TotalsPass(points, bounds[..t]) && Affords(x, ls) {
      forall i | 0 <= i < t
        ensures PassesAlone(points, x, bounds[i])
      {
        assert bounds[..t][i] == bounds[i];
        if bounds[i].ByDifficulty? {
          var s := RowsHold(bounds[..t], i);
          forall j | 0 <= j <= n
            ensures Sum(ls[s][j..]) <= Sum(x[j..])
          {
            NeedCoversEach(ls, n, s, j);
          }
        }
      }
    }
    if forall i | 0 <= i < t :: PassesAlone(points, x, bounds[i]) {
      forall j | 0 <= j <= n
        ensures Need(ls, n, j) <= Sum(x[j..])
      {
        SuffixSumShrinks(x, j);
        forall s | 0 <= s < |ls|
          ensures Sum(ls[s][j..]) <= Sum(x[j..])
        {
          var i := RowsCome(bounds[..t], s);
          assert PassesAlone(points, x, bounds[i]);
        }
        PeakWithin(ls, n, j, Sum(x[j..]));
      }
    }
  }

  /** However many limits are passed, no walk through their rows is dearer than the largest of them. */
  ghost predicate NoDearPrefix(bounds: seq<Bound>, n: nat) {
    forall t | 0 <= t <= |bounds| :: LimitRows(Rows(bounds[..t]), n) && NoDearWalk(Rows(bounds[..t]), n)
  }

  lemma HarmlessGrade(points: int, d: map<string, int>, bounds: seq<Bound>, labels: seq<string>)
    requires NonNegativePoints(d) && SameOrder(bounds, labels) && AllWellFormed(bounds)
    requires NoDearPrefix(bounds, |labels|)
    ensures GradeOf(points, d, bounds, true) == Leading(points, Row(d, labels), bounds)
  {
    var x := Row(d, labels);
    var g, n := GradeOf(points, d, bounds, true), Leading(points, x, bounds);
    PaddedGradeExact(points, d, bounds, labels, n);
    AffordsEach(points, x, bounds, labels, n);
    PaddedGradeExact(points, d, bounds, labels, g);
    AffordsEach(points, x, bounds, labels, g);
  }

  /**
   For limits that never decrease, the padded grade is the number of leading limits whose
   every suffix sum the original points cover: moving points nearest first loses nothing,
   and neither does keeping the changed dictionary for the limits that follow.
   */
  lemma {:induction false} PaddedGradeOfRisingLimits(points: int, d: map<string, int>, bounds: seq<Bound>,
                                                     labels: seq<string>)
    requires NonNegativePoints(d) && SameOrder(bounds, labels)
    requires LimitRows(Rows(bounds), |labels|) && Rising(Rows(bounds), |labels|)
    requires AllWellFormed(bounds)
    ensures GradeOf(points, d, bounds, true) == Leading(points, Row(d, labels), bounds)
  {
    forall t | 0 <= t <= |bounds|
      ensures LimitRows(Rows(bounds[..t]), |labels|) && NoDearWalk(Rows(bounds[..t]), |labels|)
    {
      RowsPrefix(bounds, t);
      RisingHasNoDearWalk(Rows(bounds[..t]), |labels|);
    }
    HarmlessGrade(points, d, bounds, labels);
  }

  /** More points never lower the padded grade. */
  lemma {:induction false} PaddedGradeGrows(points: int, d: map<string, int>, points': int, d': map<string, int>,
                                            bounds: seq<Bound>, labels: seq<string>)
    requires NonNegativePoints(d) && SameOrder(bounds, labels)
    requires AllWellFormed(bounds)
    requires points <= points' && forall k: string :: Get(d, k) <= Get(d', k)
    ensures NonNegativePoints(d') && GradeOf(points, d, bounds, true) <= GradeOf(points', d', bounds, true)
  {
    forall k: string
      ensures 0 <= Get(d', k)
    {
      assert Get(d, k) <= Get(d', k);
    }
    var t := GradeOf(points, d, bounds, true);
    PaddedGradeExact(points, d, bounds, labels, t);
    PaddedGradeExact(points', d', bounds, labels, t);
    var x, x' := Row(d, labels), Row(d', labels);
    forall j | 0 <= j <= |x|
      ensures Sum(x[j..]) <= Sum(x'[j..])
    {
      SumGrows(x[j..], x'[j..]);
    }
  }

  ghost predicate MeetsPlainly(points: int, d: map<string, int>, b: Bound) {
    match b
    case Total(p) => p <= points
    case ByDifficulty(limits) => forall i | 0 <= i < |limits| :: limits[i].points <= Get(d, limits[i].difficulty)
  }

  /** Without padding, the grade counts the leading limits that the original points meet difficulty by difficulty. */
  lemma {:induction false} PlainGradeExact(points: int, d: map<string, int>, bounds: seq<Bound>, t: nat)
    requires NonNegativePoints(d) && AllWellFormed(bounds) && t <= |bounds|
    ensures t <= GradeOf(points, d, bounds, false) <==> forall i | 0 <= i < t :: MeetsPlainly(points, d, bounds[i])
    decreases |bounds|
  {
    if t > 0 {
      PlainGradeExact(points, d, bounds[1..], t - 1);
      assert forall i | 1 <= i < t :: bounds[1..][i - 1] == bounds[i];
      assert Passed(points, d, bounds[0], false) == if MeetsPlainly(points, d, bounds[0]) then Some(d) else None by {
        if bounds[0].ByDifficulty? {
          var limits := bounds[0].limits;
          assert forall i | 0 <= i < |limits| ::
              Values(limits)[i] == limits[i].points && Row(d, Labels(limits))[i] == Get(d, limits[i].difficulty);
        }
      }
      assert (forall i | 0 <= i < t :: MeetsPlainly(points, d, bounds[i])) <==>
             MeetsPlainly(points, d, bounds[0]) && forall i | 0 <= i < t - 1 :: MeetsPlainly(points, d, bounds[1..][i]);
    }
  }

  /** Padding never lowers a grade, whatever the lists of the limits. */
  lemma {:induction false} PaddingNeverHurts(points: int, d: map<string, int>, e: map<string, int>, bounds: seq<Bound>)
    requires NonNegativePoints(d) && NonNegativePoints(e) && SameGets(d, e)
    requires AllWellFormed(bounds)
    ensures GradeOf(points, d, bounds, false) <= GradeOf(points, e, bounds, true)
    decreases |bounds|
  {
    if bounds != [] {
      var b := bounds[0];
      var plain, padded := Passed(points, d, b, false), Passed(points, e, b, true);
      if plain.Some? {
        if b.ByDifficulty? {
          var labels := Labels(b.limits);
          assert Row(e, labels) == Row(d, labels);
          PadKeepsEnough(Row(e, labels), Values(b.limits));
          SameAfterPass(e, e, d, padded.value, labels);
        }
        PaddingNeverHurts(points, d, padded.value, bounds[1..]);
      }
    }
  }

  // ----- When carrying the dictionary over does no harm --------------------------------------------

  /** One dictionary for all limits gives the grade of the limits taken one by one, for all points. */
  ghost predicate CarryingIsHarmless(bounds: seq<Bound>, labels: seq<string>)
    requires SameOrder(bounds, labels) && AllWellFormed(bounds)
  {
    forall points: int, d: map<string, int> | NonNegativePoints(d) ::
      GradeOf(points, d, bounds, true) == Leading(points, Row(d, labels), bounds)
  }

  /**
   Without the assumption that limits never decrease: one dictionary for all limits agrees with
   the limits taken one by one, for all points, exactly when no leading part of the limits has a
   dear walk.
   */
  lemma CarryingIsHarmlessIff(bounds: seq<Bound>, labels: seq<string>)
    requires SameOrder(bounds, labels) && AllWellFormed(bounds)
    ensures forall t | 0 <= t <= |bounds| :: LimitRows(Rows(bounds[..t]), |labels|)
    ensures CarryingIsHarmless(bounds, labels) <==>
            forall t | 0 <= t <= |bounds| :: NoDearWalk(Rows(bounds[..t]), |labels|)
  {
    forall t | 0 <= t <= |bounds|
      ensures LimitRows(Rows(bounds[..t]), |labels|)
    {
      RowsAreLimits(bounds[..t], labels);
    }
    if NoDearPrefix(bounds, |labels|) {
      forall points: int, d: map<string, int> | NonNegativePoints(d)
        ensures GradeOf(points, d, bounds, true) == Leading(points, Row(d, labels), bounds)
      {
        HarmlessGrade(points, d, bounds, labels);
      }
    } else {
      var t :| 0 <= t <= |bounds| && !NoDearWalk(Rows(bounds[..t]), |labels|);
      var points, d := HarmfulGrade(bounds, labels, t);
      assert GradeOf(points, d, bounds, true) != Leading(points, Row(d, labels), bounds);
    }
  }

  /** Enough for every limit on the total. */
  ghost function LargestTotal(bounds: seq<Bound>): (points: int)
    ensures forall b | b in bounds && b.Total? :: b.points <= points
  {
    if bounds == [] then 0
    else
      var rest := LargestTotal(bounds[1..]);
      if bounds[0].Total? then Max(bounds[0].points, rest) else rest
  }

  /** Points that just cover each of the first t limits, which have a dear walk, do not pass them in turn. */
  lemma HarmfulGrade(bounds: seq<Bound>, labels: seq<string>, t: nat) returns (points: int, d: map<string, int>)
    requires SameOrder(bounds, labels) && AllWellFormed(bounds) && t <= |bounds|
    requires LimitRows(Rows(bounds[..t]), |labels|) && !NoDearWalk(Rows(bounds[..t]), |labels|)
    ensures NonNegativePoints(d)
    ensures GradeOf(points, d, bounds, true) < t <= Leading(points, Row(d, labels), bounds)
  {
    var x := PeakRow(Rows(bounds[..t]), |labels|, 0);
    points, d := LargestTotal(bounds), Store(map[], labels, x);
    StoreNonNegative(labels, x);
    assert Row(d, labels) == x;
    PeakRowPasses(points, bounds, labels, t);
    PeakRowFails(Rows(bounds[..t]), |labels|);
    PaddedGradeExact(points, d, bounds, labels, t);
  }

  lemma StoreNonNegative(labels: seq<string>, x: seq<int>)
    requires |x| == |labels| && Distinct(labels) && NonNegative(x)
    ensures NonNegativePoints(Store(map[], labels, x))
  {
    var d := Store(map[], labels, x);
    forall k: string
      ensures 0 <= Get(d, k)
    {
      if k in labels {
        var i :| 0 <= i < |labels| && labels[i] == k;
        assert Row(d, labels)[i] == x[i];
      }
    }
  }

  lemma {:induction false} PeakRowPasses(points: int, bounds: seq<Bound>, labels: seq<string>, t: nat)
    requires SameOrder(bounds, labels) && t <= |bounds| && LimitRows(Rows(bounds[..t]), |labels|)
    requires forall b | b in bounds && b.Total? :: b.points <= points
    ensures forall i | 0 <= i < t :: PassesAlone(points, PeakRow(Rows(bounds[..t]), |labels|, 0), bounds[i])
  {
    var n, ls := |labels|, Rows(bounds[..t]);
    var x := PeakRow(ls, n, 0);
    forall i | 0 <= i < t
      ensures PassesAlone(points, x, bounds[i])
    {
      if bounds[i].ByDifficulty? {
        var s := RowsHold(bounds[..t], i);
        forall k | 0 <= k <= n
          ensures Sum(ls[s][k..]) <= Sum(x[k..])
        {
          PeakRowWhole(ls, n, k);
          PeakCoversEach(ls, n, s, k);
        }
      }
    }
  }
}
