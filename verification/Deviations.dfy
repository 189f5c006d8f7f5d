/** Personal deadline extensions (deviations/models.py and the scan in exercise/exercise_models.py). */
module Deviations {
  import opened Common

  /** A DeadlineRuleDeviation row: extra time granted to one submitter in one exercise. */
  datatype Deviation = Deviation(exercise: int, submitter: int, extraSeconds: int, withoutLatePenalty: bool)

  /** A submission as the deviation queries see it. */
  datatype Work = Work(exercise: int, submitters: set<int>)

  function NewDeadline(d: Deviation, closing: int): int {
    closing + d.extraSeconds
  }

  predicate Applies(d: Deviation, exercise: int, owners: set<int>) {
    d.exercise == exercise && d.submitter in owners
  }

  /** best is a longest extension that the owners have in the exercise, if they have any. */
  ghost predicate IsLongest(rows: seq<Deviation>, exercise: int, owners: set<int>, best: Option<Deviation>) {
    match best
    case None => forall d | d in rows :: !Applies(d, exercise, owners)
    case Some(b) =>
      b in rows && Applies(b, exercise, owners) &&
      forall d | d in rows && Applies(d, exercise, owners) :: d.extraSeconds <= b.extraSeconds
  }

  function Owners(students: seq<int>): set<int> {
    set p | p in students
  }

  // ----- The scan of one_has_deadline_deviation ---------------------------------------------

  function Better(best: Option<Deviation>, d: Deviation, closing: int): Option<Deviation> {
    if best.None? || NewDeadline(d, closing) > NewDeadline(best.value, closing) then Some(d) else best
  }

  function ScanRows(rows: seq<Deviation>, exercise: int, closing: int, profile: int, best: Option<Deviation>)
      : Option<Deviation>
  {
    if rows == [] then best
    else
      var before := ScanRows(rows[..|rows| - 1], exercise, closing, profile, best);
      var d := rows[|rows| - 1];
      if Applies(d, exercise, {profile}) then Better(before, d, closing) else before
  }

  /** The extension that the nested loops over students and their rows end up with. */
  function Scan(rows: seq<Deviation>, exercise: int, closing: int, students: seq<int>): Option<Deviation> {
    if students == [] then None
    else
      ScanRows(rows, exercise, closing, students[|students| - 1],
               Scan(rows, exercise, closing, students[..|students| - 1]))
  }

  method OneHasDeadlineDeviation(rows: seq<Deviation>, exercise: int, closing: int, students: seq<int>)
      returns (deviation: Option<Deviation>)
    ensures deviation == Scan(rows, exercise, closing, students)
    ensures IsLongest(rows, exercise, Owners(students), deviation)
  {
    deviation := None;
    for i := 0 to |students|
      invariant deviation == Scan(rows, exercise, closing, students[..i])
    {
      assert students[..i + 1][..i] == students[..i];
      ghost var before := deviation;
      for k := 0 to |rows|
        invariant deviation == ScanRows(rows[..k], exercise, closing, students[i], before)
      {
        assert rows[..k + 1][..k] == rows[..k];
        var d := rows[k];
        if d.exercise == exercise && d.submitter == students[i] {
          if deviation.None? || NewDeadline(d, closing) > NewDeadline(deviation.value, closing) {
            deviation := Some(d);
          }
        }
      }
      assert rows[..|rows|] == rows;
    }
    assert students[..|students|] == students;
    ScanIsLongest(rows, exercise, closing, students);
  }

  lemma {:induction false} ScanRowsKeeps(rows: seq<Deviation>, exercise: int, closing: int, profile: int,
                                         best: Option<Deviation>)
    ensures var r := ScanRows(rows, exercise, closing, profile, best);
            (r == best || (r.Some? && r.value in rows && Applies(r.value, exercise, {profile}))) &&
            (best.Some? ==> r.Some? && best.value.extraSeconds <= r.value.extraSeconds) &&
            forall d | d in rows && Applies(d, exercise, {profile}) ::
              r.Some? && d.extraSeconds <= r.value.extraSeconds
  {
    if rows != [] {
      ScanRowsKeeps(rows[..|rows| - 1], exercise, closing, profile, best);
      assert rows == rows[..|rows| - 1] + [rows[|rows| - 1]];
    }
  }

  lemma {:induction false} ScanIsLongest(rows: seq<Deviation>, exercise: int, closing: int, students: seq<int>)
    ensures IsLongest(rows, exercise, Owners(students), Scan(rows, exercise, closing, students))
  {
    if students != [] {
      var rest, p := students[..|students| - 1], students[|students| - 1];
      ScanIsLongest(rows, exercise, closing, rest);
      ScanRowsKeeps(rows, exercise, closing, p, Scan(rows, exercise, closing, rest));
      assert students == rest + [p];
      assert Owners(students) == Owners(rest) + {p};
    }
  }

  // ----- get_max_deviations -----------------------------------------------------------------

  /** Those who have submitted the exercise together with the submitter, and the submitter. */
  ghost function Companions(works: seq<Work>, exercise: int, submitter: int): set<int> {
    {submitter} +
    set w, p | w in works && w.exercise == exercise && submitter in w.submitters && p in w.submitters :: p
  }

  lemma CompanionsAre(works: seq<Work>, exercise: int, submitter: int, p: int)
    ensures p in Companions(works, exercise, submitter) <==>
            p == submitter ||
            exists w :: w in works && w.exercise == exercise && submitter in w.submitters && p in w.submitters
  {
  }

  ghost predicate Ordered(stream: seq<Deviation>) {
    forall i, j | 0 <= i < j < |stream| ::
      stream[i].exercise < stream[j].exercise ||
      (stream[i].exercise == stream[j].exercise && stream[j].extraSeconds <= stream[i].extraSeconds)
  }

  /** The rows the query yields: own and companions' rows in the exercises, by exercise, longest first. */
  ghost predicate IsStream(rows: seq<Deviation>, works: seq<Work>, exercises: set<int>, submitter: int,
                           stream: seq<Deviation>)
  {
    Ordered(stream) &&
    forall d :: d in stream <==>
      d in rows && d.exercise in exercises && Applies(d, d.exercise, Companions(works, d.exercise, submitter))
  }

  /** The rows that start a new exercise in the stream. */
  function Firsts(stream: seq<Deviation>): (r: seq<Deviation>) {
    var n := |stream| - 1;
    if stream == [] then []
    else if n > 0 && stream[n - 1].exercise == stream[n].exercise then Firsts(stream[..n])
    else Firsts(stream[..n]) + [stream[n]]
  }

  /** The loop of get_max_deviations: skip the rows of the exercise that came before. */
  method FirstPerExercise(stream: seq<Deviation>) returns (result: seq<Deviation>)
    ensures result == Firsts(stream)
  {
    result := [];
    var previous: Option<int> := None;
    for k := 0 to |stream|
      invariant previous == if k == 0 then None else Some(stream[k - 1].exercise)
      invariant result == Firsts(stream[..k])
    {
      assert stream[..k + 1][..k] == stream[..k];
      if Some(stream[k].exercise) == previous {
        continue;
      }
      previous := Some(stream[k].exercise);
      result := result + [stream[k]];
    }
    assert stream[..|stream|] == stream;
  }

  lemma {:induction false} FirstAt(stream: seq<Deviation>, i: nat) returns (m: nat)
    requires i < |Firsts(stream)|
    ensures m < |stream| && Firsts(stream)[i] == stream[m]
    ensures m > 0 ==> stream[m - 1].exercise != stream[m].exercise
  {
    var n := |stream| - 1;
    if i < |Firsts(stream[..n])| {
      m := FirstAt(stream[..n], i);
    } else {
      m := n;
    }
  }

  /** Each row kept is a longest one of its exercise. */
  lemma FirstIsLongest(stream: seq<Deviation>, r: Deviation, d: Deviation)
    requires Ordered(stream) && r in Firsts(stream) && d in stream && d.exercise == r.exercise
    ensures r in stream && d.extraSeconds <= r.extraSeconds
  {
    var i :| 0 <= i < |Firsts(stream)| && Firsts(stream)[i] == r;
    var m := FirstAt(stream, i);
    var n :| 0 <= n < |stream| && stream[n] == d;
    forall k | 0 <= k < m
      ensures stream[k].exercise < stream[m].exercise
    {
      assert k == m - 1 || stream[k].exercise <= stream[m - 1].exercise;
      assert stream[m - 1].exercise < stream[m].exercise;
    }
  }

  /** No exercise of the stream is left out. */
  lemma {:induction false} FirstCovers(stream: seq<Deviation>, n: nat) returns (r: Deviation)
    requires n < |stream|
    ensures r in Firsts(stream) && r.exercise == stream[n].exercise
    decreases |stream|
  {
    var last := |stream| - 1;
    if n < last {
      r := FirstCovers(stream[..last], n);
    } else if last > 0 && stream[last - 1].exercise == stream[last].exercise {
      r := FirstCovers(stream[..last], last - 1);
    } else {
      r := stream[n];
    }
  }

  /** One row per exercise, in increasing order of exercise. */
  lemma {:induction false} FirstsIncrease(stream: seq<Deviation>, i: nat, j: nat)
    requires Ordered(stream) && i < j < |Firsts(stream)|
    ensures Firsts(stream)[i].exercise < Firsts(stream)[j].exercise
    decreases |stream|
  {
    var n := |stream| - 1;
    var init := Firsts(stream[..n]);
    if j < |init| {
      FirstsIncrease(stream[..n], i, j);
    } else {
      var m := FirstAt(stream[..n], i);
      assert m < n && n > 0 && stream[n - 1].exercise != stream[n].exercise;
      assert stream[n - 1].exercise < stream[n].exercise;
      assert m < n - 1 ==> stream[m].exercise <= stream[n - 1].exercise;
    }
  }

  /**
   The query and the scan agree: for each exercise the query yields a row exactly when the
   scan over the submitter and their companions finds one, and both give the same deadline.
   */
  lemma QueryAgreesWithScan(rows: seq<Deviation>, works: seq<Work>, exercises: set<int>, submitter: int,
                            stream: seq<Deviation>, exercise: int, closing: int, students: seq<int>)
    requires IsStream(rows, works, exercises, submitter, stream) && exercise in exercises
    requires forall p :: p in students <==>
               p == submitter ||
               exists w :: w in works && w.exercise == exercise && submitter in w.submitters && p in w.submitters
    ensures (exists r :: r in Firsts(stream) && r.exercise == exercise) <==>
            Scan(rows, exercise, closing, students).Some?
    ensures forall r | r in Firsts(stream) && r.exercise == exercise ::
              NewDeadline(r, closing) == NewDeadline(Scan(rows, exercise, closing, students).value, closing)
  {
    forall p
      ensures p in Owners(students) <==> p in Companions(works, exercise, submitter)
    {
      CompanionsAre(works, exercise, submitter, p);
    }
    assert Owners(students) == Companions(works, exercise, submitter);
    ScanIsLongest(rows, exercise, closing, students);
    var best := Scan(rows, exercise, closing, students);
    if best.Some? {
      var n :| 0 <= n < |stream| && stream[n] == best.value;
      var r := FirstCovers(stream, n);
    }
    forall r | r in Firsts(stream) && r.exercise == exercise
      ensures best.Some? && r.extraSeconds == best.value.extraSeconds
    {
      QueryRowAgrees(rows, works, exercises, submitter, stream, exercise, best, r);
    }
  }

  lemma QueryRowAgrees(rows: seq<Deviation>, works: seq<Work>, exercises: set<int>, submitter: int,
                       stream: seq<Deviation>, exercise: int, best: Option<Deviation>, r: Deviation)
    requires IsStream(rows, works, exercises, submitter, stream) && exercise in exercises
    requires IsLongest(rows, exercise, Companions(works, exercise, submitter), best)
    requires r in Firsts(stream) && r.exercise == exercise
    ensures best.Some? && r.extraSeconds == best.value.extraSeconds
  {
    var i :| 0 <= i < |Firsts(stream)| && Firsts(stream)[i] == r;
    var m := FirstAt(stream, i);
    assert r in stream && Applies(r, exercise, Companions(works, exercise, submitter));
    assert best.value in stream;
    FirstIsLongest(stream, r, best.value);
  }
}
