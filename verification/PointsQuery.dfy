/** The points of one submitter in one exercise, by two database queries (exercise/submission_models.py). */
module PointsQuery {
  import opened Common
  import opened Grading

  /** What the queries read of a submission. */
  datatype Entry = Entry(status: Status, grade: int, forced: bool, time: int)

  datatype Mode = Best | Last

  /** The exercises whose points may be shown: all of them, or the given ones. */
  datatype Revealed = All | Only(ids: set<int>)

  predicate Hidden(revealed: Revealed, exercise: int) {
    revealed.Only? && exercise !in revealed.ids
  }

  /** The filter of an aggregate: forced submissions, or those in an accepted status. */
  datatype Filter = Forced | Eligible(includeUnofficial: bool)

  predicate Keeps(f: Filter, e: Entry) {
    match f
    case Forced => e.forced
    case Eligible(includeUnofficial) => e.status.Ready? || (includeUnofficial && e.status.UnofficialStatus?)
  }

  ghost predicate KeepsNone(f: Filter, entries: seq<Entry>) {
    forall i | 0 <= i < |entries| :: !Keeps(f, entries[i])
  }

  /** The largest grade among the filtered submissions, null if there are none. */
  function MaxGrade(f: Filter, entries: seq<Entry>): Option<int> {
    if entries == [] then None
    else
      var rest := MaxGrade(f, entries[1..]);
      if Keeps(f, entries[0]) && (rest.None? || rest.value < entries[0].grade) then Some(entries[0].grade) else rest
  }

  /** k is the position of a newest submission that is kept; of equally new ones any may come first. */
  ghost predicate IsNewest(f: Filter, entries: seq<Entry>, k: Option<nat>) {
    match k
    case None => KeepsNone(f, entries)
    case Some(n) =>
      n < |entries| && Keeps(f, entries[n]) &&
      forall i | 0 <= i < |entries| && Keeps(f, entries[i]) :: entries[i].time <= entries[n].time
  }

  function Coalesce(m: Option<int>): int {
    if m.Some? then m.value else 0
  }

  /** annotate_submitter_points, given the position that the ordered subquery yields. */
  function SubmitterPoints(entries: seq<Entry>, exercise: int, mode: Mode, revealed: Revealed, f: Filter,
                           newest: Option<nat>): int
    requires newest.Some? ==> newest.value < |entries|
  {
    var forced := MaxGrade(Forced, entries);
    if Hidden(revealed, exercise) then 0
    else if forced.Some? then forced.value
    else if mode.Last? then Coalesce(if newest.Some? then Some(entries[newest.value].grade) else None)
    else Coalesce(MaxGrade(f, entries))
  }

  /** annotate_best_submitter_points, which ignores the grading mode. */
  function BestSubmitterPoints(entries: seq<Entry>, exercise: int, revealed: Revealed, f: Filter): int {
    var forced := MaxGrade(Forced, entries);
    if Hidden(revealed, exercise) then 0
    else if forced.Some? then forced.value
    else Coalesce(MaxGrade(f, entries))
  }

  // ----- What the queries report ---------------------------------------------------------------------------

  lemma {:induction false} MaxGradeIsMax(f: Filter, entries: seq<Entry>)
    ensures MaxGrade(f, entries).None? <==> KeepsNone(f, entries)
    ensures forall i | 0 <= i < |entries| && Keeps(f, entries[i]) :: entries[i].grade <= MaxGrade(f, entries).value
    ensures MaxGrade(f, entries).Some? ==>
              exists i :: 0 <= i < |entries| && Keeps(f, entries[i]) && entries[i].grade == MaxGrade(f, entries).value
  {
    if entries != [] {
      var rest := entries[1..];
      MaxGradeIsMax(f, rest);
      assert forall i | 1 <= i < |entries| :: entries[i] == rest[i - 1];
      if i :| 0 <= i < |rest| && Keeps(f, rest[i]) && rest[i].grade == MaxGrade(f, rest).value {
        assert entries[i + 1] == rest[i];
      }
    }
  }

  /**
   The fast query never reports fewer points than the general one, whichever of the newest
   submissions the subquery finds. They agree exactly when the mode is BEST, or the points are
   hidden or forced, or no accepted submission beats the newest one.
   */
  lemma FastQueryNeverLess(entries: seq<Entry>, exercise: int, mode: Mode, revealed: Revealed, f: Filter,
                           newest: Option<nat>)
    requires f.Eligible? && IsNewest(f, entries, newest)
    ensures var general := SubmitterPoints(entries, exercise, mode, revealed, f, newest);
            var fast := BestSubmitterPoints(entries, exercise, revealed, f);
            general <= fast &&
            (general == fast <==>
               mode.Best? || Hidden(revealed, exercise) || !KeepsNone(Forced, entries) || newest.None? ||
               forall i | 0 <= i < |entries| && Keeps(f, entries[i]) :: entries[i].grade <= entries[newest.value].grade)
  {
    MaxGradeIsMax(Forced, entries);
    MaxGradeIsMax(f, entries);
    if newest.Some? {
      assert Keeps(f, entries[newest.value]);
    }
  }

  /** v is the largest grade of the picked submissions, or 0 without any. */
  ghost predicate IsLargest(entries: seq<Entry>, pick: Entry -> bool, v: int) {
    if forall i | 0 <= i < |entries| :: !pick(entries[i]) then v == 0
    else
      (exists i :: 0 <= i < |entries| && pick(entries[i]) && entries[i].grade == v) &&
      forall i | 0 <= i < |entries| && pick(entries[i]) :: entries[i].grade <= v
  }

  ghost predicate Accepted(includeUnofficial: bool, e: Entry) {
    e.status == Ready || (includeUnofficial && e.status == UnofficialStatus)
  }

  /**
   What the queries report: 0 for an exercise that is not revealed; else the largest forced grade, if
   any; else the largest accepted grade, or by the mode LAST that of a newest accepted submission.
   */
  lemma PointsAre(entries: seq<Entry>, exercise: int, mode: Mode, revealed: Revealed, includeUnofficial: bool,
                  newest: Option<nat>)
    requires match newest
             case None => forall i | 0 <= i < |entries| :: !Accepted(includeUnofficial, entries[i])
             case Some(n) =>
               n < |entries| && Accepted(includeUnofficial, entries[n]) &&
               forall i | 0 <= i < |entries| && Accepted(includeUnofficial, entries[i]) ::
                 entries[i].time <= entries[n].time
    ensures var f := Eligible(includeUnofficial);
            var general := SubmitterPoints(entries, exercise, mode, revealed, f, newest);
            var fast := BestSubmitterPoints(entries, exercise, revealed, f);
            if revealed.Only? && exercise !in revealed.ids then general == fast == 0
            else if exists i :: 0 <= i < |entries| && entries[i].forced then
              general == fast && IsLargest(entries, (e: Entry) => e.forced, fast)
            else
              IsLargest(entries, (e: Entry) => Accepted(includeUnofficial, e), fast) &&
              general == if mode.Best? then fast else if newest.Some? then entries[newest.value].grade else 0
  {
    MaxGradeIsMax(Forced, entries);
    MaxGradeIsMax(Eligible(includeUnofficial), entries);
    assert forall e :: Keeps(Eligible(includeUnofficial), e) <==> Accepted(includeUnofficial, e);
    if i :| 0 <= i < |entries| && entries[i].forced {
      assert Keeps(Forced, entries[i]);
    }
  }

  /** Submissions that are neither forced nor accepted change nothing: unofficial ones only when they are included. */
  lemma OnlyAcceptedCount(entries: seq<Entry>, e: Entry, exercise: int, revealed: Revealed, includeUnofficial: bool)
    requires !e.forced && e.status != Ready && (e.status == UnofficialStatus ==> !includeUnofficial)
    ensures BestSubmitterPoints([e] + entries, exercise, revealed, Eligible(includeUnofficial)) ==
            BestSubmitterPoints(entries, exercise, revealed, Eligible(includeUnofficial))
  {
    assert ([e] + entries)[1..] == entries;
  }

  /** Hidden points are 0; forced points come before all others; without accepted submissions there are 0 points. */
  lemma PointsPriorities(entries: seq<Entry>, exercise: int, mode: Mode, revealed: Revealed, f: Filter,
                         newest: Option<nat>, i: nat)
    requires f.Eligible? && IsNewest(f, entries, newest)
    ensures var general := SubmitterPoints(entries, exercise, mode, revealed, f, newest);
            var fast := BestSubmitterPoints(entries, exercise, revealed, f);
            (Hidden(revealed, exercise) ==> general == fast == 0) &&
            (!Hidden(revealed, exercise) && i < |entries| && entries[i].forced &&
               (forall j | 0 <= j < |entries| && entries[j].forced :: entries[j].grade <= entries[i].grade) ==>
               general == fast == entries[i].grade) &&
            (KeepsNone(Forced, entries) && KeepsNone(f, entries) ==> general == fast == 0)
  {
    MaxGradeIsMax(Forced, entries);
    MaxGradeIsMax(f, entries);
    if i < |entries| && entries[i].forced {
      assert Keeps(Forced, entries[i]);
    }
  }
}
