/** When an exercise accepts submissions (exercise/exercise_models.py, course/models.py). Times are in seconds. */
module Timing {
  import opened Common
  import opened Deviations

  datatype Timing = ClosedBefore | Open | Late | Unofficial | ClosedAfter | Archived

  /** The order in which the timings follow each other; after the deadlines there are two kinds. */
  function Stage(t: Timing): int {
    match t
    case ClosedBefore => 0
    case Open => 1
    case Late => 2
    case Unofficial => 3
    case ClosedAfter => 3
    case Archived => 4
  }

  const YEAR := 365 * 24 * 60 * 60

  /** The settings of the module, the category and the course instance that decide timing. */
  datatype Rules = Rules(
    opening: int, closing: int,
    lateAllowed: bool, lateDeadline: int, latePenalty: real,
    confirmLevel: bool, acceptUnofficial: bool,
    ending: int, archiveTime: Option<int>)

  /** PercentField accepts values from 0 to 1. */
  ghost predicate ValidRules(r: Rules) {
    0.0 <= r.latePenalty <= 1.0
  }

  function ArchiveStart(r: Rules): int {
    if r.archiveTime.Some? then r.archiveTime.value else r.ending + YEAR
  }

  predicate IsArchived(r: Rules, when: int) {
    ArchiveStart(r) < when
  }

  predicate HaveExercisesBeenOpened(r: Rules, when: int) {
    r.opening <= when
  }

  predicate ExercisesOpen(r: Rules, when: int) {
    r.opening <= when <= r.closing
  }

  predicate IsLateSubmissionOpen(r: Rules, when: int) {
    r.lateAllowed && r.closing <= when <= r.lateDeadline
  }

  /** The percentage that late submissions are worth. */
  function LatePercent(r: Rules): int {
    if r.lateAllowed then ((1.0 - r.latePenalty) * 100.0).Floor else 0
  }

  /** get_timing, given the longest extension of the students: the timing and the deadline shown with it. */
  function GetTiming(r: Rules, deviation: Option<Deviation>, when: int): (Timing, int) {
    if IsArchived(r, when) then (Archived, ArchiveStart(r))
    else if !HaveExercisesBeenOpened(r, when) then (ClosedBefore, r.opening)
    else if ExercisesOpen(r, when) || r.confirmLevel then (Open, r.closing)
    else if deviation.Some? && when <= NewDeadline(deviation.value, r.closing) then
      (if deviation.value.withoutLatePenalty then Open else Late, NewDeadline(deviation.value, r.closing))
    else if IsLateSubmissionOpen(r, when) then (Late, r.lateDeadline)
    else
      var deadline :=
        if deviation.Some? then NewDeadline(deviation.value, r.closing)
        else if r.lateAllowed then r.lateDeadline
        else r.closing;
      (if r.acceptUnofficial then Unofficial else ClosedAfter, deadline)
  }

  /** one_has_access: the timings under which a submission is let through. */
  predicate HasAccess(t: Timing) {
    t.Open? || t.Late? || t.Unofficial?
  }

  /** As time passes, the timing only moves forward, and between the deadlines and archiving it stays the same. */
  lemma TimingMovesForward(r: Rules, deviation: Option<Deviation>, when: int, later: int)
    requires when <= later
    ensures var (before, after) := (GetTiming(r, deviation, when).0, GetTiming(r, deviation, later).0);
            Stage(before) <= Stage(after) && (Stage(before) == Stage(after) ==> before == after)
  {
  }

  /**
   More students never take access away, whatever extensions they bring and whichever of
   two equally long extensions is found first.
   */
  lemma MoreStudentsKeepAccess(rows: seq<Deviation>, exercise: int, r: Rules, when: int,
                               students: seq<int>, more: seq<int>)
    requires forall p | p in students :: p in more
    ensures HasAccess(GetTiming(r, Scan(rows, exercise, r.closing, students), when).0) ==>
            HasAccess(GetTiming(r, Scan(rows, exercise, r.closing, more), when).0)
  {
    ScanIsLongest(rows, exercise, r.closing, students);
    ScanIsLongest(rows, exercise, r.closing, more);
  }

  /** The last moment, without level confirmation, of normal and of late submissions. */
  function LastOpen(r: Rules, deviation: Option<Deviation>): int {
    if deviation.Some? && deviation.value.withoutLatePenalty
    then Max(r.closing, r.closing + deviation.value.extraSeconds)
    else r.closing
  }

  function LastLate(r: Rules, deviation: Option<Deviation>): int {
    var late := if r.lateAllowed then Max(r.closing, r.lateDeadline) else r.closing;
    if deviation.Some? then Max(late, r.closing + deviation.value.extraSeconds) else late
  }

  /** The timing at every moment: archived, not yet open, then level confirmation, then the two last moments. */
  lemma TimingIsExact(r: Rules, deviation: Option<Deviation>, when: int)
    ensures var timing := GetTiming(r, deviation, when).0;
            var archived := (if r.archiveTime.Some? then r.archiveTime.value else r.ending + 31536000) < when;
            var running := !archived && r.opening <= when;
            (timing.Archived? <==> archived) &&
            (timing.ClosedBefore? <==> !archived && when < r.opening) &&
            (timing.Open? <==> running && (r.confirmLevel || when <= LastOpen(r, deviation))) &&
            (timing.Late? <==> running && !r.confirmLevel && LastOpen(r, deviation) < when <= LastLate(r, deviation)) &&
            (timing.Unofficial? <==>
               running && !r.confirmLevel && LastLate(r, deviation) < when && r.acceptUnofficial) &&
            (timing.ClosedAfter? <==>
               running && !r.confirmLevel && LastLate(r, deviation) < when && !r.acceptUnofficial)
  {
  }

  /** The deadline shown: that of the module while it lasts, then the extension's, then the late one. */
  lemma DeadlineShown(r: Rules, deviation: Option<Deviation>, when: int)
    ensures var (timing, shown) := GetTiming(r, deviation, when);
            var late := if r.lateAllowed then r.lateDeadline else r.closing;
            match timing
            case Archived => shown < when && forall t :: GetTiming(r, deviation, t).0.Archived? <==> shown < t
            case ClosedBefore => shown == r.opening
            case Open => shown == if when <= r.closing || r.confirmLevel then r.closing
                                  else r.closing + deviation.value.extraSeconds
            case _ =>
              if deviation.Some? && !(r.closing + deviation.value.extraSeconds < when <= late)
              then shown == r.closing + deviation.value.extraSeconds
              else shown == late
  {
  }

  /** While the course runs, the timing is decided by two moments, and the deadline shown fits it. */
  lemma TimingByDeadlines(r: Rules, deviation: Option<Deviation>, when: int)
    requires !r.confirmLevel && r.opening <= when <= ArchiveStart(r)
    ensures var (timing, shown) := GetTiming(r, deviation, when);
            (timing.Open? <==> when <= LastOpen(r, deviation)) &&
            (timing.Late? <==> LastOpen(r, deviation) < when <= LastLate(r, deviation)) &&
            (timing.Unofficial? <==> LastLate(r, deviation) < when && r.acceptUnofficial) &&
            (timing.ClosedAfter? <==> LastLate(r, deviation) < when && !r.acceptUnofficial) &&
            (when <= shown <==> timing.Open? || timing.Late?)
  {
  }
}
