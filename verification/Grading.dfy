/** Points of one submission (exercise/submission_models.py). */
module Grading {
  import opened Common
  import opened Deviations
  import opened Timing

  datatype Status = Initialized | Waiting | Ready | Error | Rejected | UnofficialStatus

  datatype UnofficialType = DeadlinePassed | LimitExceeded

  /** The fields of a Submission row that grading reads or writes. */
  datatype Submission = Submission(
    status: Status, unofficialType: Option<UnofficialType>,
    grade: int, latePenaltyApplied: Option<real>, forceExercisePoints: bool,
    servicePoints: int, serviceMaxPoints: int)

  /** What set_points asks the exercise: its points, the timing of the submission and the spent limit. */
  datatype Setting = Setting(
    maxPoints: nat, timing: Timing, lateAllowed: bool, latePenalty: real, noSubmissionsLeft: bool)

  ghost predicate ValidSetting(e: Setting) {
    0.0 <= e.latePenalty <= 1.0
  }

  // ----- Rounding ----------------------------------------------------------------------------

  /** Python's round: to the nearest integer, halves to the even one. */
  function Round(x: real): int {
    var below := x.Floor;
    var part := x - below as real;
    if part < 0.5 || (part == 0.5 && below % 2 == 0) then below else below + 1
  }

  /** The result is a nearest integer, and the even one of two. */
  lemma RoundIsNearest(x: real)
    ensures -0.5 <= Round(x) as real - x <= 0.5
    ensures Round(x) as real - x == 0.5 || x - Round(x) as real == 0.5 ==> Round(x) % 2 == 0
  {
  }

  lemma RoundMonotone(x: real, y: real)
    requires x <= y
    ensures Round(x) <= Round(y)
  {
  }

  lemma RoundOfInteger(n: int)
    ensures Round(n as real) == n
  {
  }

  // ----- set_points ---------------------------------------------------------------------------

  function ServiceMax(e: Setting, points: int, maxPoints: int): int {
    if maxPoints == 0 && points > 0 then e.maxPoints else maxPoints
  }

  /** The points on the exercise's own scale, before any penalty. */
  function Scaled(scale: nat, points: int, maxPoints: int): real {
    if maxPoints > 0 then scale as real * points as real / maxPoints as real else 0.0
  }

  function Reduced(full: real, penalty: real): real {
    full - full * penalty
  }

  predicate Penalized(t: Timing) {
    t.Late? || t.ClosedAfter?
  }

  function Penalty(e: Setting): real {
    if e.lateAllowed then e.latePenalty else 0.0
  }

  /** The grade that set_points stores. */
  function GradeFor(e: Setting, points: int, maxPoints: int, noPenalties: bool): int {
    var full := Scaled(e.maxPoints, points, maxPoints);
    Round(if !noPenalties && Penalized(e.timing) then Reduced(full, Penalty(e)) else full)
  }

  /** set_points; `None` stands for the assertion on the given points failing. */
  function WithPoints(s: Submission, e: Setting, points: int, maxPoints: int, noPenalties: bool): Option<Submission> {
    var top := ServiceMax(e, points, maxPoints);
    if !(0 <= points <= top) then None
    else
      var graded := s.(servicePoints := points, serviceMaxPoints := top,
                       grade := GradeFor(e, points, top, noPenalties),
                       latePenaltyApplied :=
                         if !noPenalties && Penalized(e.timing) then Some(Penalty(e)) else None);
      var timed :=
        if !noPenalties && e.timing.Unofficial? then
          graded.(status := UnofficialStatus, unofficialType := Some(DeadlinePassed))
        else graded;
      Some(if !noPenalties && e.noSubmissionsLeft then
             timed.(status := UnofficialStatus, unofficialType := Some(LimitExceeded))
           else timed)
  }

  /** set_ready, as far as it changes the submission itself. */
  function WithReady(s: Submission, approveUnofficial: bool): Submission {
    if s.status != UnofficialStatus || s.forceExercisePoints || approveUnofficial then s.(status := Ready) else s
  }

  function Approved(s: Submission, e: Setting): Option<Submission> {
    match WithPoints(s, e, s.servicePoints, s.serviceMaxPoints, true)
    case None => None
    case Some(t) => Some(WithReady(t, true))
  }

  predicate IsApprovable(s: Submission) {
    s.latePenaltyApplied.Some? || s.status == UnofficialStatus
  }

  lemma ScaledBounds(scale: nat, points: int, maxPoints: int)
    requires 0 <= points <= maxPoints
    ensures 0.0 <= Scaled(scale, points, maxPoints) <= scale as real
  {
    if maxPoints > 0 {
      var m, p, q := scale as real, points as real, maxPoints as real;
      assert m * p <= m * q;
      assert m * p / q <= m * q / q == m;
    }
  }

  lemma ReducedBounds(full: real, penalty: real)
    requires 0.0 <= full && 0.0 <= penalty <= 1.0
    ensures 0.0 <= Reduced(full, penalty) <= full
  {
  }

  lemma RoundOrder(a: real, b: real, m: int)
    requires 0.0 <= a <= b <= m as real
    ensures 0 <= Round(a) <= Round(b) <= m
  {
    RoundOfInteger(0);
    RoundOfInteger(m);
    RoundMonotone(0.0, a);
    RoundMonotone(a, b);
    RoundMonotone(b, m as real);
  }

  lemma GradeForBounds(e: Setting, points: int, maxPoints: int, noPenalties: bool)
    requires ValidSetting(e) && 0 <= points <= maxPoints
    ensures 0 <= GradeFor(e, points, maxPoints, noPenalties) <= GradeFor(e, points, maxPoints, true) <= e.maxPoints
  {
    var full := Scaled(e.maxPoints, points, maxPoints);
    ScaledBounds(e.maxPoints, points, maxPoints);
    if !noPenalties && Penalized(e.timing) {
      ReducedBounds(full, Penalty(e));
      RoundOrder(Reduced(full, Penalty(e)), full, e.maxPoints);
    } else {
      RoundOrder(full, full, e.maxPoints);
    }
  }

  /** Better service points never give a lower grade, and on the exercise's own scale the grade is the points. */
  lemma GradeGrowsWithPoints(e: Setting, points: int, more: int, top: int, noPenalties: bool)
    requires ValidSetting(e) && 0 <= points <= more <= top
    ensures GradeFor(e, points, top, noPenalties) <= GradeFor(e, more, top, noPenalties)
    ensures top == e.maxPoints ==> GradeFor(e, points, top, true) == points
  {
    ScaledGrows(e.maxPoints, points, more, top);
    var a, b := Scaled(e.maxPoints, points, top), Scaled(e.maxPoints, more, top);
    if !noPenalties && Penalized(e.timing) {
      ReducedGrows(a, b, Penalty(e));
      RoundMonotone(Reduced(a, Penalty(e)), Reduced(b, Penalty(e)));
    } else {
      RoundMonotone(a, b);
    }
    if top == e.maxPoints {
      OwnScale(e.maxPoints, points);
      RoundOfInteger(points);
    }
  }

  lemma ScaledGrows(scale: nat, points: int, more: int, top: int)
    requires 0 <= points <= more <= top
    ensures Scaled(scale, points, top) <= Scaled(scale, more, top)
  {
    if top > 0 {
      QuotientGrows(scale as real, points as real, more as real, top as real);
    }
  }

  lemma OwnScale(scale: nat, points: int)
    requires 0 <= points <= scale
    ensures Scaled(scale, points, scale) == points as real
  {
    if scale > 0 {
      QuotientOfOwn(scale as real, points as real);
    }
  }

  lemma QuotientOfOwn(m: real, p: real)
    requires 0.0 < m
    ensures m * p / m == p
  {
  }

  lemma QuotientGrows(m: real, p: real, q: real, t: real)
    requires 0.0 <= m && p <= q && 0.0 < t
    ensures m * p / t <= m * q / t
  {
    assert m * p <= m * q;
  }

  lemma ReducedGrows(a: real, b: real, penalty: real)
    requires a <= b && 0.0 <= penalty <= 1.0
    ensures Reduced(a, penalty) <= Reduced(b, penalty)
  {
    assert Reduced(a, penalty) == a * (1.0 - penalty) && Reduced(b, penalty) == b * (1.0 - penalty);
  }

  /** What a submission is worth of its points: less only for penalised late or closed work. */
  ghost function Worth(e: Setting, noPenalties: bool): real {
    if !noPenalties && e.lateAllowed && (e.timing.Late? || e.timing.ClosedAfter?) then 1.0 - e.latePenalty else 1.0
  }

  /** g is an integer nearest to share / top. */
  ghost predicate IsNearest(g: int, share: real, top: real) {
    (g as real - 0.5) * top <= share <= (g as real + 0.5) * top
  }

  /**
   The grade that set_points stores is a nearest integer to the proportion of the exercise's maximum
   that the points are of the service's maximum, times what the work is worth; a service maximum of
   0 is read as that of the exercise. No points of 0 are graded 0.
   */
  lemma GradeIsProportional(s: Submission, e: Setting, points: int, maxPoints: int, noPenalties: bool)
    requires WithPoints(s, e, points, maxPoints, noPenalties).Some?
    ensures var t := WithPoints(s, e, points, maxPoints, noPenalties).value;
            var top := if maxPoints == 0 && points > 0 then e.maxPoints else maxPoints;
            if top == 0 then t.grade == 0
            else IsNearest(t.grade, e.maxPoints as real * points as real * Worth(e, noPenalties), top as real)
  {
    var top := ServiceMax(e, points, maxPoints);
    if top == 0 {
      RoundOfInteger(0);
      ReducedByNothing(0.0);
    } else {
      ScoreIsNearest(e, points, top, noPenalties);
    }
  }

  lemma ScoreIsNearest(e: Setting, points: int, top: int, noPenalties: bool)
    requires top > 0
    ensures IsNearest(GradeFor(e, points, top, noPenalties),
                      e.maxPoints as real * points as real * Worth(e, noPenalties), top as real)
  {
    var x, share := ExactScore(e, points, top, noPenalties);
    RoundedIsNearest(x, top as real, share);
  }

  lemma RoundedIsNearest(x: real, top: real, share: real)
    requires top > 0.0 && x * top == share
    ensures IsNearest(Round(x), share, top)
  {
    RoundIsNearest(x);
    TimesGrows(Round(x) as real - 0.5, x, top);
    TimesGrows(x, Round(x) as real + 0.5, top);
  }

  /** The score before rounding. */
  lemma ExactScore(e: Setting, points: int, top: int, noPenalties: bool) returns (x: real, share: real)
    requires top > 0
    ensures GradeFor(e, points, top, noPenalties) == Round(x) && x * top as real == share
    ensures share == e.maxPoints as real * points as real * Worth(e, noPenalties)
  {
    share := e.maxPoints as real * points as real * Worth(e, noPenalties);
    var full := Scaled(e.maxPoints, points, top);
    x := if !noPenalties && Penalized(e.timing) then Reduced(full, Penalty(e)) else full;
    ReducedIsShare(full, Penalty(e));
    assert x == full * Worth(e, noPenalties);
    ShareTimes(e.maxPoints as real * points as real, top as real, full, Worth(e, noPenalties));
  }

  lemma ReducedIsShare(full: real, penalty: real)
    ensures Reduced(full, penalty) == full * (1.0 - penalty) && full * 1.0 == full && full * (1.0 - 0.0) == full
  {
  }

  lemma ShareTimes(whole: real, q: real, full: real, w: real)
    requires q > 0.0 && full == whole / q
    ensures full * w * q == whole * w
  {
    assert full * q == whole;
    assert full * w * q == full * q * w;
  }

  lemma TimesGrows(a: real, b: real, q: real)
    requires a <= b && 0.0 < q
    ensures a * q <= b * q
  {
  }

  lemma HighPenaltyLeavesLittle(e: Setting, points: int, top: int)
    requires ValidSetting(e) && 0 <= points <= top && Penalized(e.timing) && e.lateAllowed && e.latePenalty > 0.99
    ensures GradeFor(e, points, top, false) as real <= 0.01 * e.maxPoints as real + 0.5
  {
    var full := Scaled(e.maxPoints, points, top);
    ScaledBounds(e.maxPoints, points, top);
    RoundIsNearest(Reduced(full, e.latePenalty));
    LittleIsLeft(full, e.maxPoints as real, e.latePenalty);
  }

  lemma LittleIsLeft(full: real, m: real, penalty: real)
    requires 0.0 <= full <= m && 0.99 < penalty <= 1.0
    ensures Reduced(full, penalty) <= 0.01 * m
  {
    ReducedIsShare(full, penalty);
    if full > 0.0 {
      TimesGrows(1.0 - penalty, 0.01, full);
    }
  }

  /** Points in range give a grade in range; points out of range are refused. */
  lemma SetPointsInBounds(s: Submission, e: Setting, points: int, maxPoints: int, noPenalties: bool)
    requires ValidSetting(e)
    ensures WithPoints(s, e, points, maxPoints, noPenalties).Some? <==>
            0 <= points <= (if maxPoints == 0 then e.maxPoints else maxPoints)
    ensures WithPoints(s, e, points, maxPoints, noPenalties).Some? ==>
            0 <= WithPoints(s, e, points, maxPoints, noPenalties).value.grade <= e.maxPoints
  {
    var top := ServiceMax(e, points, maxPoints);
    if 0 <= points <= top {
      GradeForBounds(e, points, top, noPenalties);
    }
  }

  /**
   Grading with penalties and marking ready: the submission ends up unofficial exactly when it
   came after the deadlines or beyond the limit, unless its points are forced.
   */
  lemma UnofficialIff(s: Submission, e: Setting, points: int, maxPoints: int)
    requires WithPoints(s, e, points, maxPoints, false).Some? && s.status != UnofficialStatus
    ensures var t := WithReady(WithPoints(s, e, points, maxPoints, false).value, false);
            (IsApprovable(t) <==>
               e.timing.Late? || e.timing.ClosedAfter? ||
               ((e.timing.Unofficial? || e.noSubmissionsLeft) && !s.forceExercisePoints)) &&
            t.status ==
              if (e.timing.Unofficial? || e.noSubmissionsLeft) && !s.forceExercisePoints then UnofficialStatus
              else Ready
    ensures var t := WithPoints(s, e, points, maxPoints, false).value;
            t.latePenaltyApplied ==
              (if e.timing.Late? || e.timing.ClosedAfter? then Some(if e.lateAllowed then e.latePenalty else 0.0)
               else None) &&
            t.unofficialType ==
              (if e.noSubmissionsLeft then Some(LimitExceeded)
               else if e.timing.Unofficial? then Some(DeadlinePassed) else s.unofficialType) &&
            t.servicePoints == points && t.serviceMaxPoints == ServiceMax(e, points, maxPoints)
  {
  }

  /**
   Approving a submission that was graded with penalties, at whatever time and whether or
   not it was marked ready in between, gives what grading without penalties gives, except
   that the recorded reason for being unofficial stays.
   */
  lemma ApprovalUndoesPenalties(s: Submission, e: Setting, now: Setting, points: int, maxPoints: int,
                                graded: Submission)
    requires ValidSetting(e) && now.maxPoints == e.maxPoints
    requires WithPoints(s, e, points, maxPoints, false).Some?
    requires var t := WithPoints(s, e, points, maxPoints, false).value; graded == t || graded == WithReady(t, false)
    ensures WithPoints(s, e, points, maxPoints, true).Some?
    ensures var fair := WithReady(WithPoints(s, e, points, maxPoints, true).value, true);
            Approved(graded, now) == Some(fair.(unofficialType := graded.unofficialType))
    ensures var approved := Approved(graded, now).value;
            graded.grade <= approved.grade && approved.status == Ready && !IsApprovable(approved)
  {
    GradeForBounds(e, points, ServiceMax(e, points, maxPoints), false);
  }

  // ----- Later work is never worth more ---------------------------------------------------------

  /** How the exercise sees a submission made at a time, under fixed rules and extensions. */
  function SettingAt(r: Rules, deviation: Option<Deviation>, maxPoints: nat, when: int,
                     noSubmissionsLeft: bool): Setting
  {
    Setting(maxPoints, GetTiming(r, deviation, when).0, r.lateAllowed, r.latePenalty, noSubmissionsLeft)
  }

  ghost predicate Running(r: Rules, when: int) {
    r.opening <= when <= ArchiveStart(r)
  }

  /** The same points are worth no more at the later of two times between opening and archiving. */
  ghost predicate NoGain(r: Rules, deviation: Option<Deviation>, when: int, later: int, maxPoints: nat, points: int,
                         top: int)
  {
    Running(r, when) && when <= later && Running(r, later) && 0 <= points <= top ==>
      GradeFor(SettingAt(r, deviation, maxPoints, later, false), points, top, false)
      <= GradeFor(SettingAt(r, deviation, maxPoints, when, false), points, top, false)
  }

  /** Late work loses points, and work still later is unofficial and loses none. */
  ghost predicate LateThenUnofficial(r: Rules, deviation: Option<Deviation>, when: int, later: int) {
    Running(r, when) && when <= later && Running(r, later) && r.lateAllowed && r.latePenalty > 0.0 &&
    GetTiming(r, deviation, when).0.Late? && GetTiming(r, deviation, later).0.Unofficial?
  }

  lemma NoGainUnless(r: Rules, deviation: Option<Deviation>, when: int, later: int, maxPoints: nat, points: int,
                     top: int)
    requires ValidRules(r) && !LateThenUnofficial(r, deviation, when, later)
    ensures NoGain(r, deviation, when, later, maxPoints, points, top)
  {
    if Running(r, when) && when <= later && Running(r, later) && 0 <= points <= top {
      TimingMovesForward(r, deviation, when, later);
      var e, f := SettingAt(r, deviation, maxPoints, when, false), SettingAt(r, deviation, maxPoints, later, false);
      GradeForBounds(f, points, top, false);
      if Penalized(e.timing) && !Penalized(f.timing) {
        ReducedByNothing(Scaled(maxPoints, points, top));
      }
    }
  }

  lemma ReducedByNothing(full: real)
    ensures Reduced(full, 0.0) == full
  {
  }

  lemma ReductionShows(penalty: real) returns (n: nat)
    requires 0.0 < penalty <= 1.0
    ensures Scaled(n, n, n) == n as real && Round(Reduced(n as real, penalty)) < Round(n as real)
  {
    n := (1.0 / penalty).Floor + 1;
    var full := n as real;
    assert full >= 1.0 / penalty;
    assert full * penalty >= 1.0 / penalty * penalty == 1.0;
    assert full * penalty >= 1.0;
    assert Reduced(full, penalty) == full - full * penalty <= full - 1.0;
    RoundMonotone(Reduced(full, penalty), (n - 1) as real);
    RoundOfInteger(n - 1);
    RoundOfInteger(n);
  }

  lemma GainWhen(r: Rules, deviation: Option<Deviation>, when: int, later: int) returns (n: nat)
    requires ValidRules(r) && LateThenUnofficial(r, deviation, when, later)
    ensures !NoGain(r, deviation, when, later, n, n, n)
  {
    n := ReductionShows(r.latePenalty);
  }

  /**
   The settings under which waiting can pay: unofficial submissions are accepted, late ones cost
   points, and a stretch of late time after opening and after the deadline ends before archiving.
   */
  predicate WaitingCanPay(r: Rules, deviation: Option<Deviation>) {
    r.acceptUnofficial && !r.confirmLevel && r.lateAllowed && r.latePenalty > 0.0 &&
    r.opening <= LastLate(r, deviation) && LastOpen(r, deviation) < LastLate(r, deviation) < ArchiveStart(r)
  }

  lemma WaitingCanPayIff(r: Rules, deviation: Option<Deviation>)
    requires ValidRules(r)
    ensures (exists when, later :: LateThenUnofficial(r, deviation, when, later)) <==> WaitingCanPay(r, deviation)
  {
    forall when, later | LateThenUnofficial(r, deviation, when, later)
      ensures WaitingCanPay(r, deviation)
    {
      TimingByDeadlines(r, deviation, when);
      TimingByDeadlines(r, deviation, later);
    }
    if WaitingCanPay(r, deviation) {
      var when := LastLate(r, deviation);
      TimingByDeadlines(r, deviation, when);
      TimingByDeadlines(r, deviation, when + 1);
      assert LateThenUnofficial(r, deviation, when, when + 1);
    }
  }

  /**
   Between opening and archiving, submitting later never yields a higher grade for the same
   points, exactly when the settings do not let penalised late work be followed by unofficial work.
   */
  lemma LaterNeverBetterIff(r: Rules, deviation: Option<Deviation>)
    requires ValidRules(r)
    ensures (forall when, later, maxPoints: nat, points, top ::
               NoGain(r, deviation, when, later, maxPoints, points, top)) <==>
            !WaitingCanPay(r, deviation)
  {
    WaitingCanPayIff(r, deviation);
    forall when, later | LateThenUnofficial(r, deviation, when, later)
      ensures exists n: nat :: !NoGain(r, deviation, when, later, n, n, n)
    {
      var n := GainWhen(r, deviation, when, later);
    }
    forall when, later, maxPoints: nat, points, top | !LateThenUnofficial(r, deviation, when, later)
      ensures NoGain(r, deviation, when, later, maxPoints, points, top)
    {
      NoGainUnless(r, deviation, when, later, maxPoints, points, top);
    }
  }

  /** Closing at 100, late work at half the points until 200: full points are worth 5 at 150 and 10 at 250. */
  lemma WaitingPaysHere()
    ensures var r := Rules(0, 100, true, 200, 0.5, false, true, 1000, None);
            ValidRules(r) && Running(r, 150) && Running(r, 250) &&
            GradeFor(SettingAt(r, None, 10, 150, false), 10, 10, false) == 5 &&
            GradeFor(SettingAt(r, None, 10, 250, false), 10, 10, false) == 10
  {
    RoundOfInteger(5);
    RoundOfInteger(10);
  }

  /** With unofficial submissions off there is nothing to gain by waiting. */
  lemma LaterNeverBetter(r: Rules, deviation: Option<Deviation>, when: int, later: int, maxPoints: nat, points: int,
                         top: int)
    requires ValidRules(r) && !r.acceptUnofficial
    ensures NoGain(r, deviation, when, later, maxPoints, points, top)
  {
    NoGainUnless(r, deviation, when, later, maxPoints, points, top);
  }

  // ----- The submission row -----------------------------------------------------------------------

  class SubmissionRow {
    var status: Status
    var unofficialType: Option<UnofficialType>
    var grade: int
    var latePenaltyApplied: Option<real>
    var forceExercisePoints: bool
    var servicePoints: int
    var serviceMaxPoints: int

    function Value(): Submission
      reads this
    {
      Submission(status, unofficialType, grade, latePenaltyApplied, forceExercisePoints, servicePoints,
                 serviceMaxPoints)
    }

    /** A new row, with the defaults of the model. */
    constructor ()
      ensures Value() == Submission(Initialized, None, 0, None, false, 0, 0)
    {
      status, unofficialType, grade := Initialized, None, 0;
      latePenaltyApplied, forceExercisePoints := None, false;
      servicePoints, serviceMaxPoints := 0, 0;
    }

    /** set_points; `ok` is false when its first assertion fails, and its last one cannot. */
    method SetPoints(e: Setting, points: int, maxPoints: int, noPenalties: bool) returns (ok: bool)
      requires ValidSetting(e)
      modifies this
      ensures ok ==> Some(Value()) == WithPoints(old(Value()), e, points, maxPoints, noPenalties)
      ensures !ok ==> Value() == old(Value()) && WithPoints(old(Value()), e, points, maxPoints, noPenalties) == None
      ensures ok ==> 0 <= grade <= e.maxPoints
      ensures ok && serviceMaxPoints > 0 ==>
                IsNearest(grade, e.maxPoints as real * points as real * Worth(e, noPenalties), serviceMaxPoints as real)
    {
      var top := maxPoints;
      if top == 0 && points > 0 {
        top := e.maxPoints;
      }
      if !(0 <= points <= top) {
        return false;
      }
      servicePoints := points;
      serviceMaxPoints := top;
      latePenaltyApplied := None;
      var adjusted := Scaled(e.maxPoints, points, top);
      if !noPenalties {
        if e.timing.Late? || e.timing.ClosedAfter? {
          latePenaltyApplied := Some(Penalty(e));
          adjusted := Reduced(adjusted, latePenaltyApplied.value);
        } else if e.timing.Unofficial? {
          status := UnofficialStatus;
          unofficialType := Some(DeadlinePassed);
        }
        if e.noSubmissionsLeft {
          status := UnofficialStatus;
          unofficialType := Some(LimitExceeded);
        }
      }
      grade := Round(adjusted);
      GradeForBounds(e, points, top, noPenalties);
      GradeIsProportional(old(Value()), e, points, maxPoints, noPenalties);
      return true;
    }

    method SetReady(approveUnofficial: bool)
      modifies this
      ensures Value() == WithReady(old(Value()), approveUnofficial)
    {
      if status != UnofficialStatus || forceExercisePoints || approveUnofficial {
        status := Ready;
      }
    }

    method ApprovePenalizedSubmission(e: Setting) returns (ok: bool)
      requires ValidSetting(e)
      modifies this
      ensures ok <==> Approved(old(Value()), e).Some?
      ensures ok ==> Some(Value()) == Approved(old(Value()), e)
      ensures ok ==> status == Ready && !IsApprovable(Value())
    {
      ok := SetPoints(e, servicePoints, serviceMaxPoints, true);
      if ok {
        SetReady(true);
      }
    }
  }
}
