/** Reveal rules and the states they are evaluated on (exercise/reveal_models.py, exercise/reveal_states.py). */
module Reveal {
  import opened Common
  import opened Sums
  import opened Deviations
  import opened Timing
  import Grading

  // ----- What the points cache supplies ---------------------------------------------------------

  /** The times that an exercise entry and its module's entry both carry. */
  datatype Times = Times(closing: int, lateAllowed: bool, lateTime: int, latePercent: int)

  datatype ExercisePoints = ExercisePoints(
    id: int, times: Times, personalDeadline: Option<int>,
    submissionCount: nat, maxSubmissions: nat, personalMaxSubmissions: Option<int>,
    points: int, maxPoints: int)

  /** An entry of a module's tree: an exercise or another learning object, with its children. */
  datatype Entry = Entry(exercise: Option<ExercisePoints>, children: seq<Entry>)

  datatype ModulePoints = ModulePoints(id: int, times: Times, maxPoints: int, children: seq<Entry>)

  function TimesOf(r: Rules): Times {
    Times(r.closing, r.lateAllowed, r.lateDeadline, LatePercent(r))
  }

  // ----- Deadlines ----------------------------------------------------------------------------------

  /** The larger of the closing time and, if late work is worth anything, the late deadline. */
  function CommonDeadline(t: Times): int {
    if t.lateAllowed && t.latePercent > 0 then Max(t.closing, t.lateTime) else t.closing
  }

  function ExerciseDeadline(e: ExercisePoints): int {
    var common := CommonDeadline(e.times);
    if e.personalDeadline.Some? then Max(common, e.personalDeadline.value) else common
  }

  /** The row with the most extra time among those of the given exercises. */
  ghost predicate IsLargest(rows: seq<Deviation>, exercises: set<int>, row: Option<Deviation>) {
    match row
    case None => forall d | d in rows :: d.exercise !in exercises
    case Some(m) =>
      m in rows && m.exercise in exercises &&
      forall d | d in rows && d.exercise in exercises :: d.extraSeconds <= m.extraSeconds
  }

  /** The deadline for everyone in one exercise, given the row with the most extra time. */
  function LatestDeadline(e: ExercisePoints, largest: Option<Deviation>): int {
    var common := CommonDeadline(e.times);
    if largest.Some? then Max(common, NewDeadline(largest.value, e.times.closing)) else common
  }

  /** The cache's personal deadline is that of a longest extension of the student and their companions. */
  ghost predicate Consistent(e: ExercisePoints, rows: seq<Deviation>, companions: set<int>) {
    exists best: Option<Deviation> ::
      IsLongest(rows, e.id, companions, best) &&
      e.personalDeadline == if best.Some? then Some(NewDeadline(best.value, e.times.closing)) else None
  }

  // ----- Rules -------------------------------------------------------------------------------------

  datatype Trigger = Manual | Immediate | AtTime | Deadline | DeadlineAll | Completion | DeadlineOrFullPoints

  datatype Rule = Rule(trigger: Trigger, delayMinutes: Option<int>, time: Option<int>, currentlyRevealed: bool)

  /** The answers of a BaseRevealState. */
  datatype State = State(
    points: Option<int>, maxPoints: Option<int>,
    submissions: Option<int>, maxSubmissions: Option<int>,
    deadline: Option<int>, latestDeadline: Option<int>)

  function Delay(rule: Rule): int {
    if rule.delayMinutes.Some? then rule.delayMinutes.value * 60 else 0
  }

  function RevealTime(rule: Rule, s: State): Option<int> {
    match rule.trigger
    case AtTime => rule.time
    case Deadline => if s.deadline.Some? then Some(s.deadline.value + Delay(rule)) else None
    case DeadlineOrFullPoints => if s.deadline.Some? then Some(s.deadline.value + Delay(rule)) else None
    case DeadlineAll => if s.latestDeadline.Some? then Some(s.latestDeadline.value + Delay(rule)) else None
    case _ => None
  }

  predicate DueToTime(rule: Rule, s: State, when: int) {
    var t := RevealTime(rule, s);
    t.Some? && when > t.value
  }

  predicate DueToFullPoints(s: State) {
    s.points.Some? && s.maxPoints.Some? && s.points.value >= s.maxPoints.value
  }

  predicate DueToMaxSubmissions(s: State) {
    s.submissions.Some? && s.maxSubmissions.Some? && 0 < s.maxSubmissions.value <= s.submissions.value
  }

  predicate IsRevealed(rule: Rule, s: State, when: int) {
    match rule.trigger
    case Manual => rule.currentlyRevealed
    case Immediate => true
    case AtTime => DueToTime(rule, s, when)
    case Deadline => DueToTime(rule, s, when)
    case DeadlineAll => DueToTime(rule, s, when)
    case Completion => DueToFullPoints(s) || DueToMaxSubmissions(s)
    case DeadlineOrFullPoints => DueToFullPoints(s) || DueToTime(rule, s, when)
  }

  function MaxSubmissions(e: ExercisePoints): int {
    if e.personalMaxSubmissions.Some? then e.personalMaxSubmissions.value else e.maxSubmissions
  }

  function ExerciseState(e: ExercisePoints, largest: Option<Deviation>): State {
    State(Some(e.points), Some(e.maxPoints), Some(e.submissionCount), Some(MaxSubmissions(e)),
          Some(ExerciseDeadline(e)), Some(LatestDeadline(e, largest)))
  }

  /** The deadlines have passed by more than the delay: the module's, the late one if it counts, a personal one. */
  ghost predicate AllPassed(r: Rules, personal: Option<int>, delay: int, when: int) {
    r.closing + delay < when &&
    (r.lateAllowed && r.latePenalty <= 0.99 ==> r.lateDeadline + delay < when) &&
    (personal.Some? ==> personal.value + delay < when)
  }

  /** When each kind of rule reveals an exercise, from the settings, the rows and the student's points. */
  lemma RevealedIff(r: Rules, e: ExercisePoints, largest: Option<Deviation>, rule: Rule, when: int)
    requires ValidRules(r) && e.times == TimesOf(r)
    ensures var delay := if rule.delayMinutes.Some? then 60 * rule.delayMinutes.value else 0;
            var full := e.maxPoints <= e.points;
            var limit := if e.personalMaxSubmissions.Some? then e.personalMaxSubmissions.value else e.maxSubmissions;
            IsRevealed(rule, ExerciseState(e, largest), when) <==>
            match rule.trigger
            case Manual => rule.currentlyRevealed
            case Immediate => true
            case AtTime => rule.time.Some? && rule.time.value < when
            case Deadline => AllPassed(r, e.personalDeadline, delay, when)
            case DeadlineAll =>
              AllPassed(r, if largest.Some? then Some(r.closing + largest.value.extraSeconds) else None, delay, when)
            case Completion => full || 0 < limit <= e.submissionCount
            case DeadlineOrFullPoints => full || AllPassed(r, e.personalDeadline, delay, when)
  {
    LatePercentIsFloor(r);
  }

  lemma LatePercentIsFloor(r: Rules)
    requires ValidRules(r)
    ensures 0 <= LatePercent(r) <= 100
    ensures LatePercent(r) > 0 <==> r.lateAllowed && r.latePenalty <= 0.99
  {
  }

  /** The reveal time is the moment after which time alone reveals; what is revealed stays revealed. */
  lemma RevealTimeIsExact(rule: Rule, s: State, when: int, later: int)
    requires when <= later
    ensures IsRevealed(rule, s, when) ==> IsRevealed(rule, s, later)
    ensures rule.trigger.AtTime? || rule.trigger.Deadline? || rule.trigger.DeadlineAll? ||
            (rule.trigger.DeadlineOrFullPoints? && !DueToFullPoints(s)) ==>
              (IsRevealed(rule, s, when) <==> RevealTime(rule, s).Some? && RevealTime(rule, s).value < when)
    ensures rule.trigger.Manual? || rule.trigger.Immediate? || rule.trigger.Completion? ==>
              RevealTime(rule, s).None? && (IsRevealed(rule, s, when) <==> IsRevealed(rule, s, later))
  {
  }

  // ----- Revealing never precedes the end of submitting --------------------------------------------

  /** No personal deadline lies after the deadline for everyone. */
  lemma PersonalWithinLatest(e: ExercisePoints, rows: seq<Deviation>, companions: set<int>, largest: Option<Deviation>)
    requires Consistent(e, rows, companions) && IsLargest(rows, {e.id}, largest)
    ensures ExerciseDeadline(e) <= LatestDeadline(e, largest)
  {
    ExerciseWithin(e, rows, {e.id}, companions, largest);
  }

  /**
   Once a deadline rule has revealed something to a student, the exercise is not open to
   that student, alone or with companions; it may accept late work, but only at a penalty of more
   than 99 percent.
   */
  lemma RevealedOnlyAfterClosing(r: Rules, rows: seq<Deviation>, companions: set<int>, students: seq<int>,
                                 e: ExercisePoints, largest: Option<Deviation>, rule: Rule, when: int)
    requires ValidRules(r) && !r.confirmLevel && e.times == TimesOf(r)
    requires Consistent(e, rows, companions) && IsLargest(rows, {e.id}, largest)
    requires Owners(students) <= companions
    requires rule.trigger.Deadline? || rule.trigger.DeadlineAll?
    requires rule.delayMinutes.Some? ==> 0 <= rule.delayMinutes.value
    requires IsRevealed(rule, ExerciseState(e, largest), when)
    ensures var timing := GetTiming(r, Scan(rows, e.id, r.closing, students), when).0;
            !timing.Open? && (timing.Late? ==> r.lateAllowed && r.latePenalty > 0.99)
  {
    PersonalWithinLatest(e, rows, companions, largest);
    ScanIsLongest(rows, e.id, r.closing, students);
    var best: Option<Deviation> :| IsLongest(rows, e.id, companions, best) &&
      e.personalDeadline == if best.Some? then Some(NewDeadline(best.value, e.times.closing)) else None;
    LatePercentIsFloor(r);
  }

  /** So late work is then graded at a hundredth of the maximum at most, up to rounding. */
  lemma RevealedWorkIsWorthLittle(r: Rules, rows: seq<Deviation>, companions: set<int>, students: seq<int>,
                                  e: ExercisePoints, largest: Option<Deviation>, rule: Rule, when: int,
                                  maxPoints: nat, points: int, top: int)
    requires ValidRules(r) && !r.confirmLevel && e.times == TimesOf(r)
    requires Consistent(e, rows, companions) && IsLargest(rows, {e.id}, largest)
    requires Owners(students) <= companions
    requires rule.trigger.Deadline? || rule.trigger.DeadlineAll?
    requires rule.delayMinutes.Some? ==> 0 <= rule.delayMinutes.value
    requires IsRevealed(rule, ExerciseState(e, largest), when) && 0 <= points <= top
    ensures var setting := Grading.SettingAt(r, Scan(rows, e.id, r.closing, students), maxPoints, when, false);
            setting.timing.Late? ==>
              Grading.GradeFor(setting, points, top, false) as real <= 0.01 * maxPoints as real + 0.5
  {
    RevealedOnlyAfterClosing(r, rows, companions, students, e, largest, rule, when);
    var setting := Grading.SettingAt(r, Scan(rows, e.id, r.closing, students), maxPoints, when, false);
    if setting.timing.Late? {
      Grading.HighPenaltyLeavesLittle(setting, points, top);
    }
  }

  /** A rule for everyone's deadline reveals no earlier than one for the personal deadline whose delay is no longer. */
  lemma AllNeverBeforePersonal(e: ExercisePoints, rows: seq<Deviation>, companions: set<int>,
                               largest: Option<Deviation>, all: Rule, personal: Rule, when: int)
    requires Consistent(e, rows, companions) && IsLargest(rows, {e.id}, largest)
    requires all.trigger.DeadlineAll? && personal.trigger.Deadline? && Delay(personal) <= Delay(all)
    ensures IsRevealed(all, ExerciseState(e, largest), when) ==> IsRevealed(personal, ExerciseState(e, largest), when)
  {
    PersonalWithinLatest(e, rows, companions, largest);
  }

  // ----- Modules ---------------------------------------------------------------------------------------

  function Own(entry: Entry): seq<ExercisePoints> {
    if entry.exercise.Some? then [entry.exercise.value] else []
  }

  /** The exercises of a tree, each before its children. */
  function Flatten(entries: seq<Entry>): seq<ExercisePoints> {
    if entries == [] then []
    else
      var last := entries[|entries| - 1];
      Flatten(entries[..|entries| - 1]) + (Own(last) + Flatten(last.children))
  }

  /** The recursion of _get_exercises, appending to one list. */
  method Collect(children: seq<Entry>, exercises: seq<ExercisePoints>) returns (r: seq<ExercisePoints>)
    ensures r == exercises + Flatten(children)
    decreases children
  {
    r := exercises;
    for i := 0 to |children|
      invariant r == exercises + Flatten(children[..i])
    {
      var entry := children[i];
      assert children[..i + 1][..i] == children[..i];
      if entry.exercise.Some? {
        r := r + [entry.exercise.value];
      }
      assert r == exercises + (Flatten(children[..i]) + Own(entry));
      Regroup(exercises, Flatten(children[..i]), Own(entry), Flatten(entry.children));
      r := Collect(entry.children, r);
    }
    assert children[..|children|] == children;
  }

  /** The exercise is the entry itself or somewhere below it. */
  ghost predicate InEntry(e: ExercisePoints, entry: Entry) {
    entry.exercise == Some(e) || Occurs(e, entry.children)
  }

  ghost predicate Occurs(e: ExercisePoints, entries: seq<Entry>) {
    exists entry :: entry in entries && InEntry(e, entry)
  }

  lemma OccursInLast(e: ExercisePoints, init: seq<Entry>, last: Entry)
    ensures Occurs(e, init + [last]) <==> Occurs(e, init) || InEntry(e, last)
  {
    assert last in init + [last];
    assert forall entry :: entry in init + [last] <==> entry in init || entry == last;
  }

  /** Flattening a tree finds every exercise at any depth, and nothing else. */
  lemma {:induction false} FlattenIsComplete(e: ExercisePoints, entries: seq<Entry>)
    ensures e in Flatten(entries) <==> Occurs(e, entries)
    decreases entries
  {
    if entries != [] {
      var init, last := entries[..|entries| - 1], entries[|entries| - 1];
      FlattenIsComplete(e, init);
      FlattenIsComplete(e, last.children);
      assert entries == init + [last];
      OccursInLast(e, init, last);
      assert e in Own(last) + Flatten(last.children) <==> InEntry(e, last);
    }
  }

  lemma Regroup<T>(a: seq<T>, b: seq<T>, c: seq<T>, d: seq<T>)
    ensures a + (b + c) + d == a + (b + (c + d))
  {
  }

  function Greatest(es: seq<ExercisePoints>): (m: int)
    requires es != []
    ensures forall e | e in es :: ExerciseDeadline(e) <= m
    ensures exists e :: e in es && m == ExerciseDeadline(e)
  {
    var rest := es[..|es| - 1];
    var last := es[|es| - 1];
    assert es == rest + [last];
    if rest == [] then ExerciseDeadline(last) else Max(Greatest(rest), ExerciseDeadline(last))
  }

  function ModuleDeadline(m: ModulePoints): int {
    var es := Flatten(m.children);
    if es == [] then CommonDeadline(m.times) else Greatest(es)
  }

  datatype Lookup = Found(deadline: int) | KeyError

  /** Everyone's deadline in a module, given the row with the most extra time among its exercises. */
  function ModuleLatest(m: ModulePoints, largest: Option<Deviation>): Lookup {
    var es := Flatten(m.children);
    var common := CommonDeadline(m.times);
    if es == [] || largest.None? then Found(common)
    else
      var d := ById(es);
      if largest.value.exercise !in d then KeyError
      else Found(Max(common, NewDeadline(largest.value, d[largest.value.exercise].times.closing)))
  }

  /** The exercises by id. */
  function ById(es: seq<ExercisePoints>): (d: map<int, ExercisePoints>)
    ensures forall id | id in d :: d[id] in es && d[id].id == id
    ensures forall e | e in es :: e.id in d
  {
    if es == [] then map[]
    else
      assert es == es[..|es| - 1] + [es[|es| - 1]];
      ById(es[..|es| - 1])[es[|es| - 1].id := es[|es| - 1]]
  }

  method Index(es: seq<ExercisePoints>) returns (d: map<int, ExercisePoints>)
    ensures d == ById(es)
  {
    d := map[];
    for i := 0 to |es|
      invariant d == ById(es[..i])
    {
      ByIdNext(es, i);
      d := d[es[i].id := es[i]];
    }
    assert es[..|es|] == es;
  }

  lemma ByIdNext(es: seq<ExercisePoints>, i: nat)
    requires i < |es|
    ensures ById(es[..i + 1]) == ById(es[..i])[es[i].id := es[i]]
  {
    assert es[..i + 1][..i] == es[..i];
  }

  /** A module as the cache describes it: all entries carry the module's times, all exercises are the module's. */
  ghost predicate ConsistentModule(m: ModulePoints, rows: seq<Deviation>, ids: set<int>,
                                   companions: map<int, set<int>>)
  {
    forall e | e in Flatten(m.children) ::
      e.times == m.times && e.id in ids && e.id in companions && Consistent(e, rows, companions[e.id])
  }

  /**
   The personal deadline, a maximum over the whole tree, lies within everyone's deadline, which
   rests on one row only; and looking that row up fails only for an exercise outside the tree.
   */
  lemma ModulePersonalWithinLatest(m: ModulePoints, rows: seq<Deviation>, ids: set<int>, companions: map<int, set<int>>,
                                   largest: Option<Deviation>)
    requires ConsistentModule(m, rows, ids, companions) && IsLargest(rows, ids, largest)
    ensures ModuleLatest(m, largest).KeyError? <==>
            Flatten(m.children) != [] && largest.Some? &&
            forall e | e in Flatten(m.children) :: e.id != largest.value.exercise
    ensures ModuleLatest(m, largest).Found? ==> ModuleDeadline(m) <= ModuleLatest(m, largest).deadline
  {
    var es := Flatten(m.children);
    if es != [] && ModuleLatest(m, largest).Found? {
      var g := Greatest(es);
      var e :| e in es && g == ExerciseDeadline(e);
      ExerciseWithin(e, rows, ids, companions[e.id], largest);
    }
  }

  lemma ExerciseWithin(e: ExercisePoints, rows: seq<Deviation>, ids: set<int>, companions: set<int>,
                       largest: Option<Deviation>)
    requires e.id in ids && Consistent(e, rows, companions) && IsLargest(rows, ids, largest)
    ensures ExerciseDeadline(e) <= LatestDeadline(e, largest)
  {
    var best: Option<Deviation> :| IsLongest(rows, e.id, companions, best) &&
      e.personalDeadline == if best.Some? then Some(NewDeadline(best.value, e.times.closing)) else None;
  }

  // ----- Used-up submissions ---------------------------------------------------------------------------------

  function Limits(es: seq<ExercisePoints>): (l: seq<int>) {
    seq(|es|, i requires 0 <= i < |es| => MaxSubmissions(es[i]))
  }

  /** The submissions of each exercise, counted up to its limit. */
  function Counted(es: seq<ExercisePoints>): (c: seq<int>) {
    seq(|es|, i requires 0 <= i < |es| =>
      if es[i].submissionCount < MaxSubmissions(es[i]) then es[i].submissionCount as int else MaxSubmissions(es[i]))
  }

  function Points(es: seq<ExercisePoints>): (p: seq<int>)
    ensures |p| == |es| && forall i | 0 <= i < |es| :: p[i] == es[i].points
  {
    seq(|es|, i requires 0 <= i < |es| => es[i].points)
  }

  function ModuleState(m: ModulePoints, latest: Option<int>): State {
    var es := Flatten(m.children);
    State(Some(Sum(Points(es))), Some(m.maxPoints), Some(Sum(Counted(es))), Some(Sum(Limits(es))),
          Some(ModuleDeadline(m)), latest)
  }

  lemma {:induction false} SumPositive(a: seq<int>)
    requires forall i | 0 <= i < |a| :: 0 <= a[i]
    ensures 0 < Sum(a) <==> exists i :: 0 <= i < |a| && 0 < a[i]
    ensures 0 <= Sum(a)
  {
    if a != [] {
      SumPositive(a[1..]);
      if i :| 0 <= i < |a| && 0 < a[i] {
        assert i > 0 ==> a[1..][i - 1] == a[i];
      }
    }
  }

  /** So it is for a module, whenever everyone's deadline can be looked up. */
  lemma ModuleAllNeverBeforePersonal(m: ModulePoints, rows: seq<Deviation>, ids: set<int>,
                                     companions: map<int, set<int>>, largest: Option<Deviation>,
                                     all: Rule, personal: Rule, when: int)
    requires ConsistentModule(m, rows, ids, companions) && IsLargest(rows, ids, largest)
    requires ModuleLatest(m, largest).Found?
    requires all.trigger.DeadlineAll? && personal.trigger.Deadline? && Delay(personal) <= Delay(all)
    ensures var state := ModuleState(m, Some(ModuleLatest(m, largest).deadline));
            IsRevealed(all, state, when) ==> IsRevealed(personal, state, when)
  {
    ModulePersonalWithinLatest(m, rows, ids, companions, largest);
  }

  /**
   Comparing the two sums says that every exercise of the tree is at its personal limit and
   that the limits add up to something; for limits that are not negative, that one is positive.
   */
  lemma ModuleExhaustedIff(m: ModulePoints, latest: Option<int>)
    ensures var es := Flatten(m.children);
            DueToMaxSubmissions(ModuleState(m, latest)) <==>
            (forall i | 0 <= i < |es| :: MaxSubmissions(es[i]) <= es[i].submissionCount) && 0 < Sum(Limits(es))
    ensures var es := Flatten(m.children);
            (forall i | 0 <= i < |es| :: 0 <= MaxSubmissions(es[i])) ==>
              (0 < Sum(Limits(es)) <==> exists i :: 0 <= i < |es| && 0 < MaxSubmissions(es[i]))
  {
    var es := Flatten(m.children);
    var c, l := Counted(es), Limits(es);
    SumGrows(c, l);
    if c == l {
      forall i | 0 <= i < |es|
        ensures MaxSubmissions(es[i]) <= es[i].submissionCount
      {
        assert c[i] == l[i];
      }
    }
    if forall i | 0 <= i < |es| :: 0 <= MaxSubmissions(es[i]) {
      SumPositive(l);
      if i :| 0 <= i < |es| && 0 < MaxSubmissions(es[i]) {
        assert l[i] > 0;
      }
    }
  }

  /** The deadlines of the module and of all its exercises have passed by more than the delay. */
  ghost predicate AllPersonalPassed(r: Rules, es: seq<ExercisePoints>, delay: int, when: int) {
    AllPassed(r, None, delay, when) && forall e | e in es :: AllPassed(r, e.personalDeadline, delay, when)
  }

  /** Every exercise is at its limit, and the limits add up to something. */
  ghost predicate UsedUp(es: seq<ExercisePoints>) {
    (forall i | 0 <= i < |es| :: MaxSubmissions(es[i]) <= es[i].submissionCount) && 0 < Sum(Limits(es))
  }

  /**
   When each kind of rule should reveal a module: by deadlines, when those of all its exercises have
   passed; by completion, when the points of its exercises add up or all of them are used up.
   */
  ghost predicate ShouldReveal(r: Rules, m: ModulePoints, largest: Option<Deviation>, rule: Rule, when: int) {
    var es := Flatten(m.children);
    var delay := if rule.delayMinutes.Some? then 60 * rule.delayMinutes.value else 0;
    var full := m.maxPoints <= Sum(Points(es));
    match rule.trigger
    case Manual => rule.currentlyRevealed
    case Immediate => true
    case AtTime => rule.time.Some? && rule.time.value < when
    case Deadline => AllPersonalPassed(r, es, delay, when)
    case DeadlineAll =>
      var extra := if largest.Some? && es != [] then Some(r.closing + largest.value.extraSeconds) else None;
      AllPassed(r, extra, delay, when)
    case Completion => full || UsedUp(es)
    case DeadlineOrFullPoints => full || AllPersonalPassed(r, es, delay, when)
  }

  lemma ModuleRevealedIff(r: Rules, m: ModulePoints, largest: Option<Deviation>, rule: Rule, when: int)
    requires ValidRules(r) && m.times == TimesOf(r) && forall e | e in Flatten(m.children) :: e.times == m.times
    requires ModuleLatest(m, largest).Found?
    ensures IsRevealed(rule, ModuleState(m, Some(ModuleLatest(m, largest).deadline)), when) <==>
            ShouldReveal(r, m, largest, rule, when)
  {
    if rule.trigger.Completion? {
      ModuleExhaustedIff(m, Some(ModuleLatest(m, largest).deadline));
    } else if rule.trigger.DeadlineAll? {
      var delay := if rule.delayMinutes.Some? then 60 * rule.delayMinutes.value else 0;
      assert Delay(rule) == delay;
      ModuleLatestPassed(r, m, largest, delay, when);
    } else {
      ModuleRevealedByOwn(r, m, Some(ModuleLatest(m, largest).deadline), largest, rule, when);
    }
  }

  lemma ModuleRevealedByOwn(r: Rules, m: ModulePoints, latest: Option<int>, largest: Option<Deviation>, rule: Rule,
                            when: int)
    requires ValidRules(r) && m.times == TimesOf(r) && forall e | e in Flatten(m.children) :: e.times == m.times
    requires !rule.trigger.DeadlineAll? && !rule.trigger.Completion?
    ensures IsRevealed(rule, ModuleState(m, latest), when) <==> ShouldReveal(r, m, largest, rule, when)
  {
    var delay := if rule.delayMinutes.Some? then 60 * rule.delayMinutes.value else 0;
    var s := ModuleState(m, latest);
    assert Delay(rule) == delay && s.deadline == Some(ModuleDeadline(m));
    ModuleDeadlinePassed(r, m, delay, when);
    assert rule.trigger.Deadline? || rule.trigger.DeadlineOrFullPoints? ==>
             (DueToTime(rule, s, when) <==> AllPersonalPassed(r, Flatten(m.children), delay, when));
  }

  lemma ModuleLatestPassed(r: Rules, m: ModulePoints, largest: Option<Deviation>, delay: int, when: int)
    requires ValidRules(r) && m.times == TimesOf(r) && forall e | e in Flatten(m.children) :: e.times == m.times
    requires ModuleLatest(m, largest).Found?
    ensures var extra :=
              if largest.Some? && Flatten(m.children) != [] then Some(r.closing + largest.value.extraSeconds) else None;
            ModuleLatest(m, largest).deadline + delay < when <==> AllPassed(r, extra, delay, when)
  {
    LatePercentIsFloor(r);
  }

  lemma ModuleDeadlinePassed(r: Rules, m: ModulePoints, delay: int, when: int)
    requires ValidRules(r) && m.times == TimesOf(r) && forall e | e in Flatten(m.children) :: e.times == m.times
    ensures ModuleDeadline(m) + delay < when <==> AllPersonalPassed(r, Flatten(m.children), delay, when)
  {
    LatePercentIsFloor(r);
    var es := Flatten(m.children);
    forall e | e in es
      ensures ExerciseDeadline(e) + delay < when <==> AllPassed(r, e.personalDeadline, delay, when)
    {
    }
    if es != [] {
      var g := Greatest(es);
      var e :| e in es && g == ExerciseDeadline(e);
    }
  }

  // ----- The state objects, which remember the row they fetched ------------------------------------------------

  class ExerciseRevealState {
    const cache: ExercisePoints
    var maxDeviationFetched: bool
    var maxDeviation: Option<Deviation>

    constructor (cache: ExercisePoints)
      ensures this.cache == cache && !maxDeviationFetched
    {
      this.cache := cache;
      maxDeviationFetched := false;
      maxDeviation := None;
    }

    /**
     get_latest_deadline: `row` is what the query would return now; it is used the first time
     and remembered, so that later answers do not change when the rows do.
     */
    method GetLatestDeadline(row: Option<Deviation>) returns (deadline: int)
      modifies this
      ensures maxDeviationFetched
      ensures maxDeviation == if old(maxDeviationFetched) then old(maxDeviation) else row
      ensures deadline == LatestDeadline(cache, maxDeviation)
    {
      deadline := cache.times.closing;
      if cache.times.lateAllowed && cache.times.latePercent > 0 {
        deadline := Max(deadline, cache.times.lateTime);
      }
      if !maxDeviationFetched {
        maxDeviation := row;
        maxDeviationFetched := true;
      }
      if maxDeviation.Some? {
        deadline := Max(deadline, NewDeadline(maxDeviation.value, cache.times.closing));
      }
    }
  }

  class ModuleRevealState {
    const cache: ModulePoints
    const exercises: seq<ExercisePoints>
    var maxDeviationFetched: bool
    var maxDeviation: Option<Deviation>

    ghost predicate Valid()
      reads this
    {
      exercises == Flatten(cache.children) &&
      (!maxDeviationFetched || exercises == [] ==> maxDeviation == None)
    }

    constructor (m: ModulePoints)
      ensures Valid() && cache == m && !maxDeviationFetched
    {
      var es := Collect(m.children, []);
      cache, exercises := m, es;
      maxDeviationFetched, maxDeviation := false, None;
    }

    method GetLatestDeadline(row: Option<Deviation>) returns (r: Lookup)
      requires Valid()
      modifies this
      ensures Valid()
      ensures maxDeviation == if old(maxDeviationFetched) || exercises == [] then old(maxDeviation) else row
      ensures r == ModuleLatest(cache, maxDeviation)
    {
      var deadline := CommonDeadline(cache.times);
      var byId := Index(exercises);
      if !maxDeviationFetched && exercises != [] {
        maxDeviation := row;
        maxDeviationFetched := true;
      }
      if maxDeviation.Some? {
        if maxDeviation.value.exercise !in byId {
          return KeyError;
        }
        deadline := Max(deadline, NewDeadline(maxDeviation.value, byId[maxDeviation.value.exercise].times.closing));
      }
      return Found(deadline);
    }
  }
}
