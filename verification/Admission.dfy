/** Who may submit to an exercise, and with whom (exercise/exercise_models.py). */
module Admission {
  import opened Common
  import opened Deviations
  import opened Timing
  import opened Grading

  // ----- What the check reads ---------------------------------------------------------------------

  /** A submission to the exercise. */
  datatype Attempt = Attempt(submitters: set<int>, status: Status)

  /** The submissions to the exercise, oldest first. */
  type History = seq<Attempt>

  datatype Exercise = Exercise(
    id: int, minGroupSize: nat, maxGroupSize: nat, maxSubmissions: nat,
    noSubmission: bool, isEnrollment: bool, rules: Rules)

  /** The course at the time of a request: people, groups and special grants. */
  datatype Course = Course(
    now: int, staff: set<int>, active: set<int>,
    groups: map<int, seq<int>>, selectedGroup: map<int, int>,
    enrollmentOpen: bool, enrollable: set<int>,
    deviations: seq<Deviation>, extraSubmissions: map<int, int>, maxUnofficial: nat)

  /** The group named by the request: none, unreadable, not a number, or an id. */
  datatype Choice = NoChoice | BadJson | NotANumber | GroupId(id: int)

  datatype SubmitStatus = Allowed | CannotEnroll | NotEnrolled | InvalidGroup | AmountExceeded | NoSubmission | Invalid

  datatype Verdict = Verdict(status: SubmitStatus, students: seq<int>)

  // ----- Counting submissions ----------------------------------------------------------------------

  predicate Counts(s: Status) {
    !s.Error? && !s.Rejected? && !s.UnofficialStatus?
  }

  /** The submissions of a student that use up the limit. */
  function Count(h: History, p: int): nat {
    if h == [] then 0
    else
      var last := h[|h| - 1];
      Count(h[..|h| - 1], p) + if p in last.submitters && Counts(last.status) then 1 else 0
  }

  function MaxFor(ex: Exercise, c: Course, p: int): int {
    ex.maxSubmissions + if p in c.extraSubmissions then c.extraSubmissions[p] else 0
  }

  predicate BelowLimit(ex: Exercise, c: Course, h: History, p: int) {
    Count(h, p) < MaxFor(ex, c, p)
  }

  /** An enrollment exercise has no limit for someone who is not enrolled yet. */
  predicate EnrollsFirst(ex: Exercise, c: Course, students: seq<int>) {
    |students| == 1 && ex.isEnrollment && students[0] !in c.active
  }

  /** Past the limit: exercises without one, and unofficial submissions. */
  predicate Fallback(ex: Exercise, c: Course, count: nat) {
    (c.maxUnofficial == 0 || count < c.maxUnofficial) && (ex.maxSubmissions == 0 || ex.rules.acceptUnofficial)
  }

  function LastCount(h: History, students: seq<int>): nat {
    if students == [] then 0 else Count(h, students[|students| - 1])
  }

  predicate LimitOk(ex: Exercise, c: Course, h: History, students: seq<int>) {
    EnrollsFirst(ex, c, students) ||
    (exists p :: p in students && BelowLimit(ex, c, h, p)) ||
    Fallback(ex, c, LastCount(h, students))
  }

  method OneHasSubmissions(ex: Exercise, c: Course, h: History, students: seq<int>) returns (ok: bool)
    ensures ok == LimitOk(ex, c, h, students)
  {
    if EnrollsFirst(ex, c, students) {
      return true;
    }
    var submissionCount: nat := 0;
    for i := 0 to |students|
      invariant submissionCount == LastCount(h, students[..i])
      invariant forall k | 0 <= k < i :: !BelowLimit(ex, c, h, students[k])
    {
      submissionCount := Count(h, students[i]);
      if submissionCount < MaxFor(ex, c, students[i]) {
        assert students[i] in students && BelowLimit(ex, c, h, students[i]);
        return true;
      }
    }
    assert students[..|students|] == students;
    if c.maxUnofficial == 0 || submissionCount < c.maxUnofficial {
      if ex.maxSubmissions == 0 {
        return true;
      }
      if ex.rules.acceptUnofficial {
        return true;
      }
    }
    return false;
  }

  /** Grading time: everyone is past the limit, the graded submission included. */
  predicate NoneLeft(ex: Exercise, c: Course, h: History, students: seq<int>) {
    !EnrollsFirst(ex, c, students) && ex.maxSubmissions != 0 &&
    forall p | p in students :: Count(h, p) > MaxFor(ex, c, p)
  }

  method NoSubmissionsLeft(ex: Exercise, c: Course, h: History, students: seq<int>) returns (none: bool)
    ensures none == NoneLeft(ex, c, h, students)
  {
    if EnrollsFirst(ex, c, students) {
      return false;
    }
    if ex.maxSubmissions == 0 {
      return false;
    }
    for i := 0 to |students|
      invariant forall k | 0 <= k < i :: Count(h, students[k]) > MaxFor(ex, c, students[k])
    {
      if Count(h, students[i]) <= MaxFor(ex, c, students[i]) {
        assert students[i] in students;
        return false;
      }
    }
    return true;
  }

  // ----- The check ------------------------------------------------------------------------------------

  /** The newest submission of a student. */
  function Latest(h: History, p: int): (a: Option<Attempt>)
    ensures a.None? <==> forall i | 0 <= i < |h| :: p !in h[i].submitters
    ensures a.Some? ==> a.value in h && p in a.value.submitters
  {
    if h == [] then None
    else if p in h[|h| - 1].submitters then Some(h[|h| - 1])
    else
      assert h == h[..|h| - 1] + [h[|h| - 1]];
      Latest(h[..|h| - 1], p)
  }

  datatype Pick = Alone | Group(members: seq<int>) | Refused(status: SubmitStatus)

  function PickGroup(c: Course, profile: int, choice: Choice): Pick {
    match choice
    case BadJson => Refused(Invalid)
    case NotANumber => Alone
    case GroupId(id) =>
      if id <= 0 then Alone
      else if id in c.groups && profile in c.groups[id] then Group(c.groups[id])
      else Refused(InvalidGroup)
    case NoChoice =>
      if profile in c.active && profile in c.selectedGroup && c.selectedGroup[profile] in c.groups then
        Group(c.groups[c.selectedGroup[profile]])
      else Alone
  }

  /** _detect_group_changes: the group is not the one of the earlier submission. */
  predicate GroupChanges(profile: int, pick: Pick, earlier: Attempt) {
    if pick.Group? then Owners(pick.members) != earlier.submitters
    else |earlier.submitters| > 1 || profile !in earlier.submitters
  }

  /** _detect_submissions: another member of the group has already submitted. */
  predicate OthersHaveSubmitted(h: History, profile: int, pick: Pick) {
    pick.Group? && exists p :: p in pick.members && p != profile && Latest(h, p).Some?
  }

  predicate GroupIsFine(ex: Exercise, h: History, profile: int, pick: Pick) {
    ex.maxGroupSize > 1 ==>
      var earlier := Latest(h, profile);
      if earlier.Some? then !GroupChanges(profile, pick, earlier.value) else !OthersHaveSubmitted(h, profile, pick)
  }

  function Team(profile: int, pick: Pick): seq<int> {
    if pick.Group? then pick.members else [profile]
  }

  predicate AllStaff(c: Course, students: seq<int>) {
    forall p | p in students :: p in c.staff
  }

  predicate AccessOk(ex: Exercise, c: Course, students: seq<int>) {
    ex.isEnrollment ||
    HasAccess(GetTiming(ex.rules, Scan(c.deviations, ex.id, ex.rules.closing, students), c.now).0)
  }

  /** Course staff who are not enrolled submit without any further check. */
  predicate Bypasses(ex: Exercise, c: Course, profile: int) {
    !ex.isEnrollment && profile !in c.active && profile in c.staff
  }

  /** _check_submission_allowed. */
  function Check(ex: Exercise, c: Course, h: History, profile: int, choice: Choice): Verdict {
    if ex.noSubmission && profile !in c.staff then Verdict(NoSubmission, [profile])
    else if ex.isEnrollment && !c.enrollmentOpen then Verdict(CannotEnroll, [profile])
    else if ex.isEnrollment && profile !in c.enrollable then Verdict(CannotEnroll, [profile])
    else if Bypasses(ex, c, profile) then Verdict(Allowed, [profile])
    else if !ex.isEnrollment && profile !in c.active then Verdict(NotEnrolled, [profile])
    else
      var pick := PickGroup(c, profile, choice);
      if pick.Refused? then Verdict(pick.status, [profile])
      else if !GroupIsFine(ex, h, profile, pick) then Verdict(InvalidGroup, [profile])
      else
        var students := Team(profile, pick);
        var sizeOk := ex.minGroupSize <= |students| <= ex.maxGroupSize;
        if !((AccessOk(ex, c, students) && sizeOk) || AllStaff(c, students)) then Verdict(Invalid, students)
        else if !LimitOk(ex, c, h, students) && !AllStaff(c, students) then Verdict(AmountExceeded, students)
        else Verdict(Allowed, students)
  }

  // ----- Exactly who may submit, and with whom ---------------------------------------------------------

  /** The submissions of a student that use up the limit: those neither failed, rejected nor unofficial. */
  function Used(h: History, p: int): set<int> {
    set i | 0 <= i < |h| && p in h[i].submitters && h[i].status in {Initialized, Waiting, Ready}
  }

  lemma {:induction false} CountIsUsed(h: History, p: int)
    ensures Count(h, p) == |Used(h, p)|
  {
    if h != [] {
      var n := |h| - 1;
      CountIsUsed(h[..n], p);
      if p in h[n].submitters && h[n].status in {Initialized, Waiting, Ready} {
        assert Used(h, p) == Used(h[..n], p) + {n};
      } else {
        assert Used(h, p) == Used(h[..n], p);
      }
    }
  }

  /** Failed, rejected and unofficial submissions use nothing up. */
  lemma OnlySomeCount(h: History, team: set<int>, status: Status, p: int)
    ensures Count(h + [Attempt(team, status)], p) ==
            Count(h, p) + if p in team && status in {Initialized, Waiting, Ready} then 1 else 0
  {
    var g := h + [Attempt(team, status)];
    assert g[..|g| - 1] == h;
  }

  /** The students of a request: the members of the group it names or of the selected one, or the student alone. */
  ghost predicate SubmitsAs(c: Course, profile: int, choice: Choice, team: seq<int>) {
    if choice.GroupId? && choice.id > 0 then
      choice.id in c.groups && profile in c.groups[choice.id] && team == c.groups[choice.id]
    else if choice.NoChoice? && profile in c.active && profile in c.selectedGroup &&
            c.selectedGroup[profile] in c.groups then
      team == c.groups[c.selectedGroup[profile]]
    else !choice.BadJson? && team == [profile]
  }

  /** The student's newest submission is by the same team; or, without one, no member has submitted. */
  ghost predicate GroupStands(h: History, profile: int, team: set<int>) {
    (forall i | 0 <= i < |h| && profile in h[i].submitters &&
                (forall j | i < j < |h| :: profile !in h[j].submitters) :: h[i].submitters == team) &&
    ((forall i | 0 <= i < |h| :: profile !in h[i].submitters) ==>
       forall i, p | 0 <= i < |h| && p in team :: p !in h[i].submitters)
  }

  /**
   The course runs and the exercise has opened; and it is not closed, or confirms a level, or a member has
   enough extra time, or late or unofficial work is accepted.
   */
  ghost predicate InTime(ex: Exercise, c: Course, team: seq<int>) {
    var r := ex.rules;
    r.opening <= c.now <= (if r.archiveTime.Some? then r.archiveTime.value else r.ending + 31536000) &&
    (c.now <= r.closing || r.confirmLevel || r.acceptUnofficial || (r.lateAllowed && c.now <= r.lateDeadline) ||
     exists d :: d in c.deviations && d.exercise == ex.id && d.submitter in team && c.now <= r.closing + d.extraSeconds)
  }

  /** A member has submissions left; or there is no limit, or unofficial work is accepted, below the hard limit. */
  ghost predicate WithinLimit(ex: Exercise, c: Course, h: History, team: seq<int>) {
    (ex.isEnrollment && |team| == 1 && team[0] !in c.active) ||
    (exists p :: p in team &&
       |Used(h, p)| < ex.maxSubmissions + if p in c.extraSubmissions then c.extraSubmissions[p] else 0) ||
    ((ex.maxSubmissions == 0 || ex.rules.acceptUnofficial) &&
     (c.maxUnofficial == 0 || (if team == [] then 0 else |Used(h, team[|team| - 1])|) < c.maxUnofficial))
  }

  /** All members are staff, or the size is right, it is the time, and a submission is left. */
  ghost predicate TeamQualifies(ex: Exercise, c: Course, h: History, team: seq<int>) {
    (forall p | p in team :: p in c.staff) ||
    (ex.minGroupSize <= |team| <= ex.maxGroupSize && (ex.isEnrollment || InTime(ex, c, team)) &&
     WithinLimit(ex, c, h, team))
  }

  /** The student gets as far as the choice of a group. */
  ghost predicate MayAsk(ex: Exercise, c: Course, profile: int) {
    (ex.noSubmission ==> profile in c.staff) &&
    (if ex.isEnrollment then c.enrollmentOpen && profile in c.enrollable else profile in c.active)
  }

  /** The team of the request, if it stands. */
  ghost predicate StandsAs(ex: Exercise, c: Course, h: History, profile: int, choice: Choice, team: seq<int>) {
    SubmitsAs(c, profile, choice, team) && (ex.maxGroupSize > 1 ==> GroupStands(h, profile, Owners(team)))
  }

  /** Someone who may enroll by the exercise, or is enrolled, may submit as a team that stands and qualifies. */
  ghost predicate MaySubmit(ex: Exercise, c: Course, h: History, profile: int, choice: Choice, team: seq<int>) {
    (ex.noSubmission ==> profile in c.staff) &&
    if !ex.isEnrollment && profile !in c.active then profile in c.staff && team == [profile]
    else MayAsk(ex, c, profile) && StandsAs(ex, c, h, profile, choice, team) && TeamQualifies(ex, c, h, team)
  }

  lemma PickedTeam(c: Course, profile: int, choice: Choice, team: seq<int>)
    ensures SubmitsAs(c, profile, choice, team) <==>
            !PickGroup(c, profile, choice).Refused? && Team(profile, PickGroup(c, profile, choice)) == team
  {
  }

  lemma {:induction false} LatestIsNewest(h: History, p: int)
    ensures Latest(h, p).Some? ==>
              exists i :: 0 <= i < |h| && h[i] == Latest(h, p).value && forall j | i < j < |h| :: p !in h[j].submitters
  {
    if h != [] {
      var n := |h| - 1;
      LatestIsNewest(h[..n], p);
      if p in h[n].submitters {
        assert h[n] == Latest(h, p).value;
      } else if Latest(h, p).Some? {
        var i :| 0 <= i < n && h[..n][i] == Latest(h[..n], p).value &&
          forall j | i < j < n :: p !in h[..n][j].submitters;
        assert h[i] == Latest(h, p).value;
        forall j | i < j < |h|
          ensures p !in h[j].submitters
        {
          assert j < n ==> h[j] == h[..n][j];
        }
      }
    }
  }

  lemma GroupStandsIff(ex: Exercise, h: History, profile: int, pick: Pick)
    requires !pick.Refused?
    ensures GroupIsFine(ex, h, profile, pick) <==>
            (ex.maxGroupSize > 1 ==> GroupStands(h, profile, Owners(Team(profile, pick))))
  {
    var earlier, team := Latest(h, profile), Owners(Team(profile, pick));
    if earlier.Some? {
      LatestIsNewest(h, profile);
      var i :| 0 <= i < |h| && h[i] == earlier.value && forall j | i < j < |h| :: profile !in h[j].submitters;
      assert GroupStands(h, profile, team) <==> earlier.value.submitters == team;
      if pick.Alone? {
        AloneIff(earlier.value.submitters, profile);
        assert team == {profile};
      }
    } else {
      NobodySubmitted(h, profile, pick);
    }
  }

  lemma AloneIff(s: set<int>, p: int)
    requires p in s
    ensures |s| <= 1 <==> s == {p}
  {
    if |s| <= 1 {
      OnlyMember(s, p);
    }
  }

  lemma NobodySubmitted(h: History, profile: int, pick: Pick)
    requires !pick.Refused? && Latest(h, profile).None?
    ensures GroupStands(h, profile, Owners(Team(profile, pick))) <==> !OthersHaveSubmitted(h, profile, pick)
  {
    var team := Owners(Team(profile, pick));
    if GroupStands(h, profile, team) && pick.Group? {
      forall p | p in pick.members && p != profile
        ensures Latest(h, p).None?
      {
        assert p in team;
      }
    }
    if !OthersHaveSubmitted(h, profile, pick) {
      forall i, p | 0 <= i < |h| && p in team
        ensures p !in h[i].submitters
      {
        assert p == profile || (pick.Group? && p in pick.members);
        assert Latest(h, p).None?;
      }
    }
  }

  lemma InTimeIff(ex: Exercise, c: Course, team: seq<int>)
    ensures AccessOk(ex, c, team) <==> ex.isEnrollment || InTime(ex, c, team)
  {
    var r, deviation := ex.rules, Scan(c.deviations, ex.id, ex.rules.closing, team);
    ScanIsLongest(c.deviations, ex.id, r.closing, team);
    TimingIsExact(r, deviation, c.now);
    if d :| d in c.deviations && d.exercise == ex.id && d.submitter in team && c.now <= r.closing + d.extraSeconds {
      assert Applies(d, ex.id, Owners(team));
    }
    if deviation.Some? {
      assert deviation.value in c.deviations && deviation.value.submitter in team;
    }
  }

  lemma WithinLimitIff(ex: Exercise, c: Course, h: History, team: seq<int>)
    ensures LimitOk(ex, c, h, team) <==> WithinLimit(ex, c, h, team)
  {
    forall p
      ensures Count(h, p) == |Used(h, p)|
    {
      CountIsUsed(h, p);
    }
  }

  /** The check allows a submission, by these students, exactly when the student may submit as this team. */
  lemma AllowedIff(ex: Exercise, c: Course, h: History, profile: int, choice: Choice, team: seq<int>)
    ensures Check(ex, c, h, profile, choice) == Verdict(Allowed, team) <==>
            MaySubmit(ex, c, h, profile, choice, team)
  {
    StandsIff(ex, c, h, profile, choice, team);
    InTimeIff(ex, c, team);
    WithinLimitIff(ex, c, h, team);
  }

  lemma StandsIff(ex: Exercise, c: Course, h: History, profile: int, choice: Choice, team: seq<int>)
    ensures StandsAs(ex, c, h, profile, choice, team) <==>
            var pick := PickGroup(c, profile, choice);
            !pick.Refused? && Team(profile, pick) == team && GroupIsFine(ex, h, profile, pick)
  {
    PickedTeam(c, profile, choice, team);
    if !PickGroup(c, profile, choice).Refused? {
      GroupStandsIff(ex, h, profile, PickGroup(c, profile, choice));
    }
  }

  /** Why a student does not get as far as the choice of a group. */
  lemma RefusedOutright(ex: Exercise, c: Course, h: History, profile: int, choice: Choice)
    ensures var status := Check(ex, c, h, profile, choice).status;
            var closed := ex.noSubmission && profile !in c.staff;
            (status == NoSubmission <==> closed) &&
            (status == CannotEnroll <==>
               !closed && ex.isEnrollment && !(c.enrollmentOpen && profile in c.enrollable)) &&
            (status == NotEnrolled <==> !closed && !ex.isEnrollment && profile !in c.active && profile !in c.staff) &&
            (status in {NoSubmission, CannotEnroll, NotEnrolled, InvalidGroup} ==>
               Check(ex, c, h, profile, choice).students == [profile])
  {
  }

  /** A group is refused exactly when the request is readable and no team stands. */
  lemma RefusedForGroupIff(ex: Exercise, c: Course, h: History, profile: int, choice: Choice)
    ensures Check(ex, c, h, profile, choice).status == InvalidGroup <==>
            MayAsk(ex, c, profile) && !choice.BadJson? &&
            forall team :: !StandsAs(ex, c, h, profile, choice, team)
  {
    forall team
      ensures StandsAs(ex, c, h, profile, choice, team) <==>
              var pick := PickGroup(c, profile, choice);
              !pick.Refused? && Team(profile, pick) == team && GroupIsFine(ex, h, profile, pick)
    {
      StandsIff(ex, c, h, profile, choice, team);
    }
    var pick := PickGroup(c, profile, choice);
    if !pick.Refused? && GroupIsFine(ex, h, profile, pick) {
      assert StandsAs(ex, c, h, profile, choice, Team(profile, pick));
    }
  }

  /** A request is invalid if it cannot be read; a standing team, not all staff, if of the wrong size or out of time. */
  lemma RefusedAsInvalidIff(ex: Exercise, c: Course, h: History, profile: int, choice: Choice, team: seq<int>)
    ensures Check(ex, c, h, profile, choice) == Verdict(Invalid, team) <==>
            MayAsk(ex, c, profile) &&
            if choice.BadJson? then team == [profile]
            else
              StandsAs(ex, c, h, profile, choice, team) && !(forall p | p in team :: p in c.staff) &&
              !(ex.minGroupSize <= |team| <= ex.maxGroupSize && (ex.isEnrollment || InTime(ex, c, team)))
  {
    StandsIff(ex, c, h, profile, choice, team);
    InTimeIff(ex, c, team);
  }

  /** A team is turned away for the limit if it stands, is in time and of the right size, and not all staff. */
  lemma RefusedForLimitIff(ex: Exercise, c: Course, h: History, profile: int, choice: Choice, team: seq<int>)
    ensures Check(ex, c, h, profile, choice) == Verdict(AmountExceeded, team) <==>
            MayAsk(ex, c, profile) && StandsAs(ex, c, h, profile, choice, team) &&
            !(forall p | p in team :: p in c.staff) && ex.minGroupSize <= |team| <= ex.maxGroupSize &&
            (ex.isEnrollment || InTime(ex, c, team)) && !WithinLimit(ex, c, h, team)
  {
    StandsIff(ex, c, h, profile, choice, team);
    InTimeIff(ex, c, team);
    WithinLimitIff(ex, c, h, team);
  }

  /** An enrolled student who is in time, has submitted alone and not used up the limit may submit alone. */
  lemma StudentMaySubmit(ex: Exercise, c: Course, h: History, p: int)
    requires !ex.noSubmission && !ex.isEnrollment && p in c.active && p !in c.selectedGroup
    requires ex.minGroupSize <= 1 <= ex.maxGroupSize
    requires ex.rules.opening <= c.now <= ex.rules.closing && c.now <= ArchiveStart(ex.rules)
    requires forall i | 0 <= i < |h| && p in h[i].submitters :: h[i].submitters == {p}
    requires |h| < ex.maxSubmissions && p !in c.extraSubmissions
    ensures Check(ex, c, h, p, NoChoice) == Verdict(Allowed, [p])
  {
    var team := [p];
    UsedWithin(h, p);
    assert Owners(team) == {p} && p in team;
    AllowedIff(ex, c, h, p, NoChoice, team);
  }

  /** So may a group that was named or selected, if its members have submitted only together. */
  lemma GroupMaySubmit(ex: Exercise, c: Course, h: History, p: int, choice: Choice, group: int)
    requires !ex.noSubmission && !ex.isEnrollment && p in c.active
    requires group in c.groups && p in c.groups[group]
    requires (choice == GroupId(group) && group > 0) ||
             (choice == NoChoice && p in c.selectedGroup && c.selectedGroup[p] == group)
    requires ex.minGroupSize <= |c.groups[group]| <= ex.maxGroupSize
    requires ex.rules.opening <= c.now <= ex.rules.closing && c.now <= ArchiveStart(ex.rules)
    requires Fits(h, Owners(c.groups[group]))
    requires |h| < ex.maxSubmissions && p !in c.extraSubmissions
    ensures Check(ex, c, h, p, choice) == Verdict(Allowed, c.groups[group])
  {
    var team := c.groups[group];
    UsedWithin(h, p);
    assert p in Owners(team);
    AllowedIff(ex, c, h, p, choice, team);
  }

  lemma {:induction false} UsedWithin(h: History, p: int)
    ensures |Used(h, p)| <= |h|
  {
    CountIsUsed(h, p);
    if h != [] {
      UsedWithin(h[..|h| - 1], p);
      CountIsUsed(h[..|h| - 1], p);
    }
  }

  /** After archiving nobody may submit, except staff and to enrollment exercises. */
  lemma NobodySubmitsAfterArchiving(ex: Exercise, c: Course, h: History, profile: int, choice: Choice)
    requires !ex.isEnrollment && Check(ex, c, h, profile, choice).status == Allowed
    requires (if ex.rules.archiveTime.Some? then ex.rules.archiveTime.value else ex.rules.ending + 31536000) < c.now
    ensures forall p | p in Check(ex, c, h, profile, choice).students :: p in c.staff
  {
    AllowedIff(ex, c, h, profile, choice, Check(ex, c, h, profile, choice).students);
  }

  // ----- Submitters form a partition --------------------------------------------------------------------

  /** Two submissions that share a submitter have the same submitters. */
  ghost predicate Partition(h: History) {
    forall i, j, p | 0 <= i < |h| && 0 <= j < |h| && p in h[i].submitters && p in h[j].submitters ::
      h[i].submitters == h[j].submitters
  }

  lemma OnlyMember(s: set<int>, p: int)
    requires p in s && |s| <= 1
    ensures s == {p}
  {
    assert |s - {p}| == |s| - 1;
    assert s == {p} + (s - {p});
  }

  /** A new set of submitters fits the partition when each member's submissions already have it. */
  ghost predicate Fits(h: History, team: set<int>) {
    forall i, p | 0 <= i < |h| && p in team && p in h[i].submitters :: h[i].submitters == team
  }

  lemma PartitionGrowsIff(h: History, team: set<int>, status: Status)
    requires Partition(h)
    ensures Partition(h + [Attempt(team, status)]) <==> Fits(h, team)
  {
    var g := h + [Attempt(team, status)];
    if Partition(g) {
      forall i, p | 0 <= i < |h| && p in team && p in h[i].submitters
        ensures h[i].submitters == team
      {
        assert g[i] == h[i] && p in g[|h|].submitters;
      }
    }
  }

  /** A team that passes the group checks fits the earlier submissions. */
  lemma TeamFits(ex: Exercise, h: History, profile: int, pick: Pick)
    requires ex.maxGroupSize > 1 && Partition(h) && !pick.Refused? && GroupIsFine(ex, h, profile, pick)
    ensures Fits(h, Owners(Team(profile, pick)))
  {
    var earlier := Latest(h, profile);
    if earlier.Some? {
      if pick.Alone? {
        OnlyMember(earlier.value.submitters, profile);
      }
      assert Owners(Team(profile, pick)) == earlier.value.submitters;
    }
  }

  /**
   Adding an accepted submission keeps the partition exactly when it was not an unenrolled
   member of staff submitting alone to an exercise they have submitted with others.
   */
  lemma AcceptedKeepsPartitionIff(ex: Exercise, c: Course, h: History, profile: int, choice: Choice, status: Status)
    requires ex.maxGroupSize > 1 && Partition(h) && Check(ex, c, h, profile, choice).status == Allowed
    ensures var students := Check(ex, c, h, profile, choice).students;
            Partition(h + [Attempt(Owners(students), status)]) <==>
            !Bypasses(ex, c, profile) ||
            forall i | 0 <= i < |h| && profile in h[i].submitters :: |h[i].submitters| == 1
  {
    var students := Check(ex, c, h, profile, choice).students;
    PartitionGrowsIff(h, Owners(students), status);
    if Bypasses(ex, c, profile) {
      assert Owners([profile]) == {profile};
      forall i | 0 <= i < |h| && profile in h[i].submitters
        ensures h[i].submitters == {profile} <==> |h[i].submitters| == 1
      {
        if |h[i].submitters| == 1 {
          OnlyMember(h[i].submitters, profile);
        }
      }
    } else {
      TeamFits(ex, h, profile, PickGroup(c, profile, choice));
    }
  }

  /** A member of staff who left the course may break the partition. */
  lemma UnenrolledStaffCanBreakPartition(rules: Rules)
    ensures var ex := Exercise(1, 1, 2, 10, false, false, rules);
            var c := Course(0, {1}, {2}, map[], map[], false, {}, [], map[], 0);
            var h := [Attempt({1, 2}, Ready)];
            Partition(h) && Check(ex, c, h, 1, NoChoice) == Verdict(Allowed, [1]) &&
            !Partition(h + [Attempt(Owners([1]), Ready)])
  {
    var h := [Attempt({1, 2}, Ready)];
    PartitionGrowsIff(h, Owners([1]), Ready);
    assert 1 in Owners([1]) && 1 in h[0].submitters && 2 in h[0].submitters && 2 !in Owners([1]);
  }

  /** What happens to an exercise: a request to submit, or new statuses for its submissions. */
  datatype Event =
    | Submit(course: Course, profile: int, choice: Choice, status: Status)
    | Regrade(statuses: seq<Status>)

  function Restatus(h: History, statuses: seq<Status>): (g: History)
    ensures |g| == |h| && forall i | 0 <= i < |h| :: g[i].submitters == h[i].submitters
    ensures forall i | 0 <= i < |h| :: g[i].status == if i < |statuses| then statuses[i] else h[i].status
  {
    seq(|h|, i requires 0 <= i < |h| => if i < |statuses| then h[i].(status := statuses[i]) else h[i])
  }

  function Step(ex: Exercise, h: History, ev: Event): History {
    match ev
    case Submit(c, profile, choice, status) =>
      var v := Check(ex, c, h, profile, choice);
      if v.status == Allowed then h + [Attempt(Owners(v.students), status)] else h
    case Regrade(statuses) => Restatus(h, statuses)
  }

  function Run(ex: Exercise, events: seq<Event>): History {
    if events == [] then [] else Step(ex, Run(ex, events[..|events| - 1]), events[|events| - 1])
  }

  /** A run records every submission of a student who may submit, with its team, and nothing else. */
  lemma RunRecords(ex: Exercise, events: seq<Event>, c: Course, profile: int, choice: Choice, status: Status,
                   team: seq<int>)
    ensures var h := Run(ex, events);
            var after := Run(ex, events + [Submit(c, profile, choice, status)]);
            (MaySubmit(ex, c, h, profile, choice, team) ==> after == h + [Attempt(Owners(team), status)]) &&
            ((forall t :: !MaySubmit(ex, c, h, profile, choice, t)) ==> after == h)
  {
    var h, ev := Run(ex, events), Submit(c, profile, choice, status);
    assert (events + [ev])[..|events|] == events;
    AllowedIff(ex, c, h, profile, choice, team);
    AllowedIff(ex, c, h, profile, choice, Check(ex, c, h, profile, choice).students);
  }

  ghost predicate NoBypass(ex: Exercise, events: seq<Event>) {
    forall i | 0 <= i < |events| && events[i].Submit? :: !Bypasses(ex, events[i].course, events[i].profile)
  }

  /**
   In every run, with groups, selections, enrollments, staff, grants and time changing
   arbitrarily between requests, the submitters of a group exercise stay a partition.
   */
  lemma {:induction false} RunKeepsPartition(ex: Exercise, events: seq<Event>)
    requires ex.maxGroupSize > 1 && NoBypass(ex, events)
    ensures Partition(Run(ex, events))
  {
    if events != [] {
      var init, ev := events[..|events| - 1], events[|events| - 1];
      RunKeepsPartition(ex, init);
      var h := Run(ex, init);
      if ev.Submit? && Check(ex, ev.course, h, ev.profile, ev.choice).status == Allowed {
        AcceptedKeepsPartitionIff(ex, ev.course, h, ev.profile, ev.choice, ev.status);
      }
    }
  }

  // ----- The limit does not depend on the order of the students ---------------------------------------------

  lemma {:induction false} SameCount(h: History, p: int, q: int)
    requires forall i | 0 <= i < |h| :: p in h[i].submitters <==> q in h[i].submitters
    ensures Count(h, p) == Count(h, q)
  {
    if h != [] {
      SameCount(h[..|h| - 1], p, q);
    }
  }

  /** After the group checks, all students of the team have the same counted submissions. */
  lemma TeamCountsAgree(ex: Exercise, h: History, profile: int, pick: Pick, p: int, q: int)
    requires ex.maxGroupSize > 1 && Partition(h) && !pick.Refused? && GroupIsFine(ex, h, profile, pick)
    requires p in Team(profile, pick) && q in Team(profile, pick)
    ensures Count(h, p) == Count(h, q)
  {
    TeamFits(ex, h, profile, pick);
    forall i | 0 <= i < |h|
      ensures p in h[i].submitters <==> q in h[i].submitters
    {
      assert p in Owners(Team(profile, pick)) && q in Owners(Team(profile, pick));
    }
    SameCount(h, p, q);
  }

  /** The decision without an order: some member is below their limit, or the fallback holds of the common count. */
  ghost predicate TeamLimit(ex: Exercise, c: Course, h: History, team: set<int>, count: nat) {
    (exists p :: p in team && BelowLimit(ex, c, h, p)) || Fallback(ex, c, count)
  }

  lemma LimitOfTeam(ex: Exercise, c: Course, h: History, order: seq<int>, p: int)
    requires p in order && forall q | q in order :: Count(h, q) == Count(h, p)
    ensures LimitOk(ex, c, h, order) <==>
            EnrollsFirst(ex, c, order) || TeamLimit(ex, c, h, Owners(order), Count(h, p))
  {
  }

  /**
   After the group checks, the students in any order get the same answer: the count that the
   loop happens to end with is the count of them all.
   */
  lemma LimitIgnoresOrder(ex: Exercise, c: Course, h: History, profile: int, pick: Pick, order: seq<int>, p: int)
    requires ex.maxGroupSize > 1 && Partition(h) && !pick.Refused? && GroupIsFine(ex, h, profile, pick)
    requires Owners(order) == Owners(Team(profile, pick)) && |order| == |Team(profile, pick)|
    requires p in Team(profile, pick)
    ensures LimitOk(ex, c, h, order) == LimitOk(ex, c, h, Team(profile, pick))
    ensures LimitOk(ex, c, h, order) <==>
            EnrollsFirst(ex, c, order) || TeamLimit(ex, c, h, Owners(order), Count(h, p))
  {
    var team := Team(profile, pick);
    forall q
      ensures q in order <==> q in team
    {
      assert q in Owners(order) <==> q in Owners(team);
    }
    forall q | q in team
      ensures Count(h, q) == Count(h, p)
    {
      TeamCountsAgree(ex, h, profile, pick, q, p);
    }
    LimitOfTeam(ex, c, h, order, p);
    LimitOfTeam(ex, c, h, team, p);
    assert |order| == 1 ==> order[0] in team && team[0] == order[0];
  }

  /**
   Admission and grading agree on the limit: when the new submission is graded, it is marked
   as exceeding the limit exactly when no member was below their limit at admission.
   */
  lemma GradedAsAdmitted(ex: Exercise, c: Course, h: History, students: seq<int>, status: Status)
    requires Counts(status)
    ensures var g := h + [Attempt(Owners(students), status)];
            NoneLeft(ex, c, g, students) <==>
            !EnrollsFirst(ex, c, students) && ex.maxSubmissions != 0 &&
            forall p | p in students :: !BelowLimit(ex, c, h, p)
  {
    var g := h + [Attempt(Owners(students), status)];
    assert g[..|g| - 1] == h;
    forall p | p in students
      ensures Count(g, p) == Count(h, p) + 1
    {
    }
  }
}
