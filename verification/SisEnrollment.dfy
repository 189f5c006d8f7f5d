/** Enrollment from the student information system (course/models.py). */
module SisEnrollment {
  import opened Common

  datatype Role = Student | Assistant | Teacher

  datatype EnrollmentStatus = Active | Removed | Banned | Pending

  datatype Enrollment = Enrollment(role: Role, status: EnrollmentStatus, fromSis: bool)

  /** The enrollments of a course instance, by user profile. */
  type Roll = map<int, Enrollment>

  datatype Profile = Profile(studentId: Option<string>, organization: string)

  /** The profiles and the local organization, within which student ids should be unique. */
  datatype People = People(profiles: map<int, Profile>, localOrganization: string)

  // ----- Profiles and participants ------------------------------------------------------------------------

  function Matches(people: People, id: string): set<int> {
    set p | p in people.profiles && people.profiles[p] == Profile(Some(id), people.localOrganization)
  }

  /** The participants that get_by_student_id finds, which is exactly one profile each. */
  ghost function Listed(people: People, ids: seq<string>): set<int> {
    set p | p in people.profiles && exists id :: id in ids && Matches(people, id) == {p}
  }

  /** The profile's student id is among the participants. */
  predicate IdIsListed(people: People, ids: seq<string>, p: int) {
    p in people.profiles && people.profiles[p].studentId.Some? && people.profiles[p].studentId.value in ids
  }

  lemma ListedHaveListedIds(people: People, ids: seq<string>, p: int)
    requires p in Listed(people, ids)
    ensures IdIsListed(people, ids, p)
  {
  }

  // ----- Enrolling one student -------------------------------------------------------------------------------

  predicate IsEnrolled(roll: Roll, p: int) {
    p in roll && (roll[p].status.Active? || roll[p].status.Pending?)
  }

  /** The enrollment that enroll_student leaves. */
  function Joined(roll: Roll, p: int, fromSis: bool, usePending: bool): Enrollment {
    if IsEnrolled(roll, p) then
      var e := roll[p];
      e.(status := if e.status.Pending? && !usePending then Active else e.status,
         fromSis := e.fromSis || (fromSis && e.role.Student?))
    else Enrollment(Student, if usePending then Pending else Active, fromSis)
  }

  // ----- The whole synchronisation -------------------------------------------------------------------------------

  /** After the loop: the students of a set have joined, the others are as before. */
  function AfterJoining(roll: Roll, joining: set<int>, usePending: bool): Roll {
    map p | p in roll.Keys + joining :: if p in joining then Joined(roll, p, true, usePending) else roll[p]
  }

  /** Enrolled by the system and not removed, but no longer among the participants. */
  ghost predicate Left(people: People, ids: seq<string>, roll: Roll, p: int) {
    p in roll && roll[p].fromSis && !roll[p].status.Removed? && !IdIsListed(people, ids, p)
  }

  ghost function Leavers(people: People, ids: seq<string>, roll: Roll): set<int> {
    set p | p in roll && Left(people, ids, roll, p)
  }

  /** What a successful synchronisation makes of the roll, student by student. */
  ghost function Synced(people: People, ids: seq<string>, roll: Roll, usePending: bool): Roll {
    var joining := Listed(people, ids);
    map p | p in roll.Keys + joining ::
      if p in joining then Joined(roll, p, true, usePending)
      else if Left(people, ids, roll, p) then roll[p].(status := Removed)
      else roll[p]
  }

  /** The participants who were not enrolled before. */
  ghost function Newcomers(people: People, ids: seq<string>, roll: Roll): set<int> {
    NotEnrolled(roll, Listed(people, ids))
  }

  ghost function NotEnrolled(roll: Roll, joining: set<int>): set<int> {
    set p | p in joining && !IsEnrolled(roll, p)
  }

  /** The enrollments made by the system mirror the participants. */
  lemma SyncMirrorsParticipants(people: People, ids: seq<string>, roll: Roll, usePending: bool, p: int)
    ensures var after := Synced(people, ids, roll, usePending);
            p in after && after[p].fromSis && !after[p].status.Removed? ==> IdIsListed(people, ids, p)
    ensures p in Listed(people, ids) ==> IsEnrolled(Synced(people, ids, roll, usePending), p)
  {
    if p in Listed(people, ids) {
      ListedHaveListedIds(people, ids, p);
    }
  }

  /** Nobody else is touched: not those enrolled by hand, not those whose id is listed but ambiguous. */
  lemma SyncSparesOthers(people: People, ids: seq<string>, roll: Roll, usePending: bool, p: int)
    requires p !in Listed(people, ids) && (p in roll ==> !roll[p].fromSis || IdIsListed(people, ids, p))
    ensures var after := Synced(people, ids, roll, usePending);
            (p in after <==> p in roll) && (p in roll ==> after[p] == roll[p])
  {
  }

  /** Enrolled course staff keep their role and are never taken over, and so never removed, by the system. */
  lemma SyncKeepsStaff(people: People, ids: seq<string>, roll: Roll, usePending: bool, p: int)
    requires IsEnrolled(roll, p) && !roll[p].role.Student? && !roll[p].fromSis
    ensures var after := Synced(people, ids, roll, usePending);
            IsEnrolled(after, p) && after[p].role == roll[p].role && !after[p].fromSis
  {
  }

  /** The only local profile with a listed student id. */
  ghost predicate UniquelyListed(people: People, ids: seq<string>, p: int) {
    p in people.profiles && people.profiles[p].studentId.Some? && people.profiles[p].studentId.value in ids &&
    people.profiles[p].organization == people.localOrganization &&
    forall q | q in people.profiles && q != p :: people.profiles[q] != people.profiles[p]
  }

  lemma ListedIffUnique(people: People, ids: seq<string>, p: int)
    ensures p in Listed(people, ids) <==> UniquelyListed(people, ids, p)
  {
    if p in Listed(people, ids) {
      var id :| id in ids && Matches(people, id) == {p};
      assert p in Matches(people, id);
      forall q | q in people.profiles && q != p
        ensures people.profiles[q] != people.profiles[p]
      {
        assert q !in Matches(people, id);
      }
    }
    if UniquelyListed(people, ids, p) {
      var id := people.profiles[p].studentId.value;
      assert people.profiles[p] == Profile(Some(id), people.localOrganization);
      assert forall q :: q in Matches(people, id) <==> q == p;
      assert Matches(people, id) == {p};
    }
  }

  /**
   What becomes of each student: those with a unique listed id are enrolled (newcomers as students, pending
   exactly if pending enrollment is used), those the system enrolled and no longer lists are removed, and
   nobody else appears.
   */
  lemma SyncPerStudent(people: People, ids: seq<string>, roll: Roll, usePending: bool, p: int)
    ensures var after := Synced(people, ids, roll, usePending);
            var enrolled := p in roll && roll[p].status in {Active, Pending};
            var listed := p in people.profiles && people.profiles[p].studentId.Some? &&
                          people.profiles[p].studentId.value in ids;
            if UniquelyListed(people, ids, p) then
              p in after &&
              (!enrolled ==> after[p] == Enrollment(Student, if usePending then Pending else Active, true)) &&
              (enrolled ==>
                 after[p].role == roll[p].role &&
                 (after[p].status == Pending <==> roll[p].status == Pending && usePending) &&
                 (after[p].status == Active <==> roll[p].status == Active || !usePending) &&
                 (after[p].fromSis <==> roll[p].fromSis || roll[p].role == Student))
            else
              (p in after <==> p in roll) &&
              (p in roll ==>
                 after[p] == if roll[p].fromSis && !listed then roll[p].(status := Removed) else roll[p])
  {
    ListedIffUnique(people, ids, p);
  }

  /** A second synchronisation with the same participants finds nothing to do. */
  lemma SyncIsIdempotent(people: People, ids: seq<string>, roll: Roll, usePending: bool)
    ensures var after := Synced(people, ids, roll, usePending);
            Synced(people, ids, after, usePending) == after &&
            Newcomers(people, ids, after) == {} && Leavers(people, ids, after) == {}
  {
    var after := Synced(people, ids, roll, usePending);
    forall p
      ensures !Left(people, ids, after, p) && (p in Listed(people, ids) ==> IsEnrolled(after, p))
      ensures p in Listed(people, ids) ==> Joined(after, p, true, usePending) == after[p]
    {
      SyncMirrorsParticipants(people, ids, roll, usePending, p);
    }
    assert Synced(people, ids, after, usePending) == after;
  }

  class CourseInstance {
    const people: People
    var enrollments: Roll

    constructor (people: People, enrollments: Roll)
      ensures this.people == people && this.enrollments == enrollments
    {
      this.people, this.enrollments := people, enrollments;
    }

    /** enroll_student, for a signed-in user; the result is false for someone already enrolled. */
    method EnrollStudent(p: int, fromSis: bool, usePending: bool) returns (added: bool)
      modifies this
      ensures added <==> !IsEnrolled(old(enrollments), p)
      ensures enrollments == old(enrollments)[p := Joined(old(enrollments), p, fromSis, usePending)]
    {
      var status := if usePending then Pending else Active;
      if p in enrollments {
        var e := enrollments[p];
        if e.status.Active? || e.status.Pending? {
          if e.status.Pending? && !usePending {
            e := e.(status := Active);
          }
          if !e.fromSis && fromSis && e.role.Student? {
            e := e.(fromSis := fromSis);
          }
          enrollments := enrollments[p := e];
          return false;
        }
      }
      enrollments := enrollments[p := Enrollment(Student, status, fromSis)];
      return true;
    }

    /**
     enroll_from_sis: `answer` is the list of participants, or `None` when there is no system
     or it could not be asked. Returns how many were enrolled and removed.
     */
    method EnrollFromSis(answer: Option<seq<string>>, usePending: bool) returns (addCount: int, delCount: int)
      modifies this
      ensures answer.None? ==> enrollments == old(enrollments) && (addCount, delCount) == (-1, -1)
      ensures answer == Some([]) ==> enrollments == old(enrollments) && (addCount, delCount) == (0, 0)
      ensures answer.Some? && answer.value != [] ==>
                enrollments == Synced(people, answer.value, old(enrollments), usePending) &&
                addCount == |Newcomers(people, answer.value, old(enrollments))| &&
                delCount == |Leavers(people, answer.value, old(enrollments))|
    {
      if answer.None? {
        return -1, -1;
      }
      var ids := answer.value;
      ghost var roll := enrollments;
      addCount, delCount := 0, 0;
      ListedNone(people, roll);
      assert AfterJoining(roll, {}, usePending) == roll;
      for i := 0 to |ids|
        invariant enrollments == AfterJoining(roll, Listed(people, ids[..i]), usePending)
        invariant addCount == |Newcomers(people, ids[..i], roll)|
      {
        var added := EnrollParticipant(ids, i, usePending, roll);
        if added {
          addCount := addCount + 1;
        }
      }
      assert ids[..|ids|] == ids;
      if ids == [] {
        return 0, 0;
      }
      ghost var joined := enrollments;
      var gone := set p | p in enrollments && enrollments[p].fromSis && !enrollments[p].status.Removed? &&
                          !IdIsListed(people, ids, p);
      enrollments := map p | p in enrollments ::
        if p in gone then enrollments[p].(status := Removed) else enrollments[p];
      delCount := |gone|;
      LeaversAfterJoining(people, ids, roll, usePending);
    }

    /** One participant: enrolled if exactly one profile has the student id, else skipped. */
    method EnrollParticipant(ids: seq<string>, i: nat, usePending: bool, ghost roll: Roll) returns (added: bool)
      requires i < |ids| && enrollments == AfterJoining(roll, Listed(people, ids[..i]), usePending)
      modifies this
      ensures enrollments == AfterJoining(roll, Listed(people, ids[..i + 1]), usePending)
      ensures |Newcomers(people, ids[..i + 1], roll)| == |Newcomers(people, ids[..i], roll)| + if added then 1 else 0
    {
      ListedOneMore(people, ids, i);
      var found := Matches(people, ids[i]);
      if |found| != 1 {
        assert Listed(people, ids[..i + 1]) == Listed(people, ids[..i]);
        return false;
      }
      EmptyOrNot(found);
      var p :| p in found;
      Alone(found, p);
      JoinedOneMore(roll, Listed(people, ids[..i]), p, usePending);
      NotEnrolledOneMore(roll, Listed(people, ids[..i]), p);
      added := EnrollStudent(p, true, usePending);
    }
  }

  lemma ListedNone(people: People, roll: Roll)
    ensures Listed(people, []) == {} && Newcomers(people, [], roll) == {}
  {
  }

  lemma Alone(s: set<int>, p: int)
    requires |s| == 1 && p in s
    ensures s == {p}
  {
    assert |s - {p}| == 0;
    assert s == {p} + (s - {p});
  }

  lemma ListedOneMore(people: People, ids: seq<string>, i: nat)
    requires i < |ids|
    ensures Listed(people, ids[..i + 1]) ==
            Listed(people, ids[..i]) + (if |Matches(people, ids[i])| == 1 then Matches(people, ids[i]) else {})
  {
    assert ids[..i + 1] == ids[..i] + [ids[i]];
    var m := Matches(people, ids[i]);
    if |m| == 1 {
      EmptyOrNot(m);
      var p :| p in m;
      Alone(m, p);
    }
  }

  lemma NotEnrolledOneMore(roll: Roll, joining: set<int>, p: int)
    ensures |NotEnrolled(roll, joining + {p})| ==
            |NotEnrolled(roll, joining)| + if p in joining || IsEnrolled(roll, p) then 0 else 1
  {
    if p in joining || IsEnrolled(roll, p) {
      assert NotEnrolled(roll, joining + {p}) == NotEnrolled(roll, joining);
    } else {
      assert NotEnrolled(roll, joining + {p}) == NotEnrolled(roll, joining) + {p};
    }
  }

  /** Joining twice is joining once. */
  lemma JoinedOneMore(roll: Roll, joining: set<int>, p: int, usePending: bool)
    ensures var after := AfterJoining(roll, joining, usePending);
            after[p := Joined(after, p, true, usePending)] == AfterJoining(roll, joining + {p}, usePending)
    ensures IsEnrolled(AfterJoining(roll, joining, usePending), p) <==> p in joining || IsEnrolled(roll, p)
  {
  }

  lemma LeaversAfterJoining(people: People, ids: seq<string>, roll: Roll, usePending: bool)
    ensures var joined := AfterJoining(roll, Listed(people, ids), usePending);
            var gone := set p | p in joined && joined[p].fromSis && !joined[p].status.Removed? &&
                                !IdIsListed(people, ids, p);
            gone == Leavers(people, ids, roll) &&
            (map p | p in joined :: if p in gone then joined[p].(status := Removed) else joined[p])
            == Synced(people, ids, roll, usePending)
  {
  }
}
