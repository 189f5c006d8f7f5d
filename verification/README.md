# Verified rules of the A+ learning platform

A+ grades exercises of courses. This project models, in Dafny, the rules that decide grades,
deadlines, submissions and enrollments, and the background protocols around them, and proves
what they promise.

| file | models |
|---|---|
| `Padding.dfy`, `Transfers.dfy`, `SuccessiveLimits.dfy`, `DiplomaGrade.dfy` | diploma grades, with points of harder difficulties standing in for easier ones |
| `Deviations.dfy`, `Timing.dfy` | personal deadline extensions; when an exercise accepts submissions |
| `Grading.dfy` | points, penalties and approval of one submission |
| `Reveal.dfy` | when feedback and model solutions are revealed |
| `Admission.dfy` | who may submit, and with whom |
| `RetryProtocol.dfy` | retries of submissions that wait for the grading service |
| `RegradeProtocol.dfy` | mass regrading |
| `SisEnrollment.dfy` | synchronisation with the student information system |
| `PointsQuery.dfy` | the two queries for a submitter's points |
| `Common.dfy`, `Sums.dfy` | shared types and sums |

`dafny verify dfyconfig.toml` checks everything.

Times are integers (seconds), grade arithmetic is over `real` with halves rounded to even.
Tables are maps. A Python assertion or exception becomes a result value (`None`, `raised`,
`KeyError`). Code that updates state is a class or a method with loops, tied by its
postconditions to functions on which the theorems are stated.

## What is proved

* **Diploma padding.** The nested greedy loop over the shared dictionary is proved to compute
  `GradeOf`, and `PaddedGradeExact` gives the padded grade in closed form for arbitrary
  non-negative limits over one order of difficulties: at least t limits are passed exactly when
  every suffix of the original points pays for the dearest walk through the first t limits. For
  limits that never decrease the grade is the number of leading limits that the points cover one
  by one (`PaddedGradeOfRisingLimits`). For limits that do decrease the shared dictionary can cost
  a grade (`CarryingCanHarm`), and `CarryingIsHarmlessIff` says exactly for which limits it never
  does. The filling itself is optimal among all sequences of moves of points to easier
  difficulties (`GreedyIsOptimal`).
* **Group submissions.** `AllowedIff` says exactly when a submission is allowed and for whom. In every run of accepted submissions the submitters of a group exercise
  stay a partition. The one exception is a member of staff who is not enrolled and submits
  without the group checks (`UnenrolledStaffCanBreakPartition`);
  `AcceptedKeepsPartitionIff` is exact about it.
* **Retries.** The recursion between marking a submission ready and retrying the next one
  terminates with the number of pending rows, sends at most one request more than it gets
  graded pages, and never draws from an empty table. Over whole runs and for all answers, a
  submission that is not sent again by hand stays within the retry limit as long as no page is
  graded at once, as with asynchronous answers, and within one above it ever after
  (`RetriesWithinLimit`). That one is reached: the loop of stable mode works on a snapshot, which
  the probes that follow a page graded at once may overtake (`ProbeOvertakesLoop`). Without probes
  and requests by hand, the waits between retries grow as the settings say (`RetriesBackOff`). A
  pending row whose submission is not WAITING can arise only from a graded page with negative
  points, which passes the sanity test and then fails an assertion; `Grade` states exactly when.
* **Mass regrades.** Under every interleaving of starters, workers and list pages, an exercise has
  at most one active run, whose row no page deletes. A starter that dies between making its row and
  launching its run blocks the exercise for good (`OrphanBlocksForever`).
* **Deadlines.** The separate computations of deadlines agree: reveal rules never reveal while
  submitting is still worth something, personal deadlines lie within everyone's, and the query
  and the loop for extensions find the same deadline. Later work is never worth more, except under
  the settings that let penalised late work be followed by unofficial work, named in
  `LaterNeverBetterIff`.
* **Enrollment.** A synchronisation mirrors the list of participants, spares everybody else, counts
  what it does, and is idempotent.

## Model

| member | source | states |
|---|---|---|
| `Padding.PadSucceedsIff` | diploma/grade.py:22-44 | filling a list limit succeeds exactly when every suffix sum of the points is at least that of the limit |
| `Padding.PadConserves` | diploma/grade.py:31-37 | a filled limit leaves the total over the listed difficulties unchanged |
| `Padding.PadLeaves` | diploma/grade.py:22-44 | exactly how many points each suffix still holds after a limit has been filled |
| `Transfers.ReachableByMovesIff` | diploma/grade.py:31-37 | single moves of points from a difficulty to an easier one reach exactly the non-negative rows of the same total in which no suffix holds more |
| `Transfers.GreedyIsOptimal` | diploma/grade.py:27-37 | nearest-first filling succeeds exactly when some sequence of such moves meets the limit, and is such a sequence |
| `SuccessiveLimits.AffordsExactly` | diploma/grade.py:47-53 | a sequence of limits over one dictionary succeeds exactly when the points hold what the dearest walk through the limits needs |
| `SuccessiveLimits.CarryingCanHarm` | diploma/grade.py:15-53 | a concrete pair of limits that do decrease, where the shared dictionary fails points that cover each limit |
| `DiplomaGrade.Borrow` | diploma/grade.py:28-37 | the inner loop fills one difficulty from those after it, nearest first, and changes no other entry |
| `DiplomaGrade.PassListLimit` | diploma/grade.py:18-44 | the loops over one list limit: when they pass, the row they leave, the conserved total, the untouched entries, and nothing changed without padding |
| `DiplomaGrade.PassLimit` | diploma/grade.py:17-45 | one limit, plain or list, over the shared dictionary |
| `DiplomaGrade.CalculateGrade` | diploma/grade.py:9-53 | the count of leading limits passed, each over the dictionary that the one before it left |
| `DiplomaGrade.PaddedGradeExact` | diploma/grade.py:15-53 | the padded grade in closed form, from the original points and arbitrary non-negative limits |
| `DiplomaGrade.PaddedGradeOfRisingLimits` | diploma/grade.py:15-53 | for limits that never decrease, the padded grade is the number of leading limits covered, suffix by suffix, by the original points |
| `DiplomaGrade.CarryingIsHarmlessIff` | diploma/grade.py:15-53 | sharing the dictionary gives the grade of the limits taken one by one, for all points, exactly when no leading part of the limits has a walk dearer than its largest limit; bounds on the total may be among them |
| `DiplomaGrade.PaddedGradeGrows` | diploma/grade.py:15-53 | more points never lower the padded grade |
| `DiplomaGrade.PlainGradeExact` | diploma/grade.py:41-53 | without padding, the grade counts the leading limits met difficulty by difficulty |
| `DiplomaGrade.MissingIsZero` | diploma/grade.py:25-41 | a difficulty missing from the points counts as one with no points |
| `DiplomaGrade.PaddingNeverHurts` | diploma/grade.py:15-53 | the padded grade is never below the unpadded one, whatever the lists |
| `Deviations.OneHasDeadlineDeviation` | exercise/exercise_models.py:810-817 | the nested loops find a longest extension of the students, and none exactly when they have none |
| `Deviations.FirstPerExercise` | deviations/models.py:65-70 | the loop keeps the first row of each exercise of the stream |
| `Deviations.FirstIsLongest` | deviations/models.py:60-70 | each row kept from the ordered stream is a longest one of its exercise |
| `Deviations.FirstCovers` | deviations/models.py:60-70 | every exercise of the stream keeps a row |
| `Deviations.FirstsIncrease` | deviations/models.py:60-70 | no exercise keeps two rows |
| `Deviations.QueryAgreesWithScan` | deviations/models.py:31-80 | the query yields a row for an exercise exactly when the scan over the submitter and their companions finds one, with the same new deadline |
| `Timing.TimingMovesForward` | exercise/exercise_models.py:705-735 | as time passes the timing never goes back, and between the deadlines and archiving it stays the same |
| `Timing.TimingIsExact` | exercise/exercise_models.py:705-735 | the timing at every moment, from the settings and the extension: archived, not yet open, level confirmation, open, late, unofficial or closed |
| `Timing.DeadlineShown` | exercise/exercise_models.py:705-735 | which deadline is shown with each timing |
| `Timing.TimingByDeadlines` | exercise/exercise_models.py:705-735 | while the course runs, two moments decide the timing, and the deadline shown lies ahead exactly for open and late work |
| `Timing.MoreStudentsKeepAccess` | exercise/exercise_models.py:750-817 | adding students never takes access away |
| `Grading.RoundIsNearest` | exercise/submission_models.py:626 | the grade is a nearest integer, and the even one of two |
| `Grading.GradeGrowsWithPoints` | exercise/submission_models.py:605-626 | more service points never lower the grade, and on the exercise's own scale the grade is the points |
| `Grading.GradeIsProportional` | exercise/submission_models.py:587-626 | the grade is a nearest integer to the exercise's maximum times the share of points, times what the work is worth after the late penalty; a service maximum of 0 is read as the exercise's |
| `Grading.SetPointsInBounds` | exercise/submission_models.py:587-629 | points are refused exactly when out of range, and the grade lies between 0 and the maximum |
| `Grading.ApprovalUndoesPenalties` | exercise/submission_models.py:565-574 | penalised grading and approval give what grading without penalties gives, READY, not approvable, with no lower grade; only the recorded unofficial type stays |
| `Grading.LaterNeverBetter` | exercise/submission_models.py:605-626 | between opening and archiving, with unofficial submissions off, the same points are worth no more later |
| `Grading.LaterNeverBetterIff` | exercise/submission_models.py:605-626 | that holds, for all points and times, except exactly for the settings that accept unofficial work, penalise late work and end a stretch of late time before archiving |
| `Grading.WaitingCanPayIff` | exercise/exercise_models.py:705-735 | those settings are the ones under which penalised late work is followed by unofficial work |
| `Grading.WaitingPaysHere` | exercise/submission_models.py:605-626 | concrete settings and times where the same points are worth 5 and later 10 |
| `Grading.SubmissionRow.SetPoints` | exercise/submission_models.py:576-629 | the fields after set_points, unchanged when its first assertion fails, with the grade a nearest integer to the exact share; its last assertion cannot fail |
| `Grading.SubmissionRow.SetReady` | exercise/submission_models.py:640-644 | the status after set_ready |
| `Grading.SubmissionRow.ApprovePenalizedSubmission` | exercise/submission_models.py:565-574 | the fields after approval, READY and not approvable |
| `Reveal.RevealTimeIsExact` | exercise/reveal_models.py:42-98 | time alone reveals exactly after the reveal time, and what is revealed stays revealed |
| `Reveal.RevealedOnlyAfterClosing` | exercise/reveal_models.py:67-98 | once a deadline rule reveals, the exercise is not open to the student, alone or with companions, and late only at a penalty above 99 percent |
| `Reveal.RevealedWorkIsWorthLittle` | exercise/submission_models.py:605-626 | late work after that is graded at a hundredth of the maximum at most, up to rounding |
| `Reveal.RevealedIff` | exercise/reveal_models.py:42-98 | exactly when each kind of rule reveals an exercise, from the settings, the extensions, the delay and the student's points and submissions |
| `Reveal.ModuleRevealedIff` | exercise/reveal_states.py:128-199 | exactly when each kind of rule reveals a module, from the deadlines, points and limits of all exercises of its tree |
| `Reveal.PersonalWithinLatest` | exercise/reveal_states.py:107-125 | an exercise's personal deadline lies within everyone's deadline |
| `Reveal.ModulePersonalWithinLatest` | exercise/reveal_states.py:152-173 | so it does for the whole tree of a module, and the lookup fails exactly when the largest extension is outside the tree |
| `Reveal.AllNeverBeforePersonal` | exercise/reveal_models.py:76-85 | for an exercise, revealing after everyone's deadline never precedes revealing after the personal one with no longer delay |
| `Reveal.ModuleAllNeverBeforePersonal` | exercise/reveal_models.py:76-85 | nor does it for a module, whenever its lookup does not fail |
| `Reveal.ModuleExhaustedIff` | exercise/reveal_states.py:182-186 | the comparison of sums holds exactly when every exercise is at its limit and the limits add up to something; for non-negative limits, when one is positive |
| `Reveal.FlattenIsComplete` | exercise/reveal_states.py:188-199 | the flattened tree holds every exercise at any depth and nothing else |
| `Reveal.Collect` | exercise/reveal_states.py:188-199 | the recursion appends all exercises of the tree, parents first |
| `Reveal.ExerciseRevealState.GetLatestDeadline` | exercise/reveal_states.py:110-125 | everyone's deadline from the row fetched first, which is remembered |
| `Reveal.ModuleRevealState.GetLatestDeadline` | exercise/reveal_states.py:157-173 | everyone's deadline of a module from the row fetched first, or a failed lookup |
| `Admission.OneHasSubmissions` | exercise/exercise_models.py:842-875 | someone is below their limit, or the fallback applies to the count of the last student |
| `Admission.NoSubmissionsLeft` | exercise/exercise_models.py:877-888 | everyone is past their limit, and there is one |
| `Admission.AllowedIff` | exercise/exercise_models.py:903-1043 | a submission is allowed, for these students, exactly when the student may enroll or is enrolled, the team is the one named or selected or the student alone, it stands, and it is all staff or of the right size, in time and within the limit; all on the fields of the exercise, the course and the history |
| `Admission.RefusedOutright` | exercise/exercise_models.py:916-946 | exactly when a student is refused before the choice of a group |
| `Admission.RefusedForGroupIff` | exercise/exercise_models.py:948-999 | a group is refused exactly when the request is readable and no team stands |
| `Admission.RefusedAsInvalidIff` | exercise/exercise_models.py:1002-1033 | a team is invalid exactly when it stands, is not all staff, and of the wrong size or out of time |
| `Admission.RefusedForLimitIff` | exercise/exercise_models.py:1035-1041 | a team is turned away for the limit exactly when nothing but the limit is against it |
| `Admission.CountIsUsed` | exercise/exercise_models.py:825-831 | the counted submissions are those of the student that did not fail and are neither rejected nor unofficial |
| `Admission.StudentMaySubmit` | exercise/exercise_models.py:903-1043 | an enrolled student in time, with submissions left and none with others, may submit alone |
| `Admission.GroupMaySubmit` | exercise/exercise_models.py:903-1043 | so may the members of a named or selected group that have submitted only together |
| `Admission.NobodySubmitsAfterArchiving` | exercise/exercise_models.py:705-711 | after archiving only teams of staff are allowed, except to enrollment exercises |
| `Admission.TeamFits` | exercise/exercise_models.py:972-1000 | a team that passes the group checks has no earlier submission with other submitters |
| `Admission.AcceptedKeepsPartitionIff` | exercise/exercise_models.py:938-1057 | an accepted submission keeps the partition exactly when it is not an unenrolled member of staff who has submitted with others |
| `Admission.UnenrolledStaffCanBreakPartition` | exercise/exercise_models.py:938-941 | a concrete accepted submission that breaks the partition |
| `Admission.RunKeepsPartition` | exercise/exercise_models.py:945-1057 | in every run of accepted submissions under arbitrary changes of the course, submissions that share a submitter have the same submitters |
| `Admission.RunRecords` | exercise/exercise_models.py:903-1043 | a run records each submission of a student who may submit, with its team, and no other |
| `Admission.TeamCountsAgree` | exercise/exercise_models.py:853-860 | after the group checks all students have the same counted submissions |
| `Admission.LimitIgnoresOrder` | exercise/exercise_models.py:853-875 | so the limit decision does not depend on the order of the students, and is that of the common count |
| `Admission.GradedAsAdmitted` | exercise/exercise_models.py:877-888 | grading marks a submission as exceeding the limit exactly when no member was below the limit at admission |
| `RetryProtocol.BackoffClosedForm` | aplus/celery.py:80-85 | the waits before n retries add up to timeout * (1 + n(n-1)/2) |
| `RetryProtocol.SomePending` | aplus/celery.py:53-58 | the random choice never draws from an empty table, whatever the threshold |
| `RetryProtocol.StableIff` | exercise/submission_models.py:901-903 | stable means retries of 0 or at most the threshold, added up in any order |
| `RetryProtocol.GradingService.IsGraderStable` | exercise/submission_models.py:901-903 | stable unless the retries in total are above the threshold and not zero |
| `RetryProtocol.GradingService.MarkPending` | exercise/submission_models.py:699-706 | one more retry for an existing row, a new row otherwise, nothing for other hosts |
| `RetryProtocol.GradingService.SetReady` | exercise/submission_models.py:640-659 | the row is gone, the rows of others only evolve within the limit, no more than one request beyond the graded pages is sent, exactly one probe follows if the grading service is not stable, and the recursion ends |
| `RetryProtocol.GradingService.Grade` | exercise/protocol/aplus.py:48-118 | the status and row for every reply, what happens to other submissions, the bound on requests, and exactly when a pending row is left without the status WAITING |
| `RetryProtocol.GradingService.RetrySubmissions` | aplus/celery.py:48-97 | recovery mode: one probe, its bound on requests and its effect; stable mode: every due row is sent and every spent row given up |
| `RetryProtocol.GradingService.RetryExpired` | aplus/celery.py:72-97 | the stable loop sends every row whose back-off is over, gives up every spent one, leaves all others alone unless a page is graded at once, and keeps all invariants, although probes may overtake its snapshot |
| `RetryProtocol.GradingService.Handle` | exercise/async_views.py:40-108 | the status and row after a submission, a new grading request, a callback with points, an error or refused points, a review, an approval or the periodic task; which rows may come to be retried by hand or early; and when a probe cannot be sent |
| `RetryProtocol.GradingService.Run` | aplus/celery.py:48-97 | after every run of grading, callbacks, reviews, approvals and retries: pending rows are WAITING, retries are within their bounds, waits are kept, and only requests by hand and probes exempt a row |
| `RetryProtocol.RetriesWithinLimit` | aplus/celery.py:48-97 | from empty tables, after every run, a submission not sent again by hand has at most limit + 1 retries, and at most limit if no page is graded at once, as when all answers are asynchronous |
| `RetryProtocol.RetriesBackOff` | aplus/celery.py:72-90 | from any state, in a run without probes, a new submission that is not sent again by hand has waited more than timeout * (1 + n(n-1)/2) for its n retries, counted from its submission |
| `RetryProtocol.ProbeOvertakesLoop` | aplus/celery.py:72-90 | a concrete run in which a row gets one retry more than the limit |
| `RetryProtocol.NegativePointsBreakConsistency` | exercise/protocol/aplus.py:67-73 | a concrete page with negative points leaves a pending row with the status INITIALIZED |
| `RegradeProtocol.ReachableInv` | exercise/staff_views.py:370-386 | the invariant of rows, runs, starters and cleaners holds after every sequence of steps |
| `RegradeProtocol.AtMostOneActiveRun` | exercise/tasks.py:29-56 | in every interleaving an exercise has at most one active run, and the run's row exists |
| `RegradeProtocol.CleanerSparesActiveRuns` | exercise/viewbase.py:287-304 | in every interleaving a list page leaves the rows of active runs alone |
| `RegradeProtocol.WorkerDeletesOwnRow` | exercise/tasks.py:48-56 | the row that a worker finds by its exercise is its own |
| `RegradeProtocol.NoSecondStart` | exercise/staff_views.py:370-381 | while a run is active no step starts another for the exercise |
| `RegradeProtocol.StartingWorks` | exercise/staff_views.py:370-381 | a starter left alone launches one run with the only row of the exercise |
| `RegradeProtocol.StartIsRefused` | exercise/staff_views.py:370-386 | while the exercise has a row a starter is turned away, at once or when it tries to make one |
| `RegradeProtocol.WorkerNeverMissesItsRow` | exercise/tasks.py:48-55 | in every interleaving the row is there when the worker looks for it |
| `RegradeProtocol.FinishingWorks` | exercise/tasks.py:48-56 | a finished worker frees the exercise and reports |
| `RegradeProtocol.GradingReports` | exercise/tasks.py:33-44 | after n graded submissions the reported progress is n more |
| `RegradeProtocol.FailedRunIsCleaned` | exercise/viewbase.py:287-304 | after a failed run a list page frees the exercise |
| `RegradeProtocol.ForgottenFailureStays` | exercise/viewbase.py:287-306 | but not once its result is forgotten |
| `RegradeProtocol.LateSaveIsCleaned` | exercise/staff_views.py:379-381 | a task id stored after the run has ended puts the row back, and a list page frees the exercise again |
| `RegradeProtocol.OrphanBlocksForever` | exercise/staff_views.py:374-381 | a row whose starter died before launching its run stays under every sequence of steps, so the exercise cannot be regraded |
| `RegradeProtocol.DyingOrphans` | exercise/staff_views.py:374-381 | a starter that dies between making its row and launching its run leaves such a row |
| `SisEnrollment.CourseInstance.EnrollStudent` | course/models.py:985-1027 | the enrollment after enroll_student, and whether the student is new |
| `SisEnrollment.CourseInstance.EnrollFromSis` | course/models.py:1029-1091 | the roll after a synchronisation, student by student, the two counts, and nothing done for errors and empty lists |
| `SisEnrollment.SyncPerStudent` | course/models.py:1003-1085 | what becomes of each student, from the profiles and the list: newcomers, enrolled participants, leavers and everybody else |
| `SisEnrollment.SyncMirrorsParticipants` | course/models.py:1059-1085 | remaining enrollments by the system are of listed ids, and every id with one profile is enrolled |
| `SisEnrollment.SyncSparesOthers` | course/models.py:1078-1085 | enrollments by hand and ambiguous ids are unchanged |
| `SisEnrollment.SyncKeepsStaff` | course/models.py:1003-1011 | enrolled staff keep their role and are not taken over by the system |
| `SisEnrollment.SyncIsIdempotent` | course/models.py:1029-1091 | a second synchronisation with the same list changes nothing and counts nothing |
| `PointsQuery.MaxGradeIsMax` | exercise/submission_models.py:124-138 | the aggregates are the largest grades of the filtered submissions |
| `PointsQuery.FastQueryNeverLess` | exercise/submission_models.py:84-223 | the fast query reports no fewer points than the general one, and exactly when they agree |
| `PointsQuery.PointsAre` | exercise/submission_models.py:84-223 | what both queries report, from the submissions' statuses, grades, flags and times |
| `PointsQuery.OnlyAcceptedCount` | exercise/submission_models.py:84-223 | submissions neither forced nor in an accepted status change nothing |
| `PointsQuery.PointsPriorities` | exercise/submission_models.py:84-223 | hidden points are 0, forced points come first, and without accepted submissions there are 0 points |

## Left out

- HTTP, forms, templates, messages, permissions, LTI and the admin site: no hard rules of their own.
- Concurrent requests inside one step: the admission check and the creation of the submission, and each grading step or task run of the retry protocol, are atomic.
- Floating-point error: percentages and scaled points are exact reals.
- Diploma limits that are empty lists (the source raises an exception) or name a difficulty twice, and negative points: excluded by preconditions. Closed forms are for list limits over one common order of difficulties.
- RetryProtocol.GradingService.Run: assumes that no graded page has negative points; such pages are treated in `Grade`.
- RetryProtocol.GradingService.SetReady: post-grading hooks are not modelled.
- RetryProtocol.GradingService.Handle: a score message over LTI that sets points without marking the submission ready is not modelled.
- Editing of submitters by teachers, and submissions created by teachers on behalf of students: they do not pass the admission check.
- The points cache is described by what it supplies (exercise/cache/points.py:674-686, exercise/cache/basetypes.py:305-308).
- Extra submissions granted to companions, as the points cache counts them: the query is the one for deadlines with another column.
- Exercise collections, time zones in the forms for extensions, and the removal of an exercise while it is being regraded.
- The regrade worker's order of submissions and its progress percentages.
