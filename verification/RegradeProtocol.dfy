/**
 Mass regrading (exercise/staff_views.py, exercise/tasks.py, exercise/viewbase.py).

 A teacher starts a regrade of an exercise, a background worker runs it, and the list pages
 clean up after runs that are over. All of them meet in a table with at most one row per
 exercise. The steps below are single database statements or messages, and interleave freely.
 */
module RegradeProtocol {
  import opened Common

  /** An ExerciseTask row; the task id is empty until the starter has stored it. */
  datatype Row = Row(exercise: int, taskId: Option<int>)

  /** What the result backend says of a task: PENDING also stands for ids it does not know. */
  datatype Result = Pending | Progress(current: nat) | Success | Failure

  /** The worker: grading, about to delete the row it has found, or done. */
  datatype Phase = Grading(count: nat) | Deleting(row: int) | Done

  /** A run of the task, with the row that its starter made. */
  datatype Run = Run(exercise: int, row: int, phase: Phase, result: Result)

  /** A starter after it saw no row, made one, or launched its run. */
  datatype Starter =
    | Checked(exercise: int)
    | Created(exercise: int, row: int)
    | Launched(exercise: int, row: int, run: int)

  /** A list page after it read a row, or found the row's run (recorded here) to be over. */
  datatype Cleaner = Reading(row: int, taskId: Option<int>) | Stale(row: int, run: int)

  datatype World = World(
    rows: map<int, Row>, nextRow: int, runs: map<int, Run>, nextRun: int,
    starters: map<int, Starter>, cleaners: map<int, Cleaner>)

  const EMPTY := World(map[], 0, map[], 0, map[], map[])

  /** A run is active until it has deleted its row or ended otherwise. */
  predicate Active(run: Run) {
    !run.phase.Done?
  }

  ghost predicate Occupied(w: World, exercise: int) {
    exists k :: k in w.rows && w.rows[k].exercise == exercise
  }

  datatype Action =
    | StarterChecks(starter: int, exercise: int)
    | StarterCreates(starter: int)
    | StarterLaunches(starter: int)
    | StarterSaves(starter: int)
    | StarterDies(starter: int)
    | WorkerGrades(run: int)
    | WorkerFindsRow(run: int, row: int)
    | WorkerFindsNoRow(run: int)
    | WorkerDeletes(run: int)
    | WorkerReports(run: int, result: Result)
    | WorkerFails(run: int, result: Result)
    | ResultForgotten(run: int)
    | CleanerReads(cleaner: int, row: int)
    | CleanerJudges(cleaner: int)
    | CleanerDeletes(cleaner: int)

  function Known(w: World, taskId: Option<int>): Result {
    if taskId.Some? && taskId.value in w.runs then w.runs[taskId.value].result else Pending
  }

  /** One step; an action that is not possible changes nothing. */
  ghost function Step(w: World, a: Action): World {
    match a
    case StarterChecks(p, e) =>
      if p in w.starters || Occupied(w, e) then w else w.(starters := w.starters[p := Checked(e)])
    case StarterCreates(p) =>
      if !(p in w.starters && w.starters[p].Checked?) then w
      else if Occupied(w, w.starters[p].exercise) then w.(starters := w.starters - {p})
      else
        var e := w.starters[p].exercise;
        w.(rows := w.rows[w.nextRow := Row(e, None)], nextRow := w.nextRow + 1,
           starters := w.starters[p := Created(e, w.nextRow)])
    case StarterLaunches(p) =>
      if !(p in w.starters && w.starters[p].Created?) then w
      else
        var s := w.starters[p];
        w.(runs := w.runs[w.nextRun := Run(s.exercise, s.row, Grading(0), Pending)], nextRun := w.nextRun + 1,
           starters := w.starters[p := Launched(s.exercise, s.row, w.nextRun)])
    case StarterSaves(p) =>
      if !(p in w.starters && w.starters[p].Launched?) then w
      else
        var s := w.starters[p];
        var done := w.starters - {p};
        // An update, or an insert under the old key unless the unique constraint refuses it.
        if s.row in w.rows then w.(rows := w.rows[s.row := w.rows[s.row].(taskId := Some(s.run))], starters := done)
        else if Occupied(w, s.exercise) then w.(starters := done)
        else w.(rows := w.rows[s.row := Row(s.exercise, Some(s.run))], starters := done)
    case StarterDies(p) => w.(starters := w.starters - {p})
    case WorkerGrades(r) =>
      if !(r in w.runs && w.runs[r].phase.Grading?) then w
      else
        var n := w.runs[r].phase.count + 1;
        w.(runs := w.runs[r := w.runs[r].(phase := Grading(n), result := Progress(n))])
    case WorkerFindsRow(r, k) =>
      if !(r in w.runs && w.runs[r].phase.Grading? && k in w.rows && w.rows[k].exercise == w.runs[r].exercise) then w
      else w.(runs := w.runs[r := w.runs[r].(phase := Deleting(k))])
    case WorkerFindsNoRow(r) =>
      if !(r in w.runs && w.runs[r].phase.Grading? && !Occupied(w, w.runs[r].exercise)) then w
      else w.(runs := w.runs[r := w.runs[r].(phase := Done)])
    case WorkerDeletes(r) =>
      if !(r in w.runs && w.runs[r].phase.Deleting?) then w
      else w.(rows := w.rows - {w.runs[r].phase.row}, runs := w.runs[r := w.runs[r].(phase := Done)])
    case WorkerReports(r, result) =>
      if !(r in w.runs && w.runs[r].phase.Done?) then w
      else w.(runs := w.runs[r := w.runs[r].(result := result)])
    case WorkerFails(r, result) =>
      if r !in w.runs then w
      else w.(runs := w.runs[r := w.runs[r].(phase := Done, result := result)])
    case ResultForgotten(r) =>
      if r !in w.runs then w
      else w.(runs := w.runs[r := w.runs[r].(result := Pending)])
    case CleanerReads(q, k) =>
      if k !in w.rows then w else w.(cleaners := w.cleaners[q := Reading(k, w.rows[k].taskId)])
    case CleanerJudges(q) =>
      if !(q in w.cleaners && w.cleaners[q].Reading?) then w
      else
        var c := w.cleaners[q];
        var result := Known(w, c.taskId);
        if result.Progress? || result.Pending? then w.(cleaners := w.cleaners - {q})
        else w.(cleaners := w.cleaners[q := Stale(c.row, c.taskId.value)])
    case CleanerDeletes(q) =>
      if !(q in w.cleaners && w.cleaners[q].Stale?) then w
      else w.(rows := w.rows - {w.cleaners[q].row}, cleaners := w.cleaners - {q})
  }

  ghost function Exec(actions: seq<Action>): World {
    if actions == [] then EMPTY else Step(Exec(actions[..|actions| - 1]), actions[|actions| - 1])
  }

  // ----- Invariant --------------------------------------------------------------------------------------------

  /** At most one row per exercise; rows name runs that were started for them. */
  ghost predicate RowsOk(rows: map<int, Row>, nextRow: int, runs: map<int, Run>) {
    (forall j, k | j in rows && k in rows && rows[j].exercise == rows[k].exercise :: j == k) &&
    (forall k | k in rows ::
       k < nextRow &&
       (rows[k].taskId.Some? ==> rows[k].taskId.value in runs && runs[rows[k].taskId.value].row == k))
  }

  /** Runs have rows of their own, which are there and theirs while they are active. */
  ghost predicate RunsOk(rows: map<int, Row>, nextRow: int, runs: map<int, Run>, nextRun: int) {
    (forall q, r | q in runs && r in runs && runs[q].row == runs[r].row :: q == r) &&
    (forall r | r in runs :: r < nextRun && runs[r].row < nextRow && RunOk(rows, runs[r]))
  }

  ghost predicate RunOk(rows: map<int, Row>, run: Run) {
    (run.row in rows ==> rows[run.row].exercise == run.exercise) &&
    (Active(run) ==> run.row in rows && (run.result.Pending? || run.result.Progress?)) &&
    (run.phase.Deleting? ==> run.phase.row == run.row)
  }

  /** A created row waits for its run; a launched run has the row. */
  ghost predicate StartersOk(rows: map<int, Row>, runs: map<int, Run>, starters: map<int, Starter>) {
    (forall p | p in starters && starters[p].Created? ::
       starters[p].row in rows && rows[starters[p].row].exercise == starters[p].exercise &&
       forall r | r in runs :: runs[r].row != starters[p].row) &&
    (forall p, q | p in starters && q in starters && starters[p].Created? && starters[q].Created? &&
       starters[p].row == starters[q].row :: p == q) &&
    (forall p | p in starters && starters[p].Launched? ::
       starters[p].run in runs && runs[starters[p].run].row == starters[p].row &&
       runs[starters[p].run].exercise == starters[p].exercise)
  }

  /** A page holds on to a row of the run it read; a stale row's run is over. */
  ghost predicate CleanersOk(runs: map<int, Run>, cleaners: map<int, Cleaner>) {
    forall q | q in cleaners ::
      match cleaners[q]
      case Reading(row, taskId) => taskId.Some? ==> taskId.value in runs && runs[taskId.value].row == row
      case Stale(row, run) => run in runs && runs[run].row == row && !Active(runs[run])
  }

  ghost predicate Inv(w: World) {
    RowsOk(w.rows, w.nextRow, w.runs) && RunsOk(w.rows, w.nextRow, w.runs, w.nextRun) &&
    StartersOk(w.rows, w.runs, w.starters) && CleanersOk(w.runs, w.cleaners)
  }

  // ----- Every step keeps it ------------------------------------------------------------------------------------

  /** A step of a run: it keeps its exercise and row, and does not come back to life. */
  ghost predicate Continues(run: Run, next: Run) {
    next.exercise == run.exercise && next.row == run.row &&
    (Active(next) ==> Active(run) && (next.result.Pending? || next.result.Progress?)) &&
    (next.phase.Deleting? ==> next.phase.row == next.row)
  }

  lemma RunStepKeepsInv(w: World, r: int, next: Run)
    requires Inv(w) && r in w.runs && Continues(w.runs[r], next)
    ensures Inv(w.(runs := w.runs[r := next]))
  {
  }

  /** Deleting a row that no active run and no new starter has. */
  lemma DeletionKeepsInv(w: World, k: int)
    requires Inv(w) && forall r | r in w.runs && Active(w.runs[r]) :: w.runs[r].row != k
    requires forall p | p in w.starters && w.starters[p].Created? :: w.starters[p].row != k
    ensures Inv(w.(rows := w.rows - {k}))
  {
  }

  lemma DroppingKeepsInv(w: World, starters: map<int, Starter>, cleaners: map<int, Cleaner>)
    requires Inv(w) && (forall p | p in starters :: p in w.starters && w.starters[p] == starters[p])
    requires forall q | q in cleaners :: q in w.cleaners && w.cleaners[q] == cleaners[q]
    ensures Inv(w.(starters := starters, cleaners := cleaners))
  {
  }

  lemma CheckingKeepsInv(w: World, p: int, e: int)
    requires Inv(w)
    ensures Inv(Step(w, StarterChecks(p, e)))
  {
  }

  lemma InsertingKeepsInv(w: World, p: int, e: int)
    requires Inv(w) && !Occupied(w, e) && p in w.starters
    ensures Inv(w.(rows := w.rows[w.nextRow := Row(e, None)], nextRow := w.nextRow + 1,
                   starters := w.starters[p := Created(e, w.nextRow)]))
  {
  }

  lemma CreatingKeepsInv(w: World, p: int)
    requires Inv(w)
    ensures Inv(Step(w, StarterCreates(p)))
  {
    DroppingKeepsInv(w, w.starters - {p}, w.cleaners);
    if p in w.starters && w.starters[p].Checked? && !Occupied(w, w.starters[p].exercise) {
      InsertingKeepsInv(w, p, w.starters[p].exercise);
    }
  }

  lemma LaunchingKeepsInv(w: World, p: int)
    requires Inv(w)
    ensures Inv(Step(w, StarterLaunches(p)))
  {
  }

  /** Storing the id of the run that has the row, or putting the row back. */
  lemma WritingKeepsInv(w: World, k: int, r: int)
    requires Inv(w) && r in w.runs && w.runs[r].row == k && (k in w.rows || !Occupied(w, w.runs[r].exercise))
    ensures Inv(w.(rows := w.rows[k := Row(w.runs[r].exercise, Some(r))]))
  {
  }

  lemma SavingKeepsInv(w: World, p: int)
    requires Inv(w)
    ensures Inv(Step(w, StarterSaves(p)))
  {
    DroppingKeepsInv(w, w.starters - {p}, w.cleaners);
    if p in w.starters && w.starters[p].Launched? {
      var s, v := w.starters[p], w.(starters := w.starters - {p});
      if s.row in w.rows || !Occupied(w, s.exercise) {
        WritingKeepsInv(v, s.row, s.run);
      }
    }
  }

  lemma WorkerKeepsInv(w: World, a: Action)
    requires Inv(w)
    requires a.WorkerGrades? || a.WorkerFindsRow? || a.WorkerFindsNoRow? || a.WorkerReports? || a.WorkerFails? ||
             a.ResultForgotten?
    ensures Inv(Step(w, a))
  {
    var w' := Step(w, a);
    if w' != w {
      assert Continues(w.runs[a.run], w'.runs[a.run]) && w' == w.(runs := w.runs[a.run := w'.runs[a.run]]);
      RunStepKeepsInv(w, a.run, w'.runs[a.run]);
    }
  }

  lemma WorkerDeletionKeepsInv(w: World, r: int)
    requires Inv(w)
    ensures Inv(Step(w, WorkerDeletes(r)))
  {
    if r in w.runs && w.runs[r].phase.Deleting? {
      var done := w.runs[r].(phase := Done);
      RunStepKeepsInv(w, r, done);
      DeletionKeepsInv(w.(runs := w.runs[r := done]), w.runs[r].row);
    }
  }

  lemma ReadingKeepsInv(w: World, q: int, k: int)
    requires Inv(w)
    ensures Inv(Step(w, CleanerReads(q, k)))
  {
  }

  lemma JudgingKeepsInv(w: World, q: int)
    requires Inv(w)
    ensures Inv(Step(w, CleanerJudges(q)))
  {
    DroppingKeepsInv(w, w.starters, w.cleaners - {q});
  }

  lemma CleanerDeletionKeepsInv(w: World, q: int)
    requires Inv(w)
    ensures Inv(Step(w, CleanerDeletes(q)))
  {
    if q in w.cleaners && w.cleaners[q].Stale? {
      DeletionKeepsInv(w, w.cleaners[q].row);
      DroppingKeepsInv(w.(rows := w.rows - {w.cleaners[q].row}), w.starters, w.cleaners - {q});
    }
  }

  lemma StepKeepsInv(w: World, a: Action)
    requires Inv(w)
    ensures Inv(Step(w, a))
  {
    match a {
      case StarterChecks(p, e) => CheckingKeepsInv(w, p, e);
      case StarterCreates(p) => CreatingKeepsInv(w, p);
      case StarterLaunches(p) => LaunchingKeepsInv(w, p);
      case StarterSaves(p) => SavingKeepsInv(w, p);
      case StarterDies(p) => DroppingKeepsInv(w, w.starters - {p}, w.cleaners);
      case WorkerDeletes(r) => WorkerDeletionKeepsInv(w, r);
      case CleanerReads(q, k) => ReadingKeepsInv(w, q, k);
      case CleanerJudges(q) => JudgingKeepsInv(w, q);
      case CleanerDeletes(q) => CleanerDeletionKeepsInv(w, q);
      case _ => WorkerKeepsInv(w, a);
    }
  }

  lemma {:induction false} ReachableInv(actions: seq<Action>)
    ensures Inv(Exec(actions))
  {
    if actions != [] {
      ReachableInv(actions[..|actions| - 1]);
      StepKeepsInv(Exec(actions[..|actions| - 1]), actions[|actions| - 1]);
    }
  }

  // ----- What it gives --------------------------------------------------------------------------------------------

  /** In every interleaving, an exercise has at most one active run, and the run's row is in the table. */
  lemma AtMostOneActiveRun(actions: seq<Action>, q: int, r: int)
    requires var w := Exec(actions);
             q in w.runs && r in w.runs && Active(w.runs[q]) && Active(w.runs[r]) &&
             w.runs[q].exercise == w.runs[r].exercise
    ensures var w := Exec(actions);
            q == r && w.runs[q].row in w.rows && w.rows[w.runs[q].row].exercise == w.runs[q].exercise
  {
    ReachableInv(actions);
  }

  /** In every interleaving, a page that deletes a row leaves the rows of all active runs alone. */
  lemma CleanerSparesActiveRuns(actions: seq<Action>, cleaner: int, r: int)
    requires r in Exec(actions).runs && Active(Exec(actions).runs[r])
    ensures var w := Step(Exec(actions), CleanerDeletes(cleaner));
            r in w.runs && w.runs[r].row in w.rows && w.rows[w.runs[r].row] == Exec(actions).rows[w.runs[r].row]
  {
    ReachableInv(actions);
  }

  /** In every interleaving, a worker deletes no row but its own. */
  lemma WorkerDeletesOwnRow(actions: seq<Action>, r: int, k: int)
    requires var w := Exec(actions); r in w.runs && w.runs[r].phase == Deleting(k)
    ensures Exec(actions).runs[r].row == k && k in Exec(actions).rows
  {
    ReachableInv(actions);
  }

  /** While a run is active, nobody starts another for its exercise: no step adds a run. */
  lemma NoSecondStart(actions: seq<Action>, r: int, a: Action, q: int)
    requires r in Exec(actions).runs && Active(Exec(actions).runs[r])
    requires var w := Step(Exec(actions), a); q in w.runs && q !in Exec(actions).runs
    ensures Step(Exec(actions), a).runs[q].exercise != Exec(actions).runs[r].exercise
  {
    ReachableInv(actions);
    StepKeepsInv(Exec(actions), a);
  }

  // ----- The protocol gets things done ------------------------------------------------------------------------------

  lemma StartingCreates(w: World, p: int, e: int)
    requires !Occupied(w, e) && p !in w.starters
    ensures Step(Step(w, StarterChecks(p, e)), StarterCreates(p)) ==
            w.(rows := w.rows[w.nextRow := Row(e, None)], nextRow := w.nextRow + 1,
               starters := w.starters[p := Created(e, w.nextRow)])
  {
    var a := Step(w, StarterChecks(p, e));
    assert !Occupied(a, e);
  }

  /** A starter left alone launches an active run, which has the only row of the exercise and names it. */
  lemma StartingWorks(w: World, p: int, e: int)
    requires Inv(w) && !Occupied(w, e) && p !in w.starters
    ensures var created := Step(Step(w, StarterChecks(p, e)), StarterCreates(p));
            var v := Step(Step(created, StarterLaunches(p)), StarterSaves(p));
            v == w.(rows := w.rows[w.nextRow := Row(e, Some(w.nextRun))], nextRow := w.nextRow + 1,
                    runs := w.runs[w.nextRun := Run(e, w.nextRow, Grading(0), Pending)], nextRun := w.nextRun + 1)
  {
    StartingCreates(w, p, e);
    var b := Step(Step(w, StarterChecks(p, e)), StarterCreates(p));
    var c := Step(b, StarterLaunches(p));
    assert c.starters[p] == Launched(e, w.nextRow, w.nextRun);
    assert c.starters - {p} == w.starters;
  }

  /** A worker that is done grading deletes its row, so that the exercise can be regraded again. */
  lemma FinishingWorks(w: World, r: int)
    requires Inv(w) && r in w.runs && w.runs[r].phase.Grading?
    ensures var v := Step(Step(w, WorkerFindsRow(r, w.runs[r].row)), WorkerDeletes(r));
            v.rows == w.rows - {w.runs[r].row} && v.runs[r].phase.Done? && !Occupied(v, w.runs[r].exercise) &&
            Step(v, WorkerReports(r, Success)) ==
              w.(rows := v.rows, runs := w.runs[r := w.runs[r].(phase := Done, result := Success)])
  {
  }

  /** A worker that has graded n submissions, undisturbed, reports that many more. */
  lemma {:induction false} GradingReports(w: World, r: int, n: nat)
    requires r in w.runs && w.runs[r].phase.Grading? && n > 0
    ensures var v := Grades(w, r, n);
            var count := w.runs[r].phase.count + n;
            v == w.(runs := w.runs[r := w.runs[r].(phase := Grading(count), result := Progress(count))])
  {
    if n > 1 {
      GradingReports(w, r, n - 1);
    }
  }

  ghost function Grades(w: World, r: int, n: nat): World {
    if n == 0 then w else Step(Grades(w, r, n - 1), WorkerGrades(r))
  }

  /** After a run has failed, a page that is not interrupted frees the exercise. */
  lemma FailedRunIsCleaned(w: World, r: int, q: int)
    requires Inv(w) && r in w.runs && w.runs[r].row in w.rows && w.rows[w.runs[r].row].taskId == Some(r)
    ensures var k := w.runs[r].row;
            var failed := Step(w, WorkerFails(r, Failure));
            var v := Step(Step(Step(failed, CleanerReads(q, k)), CleanerJudges(q)), CleanerDeletes(q));
            !Occupied(v, w.runs[r].exercise) && v.rows == w.rows - {k} && !Active(v.runs[r])
  {
    WorkerKeepsInv(w, WorkerFails(r, Failure));
    CleaningIff(Step(w, WorkerFails(r, Failure)), q, w.runs[r].row);
  }

  /** But if the result is forgotten first, the page takes the run to be starting and leaves the row. */
  lemma ForgottenFailureStays(w: World, r: int, q: int)
    requires Inv(w) && r in w.runs && w.runs[r].row in w.rows && w.rows[w.runs[r].row].taskId == Some(r)
    ensures var k := w.runs[r].row;
            var forgotten := Step(Step(w, WorkerFails(r, Failure)), ResultForgotten(r));
            var v := Step(Step(Step(forgotten, CleanerReads(q, k)), CleanerJudges(q)), CleanerDeletes(q));
            v.rows == w.rows && !Active(v.runs[r])
  {
    WorkerKeepsInv(w, WorkerFails(r, Failure));
    WorkerKeepsInv(Step(w, WorkerFails(r, Failure)), ResultForgotten(r));
    CleaningIff(Step(Step(w, WorkerFails(r, Failure)), ResultForgotten(r)), q, w.runs[r].row);
  }

  /** A starter that stores the id only after its run has ended puts the row back, until a page frees the exercise. */
  lemma LateSaveIsCleaned(w: World, p: int, q: int)
    requires Inv(w) && p in w.starters && w.starters[p].Launched? && !Occupied(w, w.starters[p].exercise)
    requires w.runs[w.starters[p].run].result.Success?
    ensures var s := w.starters[p];
            var saved := Step(w, StarterSaves(p));
            var v := Step(Step(Step(saved, CleanerReads(q, s.row)), CleanerJudges(q)), CleanerDeletes(q));
            s.row in saved.rows && saved.rows[s.row] == Row(s.exercise, Some(s.run)) &&
            saved.starters == w.starters - {p} && !Occupied(v, s.exercise)
  {
    var s := w.starters[p];
    var saved := Step(w, StarterSaves(p));
    SavingKeepsInv(w, p);
    assert s.row !in w.rows;
    assert saved.rows == w.rows[s.row := Row(s.exercise, Some(s.run))];
    CleaningIff(saved, q, s.row);
  }

  /** While the exercise has a row, a starter is turned away at once, or later without any trace. */
  lemma StartIsRefused(w: World, p: int, e: int)
    requires Occupied(w, e)
    ensures Step(w, StarterChecks(p, e)) == w
    ensures p in w.starters && w.starters[p] == Checked(e) ==>
              Step(w, StarterCreates(p)) == w.(starters := w.starters - {p})
  {
  }

  /** In every interleaving a worker finds its row: it never sees the row deleted before it has finished. */
  lemma WorkerNeverMissesItsRow(actions: seq<Action>, r: int)
    requires r in Exec(actions).runs && Active(Exec(actions).runs[r])
    ensures Step(Exec(actions), WorkerFindsNoRow(r)) == Exec(actions)
  {
    ReachableInv(actions);
  }

  /** A page that reads a row and is not interrupted deletes it exactly when its run has succeeded or failed. */
  lemma CleaningIff(w: World, q: int, k: int)
    requires Inv(w) && k in w.rows
    ensures var v := Step(Step(Step(w, CleanerReads(q, k)), CleanerJudges(q)), CleanerDeletes(q));
            var known := Known(w, w.rows[k].taskId);
            v == w.(rows := if known.Success? || known.Failure? then w.rows - {k} else w.rows,
                    cleaners := w.cleaners - {q})
  {
  }

  // ----- A starter that dies blocks the exercise ------------------------------------------------------------------

  /** A row that names no run, and that no run and no starter has. */
  ghost predicate Orphan(w: World, k: int) {
    k in w.rows && w.rows[k].taskId.None? && k < w.nextRow && (forall r | r in w.runs :: w.runs[r].row != k) &&
    forall p | p in w.starters && !w.starters[p].Checked? :: w.starters[p].row != k
  }

  /** A starter that dies between making its row and launching its run leaves an orphan. */
  lemma DyingOrphans(w: World, p: int)
    requires Inv(w) && p in w.starters && w.starters[p].Created?
    ensures Orphan(Step(w, StarterDies(p)), w.starters[p].row)
  {
    var k := w.starters[p].row;
    assert forall r | r in w.runs :: w.runs[r].row != k;
    assert w.rows[k].taskId.None?;
  }

  lemma OrphanStays(w: World, a: Action, k: int)
    requires Inv(w) && Orphan(w, k)
    ensures Orphan(Step(w, a), k) && Step(w, a).rows[k] == w.rows[k]
  {
  }

  ghost function ExecFrom(w: World, actions: seq<Action>): World {
    if actions == [] then w else Step(ExecFrom(w, actions[..|actions| - 1]), actions[|actions| - 1])
  }

  /** Whatever happens afterwards, the exercise of an orphan stays occupied: no regrade of it can start again. */
  lemma {:induction false} OrphanBlocksForever(w: World, actions: seq<Action>, k: int)
    requires Inv(w) && Orphan(w, k)
    ensures var v := ExecFrom(w, actions);
            Inv(v) && Orphan(v, k) && v.rows[k] == w.rows[k] && Occupied(v, w.rows[k].exercise)
    decreases |actions|
  {
    if actions != [] {
      var n := |actions| - 1;
      OrphanBlocksForever(w, actions[..n], k);
      StepKeepsInv(ExecFrom(w, actions[..n]), actions[n]);
      OrphanStays(ExecFrom(w, actions[..n]), actions[n], k);
    }
  }
}
