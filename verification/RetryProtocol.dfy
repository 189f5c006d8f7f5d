/**
 Retries of submissions that wait for the grading service (aplus/celery.py, exercise/submission_models.py,
 exercise/protocol/aplus.py).

 A submission that the grading service has accepted but not graded has a row in the table of pending
 submissions. A periodic task sends expired ones to the grading service again; when many retries stay
 unanswered it only probes the grading service with one submission at a time.
 */
module RetryProtocol {
  import opened Common
  import opened Grading
  import opened Sums

  /** A PendingSubmission row; the table is keyed by its submission, to which it is one-to-one. */
  datatype Row = Row(numRetries: nat, time: int)

  type Table = map<int, Row>

  /**
   The grading service's answer to a grading request: none, or a page that accepts the submission
   without grading it, grades it, rejects it, or does neither. `unofficial` says that set_points
   makes the submission unofficial (for its timing or its limit) and its points are not forced.
   */
  datatype Reply =
    | NoReply
    | AcceptedPage
    | GradedPage(points: int, maxPoints: int, unofficial: bool)
    | RejectedPage
    | ErrorPage

  /** Sane points (not above the maximum) are not negative, so that set_points accepts them. */
  predicate Sound(reply: Reply) {
    reply.GradedPage? && reply.points <= reply.maxPoints ==> 0 <= reply.points
  }

  /** The status that grading leaves, for a reply that raises nothing. */
  function StatusAfter(reply: Reply, before: Status): Status {
    match reply
    case NoReply => before
    case AcceptedPage => Waiting
    case GradedPage(points, maxPoints, unofficial) =>
      if points > maxPoints then Error else if unofficial then UnofficialStatus else Ready
    case RejectedPage => Rejected
    case ErrorPage => Error
  }

  // ----- Retries in total ------------------------------------------------------------------------------

  ghost function TotalOver(t: Table, keys: set<int>): nat
    requires keys <= t.Keys
  {
    if exists s :: s in keys then
      var s :| s in keys;
      t[s].numRetries + TotalOver(t, keys - {s})
    else 0
  }

  ghost function TotalRetries(t: Table): nat {
    TotalOver(t, t.Keys)
  }

  lemma {:induction false} TotalOverFrom(t: Table, keys: set<int>, s: int)
    requires keys <= t.Keys && s in keys
    ensures TotalOver(t, keys) == t[s].numRetries + TotalOver(t, keys - {s})
    decreases |keys|
  {
    var k :| k in keys && TotalOver(t, keys) == t[k].numRetries + TotalOver(t, keys - {k});
    if k != s {
      TotalOverFrom(t, keys - {k}, s);
      TotalOverFrom(t, keys - {s}, k);
      assert keys - {k} - {s} == keys - {s} - {k};
    }
  }

  /** is_grader_stable: the threshold counts only for a total that is not 0. */
  ghost predicate Stable(t: Table, threshold: int) {
    !(TotalRetries(t) != 0 && TotalRetries(t) > threshold)
  }

  ghost predicate Distinct(order: seq<int>) {
    forall i, j | 0 <= i < j < |order| :: order[i] != order[j]
  }

  /** The retries of the rows, in the given order. */
  function Retries(t: Table, order: seq<int>): (r: seq<int>)
    requires forall i | 0 <= i < |order| :: order[i] in t
    ensures |r| == |order| && forall i | 0 <= i < |order| :: r[i] == t[order[i]].numRetries
  {
    seq(|order|, i requires 0 <= i < |order| => t[order[i]].numRetries)
  }

  /** Whatever the order in which the rows are added up, stable means at most the threshold in total, or 0. */
  lemma StableIff(t: Table, threshold: int, order: seq<int>)
    requires Distinct(order) && (forall i | 0 <= i < |order| :: order[i] in t) && forall s | s in t :: s in order
    ensures Stable(t, threshold) <==> Sum(Retries(t, order)) == 0 || Sum(Retries(t, order)) <= threshold
  {
    TotalInOrder(t, t.Keys, order);
  }

  lemma {:induction false} TotalInOrder(t: Table, keys: set<int>, order: seq<int>)
    requires keys <= t.Keys && Distinct(order)
    requires (forall i | 0 <= i < |order| :: order[i] in keys) && forall s | s in keys :: s in order
    ensures Sum(Retries(t, order)) == TotalOver(t, keys)
    decreases |order|
  {
    if order == [] {
      EmptyOrNot(keys);
    } else {
      var tail := order[1..];
      forall s | s in keys - {order[0]}
        ensures s in tail
      {
        assert order == [order[0]] + tail;
      }
      TotalInOrder(t, keys - {order[0]}, tail);
      TotalOverFrom(t, keys, order[0]);
      assert Retries(t, order)[1..] == Retries(t, tail);
    }
  }

  // ----- Back-off --------------------------------------------------------------------------------------------

  /** The least time between being queued and the n-th retry. */
  function Backoff(timeout: nat, n: nat): nat {
    if n == 0 then 0 else if n == 1 then timeout else Backoff(timeout, n - 1) + timeout * (n - 1)
  }

  lemma {:induction false} BackoffClosedForm(timeout: nat, n: nat)
    requires n >= 1
    ensures 2 * Backoff(timeout, n) == timeout * (2 + n * (n - 1))
  {
    if n > 1 {
      BackoffClosedForm(timeout, n - 1);
    }
  }

  /** A row waited long enough to be retried in stable mode. */
  predicate Expired(row: Row, timeout: nat, now: int) {
    row.time < now - timeout && row.time < now - timeout * row.numRetries
  }

  // ----- Invariants ------------------------------------------------------------------------------------------------

  /**
   Everything the protocol works on: the clock, the saved statuses, the table, the requests sent
   (by submission), the number of probes among them and of graded pages received in return; and, for the
   proofs, when each row was created, which rows were retried without the wait or by hand, and
   how many graded pages came in answer to retries of stable mode, whose loop the probes that
   follow may overtake.
   */
  datatype View = View(
    now: int, saved: map<int, Status>, pending: Table, sent: multiset<int>, probes: nat, graded: nat,
    queuedAt: map<int, int>, hurried: set<int>, manual: set<int>, overtaken: nat)

  /**
   The settings of the site, the submissions whose exercises are on a host with pending rows, and those
   whose exercises allow regrading; `synchronous` says that the grading service may grade a request at once.
   */
  datatype Settings = Settings(
    timeout: nat, limit: int, threshold: int, hosted: set<int>, regradable: set<int>, synchronous: bool)

  /** A pending submission, outside the given ones, has the saved status WAITING. */
  ghost predicate Consistent(v: View, except: set<int>) {
    v.pending.Keys <= v.saved.Keys && forall s | s in v.pending && s !in except :: v.saved[s] == Waiting
  }

  /** A row retried only in stable mode has waited for its retries. */
  ghost predicate Paced(row: Row, queued: int, hurried: bool, now: int, timeout: nat) {
    row.time <= now &&
    (!hurried ==>
       queued + Backoff(timeout, row.numRetries) <= row.time &&
       (row.numRetries > 0 ==> queued + Backoff(timeout, row.numRetries) < row.time))
  }

  /** A row retried only automatically is within the limit, or one above it once the loop may have been overtaken. */
  ghost predicate Limited(row: Row, manual: bool, overtaken: nat, limit: int) {
    limit > 0 && !manual ==> row.numRetries <= limit + 1 && (overtaken == 0 ==> row.numRetries <= limit)
  }

  ghost predicate Sane(v: View, c: Settings) {
    forall s | s in v.pending ::
      s in v.queuedAt && Paced(v.pending[s], v.queuedAt[s], s in v.hurried, v.now, c.timeout) &&
      Limited(v.pending[s], s in v.manual, v.overtaken, c.limit)
  }

  /** Why a grading request is sent: by hand, by a probe in recovery mode, or in stable mode after the wait. */
  datatype Cause = ByHand | ByProbe | ByWait

  /** The cause matches the row that the request is sent for. */
  ghost predicate CauseHolds(v: View, s: int, cause: Cause, c: Settings) {
    s in v.pending ==>
      var row := v.pending[s];
      (cause == ByWait ==> Expired(row, c.timeout, v.now)) &&
      (cause != ByHand && c.limit > 0 ==>
         row.numRetries <= c.limit && (v.overtaken == 0 ==> row.numRetries < c.limit))
  }

  // ----- How requests may change what they are not sent for -------------------------------------------------------

  /**
   Outside the given submissions no row is new, and a row is as before or was probed, with its
   retries within the larger of what they were and the limit.
   */
  ghost predicate Evolves(before: Table, after: Table, except: set<int>, probed: set<int>, limit: int) {
    forall s | s in after && s !in except ::
      s in before &&
      (after[s] == before[s] ||
       (s in probed && (limit > 0 ==> after[s].numRetries <= Max(before[s].numRetries, limit))))
  }

  /** Statuses without a row stay, marks stay, rows evolve, counters grow. */
  ghost predicate Frame(a: View, b: View, except: set<int>, limit: int) {
    a.saved.Keys == b.saved.Keys &&
    (forall s | s in b.saved && s !in a.pending && s !in except :: b.saved[s] == a.saved[s]) &&
    (forall s | s in a.hurried && s !in except :: s in b.hurried) &&
    (forall s | s !in except :: s in a.manual <==> s in b.manual) &&
    Evolves(a.pending, b.pending, except, b.hurried, limit) &&
    a.now <= b.now && a.sent <= b.sent && a.graded <= b.graded && a.overtaken <= b.overtaken
  }

  lemma FrameTrans(a: View, b: View, c: View, except: set<int>, limit: int)
    requires Frame(a, b, except, limit) && Frame(b, c, except, limit)
    ensures Frame(a, c, except, limit)
  {
  }

  lemma ClearedFrames(v: View, w: View, s: int, c: Settings)
    requires Sane(v, c) && Consistent(v, {s}) && s in v.saved
    requires w == v.(pending := v.pending - {s}) || w == v.(pending := v.pending - {s}, saved := v.saved[s := Error])
    requires s !in v.pending ==> w.saved == v.saved
    ensures Frame(v, w, {}, c.limit) && Sane(w, c) && Consistent(w, {})
  {
  }

  lemma FrameWithoutRow(a: View, b: View, s: int, limit: int)
    requires Frame(a, b, {}, limit) && s !in a.pending && s in a.saved
    ensures s !in b.pending && s in b.saved && b.saved[s] == a.saved[s]
  {
  }

  lemma FrameWiden(a: View, b: View, except: set<int>, s: int, limit: int)
    requires Frame(a, b, except, limit)
    ensures Frame(a, b, except + {s}, limit)
  {
  }

  /**
   Where the marks come from: a pending row is marked manual only if it was or is among those sent by
   hand, and hurried only if it was, is among those sent early, or a probe was sent; a new row is
   unmarked and was created since; and the loop is overtaken no more often than pages are graded.
   */
  ghost predicate History(a: View, b: View, byHand: set<int>, early: set<int>) {
    a.now <= b.now && a.probes <= b.probes && a.overtaken <= b.overtaken &&
    b.overtaken - a.overtaken <= b.graded - a.graded &&
    forall s | s in b.pending ::
      (s in b.manual ==> s in byHand || (s in a.pending && s in a.manual)) &&
      (s in b.hurried ==> s in early || a.probes < b.probes || (s in a.pending && s in a.hurried)) &&
      s in b.queuedAt &&
      (a.now <= b.queuedAt[s] || (s in a.pending && s in a.queuedAt && b.queuedAt[s] == a.queuedAt[s]))
  }

  lemma HistoryTrans(a: View, b: View, c: View, byHand: set<int>, early: set<int>, more: set<int>, earlier: set<int>)
    requires History(a, b, byHand, early) && History(b, c, more, earlier)
    ensures History(a, c, byHand + more, early + earlier)
  {
  }

  /** For steps in which nothing is sent by hand or early. */
  lemma HistoryGoesOn(a: View, b: View, c: View, byHand: set<int>, early: set<int>)
    requires History(a, b, byHand, early) && History(b, c, {}, {})
    ensures History(a, c, byHand, early)
  {
    HistoryTrans(a, b, c, byHand, early, {}, {});
    assert byHand + {} == byHand && early + {} == early;
  }

  /** The pending submission that a request is sent for by hand. */
  ghost function Manual(v: View, s: int, cause: Cause): set<int> {
    if cause == ByHand && s in v.pending then {s} else {}
  }

  /** The pending submission that a request is sent for without the wait. */
  ghost function Early(v: View, s: int, cause: Cause): set<int> {
    if cause != ByWait && s in v.pending then {s} else {}
  }

  lemma PacedRetry(row: Row, queued: int, hurried: bool, before: int, now: int, timeout: nat)
    requires Paced(row, queued, hurried, before, timeout) && before <= now
    requires !hurried ==> Expired(row, timeout, now)
    ensures Paced(Row(row.numRetries + 1, now), queued, hurried, now, timeout)
  {
  }

  /** mark_pending at a time: one more retry for an existing row, a new row otherwise. */
  ghost function Marked(v: View, s: int, cause: Cause, now: int): View
    requires s in v.pending ==> s in v.queuedAt
  {
    if s in v.pending then
      v.(now := now,
         pending := v.pending[s := Row(v.pending[s].numRetries + 1, now)],
         hurried := if cause == ByWait then v.hurried else v.hurried + {s},
         manual := if cause == ByHand then v.manual + {s} else v.manual)
    else
      v.(now := now, pending := v.pending[s := Row(0, now)], queuedAt := v.queuedAt[s := now],
         hurried := v.hurried - {s}, manual := v.manual - {s})
  }

  /** A request has been sent. */
  ghost function Asked(v: View, s: int): View {
    v.(sent := v.sent + multiset{s})
  }

  /** set_waiting writes a row only for hosts with retries. */
  ghost function Waits(v: View, s: int, cause: Cause, now: int, c: Settings): View
    requires s in v.pending ==> s in v.queuedAt
  {
    if s in c.hosted then Marked(v, s, cause, now) else v
  }

  /** The submission waits. */
  ghost function Accepted(v: View, s: int, cause: Cause, now: int, c: Settings): View
    requires s in v.pending ==> s in v.queuedAt
  {
    Waits(v, s, cause, now, c).(saved := v.saved[s := Waiting])
  }

  /** The submission has ended without points. */
  ghost function Dropped(v: View, s: int, status: Status): View {
    v.(pending := v.pending - {s}, saved := v.saved[s := status])
  }

  lemma MarkedKeepsSane(v: View, s: int, cause: Cause, now: int, c: Settings)
    requires Sane(v, c) && CauseHolds(v, s, cause, c) && v.now <= now
    ensures Sane(Marked(v, s, cause, now), c)
  {
    var w := Marked(v, s, cause, now);
    if s in v.pending {
      PacedRetry(v.pending[s], v.queuedAt[s], s in w.hurried, v.now, now, c.timeout);
      assert Limited(v.pending[s], s in v.manual, v.overtaken, c.limit);
    }
    forall k | k in w.pending && k != s
      ensures w.pending[k] == v.pending[k]
      ensures (k in w.hurried <==> k in v.hurried) && (k in w.manual <==> k in v.manual)
    {
    }
  }

  /** What a request may do to the submission it is sent for. */
  ghost predicate Own(a: View, b: View, s: int, cause: Cause) {
    s in a.pending ==>
      (s in a.hurried ==> s in b.hurried) && (cause != ByHand ==> (s in b.manual <==> s in a.manual)) &&
      (s in b.pending ==>
         b.pending[s] == a.pending[s] ||
         (b.pending[s].numRetries == a.pending[s].numRetries + 1 && (cause != ByWait ==> s in b.hurried)))
  }

  lemma MarkedFrames(v: View, s: int, cause: Cause, now: int, limit: int)
    requires (s in v.pending ==> s in v.queuedAt) && v.now <= now
    ensures Frame(v, Marked(v, s, cause, now), {s}, limit) && Own(v, Marked(v, s, cause, now), s, cause)
    ensures Marked(v, s, cause, now).pending - {s} == v.pending - {s}
  {
  }

  ghost predicate SameBut(a: Table, b: Table, s: int) {
    forall k | k != s :: (k in a <==> k in b) && (k in a ==> a[k] == b[k])
  }

  ghost predicate SentBut(a: View, b: View, s: int) {
    forall k | k != s :: a.sent[k] == b.sent[k]
  }

  /**
   Where a request for s stands: s may be ahead of its saved status, everything else is in order;
   rows of others have changed only if a page was graded; and at most one request more has been
   sent than pages were graded. Marks come only from this request and from probes.
   */
  ghost predicate Underway(a: View, b: View, s: int, cause: Cause, c: Settings) {
    Frame(a, b, {s}, c.limit) && Own(a, b, s, cause) && Sane(b, c) && Consistent(b, {s}) && s in b.saved &&
    (a.graded == b.graded ==> SameBut(a.pending, b.pending, s) && SentBut(a, b, s) && a.probes == b.probes) &&
    (a.graded < b.graded && cause == ByWait ==> b.overtaken > 0) &&
    History(a, b, Manual(a, s, cause), Early(a, s, cause)) &&
    a.sent[s] < b.sent[s] && |b.sent| - |a.sent| <= b.graded - a.graded + 1
  }

  lemma UnderwayMarked(a: View, b: View, s: int, cause: Cause, now: int, c: Settings)
    requires s in a.saved && Consistent(a, {}) && Sane(a, c) && CauseHolds(a, s, cause, c)
    requires b == Asked(a, s) && a.now <= now
    ensures Underway(a, b, s, cause, c) && Underway(a, Marked(b, s, cause, now), s, cause, c)
  {
    MarkedKeepsSane(b, s, cause, now, c);
    MarkedFrames(a, s, cause, now, c.limit);
    MarkedHistory(a, b, s, cause, now, c);
  }

  lemma MarkedHistory(a: View, b: View, s: int, cause: Cause, now: int, c: Settings)
    requires Sane(a, c) && b == Asked(a, s) && a.now <= now
    ensures History(a, b, Manual(a, s, cause), Early(a, s, cause))
    ensures History(a, Marked(b, s, cause, now), Manual(a, s, cause), Early(a, s, cause))
  {
  }

  lemma UnderwayCleared(a: View, b: View, s: int, cause: Cause, c: Settings)
    requires Underway(a, b, s, cause, c)
    ensures Underway(a, b.(pending := b.pending - {s}), s, cause, c)
  {
  }

  /** A graded page has come. */
  ghost function Answered(v: View, cause: Cause): View {
    v.(graded := v.graded + 1, overtaken := v.overtaken + if cause == ByWait then 1 else 0)
  }

  lemma UnderwayGraded(a: View, b: View, s: int, cause: Cause, c: Settings)
    requires Underway(a, b, s, cause, c)
    ensures Underway(a, Answered(b, cause), s, cause, c)
  {
  }

  lemma UnderwayProbed(a: View, b: View, d: View, s: int, cause: Cause, c: Settings)
    requires Underway(a, b, s, cause, c) && a.graded < b.graded && |b.sent| - |a.sent| <= b.graded - a.graded
    requires Frame(b, d, {}, c.limit) && Sane(d, c) && Consistent(d, {}) && s !in d.pending
    requires |d.sent| - |b.sent| <= d.graded - b.graded + 1 && History(b, d, {}, {})
    ensures Underway(a, d, s, cause, c)
  {
    HistoryGoesOn(a, b, d, Manual(a, s, cause), Early(a, s, cause));
    FrameWiden(b, d, {}, s, c.limit);
    FrameTrans(a, b, d, {s}, c.limit);
  }

  lemma UnderwaySaved(a: View, b: View, s: int, cause: Cause, c: Settings, status: Status)
    requires Underway(a, b, s, cause, c) && (s in b.pending ==> status == Waiting)
    ensures Underway(a, b.(saved := b.saved[s := status]), s, cause, c)
    ensures Consistent(b.(saved := b.saved[s := status]), {})
  {
  }

  /** A probe of a pending submission, within the limit, changes nothing else either. */
  lemma ProbeFrames(a: View, b: View, s: int, limit: int)
    requires s in a.pending && Frame(a, b, {s}, limit) && Own(a, b, s, ByProbe)
    requires limit > 0 ==> a.pending[s].numRetries < limit
    ensures Frame(a, b, {}, limit)
  {
  }

  lemma ProbeHistory(a: View, v: View, b: View, s: int)
    requires v == a.(probes := a.probes + 1)
    requires History(v, b, Manual(v, s, ByProbe), Early(v, s, ByProbe))
    ensures History(a, b, {}, {})
  {
  }

  /** There is a row to choose whenever the grading service is not stable, whatever the threshold. */
  lemma SomePending(t: Table, threshold: int)
    requires !Stable(t, threshold)
    ensures exists s :: s in t.Keys
  {
    EmptyOrNot(t.Keys);
  }

  /** A row of the snapshot that is still to come is as it was, or gone, or probed since. */
  ghost predicate ToCome(v: View, snapshot: Table, rest: set<int>, c: Settings) {
    forall s | s in rest && s in snapshot ::
      snapshot[s].time < v.now - c.timeout &&
      (v.overtaken == 0 ==> s in v.pending && v.pending[s] == snapshot[s]) &&
      (s in v.pending ==>
         v.pending[s] == snapshot[s] ||
         (s in v.hurried && (c.limit > 0 ==> v.pending[s].numRetries <= Max(snapshot[s].numRetries, c.limit))))
  }

  /** A retry in the loop sends nothing early: a row that is not as in the snapshot was probed before. */
  lemma RetryHistory(a: View, b: View, snapshot: Table, rest: set<int>, s: int, cause: Cause, c: Settings)
    requires ToCome(a, snapshot, rest, c) && s in rest && s in snapshot && cause != ByHand
    requires History(a, b, Manual(a, s, cause), Early(a, s, cause))
    requires cause == ByProbe ==> s !in a.pending || a.pending[s] != snapshot[s]
    ensures History(a, b, {}, {})
  {
  }

  lemma ToComeAfter(a: View, b: View, snapshot: Table, rest: set<int>, s: int, cause: Cause, c: Settings)
    requires ToCome(a, snapshot, rest, c) && Underway(a, b, s, cause, c) && (cause == ByWait || a.overtaken > 0)
    ensures ToCome(b, snapshot, rest - {s}, c)
  {
  }

  /** A spent row of the snapshot is given up. */
  lemma GivingUpFrames(v: View, w: View, snapshot: Table, rest: set<int>, s: int, c: Settings)
    requires Consistent(v, {}) && Sane(v, c) && s in v.saved && ToCome(v, snapshot, rest, c)
    requires w == v.(saved := v.saved[s := Error], pending := v.pending - {s})
    ensures Consistent(w, {}) && Sane(w, c) && Frame(v, w, {s}, c.limit) && ToCome(w, snapshot, rest - {s}, c)
  {
  }

  /** One probe: a row with its retries spent is given up; otherwise a request is sent if the exercise allows. */
  ghost predicate Probed(a: View, b: View, s: int, c: Settings)
    requires s in a.pending
  {
    if c.limit > 0 && a.pending[s].numRetries >= c.limit then
      b == Dropped(a, s, Error)
    else if s in c.regradable then b.sent[s] > a.sent[s]
    else a == b
  }

  /** Someone's row is gone; and if the grading service is not stable without it, one probe followed. */
  ghost predicate ProbedAfter(cleared: View, b: View, c: Settings) {
    if Stable(cleared.pending, c.threshold) then b == cleared
    else exists k :: k in cleared.pending && Probed(cleared, b, k, c)
  }

  lemma ProbedAfterSaved(cleared: View, b: View, s: int, status: Status, c: Settings)
    requires ProbedAfter(cleared, b, c) && s !in cleared.pending
    ensures ProbedAfter(cleared.(saved := cleared.saved[s := status]), b.(saved := b.saved[s := status]), c)
  {
    var w, w' := cleared.(saved := cleared.saved[s := status]), b.(saved := b.saved[s := status]);
    if !Stable(cleared.pending, c.threshold) {
      var k :| k in cleared.pending && Probed(cleared, b, k, c);
      assert cleared.saved[k := Error][s := status] == cleared.saved[s := status][k := Error];
      assert Probed(w, w', k, c);
    }
  }

  /** A page with points was taken: the row was written and cleared again, and a probe may have followed. */
  ghost predicate TookPoints(a: View, b: View, s: int, cause: Cause, status: Status, c: Settings)
    requires s in a.pending ==> s in a.queuedAt
  {
    exists t :: a.now <= t && ProbedAfter(Taken(Waits(Asked(a, s), s, cause, t, c), s, cause, status), b, c)
  }

  ghost function Taken(v: View, s: int, cause: Cause, status: Status): View {
    Dropped(Answered(v, cause), s, status)
  }

  /** The rows that stable mode sends again: the wait for the next retry, by the back-off, is over. */
  ghost function Due(v: View, c: Settings): set<int> {
    set s | s in v.pending && s in c.regradable && v.pending[s].numRetries < c.limit &&
            c.timeout < v.now - v.pending[s].time &&
            Backoff(c.timeout, v.pending[s].numRetries + 1) - Backoff(c.timeout, v.pending[s].numRetries)
            < v.now - v.pending[s].time
  }

  lemma DueIsExpired(v: View, s: int, c: Settings)
    requires s in v.pending
    ensures s in Due(v, c) <==>
            s in c.regradable && v.pending[s].numRetries < c.limit && Expired(v.pending[s], c.timeout, v.now)
  {
  }

  /** The rows that stable mode gives up. */
  ghost function Spent(v: View, c: Settings): set<int> {
    set s | s in v.pending && s in c.regradable && v.pending[s].numRetries >= c.limit &&
            v.pending[s].time < v.now - c.timeout
  }

  ghost predicate GivenUp(v: View, s: int) {
    s !in v.pending && s in v.saved && v.saved[s] == Error
  }

  /** One turn of the loop over the snapshot. */
  ghost predicate Turn(a: View, b: View, s: int, row: Row, c: Settings) {
    Frame(a, b, {s}, c.limit) && History(a, b, {}, {}) && (a.graded == b.graded ==> a.probes == b.probes) &&
    (s in c.regradable && row.numRetries < c.limit && Expired(row, c.timeout, a.now) ==> b.sent[s] > a.sent[s]) &&
    (s in c.regradable && row.numRetries >= c.limit ==> GivenUp(b, s)) &&
    (a.graded == b.graded ==> SameBut(a.pending, b.pending, s) && SentBut(a, b, s)) &&
    (s !in c.regradable || (row.numRetries < c.limit && !Expired(row, c.timeout, b.now)) ==>
       a.pending == b.pending && a.sent == b.sent)
  }

  /** The row is as before and no request was sent for it. */
  ghost predicate LeftAlone(start: View, v: View, s: int)
    requires s in start.pending
  {
    s in v.pending && v.pending[s] == start.pending[s] && v.sent[s] == start.sent[s]
  }

  /** What is still to come, not due or not in the snapshot is left alone, unless probes came in between. */
  ghost predicate Restrained(start: View, v: View, snapshot: Table, rest: set<int>, c: Settings) {
    (forall s | s in snapshot :: snapshot[s].time < v.now - c.timeout) &&
    (start.graded == v.graded ==>
       forall s | s in start.pending &&
                  (s !in snapshot || s in rest || s !in c.regradable ||
                   (start.pending[s].numRetries < c.limit && !Expired(start.pending[s], c.timeout, v.now))) ::
         LeftAlone(start, v, s))
  }

  lemma RestrainedOn(start: View, a: View, b: View, snapshot: Table, rest: set<int>, s: int, c: Settings)
    requires Restrained(start, a, snapshot, rest, c) && s in rest && s in snapshot && start.graded <= a.graded
    requires Turn(a, b, s, snapshot[s], c) && s in start.pending && snapshot[s] == start.pending[s]
    ensures Restrained(start, b, snapshot, rest - {s}, c)
  {
    if start.graded == b.graded {
      forall k | k in start.pending &&
                 (k !in snapshot || k in rest - {s} || k !in c.regradable ||
                  (start.pending[k].numRetries < c.limit && !Expired(start.pending[k], c.timeout, b.now)))
        ensures LeftAlone(start, b, k)
      {
        assert LeftAlone(start, a, k);
      }
    }
  }

  /** Where the loop stands: requests for the due rows and statuses of the spent rows it has passed. */
  ghost predicate Looping(start: View, v: View, snapshot: Table, rest: set<int>, c: Settings) {
    snapshot.Keys <= v.saved.Keys && v.saved.Keys == start.saved.Keys && History(start, v, {}, {}) &&
    (start.graded == v.graded ==> start.probes == v.probes) &&
    (forall s | s in snapshot :: s in start.pending && snapshot[s] == start.pending[s]) &&
    (forall s | s in start.pending && start.pending[s].time < start.now - c.timeout :: s in snapshot) &&
    start.sent <= v.sent && (forall s | s in Due(start, c) && s !in rest :: v.sent[s] > start.sent[s]) &&
    (forall s | s in Spent(start, c) && s !in rest :: GivenUp(v, s)) &&
    ToCome(v, snapshot, rest, c) && Restrained(start, v, snapshot, rest, c)
  }

  lemma LoopingStarts(start: View, v: View, snapshot: Table, c: Settings)
    requires Consistent(start, {}) && Sane(start, c) && v == start.(now := v.now) && start.now <= v.now
    requires snapshot == map s | s in v.pending && v.pending[s].time < v.now - c.timeout :: v.pending[s]
    ensures Looping(start, v, snapshot, snapshot.Keys, c)
  {
    forall s | s in Due(start, c) || s in Spent(start, c)
      ensures s in snapshot
    {
    }
  }

  /**
   Every due row got a request, every spent row was given up; and unless a page was graded at once, no
   row that is not due or spent even by the end of the loop was touched.
   */
  ghost predicate Looped(start: View, v: View, c: Settings) {
    v.saved.Keys == start.saved.Keys && (start.graded == v.graded ==> start.probes == v.probes) &&
    start.sent <= v.sent && (forall s | s in Due(start, c) :: v.sent[s] > start.sent[s]) &&
    (forall s | s in Spent(start, c) :: GivenUp(v, s)) &&
    (start.graded == v.graded ==>
       var end := start.(now := v.now);
       forall s | s in start.pending && s !in Due(end, c) && s !in Spent(end, c) :: LeftAlone(start, v, s))
  }

  lemma LoopingEnds(start: View, v: View, snapshot: Table, c: Settings)
    requires Looping(start, v, snapshot, {}, c)
    ensures Looped(start, v, c) && History(start, v, {}, {})
  {
    var end := start.(now := v.now);
    forall s | s in start.pending && s !in Due(end, c) && s !in Spent(end, c) && start.graded == v.graded
      ensures LeftAlone(start, v, s)
    {
      DueIsExpired(end, s, c);
    }
  }

  lemma LoopingOn(start: View, a: View, b: View, snapshot: Table, rest: set<int>, s: int, c: Settings)
    requires Looping(start, a, snapshot, rest, c) && s in rest && s in snapshot
    requires Turn(a, b, s, snapshot[s], c) && ToCome(b, snapshot, rest - {s}, c)
    ensures Looping(start, b, snapshot, rest - {s}, c)
  {
    HistoryGoesOn(start, a, b, {}, {});
    RestrainedOn(start, a, b, snapshot, rest, s, c);
    if s in Due(start, c) {
      DueIsExpired(start, s, c);
    }
    forall k | k in Due(start, c) && k !in rest - {s}
      ensures b.sent[k] > start.sent[k]
    {
      assert k != s ==> a.sent[k] > start.sent[k];
    }
    forall k | k in Spent(start, c) && k !in rest - {s}
      ensures GivenUp(b, k)
    {
      assert k != s ==> GivenUp(a, k);
    }
  }

  /**
   A grading callback: refused points (the assertion on them fails), an error (reported, or a callback
   that cannot be read), or points, which may make the submission unofficial and may be forced.
   */
  datatype Outcome = Refused | Failed | Graded(unofficial: bool, forced: bool)

  /** What happens to submissions from outside, and the periodic task. */
  datatype Event =
    | Submit(submission: int, reply: Reply)
    | Resend(submission: int, reply: Reply)
    | Callback(submission: int, outcome: Outcome)
    | Review(submission: int, forced: bool)
    | Approval(submission: int)
    | RetryTask

  predicate EventIsSound(e: Event) {
    e.Submit? || e.Resend? ==> Sound(e.reply)
  }

  /** The submissions with a pending row that are sent again by hand. */
  function Resent(events: seq<Event>): set<int> {
    set e | e in events && e.Resend? :: e.submission
  }

  /** No page is graded at once. */
  predicate Asynchronous(e: Event, c: Settings) {
    !c.synchronous && (e.Submit? || e.Resend? ==> !e.reply.GradedPage?)
  }

  /** The table on which an event tests whether the grading service is stable. */
  ghost function Tested(v: View, e: Event): Table {
    match e
    case Callback(s, outcome) => if outcome.Graded? then v.pending - {s} else map[]
    case Review(s, _) => v.pending - {s}
    case Approval(s) => v.pending - {s}
    case RetryTask => v.pending
    case _ => map[]
  }

  /** The row and the status that a page leaves, for a reply that raises nothing. */
  ghost predicate Replied(a: View, b: View, s: int, reply: Reply, before: Status, c: Settings) {
    s in b.saved && b.saved[s] == StatusAfter(reply, before) &&
    match reply
    case NoReply => s in b.pending <==> s in a.pending
    case AcceptedPage => s in b.pending <==> s in c.hosted || s in a.pending
    case _ => s !in b.pending
  }

  /** The status and the row that an event leaves, and the work of the periodic task. */
  ghost predicate Handled(a: View, b: View, e: Event, c: Settings) {
    match e
    case Submit(s, reply) => if s in a.saved then a == b else Replied(a, b, s, reply, Initialized, c)
    case Resend(s, reply) => if s in a.saved then Replied(a, b, s, reply, a.saved[s], c) else a == b
    case Callback(s, outcome) =>
      if s !in a.saved || outcome.Refused? then a == b
      else if outcome.Failed? then b == Dropped(a, s, Error)
      else
        s in b.saved && s !in b.pending && ProbedAfter(Dropped(a, s, b.saved[s]), b, c) &&
        b.saved[s] ==
          if (outcome.unofficial || a.saved[s].UnofficialStatus?) && !outcome.forced then UnofficialStatus else Ready
    case Review(s, forced) =>
      if s in a.saved then
        s in b.saved && s !in b.pending && ProbedAfter(Dropped(a, s, b.saved[s]), b, c) &&
        b.saved[s] == if a.saved[s].UnofficialStatus? && !forced then UnofficialStatus else Ready
      else a == b
    case Approval(s) =>
      if s in a.saved then
        s in b.saved && s !in b.pending && ProbedAfter(Dropped(a, s, Ready), b, c) && b.saved[s] == Ready
      else a == b
    case RetryTask =>
      if Stable(a.pending, c.threshold) then Looped(a, b, c)
      else exists s :: s in a.pending && Probed(a, b, s, c)
  }

  /** The row's last retry came more than timeout * (1 + n(n-1)/2) after it was queued. */
  ghost predicate WaitedFor(row: Row, queued: int, timeout: nat) {
    2 * (row.time - queued) > timeout * (2 + row.numRetries * (row.numRetries - 1))
  }

  class GradingService {
    const settings: Settings

    var now: int
    var saved: map<int, Status>
    var pending: Table
    var sent: multiset<int>
    var probes: nat
    var graded: nat
    ghost var queuedAt: map<int, int>
    ghost var hurried: set<int>
    ghost var manual: set<int>
    ghost var overtaken: nat

    ghost function Look(): View
      reads this
    {
      View(now, saved, pending, sent, probes, graded, queuedAt, hurried, manual, overtaken)
    }

    /** At the boundary of every step. */
    ghost predicate Valid()
      reads this
    {
      Consistent(Look(), {}) && Sane(Look(), settings)
    }

    constructor (settings: Settings, now: int)
      ensures Valid() && this.settings == settings
      ensures Look() == View(now, map[], map[], multiset{}, 0, 0, map[], {}, {}, 0)
    {
      this.settings := settings;
      this.now, saved, pending, sent, probes, graded := now, map[], map[], multiset{}, 0, 0;
      queuedAt, hurried, manual, overtaken := map[], {}, {}, 0;
    }

    /** Time passes between any two readings of the clock. */
    method Clock()
      modifies this`now
      ensures now >= old(now)
    {
      var later :| now <= later;
      now := later;
    }

    method IsGraderStable() returns (stable: bool)
      ensures stable == Stable(pending, settings.threshold)
    {
      var total, rest := 0, pending.Keys;
      while rest != {}
        invariant rest <= pending.Keys && total + TotalOver(pending, rest) == TotalRetries(pending)
        decreases rest
      {
        EmptyOrNot(rest);
        var s :| s in rest;
        TotalOverFrom(pending, rest, s);
        total := total + pending[s].numRetries;
        rest := rest - {s};
      }
      stable := !(total != 0 && total > settings.threshold);
    }

    method MarkPending(s: int, ghost cause: Cause)
      requires s in pending ==> s in queuedAt
      modifies this`now, this`pending, this`queuedAt, this`hurried, this`manual
      ensures now >= old(now)
      ensures Look() == if s in settings.hosted then Marked(old(Look()), s, cause, now) else old(Look())
    {
      if s in settings.hosted {
        Clock();
        if s in pending {
          pending := pending[s := Row(pending[s].numRetries + 1, now)];
          hurried := if cause == ByWait then hurried else hurried + {s};
          manual := if cause == ByHand then manual + {s} else manual;
        } else {
          pending := pending[s := Row(0, now)];
          queuedAt := queuedAt[s := now];
          hurried, manual := hurried - {s}, manual - {s};
        }
      }
    }

    method ClearPending(s: int)
      modifies this`pending
      ensures pending == old(pending) - {s}
    {
      pending := pending - {s};
    }

    /**
     set_ready for the submission as loaded in memory: clear its row and, while the grading service is
     not stable, go on to probe with the next pending submission. The caller saves the status.
     */
    method SetReady(s: int, status: Status, forced: bool, approve: bool) returns (newStatus: Status)
      requires s in saved && Consistent(Look(), {s}) && Sane(Look(), settings)
      modifies this
      ensures Valid() && s !in pending
      ensures newStatus == if status != UnofficialStatus || forced || approve then Ready else status
      ensures Frame(old(Look()), Look(), {}, settings.limit) && saved[s] == old(saved)[s]
      ensures |sent| - |old(sent)| <= graded - old(graded) + 1
      ensures History(old(Look()), Look(), {}, {}) && (!settings.synchronous ==> graded == old(graded))
      ensures ProbedAfter(old(Look()).(pending := old(pending) - {s}), Look(), settings)
      decreases 0, |pending - {s}|, 1
    {
      ClearPending(s);
      ghost var cleared := Look();
      ClearedFrames(old(Look()), cleared, s, settings);
      newStatus := status;
      if status != UnofficialStatus || forced || approve {
        newStatus := Ready;
      }
      var stable := IsGraderStable();
      if !stable {
        RetrySubmissions();
        FrameTrans(old(Look()), cleared, Look(), {}, settings.limit);
        HistoryGoesOn(old(Look()), cleared, Look(), {}, {});
        FrameWithoutRow(cleared, Look(), s, settings.limit);
      }
    }

    /**
     BaseExercise.grade: send the submission to the grading service and act on the page it returns. The
     pending row is written at once, the status only at the end; `raised` stands for the
     assertion on the points, which leaves the status unsaved.
     */
    method Grade(s: int, reply: Reply, ghost cause: Cause) returns (raised: bool)
      requires s in saved && Valid() && CauseHolds(Look(), s, cause, settings)
      modifies this
      ensures raised <==> !Sound(reply)
      ensures Underway(old(Look()), Look(), s, cause, settings)
      ensures Consistent(Look(), {}) <==> !(raised && s in settings.hosted && old(saved)[s] != Waiting)
      ensures saved[s] == if raised then old(saved)[s] else StatusAfter(reply, old(saved)[s])
      ensures match reply
              case NoReply => Look() == Asked(old(Look()), s)
              case AcceptedPage => Look() == Accepted(Asked(old(Look()), s), s, cause, now, settings)
              case GradedPage(points, maxPoints, _) =>
                (s in pending ==> raised) &&
                (0 <= points <= maxPoints ==> TookPoints(old(Look()), Look(), s, cause, saved[s], settings))
              case RejectedPage => Look() == Dropped(Asked(old(Look()), s), s, Rejected)
              case ErrorPage => Look() == Dropped(Asked(old(Look()), s), s, Error)
      ensures !settings.synchronous && !reply.GradedPage? ==> graded == old(graded)
      decreases 0, |pending - {s}|, 6
    {
      ghost var start := Look();
      sent := sent + multiset{s};
      if reply.NoReply? {
        UnderwayMarked(start, Look(), s, cause, now, settings);
        return false;
      }
      raised := ReadPage(start, s, reply, cause);
    }

    /** load_feedback_page, for a page that was loaded. */
    method ReadPage(ghost start: View, s: int, reply: Reply, ghost cause: Cause) returns (raised: bool)
      requires s in start.saved && Consistent(start, {}) && Sane(start, settings)
      requires CauseHolds(start, s, cause, settings)
      requires Look() == Asked(start, s) && !reply.NoReply?
      modifies this
      ensures raised <==> !Sound(reply)
      ensures Underway(start, Look(), s, cause, settings)
      ensures Consistent(Look(), {}) <==> !(raised && s in settings.hosted && start.saved[s] != Waiting)
      ensures saved[s] == if raised then start.saved[s] else StatusAfter(reply, start.saved[s])
      ensures match reply
              case AcceptedPage => Look() == Accepted(Asked(start, s), s, cause, now, settings)
              case GradedPage(points, maxPoints, _) =>
                (s in pending ==> raised) &&
                (0 <= points <= maxPoints ==> TookPoints(start, Look(), s, cause, saved[s], settings))
              case RejectedPage => Look() == Dropped(Asked(start, s), s, Rejected)
              case ErrorPage => Look() == Dropped(Asked(start, s), s, Error)
      decreases 0, |pending - {s}|, 5
    {
      UnderwayMarked(start, Look(), s, cause, now, settings);
      match reply {
        case AcceptedPage =>
          AcceptOnly(start, s, cause);
          raised := false;
        case GradedPage(points, maxPoints, unofficial) =>
          raised := AcceptAndReceive(start, s, cause, points, maxPoints, unofficial);
        case RejectedPage =>
          Drop(start, s, cause, Rejected);
          raised := false;
        case ErrorPage =>
          Drop(start, s, cause, Error);
          raised := false;
      }
    }

    /** Submission.save at the end of grading. */
    method Save(ghost start: View, s: int, ghost cause: Cause, status: Status)
      requires Underway(start, Look(), s, cause, settings) && (s in pending ==> status == Waiting)
      modifies this`saved
      ensures Underway(start, Look(), s, cause, settings) && Consistent(Look(), {})
      ensures Look() == old(Look()).(saved := old(saved)[s := status])
    {
      ghost var v := Look();
      UnderwaySaved(start, v, s, cause, settings, status);
      saved := saved[s := status];
      assert Look() == v.(saved := v.saved[s := status]);
    }

    /** set_waiting: the row is written, the status is not saved yet. */
    method Accept(ghost start: View, s: int, ghost cause: Cause)
      requires s in start.saved && Consistent(start, {}) && Sane(start, settings)
      requires CauseHolds(start, s, cause, settings)
      requires Look() == Asked(start, s)
      modifies this`now, this`pending, this`queuedAt, this`hurried, this`manual
      ensures Underway(start, Look(), s, cause, settings)
      ensures Look() == Waits(Asked(start, s), s, cause, now, settings)
      ensures Consistent(Look(), {}) <==> !(s in settings.hosted && saved[s] != Waiting)
      ensures |pending - {s}| == |start.pending - {s}|
      ensures s in pending <==> s in settings.hosted || s in start.pending
    {
      ghost var before := Look();
      MarkPending(s, cause);
      UnderwayMarked(start, before, s, cause, now, settings);
      assert pending - {s} == start.pending - {s};
    }

    /** A page that accepts the submission and no more. */
    method AcceptOnly(ghost start: View, s: int, ghost cause: Cause)
      requires s in start.saved && Consistent(start, {}) && Sane(start, settings)
      requires CauseHolds(start, s, cause, settings) && Look() == Asked(start, s)
      modifies this
      ensures Underway(start, Look(), s, cause, settings) && Consistent(Look(), {})
      ensures Look() == Accepted(Asked(start, s), s, cause, now, settings)
    {
      Accept(start, s, cause);
      Save(start, s, cause, Waiting);
    }

    /** A page that accepts the submission and has points. */
    method AcceptAndReceive(ghost start: View, s: int, ghost cause: Cause, points: int, maxPoints: int,
                            unofficial: bool)
        returns (raised: bool)
      requires s in start.saved && Consistent(start, {}) && Sane(start, settings)
      requires CauseHolds(start, s, cause, settings) && Look() == Asked(start, s)
      modifies this
      ensures raised <==> points < 0 && points <= maxPoints
      ensures Underway(start, Look(), s, cause, settings) && (s in pending ==> raised)
      ensures Consistent(Look(), {}) <==> !(raised && s in settings.hosted && start.saved[s] != Waiting)
      ensures saved[s] ==
                if raised then start.saved[s]
                else if points > maxPoints then Error else if unofficial then UnofficialStatus else Ready
      ensures 0 <= points <= maxPoints ==> TookPoints(start, Look(), s, cause, saved[s], settings)
      decreases 0, |pending - {s}|, 4
    {
      Accept(start, s, cause);
      raised := Receive(start, s, cause, points, maxPoints, unofficial);
    }

    /** set_error or set_rejected, and saved. */
    method Drop(ghost start: View, s: int, ghost cause: Cause, status: Status)
      requires Underway(start, Look(), s, cause, settings)
      modifies this`pending, this`saved
      ensures Underway(start, Look(), s, cause, settings) && Consistent(Look(), {})
      ensures Look() == Dropped(old(Look()), s, status)
    {
      ghost var v := Look();
      UnderwayCleared(start, v, s, cause, settings);
      ClearPending(s);
      assert Look() == v.(pending := v.pending - {s});
      Save(start, s, cause, status);
    }

    /** A page with points: refused if not sane, an assertion failure if negative, else the submission is ready. */
    method Receive(ghost start: View, s: int, ghost cause: Cause, points: int, maxPoints: int, unofficial: bool)
        returns (raised: bool)
      requires Underway(start, Look(), s, cause, settings) && |sent| == |start.sent| + 1 && graded == start.graded
      modifies this
      ensures raised <==> points < 0 && points <= maxPoints
      ensures Underway(start, Look(), s, cause, settings)
      ensures if raised then Look() == old(Look()) else
                Consistent(Look(), {}) && s !in pending &&
                saved[s] == if points > maxPoints then Error else if unofficial then UnofficialStatus else Ready
      ensures 0 <= points <= maxPoints ==> ProbedAfter(Taken(old(Look()), s, cause, saved[s]), Look(), settings)
      decreases 0, |pending - {s}|, 3
    {
      if points > maxPoints {
        Drop(start, s, cause, Error);
        return false;
      }
      if points < 0 {
        return true;
      }
      TakePoints(start, s, cause, unofficial);
      return false;
    }

    method CountPage(ghost start: View, s: int, ghost cause: Cause)
      requires Underway(start, Look(), s, cause, settings)
      modifies this`graded, this`overtaken
      ensures Underway(start, Look(), s, cause, settings) && Look() == Answered(old(Look()), cause)
    {
      UnderwayGraded(start, Look(), s, cause, settings);
      graded := graded + 1;
      overtaken := overtaken + if cause == ByWait then 1 else 0;
      assert Look() == Answered(old(Look()), cause);
    }

    /** The submission is made ready, which may probe the grading service further, and saved. */
    method TakePoints(ghost start: View, s: int, ghost cause: Cause, unofficial: bool)
      requires Underway(start, Look(), s, cause, settings) && |sent| == |start.sent| + 1 && graded == start.graded
      modifies this
      ensures Underway(start, Look(), s, cause, settings) && Consistent(Look(), {}) && s !in pending
      ensures saved[s] == if unofficial then UnofficialStatus else Ready
      ensures ProbedAfter(Taken(old(Look()), s, cause, saved[s]), Look(), settings)
      decreases 0, |pending - {s}|, 2
    {
      CountPage(start, s, cause);
      ghost var before := Look();
      var status := SetReady(s, if unofficial then UnofficialStatus else Waiting, false, false);
      UnderwayProbed(start, before, Look(), s, cause, settings);
      ProbedAfterSaved(before.(pending := before.pending - {s}), Look(), s, status, settings);
      Save(start, s, cause, status);
    }

    /** The grading service's next answer. */
    method Ask() returns (reply: Reply)
      ensures Sound(reply) && (!settings.synchronous ==> !reply.GradedPage?)
    {
      assert Sound(NoReply);
      reply :| Sound(reply) && (!settings.synchronous ==> !reply.GradedPage?);
    }

    /** A request for a pending submission in recovery mode. */
    method SendProbe(s: int)
      requires Valid() && s in pending && (settings.limit > 0 ==> pending[s].numRetries < settings.limit)
      modifies this
      ensures Valid() && Frame(old(Look()), Look(), {}, settings.limit) && History(old(Look()), Look(), {}, {})
      ensures sent[s] > old(sent)[s] && |sent| - |old(sent)| <= graded - old(graded) + 1
      ensures !settings.synchronous ==> graded == old(graded)
      decreases 0, |pending - {s}|, 7
    {
      var reply := Ask();
      probes := probes + 1;
      ghost var v := Look();
      var raised := Grade(s, reply, ByProbe);
      ProbeFrames(v, Look(), s, settings.limit);
      ProbeHistory(old(Look()), v, Look(), s);
    }

    /** The periodic task: one probe in recovery mode, all expired submissions in stable mode. */
    method RetrySubmissions()
      requires Valid()
      modifies this
      ensures Valid() && saved.Keys == old(saved).Keys && sent >= old(sent)
      ensures History(old(Look()), Look(), {}, {}) && (!settings.synchronous ==> graded == old(graded))
      ensures !old(Stable(pending, settings.threshold)) ==>
                Frame(old(Look()), Look(), {}, settings.limit) && |sent| - |old(sent)| <= graded - old(graded) + 1 &&
                exists s :: s in old(pending) && Probed(old(Look()), Look(), s, settings)
      ensures old(Stable(pending, settings.threshold)) ==> Looped(old(Look()), Look(), settings)
      decreases if Stable(pending, settings.threshold) then 2 else 0, |pending|, 0
    {
      var stable := IsGraderStable();
      if !stable {
        SomePending(pending, settings.threshold);
        var s :| s in pending.Keys;
        ghost var probed := s;
        if pending[s].numRetries >= settings.limit && settings.limit > 0 {
          saved := saved[s := Error];
          ClearPending(s);
          ClearedFrames(old(Look()), Look(), s, settings);
        } else if s in settings.regradable {
          assert |pending - {s}| < |pending|;
          SendProbe(s);
        }
        assert Probed(old(Look()), Look(), probed, settings);
        return;
      }
      RetryExpired();
    }

    /** The rows that have waited for the timeout. */
    method FindExpired() returns (snapshot: Table)
      requires Valid()
      modifies this`now
      ensures Valid() && Looping(old(Look()), Look(), snapshot, snapshot.Keys, settings)
    {
      Clock();
      snapshot := map s | s in pending && pending[s].time < now - settings.timeout :: pending[s];
      LoopingStarts(old(Look()), Look(), snapshot, settings);
    }

    /** Stable mode, over the rows as they are when the loop starts. */
    method RetryExpired()
      requires Valid()
      modifies this
      ensures Valid() && Looped(old(Look()), Look(), settings) && History(old(Look()), Look(), {}, {})
      ensures !settings.synchronous ==> graded == old(graded)
      decreases 1, 2
    {
      ghost var start := Look();
      var snapshot := FindExpired();
      var rest := snapshot.Keys;
      while rest != {}
        invariant rest <= snapshot.Keys && Valid() && (!settings.synchronous ==> graded == start.graded)
        invariant Looping(start, Look(), snapshot, rest, settings)
        decreases rest
      {
        EmptyOrNot(rest);
        var s :| s in rest;
        RetryNext(start, s, snapshot, rest);
        rest := rest - {s};
      }
      LoopingEnds(start, Look(), snapshot, settings);
    }

    method RetryNext(ghost start: View, s: int, snapshot: Table, ghost rest: set<int>)
      requires Valid() && Looping(start, Look(), snapshot, rest, settings) && s in rest && s in snapshot
      modifies this
      ensures Valid() && Looping(start, Look(), snapshot, rest - {s}, settings)
      ensures !settings.synchronous ==> graded == old(graded)
      decreases 1, 1
    {
      ghost var before := Look();
      RetryOne(s, snapshot[s], snapshot, rest);
      LoopingOn(start, before, Look(), snapshot, rest, s, settings);
    }

    /** A request for a row of the snapshot that has waited, or that a probe has overtaken. */
    method SendExpired(s: int, row: Row, ghost snapshot: Table, ghost rest: set<int>)
      requires Valid() && ToCome(Look(), snapshot, rest, settings)
      requires s in saved && s in rest && s in snapshot && row == snapshot[s]
      requires s in settings.regradable && row.numRetries < settings.limit && Expired(row, settings.timeout, now)
      modifies this
      ensures Valid() && Turn(old(Look()), Look(), s, row, settings) && sent[s] > old(sent)[s]
      ensures ToCome(Look(), snapshot, rest - {s}, settings)
      ensures !settings.synchronous ==> graded == old(graded)
      decreases 0, |pending - {s}|, 7
    {
      ghost var v := Look();
      var reply := Ask();
      ghost var cause := if s in pending && pending[s] == row then ByWait else ByProbe;
      var raised := Grade(s, reply, cause);
      RetryHistory(v, Look(), snapshot, rest, s, cause, settings);
      ToComeAfter(v, Look(), snapshot, rest, s, cause, settings);
    }

    /** One turn of the loop, which still sees the row as it was in the snapshot. */
    method RetryOne(s: int, row: Row, ghost snapshot: Table, ghost rest: set<int>)
      requires Valid() && ToCome(Look(), snapshot, rest, settings)
      requires s in saved && s in rest && s in snapshot && row == snapshot[s]
      modifies this
      ensures Valid() && Turn(old(Look()), Look(), s, row, settings)
      ensures ToCome(Look(), snapshot, rest - {s}, settings)
      ensures !settings.synchronous ==> graded == old(graded)
      decreases 1, 0
    {
      if s in settings.regradable {
        Clock();
        ghost var v := Look();
        assert Valid() && ToCome(v, snapshot, rest, settings);
        if row.numRetries < settings.limit {
          if row.time < now - settings.timeout * row.numRetries {
            SendExpired(s, row, snapshot, rest);
            HistoryGoesOn(old(Look()), v, Look(), {}, {});
            FrameTrans(old(Look()), v, Look(), {s}, settings.limit);
          }
        } else {
          saved := saved[s := Error];
          ClearPending(s);
          GivingUpFrames(v, Look(), snapshot, rest, s, settings);
          HistoryGoesOn(old(Look()), v, Look(), {}, {});
          FrameTrans(old(Look()), v, Look(), {s}, settings.limit);
        }
      }
    }

    // ----- Whole runs ------------------------------------------------------------------------------------

    /** Mark the submission ready and save it: a grading callback, a review or an approval. */
    method Finish(s: int, status: Status, forced: bool, approve: bool)
      requires Valid() && s in saved
      modifies this
      ensures Valid() && saved.Keys == old(saved).Keys && s !in pending
      ensures |sent| - |old(sent)| <= graded - old(graded) + 1
      ensures History(old(Look()), Look(), {}, {}) && (!settings.synchronous ==> graded == old(graded))
      ensures ProbedAfter(Dropped(old(Look()), s, saved[s]), Look(), settings)
      ensures saved[s] == if status != UnofficialStatus || forced || approve then Ready else UnofficialStatus
    {
      var newStatus := SetReady(s, status, forced, approve);
      ProbedAfterSaved(old(Look()).(pending := old(pending) - {s}), Look(), s, newStatus, settings);
      saved := saved[s := newStatus];
    }

    /** Mark the submission failed and save it: a callback that reports an error or cannot be read. */
    method Fail(s: int)
      requires Valid() && s in saved
      modifies this
      ensures Valid() && History(old(Look()), Look(), {}, {})
      ensures Look() == Dropped(old(Look()), s, Error)
    {
      ClearPending(s);
      saved := saved[s := Error];
    }

    /** A submission is created and sent. */
    method SendNew(s: int, reply: Reply)
      requires Valid() && s !in saved && Sound(reply)
      modifies this
      ensures Valid() && History(old(Look()), Look(), {}, {})
      ensures Replied(old(Look()), Look(), s, reply, Initialized, settings)
      ensures reply.AcceptedPage? && s in settings.hosted ==>
                now >= old(now) && saved == old(saved)[s := Waiting] && pending == old(pending)[s := Row(0, now)]
      ensures graded == old(graded) ==> probes == old(probes)
      ensures !settings.synchronous && !reply.GradedPage? ==> graded == old(graded)
    {
      saved := saved[s := Initialized];
      ghost var v := Look();
      var raised := Grade(s, reply, ByHand);
      HistoryGoesOn(old(Look()), v, Look(), {}, {});
    }

    /** A submission is sent again by hand. */
    method SendAgain(s: int, reply: Reply)
      requires Valid() && s in saved && Sound(reply)
      modifies this
      ensures Valid() && History(old(Look()), Look(), {s}, {s})
      ensures Replied(old(Look()), Look(), s, reply, old(saved)[s], settings)
      ensures graded == old(graded) ==> probes == old(probes)
      ensures !settings.synchronous && !reply.GradedPage? ==> graded == old(graded)
    {
      var raised := Grade(s, reply, ByHand);
    }

    method Handle(e: Event)
      requires Valid() && EventIsSound(e)
      modifies this
      ensures Valid() && Handled(old(Look()), Look(), e, settings)
      ensures History(old(Look()), Look(), Resent([e]), Resent([e]))
      ensures Asynchronous(e, settings) ==> graded == old(graded)
      ensures graded == old(graded) && Stable(Tested(old(Look()), e), settings.threshold) ==> probes == old(probes)
    {
      match e {
        case Submit(s, reply) =>
          if s !in saved {
            SendNew(s, reply);
          }
        case Resend(s, reply) =>
          if s in saved {
            assert e in [e];
            SendAgain(s, reply);
          }
        case Callback(s, outcome) =>
          if s in saved {
            match outcome {
              case Refused =>
              case Failed => Fail(s);
              case Graded(unofficial, forced) =>
                Finish(s, if unofficial then UnofficialStatus else saved[s], forced, false);
            }
          }
        case Review(s, forced) =>
          if s in saved {
            Finish(s, saved[s], forced, false);
          }
        case Approval(s) =>
          if s in saved {
            Finish(s, saved[s], false, true);
          }
        case RetryTask =>
          RetrySubmissions();
      }
    }

    /**
     After every run of grading, callbacks, reviews, approvals and retries, in any order and with
     any answers of the grading service: a pending submission has the saved status WAITING; one retried
     automatically only has at most one retry above the limit, and none while the grading service
     has not graded a retry of stable mode at once; one retried only in stable mode has waited longer
     for its n retries than timeout * (1 + n(n-1)/2) since it was queued; and only submissions sent
     again by hand come to be retried by hand, only those and probed ones without the wait.
     */
    method Run(events: seq<Event>)
      requires Valid() && forall e | e in events :: EventIsSound(e)
      modifies this
      ensures Valid() && History(old(Look()), Look(), Resent(events), Resent(events))
      ensures (forall e | e in events :: Asynchronous(e, settings)) ==> graded == old(graded)
      ensures forall s | s in pending :: s in saved && saved[s] == Waiting
      ensures settings.limit > 0 ==> forall s | s in pending && s !in manual ::
                pending[s].numRetries <= settings.limit + 1 &&
                (overtaken == 0 ==> pending[s].numRetries <= settings.limit)
      ensures forall s | s in pending && s !in hurried && pending[s].numRetries >= 1 ::
                s in queuedAt && WaitedFor(pending[s], queuedAt[s], settings.timeout)
    {
      ghost var start := Look();
      assert events[..0] == [];
      for i := 0 to |events|
        invariant Valid() && History(start, Look(), Resent(events[..i]), Resent(events[..i]))
        invariant (forall e | e in events :: Asynchronous(e, settings)) ==> graded == start.graded
      {
        ghost var v := Look();
        Handle(events[i]);
        ghost var one, some := Resent([events[i]]), Resent(events[..i]);
        HistoryTrans(start, v, Look(), some, some, one, one);
        ResentNext(events, i);
      }
      assert events[..|events|] == events;
      forall s | s in pending && s !in hurried && pending[s].numRetries >= 1
        ensures s in queuedAt && WaitedFor(pending[s], queuedAt[s], settings.timeout)
      {
        BackoffClosedForm(settings.timeout, pending[s].numRetries);
      }
      assert forall s | s in pending :: Limited(pending[s], s in manual, overtaken, settings.limit);
    }
  }

  lemma ResentNext(events: seq<Event>, i: nat)
    requires i < |events|
    ensures Resent(events[..i + 1]) == Resent(events[..i]) + Resent([events[i]])
  {
    assert events[..i + 1] == events[..i] + [events[i]];
    assert forall e :: e in events[..i + 1] <==> e in events[..i] || e in [events[i]];
  }

  /**
   From empty tables, over any run and with any answers: a submission that is not sent again by hand
   has at most one retry above the limit, and none as long as every answer is asynchronous.
   */
  method RetriesWithinLimit(settings: Settings, start: int, events: seq<Event>) returns (service: GradingService)
    requires settings.limit > 0 && forall e | e in events :: EventIsSound(e)
    ensures fresh(service) && service.settings == settings
    ensures forall s | s in service.pending && s !in Resent(events) ::
              service.pending[s].numRetries <= settings.limit + 1 &&
              (service.graded == 0 ==> service.pending[s].numRetries <= settings.limit)
    ensures (forall e | e in events :: Asynchronous(e, settings)) ==> service.graded == 0
  {
    service := new GradingService(settings, start);
    service.Run(events);
  }

  /**
   In any state, a submission that is new, not sent again by hand afterwards and not probed has waited,
   since its submission, longer for its n retries than timeout * (1 + n(n-1)/2).
   */
  method RetriesBackOff(service: GradingService, s: int, reply: Reply, events: seq<Event>) returns (submitted: int)
    requires service.Valid() && s !in service.saved && Sound(reply) && forall e | e in events :: EventIsSound(e)
    modifies service
    ensures submitted == old(service.now)
    ensures s in service.pending && s !in Resent(events) && service.probes == old(service.probes) &&
            service.pending[s].numRetries >= 1 ==>
              WaitedFor(service.pending[s], submitted, service.settings.timeout)
  {
    submitted := service.now;
    ghost var start := service.Look();
    service.SendNew(s, reply);
    ghost var v := service.Look();
    service.Run(events);
    HistoryTrans(start, v, service.Look(), {}, {}, Resent(events), Resent(events));
    assert {} + Resent(events) == Resent(events);
  }

  /** Negative points pass for sane; the failing assertion leaves a new submission pending but not WAITING. */
  method NegativePointsBreakConsistency() returns (service: GradingService)
    ensures fresh(service) && 1 in service.pending && 1 in service.saved && service.saved[1] == Initialized
  {
    service := new GradingService(Settings(1800, 3, 5, {1}, {1}, true), 0);
    service.saved := map[1 := Initialized];
    var raised := service.Grade(1, GradedPage(-1, 10, false), ByHand);
  }

  // ----- A run that goes one above the limit -----------------------------------------------------------------

  lemma {:induction false} NothingRetried(t: Table, keys: set<int>)
    requires keys <= t.Keys && forall s | s in keys :: t[s].numRetries == 0
    ensures TotalOver(t, keys) == 0
    decreases |keys|
  {
    if s :| s in keys {
      NothingRetried(t, keys - {s});
      TotalOverFrom(t, keys, s);
    }
  }

  /** Three rows without retries, all due. */
  method ThreeDue() returns (service: GradingService)
    ensures fresh(service) && service.Valid()
    ensures service.settings == Settings(1800, 1, 0, {1, 2, 3}, {1, 2, 3}, true)
    ensures service.saved.Keys == {1, 2, 3} && service.pending.Keys == {1, 2, 3}
    ensures forall s | s in service.pending ::
              service.pending[s].numRetries == 0 && service.pending[s].time < service.now - 1800
  {
    service := new GradingService(Settings(1800, 1, 0, {1, 2, 3}, {1, 2, 3}, true), 0);
    service.SendNew(1, AcceptedPage);
    service.SendNew(2, AcceptedPage);
    service.SendNew(3, AcceptedPage);
    var later :| service.now + 1800 < later;
    service.now := later;
  }

  /**
   One above the limit of one retry. The loop's first retry is accepted, its second is graded at once,
   upon which the grading service, with one retry unanswered, is probed with the third row; and the
   loop, which still sees that row without retries, sends it once more. The second turn is written out
   from Grade, SetReady and RetrySubmissions, with the page and the choice of the row fixed.
   */
  method ProbeOvertakesLoop() returns (service: GradingService)
    ensures fresh(service) && service.settings.limit == 1
    ensures 3 in service.pending && service.pending[3].numRetries == 2
  {
    service := ThreeDue();
    NothingRetried(service.pending, service.pending.Keys);
    var stable := service.IsGraderStable();
    assert stable;
    var snapshot := service.pending;
    var raised := service.Grade(1, AcceptedPage, ByWait);
    SecondTurn(service);
    assert snapshot[3].numRetries < service.settings.limit && Expired(snapshot[3], 1800, service.now);
    raised := service.Grade(3, AcceptedPage, ByProbe);
  }

  method SecondTurn(service: GradingService)
    requires service.Valid() && service.settings == Settings(1800, 1, 0, {1, 2, 3}, {1, 2, 3}, true)
    requires service.saved.Keys == {1, 2, 3} && service.pending.Keys == {1, 2, 3} && service.pending[1].numRetries == 1
    requires service.pending[2].numRetries == 0 && service.pending[2].time < service.now - 1800
    requires service.pending[3].numRetries == 0
    modifies service
    ensures service.Valid() && service.now >= old(service.now) && service.overtaken > 0
    ensures 3 in service.saved && 3 in service.pending && service.pending[3].numRetries == 1
  {
    GradedAtOnce(service);
    TotalOverFrom(service.pending, service.pending.Keys, 1);
    var stable := service.IsGraderStable();
    assert !stable;
    service.probes := service.probes + 1;
    var raised := service.Grade(3, AcceptedPage, ByProbe);
  }

  method GradedAtOnce(service: GradingService)
    requires service.Valid() && 2 in service.saved && 2 in service.pending && 2 in service.settings.hosted
    requires CauseHolds(service.Look(), 2, ByWait, service.settings)
    modifies service
    ensures service.Valid() && service.now >= old(service.now) && service.overtaken > 0
    ensures service.pending == old(service.pending) - {2} && service.saved == old(service.saved)[2 := Ready]
  {
    ghost var v := service.Look();
    service.sent := service.sent + multiset{2};
    service.Accept(v, 2, ByWait);
    assert service.pending - {2} == v.pending - {2};
    service.CountPage(v, 2, ByWait);
    service.Drop(v, 2, ByWait, Ready);
  }
}
