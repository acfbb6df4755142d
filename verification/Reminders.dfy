/**
 Scheduled reminders: claim, send, record, back off and re-arm (repository.go:227-362, 428-464;
 service.go:108-135, 584-592). Times are milliseconds.
 */
module Reminders {
  import opened Outcomes
  import opened Traces
  import opened Batches

  const MINUTE: int := 60_000

  datatype Status = Pending | Failed | Sent

  /** nextAttempt is None for NULL, which is never due. */
  datatype Reminder = Reminder(status: Status, attempts: nat, nextAttempt: Option<int>, createdAt: int)

  predicate Due(r: Reminder, now: int, maxAttempts: nat) {
    && !r.status.Sent?
    && r.nextAttempt.Some? && r.nextAttempt.value <= now
    && r.attempts < maxAttempts
  }

  function Claimed(r: Reminder, now: int): Reminder {
    r.(attempts := r.attempts + 1, nextAttempt := Some(now + 5 * MINUTE))
  }

  function NextAttempt(attempts: nat, now: int, maxAttempts: nat): Option<int> {
    if attempts >= maxAttempts then None else Some(now + attempts * attempts * MINUTE)
  }

  /** The result of a send is written over whatever the row holds by then. */
  function RecordedFailed(r: Reminder, attempts: nat, now: int, maxAttempts: nat): Reminder {
    r.(status := Failed, nextAttempt := NextAttempt(attempts, now, maxAttempts))
  }

  function RecordedSent(r: Reminder): Reminder {
    r.(status := Sent, nextAttempt := None)
  }

  /** Booking and rescheduling insert the reminder, or reset the one the appointment has. */
  function Armed(r: Reminder, dueAt: int): Reminder {
    r.(status := Pending, attempts := 0, nextAttempt := Some(dueAt))
  }

  // ---------------------------------------------------------------- one pass of the scheduler

  /** What happens to one claimed reminder: the send, and the transaction that records it. */
  datatype Answer = Answer(delivered: bool, recorded: bool)

  function AfterSend(r: Reminder, now: int, maxAttempts: nat, answer: Answer): Reminder {
    var claimed := Claimed(r, now);
    if !answer.recorded then claimed
    else if answer.delivered then RecordedSent(claimed)
    else RecordedFailed(claimed, claimed.attempts, now, maxAttempts)
  }

  /** The order of (next_attempt_at, created_at). */
  predicate NotLater(a: Reminder, b: Reminder) {
    && a.nextAttempt.Some? && b.nextAttempt.Some?
    && (a.nextAttempt.value < b.nextAttempt.value
        || (a.nextAttempt.value == b.nextAttempt.value && a.createdAt <= b.createdAt))
  }

  /** The rows the claim takes, in whatever order it returns them: the earliest due ones, up to the limit. */
  ghost predicate IsClaim(rows: seq<Reminder>, now: int, maxAttempts: nat, limit: nat, batch: seq<nat>) {
    && |batch| <= limit
    && Distinct(batch)
    && (forall k :: 0 <= k < |batch| ==> batch[k] < |rows| && Due(rows[batch[k]], now, maxAttempts))
    && (forall i: nat :: i < |rows| && Due(rows[i], now, maxAttempts) && i !in batch ==>
          |batch| == limit && forall k :: 0 <= k < |batch| ==> NotLater(rows[batch[k]], rows[i]))
  }

  /** What a claim that leaves room took: every reminder that is neither sent nor out of attempts and whose time has come. */
  lemma ARoomyClaimTakesAllDue(rows: seq<Reminder>, now: int, maxAttempts: nat, limit: nat, batch: seq<nat>, i: nat)
    requires IsClaim(rows, now, maxAttempts, limit, batch) && |batch| < limit && i < |rows|
    ensures i in batch <==>
            && (rows[i].status == Pending || rows[i].status == Failed) && rows[i].attempts < maxAttempts
            && rows[i].nextAttempt.Some? && rows[i].nextAttempt.value <= now
  {
    if i in batch {
      var k :| 0 <= k < |batch| && batch[k] == i;
    }
  }

  /** And a full one took the earliest, the older first among those due together. */
  lemma AFullClaimTakesTheEarliest(rows: seq<Reminder>, now: int, maxAttempts: nat, limit: nat, batch: seq<nat>, i: nat, k: nat)
    requires IsClaim(rows, now, maxAttempts, limit, batch) && k < |batch|
    requires i < |rows| && i !in batch && !rows[i].status.Sent? && rows[i].attempts < maxAttempts
    requires rows[i].nextAttempt.Some? && rows[i].nextAttempt.value <= now
    ensures rows[batch[k]].nextAttempt.value < rows[i].nextAttempt.value
            || (rows[batch[k]].nextAttempt == rows[i].nextAttempt && rows[batch[k]].createdAt <= rows[i].createdAt)
  {
    assert Due(rows[i], now, maxAttempts);
  }

  ghost predicate ClaimSoFar(rows: seq<Reminder>, now: int, maxAttempts: nat, batch: seq<nat>) {
    && Distinct(batch)
    && (forall k :: 0 <= k < |batch| ==> batch[k] < |rows| && Due(rows[batch[k]], now, maxAttempts))
    && forall i: nat, k :: i < |rows| && Due(rows[i], now, maxAttempts) && i !in batch && 0 <= k < |batch| ==>
         NotLater(rows[batch[k]], rows[i])
  }

  /** Some claim always answers the query. */
  lemma {:induction false} AClaimExists(rows: seq<Reminder>, now: int, maxAttempts: nat, limit: nat, batch: seq<nat>)
    returns (full: seq<nat>)
    requires |batch| <= limit && ClaimSoFar(rows, now, maxAttempts, batch)
    ensures IsClaim(rows, now, maxAttempts, limit, full) && batch <= full
    decreases limit - |batch|
  {
    full := batch;
    var rest := set i: nat | i < |rows| && Due(rows[i], now, maxAttempts) && i !in batch;
    if |batch| < limit && rest != {} {
      var i := Earliest(rows, rest);
      full := AClaimExists(rows, now, maxAttempts, limit, batch + [i]);
    } else {
      assert forall i: nat :: i < |rows| && Due(rows[i], now, maxAttempts) && i !in batch ==> i in rest;
    }
  }

  lemma {:induction false} Earliest(rows: seq<Reminder>, indices: set<nat>) returns (earliest: nat)
    requires indices != {} && forall i :: i in indices ==> i < |rows| && rows[i].nextAttempt.Some?
    ensures earliest in indices && forall i :: i in indices ==> NotLater(rows[earliest], rows[i])
  {
    earliest :| earliest in indices;
    if indices != {earliest} {
      var other := Earliest(rows, indices - {earliest});
      if !NotLater(rows[earliest], rows[other]) {
        earliest := other;
      }
    }
  }

  /** Which answers end the pass: a recording that failed. */
  function Stops(answers: seq<Answer>): seq<bool> {
    seq(|answers|, k requires 0 <= k < |answers| => !answers[k].recorded)
  }

  /** After n reminders of the batch: those have their results, the rest are claimed, others are untouched. */
  ghost predicate PassSoFar(
    rows: seq<Reminder>, now: int, maxAttempts: nat, batch: seq<nat>, answers: seq<Answer>, n: nat, rows': seq<Reminder>)
    requires |answers| == |batch|
  {
    && |rows'| == |rows|
    && (forall k :: 0 <= k < |batch| && batch[k] < |rows| ==>
          rows'[batch[k]] == if k < n then AfterSend(rows[batch[k]], now, maxAttempts, answers[k]) else Claimed(rows[batch[k]], now))
    && (forall i: nat :: i < |rows| && i !in batch ==> rows'[i] == rows[i])
  }

  lemma PassOneMore(
    rows: seq<Reminder>, now: int, maxAttempts: nat, batch: seq<nat>, answers: seq<Answer>, k: nat, soFar: seq<Reminder>)
    requires Distinct(batch) && |answers| == |batch| && k < |batch| && batch[k] < |rows|
    requires PassSoFar(rows, now, maxAttempts, batch, answers, k, soFar)
    ensures soFar[batch[k]] == Claimed(rows[batch[k]], now)
    ensures PassSoFar(rows, now, maxAttempts, batch, answers, k + 1,
                      soFar[batch[k] := AfterSend(rows[batch[k]], now, maxAttempts, answers[k])])
  {
  }

  class Scheduler {
    var rows: seq<Reminder>

    constructor ()
      ensures rows == []
    {
      rows := [];
    }

    method Claim(now: int, maxAttempts: nat, batch: seq<nat>)
      requires Distinct(batch) && forall k :: 0 <= k < |batch| ==> batch[k] < |rows|
      modifies this
      ensures |rows| == old(|rows|)
      ensures forall k :: 0 <= k < |batch| ==> rows[batch[k]] == Claimed(old(rows)[batch[k]], now)
      ensures forall k :: 0 <= k < |batch| ==>
                var r := old(rows)[batch[k]];
                rows[batch[k]] == Reminder(r.status, r.attempts + 1, Some(now + 5 * 60_000), r.createdAt)
      ensures forall i: nat :: i < |rows| && i !in batch ==> rows[i] == old(rows)[i]
    {
      var k := 0;
      while k < |batch|
        invariant 0 <= k <= |batch| && |rows| == old(|rows|)
        invariant forall j :: 0 <= j < k ==> rows[batch[j]] == Claimed(old(rows)[batch[j]], now)
        invariant forall j :: k <= j < |batch| ==> rows[batch[j]] == old(rows)[batch[j]]
        invariant forall i: nat :: i < |rows| && i !in batch ==> rows[i] == old(rows)[i]
      {
        var r := rows[batch[k]];
        rows := rows[batch[k] := r.(attempts := r.attempts + 1, nextAttempt := Some(now + 5 * MINUTE))];
        k := k + 1;
      }
    }

    /** batch is what the claim returned; answers say how each send and its recording went. */
    method SendDueReminders(now: int, maxAttempts: nat, limit: nat, batch: seq<nat>, answers: seq<Answer>)
      requires IsClaim(rows, now, maxAttempts, limit, batch) && |answers| == |batch|
      modifies this
      ensures PassSoFar(old(rows), now, maxAttempts, batch, answers, Reached(Stops(answers)), rows)
    {
      Claim(now, maxAttempts, batch);
      var k := 0;
      while k < |batch|
        invariant 0 <= k <= |batch|
        invariant PassSoFar(old(rows), now, maxAttempts, batch, answers, k, rows)
        invariant forall j :: 0 <= j < k ==> answers[j].recorded
      {
        if !answers[k].recorded {
          PassOneMore(old(rows), now, maxAttempts, batch, answers, k, rows);
          assert rows == rows[batch[k] := rows[batch[k]]];
          ReachedIs(Stops(answers), k + 1);
          return;
        }
        PassOneMore(old(rows), now, maxAttempts, batch, answers, k, rows);
        var i := batch[k];
        var attempts := rows[i].attempts;
        if answers[k].delivered {
          rows := rows[i := rows[i].(status := Sent, nextAttempt := None)];
        } else {
          var next := if attempts >= maxAttempts then None else Some(now + attempts * attempts * MINUTE);
          rows := rows[i := rows[i].(status := Failed, nextAttempt := next)];
        }
        k := k + 1;
      }
      if |batch| > 0 {
        ReachedIs(Stops(answers), |batch|);
      }
    }
  }

  // ---------------------------------------------------------------- the life of one reminder

  /** One reminder and the scheduler's unrecorded send of it: the attempt's number and time. */
  datatype Life = Life(row: Reminder, inFlight: Option<(nat, int)>)

  datatype Move =
    | Attempt(now: int)
    | RecordFailure
    | RecordSuccess
    | Forget
    | ReArm(dueAt: int)

  /** One scheduler: it attempts the reminder again only after it recorded or forgot the last attempt. */
  predicate Step(s: Life, m: Move, maxAttempts: nat, s': Life) {
    match m
    case Attempt(now) =>
      && s.inFlight.None? && Due(s.row, now, maxAttempts)
      && s' == Life(Claimed(s.row, now), Some((s.row.attempts + 1, now)))
    case RecordFailure =>
      && s.inFlight.Some?
      && s' == Life(RecordedFailed(s.row, s.inFlight.value.0, s.inFlight.value.1, maxAttempts), None)
    case RecordSuccess => s.inFlight.Some? && s' == Life(RecordedSent(s.row), None)
    case Forget => s.inFlight.Some? && s' == s.(inFlight := None)
    case ReArm(dueAt) => s' == s.(row := Armed(s.row, dueAt))
  }

  type Run = Trace<Life, Move>

  ghost predicate Valid(run: Run, maxAttempts: nat) {
    && |run.states| == |run.labels| + 1
    && forall k :: 0 <= k < |run.labels| ==> Step(run.states[k], run.labels[k], maxAttempts, run.states[k + 1])
  }

  /** What a pass does to a row it claimed is an attempt and then its recording, or nothing. */
  lemma APassIsAnAttempt(r: Reminder, now: int, maxAttempts: nat, answer: Answer) returns (run: Run)
    requires Due(r, now, maxAttempts)
    ensures Valid(run, maxAttempts) && run.states[0] == Life(r, None)
    ensures Last(run) == Life(AfterSend(r, now, maxAttempts, answer), None)
  {
    var s := Life(Claimed(r, now), Some((r.attempts + 1, now)));
    var end := Life(AfterSend(r, now, maxAttempts, answer), None);
    var m := if !answer.recorded then Forget else if answer.delivered then RecordSuccess else RecordFailure;
    run := Trace([Life(r, None), s, end], [Attempt(now), m]);
  }

  /** The times of the attempts of a run. */
  function Attempts(moves: seq<Move>): seq<int> {
    if moves == [] then []
    else
      var m := moves[|moves| - 1];
      Attempts(moves[..|moves| - 1]) + if m.Attempt? then [m.now] else []
  }

  predicate WithoutReArm(moves: seq<Move>) {
    forall k :: 0 <= k < |moves| ==> !moves[k].ReArm?
  }

  predicate AllRecorded(moves: seq<Move>) {
    forall k :: 0 <= k < |moves| ==> !moves[k].Forget?
  }

  function Gap(k: nat): int {
    if k * k < 5 then k * k * MINUTE else 5 * MINUTE
  }

  /** What the row and the scheduler hold after the attempts at the given times. */
  ghost predicate Tracks(s: Life, times: seq<int>, maxAttempts: nat, recorded: bool) {
    var n := |times|;
    && s.row.attempts == n <= maxAttempts
    && (s.row.status.Sent? ==> s.row.nextAttempt.None?)
    && (n > 0 && s.inFlight.Some? ==> s.inFlight.value == (n, times[n - 1]))
    && (n > 0 && s.row.nextAttempt.Some? ==> s.row.nextAttempt.value >= times[n - 1] + Gap(n))
    && (n > 0 && s.inFlight.None? && s.row.nextAttempt.Some? && recorded ==>
          s.row.nextAttempt.value == times[n - 1] + n * n * MINUTE)
  }

  ghost predicate Spaced(times: seq<int>, recorded: bool) {
    forall k :: 0 < k < |times| ==>
      && times[k] >= times[k - 1] + Gap(k)
      && (recorded ==> times[k] >= times[k - 1] + k * k * MINUTE)
  }

  lemma MoveKeepsTrack(s: Life, m: Move, maxAttempts: nat, s': Life, times: seq<int>, recorded: bool)
    requires Step(s, m, maxAttempts, s') && Tracks(s, times, maxAttempts, recorded) && Spaced(times, recorded)
    requires !m.ReArm? && (recorded ==> !m.Forget?)
    ensures Tracks(s', times + (if m.Attempt? then [m.now] else []), maxAttempts, recorded)
    ensures Spaced(times + (if m.Attempt? then [m.now] else []), recorded)
  {
  }

  lemma FrontIsValid(run: Run, maxAttempts: nat)
    requires Valid(run, maxAttempts) && |run.labels| > 0
    ensures Valid(Front(run), maxAttempts) && Front(run).states[0] == run.states[0]
    ensures Step(Last(Front(run)), run.labels[|run.labels| - 1], maxAttempts, Last(run))
  {
    var last := |run.labels| - 1;
    assert Step(run.states[last], run.labels[last], maxAttempts, run.states[last + 1]);
  }

  lemma {:induction false} RunKeepsTrack(run: Run, maxAttempts: nat)
    requires Valid(run, maxAttempts) && WithoutReArm(run.labels)
    requires run.states[0].row.status.Pending? && run.states[0].row.attempts == 0
    ensures Tracks(Last(run), Attempts(run.labels), maxAttempts, AllRecorded(run.labels))
    ensures Spaced(Attempts(run.labels), AllRecorded(run.labels))
    decreases |run.labels|
  {
    if |run.labels| > 0 {
      var last := |run.labels| - 1;
      FrontIsValid(run, maxAttempts);
      RunKeepsTrack(Front(run), maxAttempts);
      MoveKeepsTrack(Last(Front(run)), run.labels[last], maxAttempts, Last(run),
                     Attempts(Front(run).labels), AllRecorded(run.labels));
    }
  }

  /** Six times the sum of the squares below n. */
  function SixSquares(n: int): int {
    (n - 1) * n * (2 * n - 1)
  }

  lemma SixSquaresStep(m: int)
    ensures SixSquares(m) + 6 * (m * m) == SixSquares(m + 1)
  {
    assert (m - 1) * m == m * m - m && m * (m + 1) == m * m + m;
    assert (m * m - m) * (2 * m - 1) == 2 * (m * m * m) - 3 * (m * m) + m;
    assert (m * m + m) * (2 * m + 1) == 2 * (m * m * m) + 3 * (m * m) + m;
  }

  /** Attempts whose k-th gap is at least k squared minutes are a cubic time apart. */
  lemma {:induction false} SquaresAddUp(times: seq<int>)
    requires |times| > 0 && Spaced(times, true)
    ensures 6 * (times[|times| - 1] - times[0]) >= SixSquares(|times|) * MINUTE
  {
    var m := |times| - 1;
    if m > 0 {
      SquaresAddUp(times[..m]);
      SixSquaresStep(m);
      LastGap(times[0], times[m - 1], times[m], m * m, SixSquares(m), SixSquares(m + 1));
    }
  }

  lemma LastGap(first: int, before: int, last: int, square: int, sum: int, next: int)
    requires last >= before + square * MINUTE && 6 * (before - first) >= sum * MINUTE && next == sum + 6 * square
    ensures 6 * (last - first) >= next * MINUTE
  {
  }

  /**
   Between re-arms a reminder is attempted at most the maximum number of times, and attempt k + 1 comes at least
   min(5, k squared) minutes after attempt k. When every result is recorded, attempt n comes at least
   (n - 1)n(2n - 1)/6 minutes after the first.
   */
  lemma RetriesAreBoundedAndSpaced(run: Run, maxAttempts: nat)
    requires Valid(run, maxAttempts) && WithoutReArm(run.labels)
    requires run.states[0].row.status.Pending? && run.states[0].row.attempts == 0
    ensures var times := Attempts(run.labels);
            && |times| <= maxAttempts
            && (forall k :: 0 < k < |times| ==> times[k] >= times[k - 1] + (if k * k < 5 then k * k else 5) * 60_000)
            && (AllRecorded(run.labels) ==> forall n :: 0 < n <= |times| ==>
                  6 * (times[n - 1] - times[0]) >= (n - 1) * n * (2 * n - 1) * 60_000)
  {
    RunKeepsTrack(run, maxAttempts);
    var times := Attempts(run.labels);
    if AllRecorded(run.labels) {
      forall n | 0 < n <= |times|
        ensures 6 * (times[n - 1] - times[0]) >= (n - 1) * n * (2 * n - 1) * 60_000
      {
        SquaresAddUp(times[..n]);
      }
    }
  }

  /** Once a success, or a last failure, is recorded, nothing happens until the reminder is armed again. */
  lemma NothingAfterTheEnd(run: Run, maxAttempts: nat, k: nat)
    requires Valid(run, maxAttempts) && k < |run.labels|
    requires run.labels[k].RecordSuccess?
             || (run.labels[k].RecordFailure? && run.states[k].inFlight.Some? && run.states[k].inFlight.value.0 >= maxAttempts)
    ensures k == |run.labels| - 1 || run.labels[k + 1].ReArm?
  {
    assert Step(run.states[k], run.labels[k], maxAttempts, run.states[k + 1]);
    if k < |run.labels| - 1 {
      assert Step(run.states[k + 1], run.labels[k + 1], maxAttempts, run.states[k + 2]);
    }
  }

  // ---------------------------------------------------------------- re-arming

  /** The runs that start where the reminder has just been armed and have not attempted it yet. */
  ghost predicate Waiting(run: Run, s: Life, dueAt: int, maxAttempts: nat) {
    && Valid(run, maxAttempts)
    && run.states != [] && Step(s, ReArm(dueAt), maxAttempts, run.states[0])
    && WithoutReArm(run.labels) && Attempts(run.labels) == []
  }

  lemma {:induction false} CleanReArmHolds(run: Run, s: Life, dueAt: int, maxAttempts: nat)
    requires Waiting(run, s, dueAt, maxAttempts) && s.inFlight.None?
    ensures Last(run) == Life(Armed(s.row, dueAt), None)
    decreases |run.labels|
  {
    if |run.labels| > 0 {
      FrontIsValid(run, maxAttempts);
      CleanReArmHolds(Front(run), s, dueAt, maxAttempts);
    }
  }

  /**
   Re-arming is kept until the next attempt if and only if no attempt was waiting to be recorded: a result
   recorded after the re-arm overwrites it, and a success overwrites it for good.
   */
  lemma ReArmIsKeptIffNothingInFlight(s: Life, dueAt: int, maxAttempts: nat)
    ensures s.inFlight.None? <==>
            forall run :: Waiting(run, s, dueAt, maxAttempts) ==> Last(run).row == Armed(s.row, dueAt)
    ensures s.inFlight.Some? ==>
            exists run :: Waiting(run, s, dueAt, maxAttempts) && Last(run).row.status.Sent? && Last(run).row.nextAttempt.None?
  {
    if s.inFlight.None? {
      forall run | Waiting(run, s, dueAt, maxAttempts)
        ensures Last(run).row == Armed(s.row, dueAt)
      {
        CleanReArmHolds(run, s, dueAt, maxAttempts);
      }
    } else {
      var armed := s.(row := Armed(s.row, dueAt));
      var late := Trace([armed, Life(RecordedSent(armed.row), None)], [RecordSuccess]);
      assert Waiting(late, s, dueAt, maxAttempts);
      assert Last(late).row != Armed(s.row, dueAt);
    }
  }

  /** The first attempt after a clean re-arm is not early. */
  lemma FirstAttemptIsDue(run: Run, s: Life, dueAt: int, maxAttempts: nat, now: int, after: Life)
    requires Waiting(run, s, dueAt, maxAttempts) && s.inFlight.None?
    requires Step(Last(run), Attempt(now), maxAttempts, after)
    ensures now >= dueAt && after.row.attempts == 1
  {
    CleanReArmHolds(run, s, dueAt, maxAttempts);
  }
}
