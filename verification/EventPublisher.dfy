/**
 One poll of the outbox publisher (event-publisher.service.ts:52-100, 144-153): what it selects,
 what it does with each row, and how a series of polls ends.
 */
module EventPublisher {
  import opened Outcomes
  import opened Traces
  import opened Batches
  import opened Delivery

  const BATCH_SIZE: nat := 25

  /**
   What the broker and the database answer for one event: whether the publish was confirmed, and whether
   each of the two status updates went through.
   */
  datatype Answer = Answer(confirmed: bool, recorded: bool, failureRecorded: bool)
  {
    predicate Success() {
      confirmed && recorded
    }

    /** The failure update throws as well, which leaves the loop. */
    predicate Aborts() {
      !Success() && !failureRecorded
    }
  }

  /** ORDER BY createdAt LIMIT 25 over the selectable rows; ties may fall either way. */
  ghost predicate IsBatch<E>(rows: seq<Row<E>>, batch: seq<nat>) {
    && |batch| <= BATCH_SIZE
    && Distinct(batch)
    && (forall k :: 0 <= k < |batch| ==> batch[k] < |rows| && Selectable(rows[batch[k]]))
    && (forall j, k :: 0 <= j < k < |batch| ==> rows[batch[j]].createdAt <= rows[batch[k]].createdAt)
    && (forall i: nat, k :: i < |rows| && Selectable(rows[i]) && i !in batch && 0 <= k < |batch| ==>
          rows[batch[k]].createdAt <= rows[i].createdAt)
    && (|batch| < BATCH_SIZE ==> forall i: nat :: i < |rows| && Selectable(rows[i]) ==> i in batch)
  }

  predicate InTable<E>(rows: seq<Row<E>>, batch: seq<nat>) {
    forall k :: 0 <= k < |batch| ==> batch[k] < |rows|
  }

  function RowAfter<E>(row: Row<E>, answer: Answer): Row<E> {
    if answer.Success() then row.(status := Published)
    else if answer.failureRecorded then row.(status := Failed, attempts := row.attempts + 1)
    else row
  }

  /** Which answers end the loop. */
  function Stops(answers: seq<Answer>): seq<bool> {
    seq(|answers|, k requires 0 <= k < |answers| => answers[k].Aborts())
  }

  /** The rows of the batch as the answers left them; every other row as it was. */
  ghost predicate Polled<E>(rows: seq<Row<E>>, batch: seq<nat>, answers: seq<Answer>, rows': seq<Row<E>>)
    requires |batch| <= |answers|
  {
    && |rows'| == |rows|
    && (forall k :: 0 <= k < |batch| && batch[k] < |rows| ==> rows'[batch[k]] == RowAfter(rows[batch[k]], answers[k]))
    && (forall i: nat :: i < |rows| && i !in batch ==> rows'[i] == rows[i])
  }

  /** Without a channel every row of the batch is marked failed, each on its own. */
  function SetupFailure(answers: seq<Answer>): seq<Answer> {
    seq(|answers|, k requires 0 <= k < |answers| => answers[k].(confirmed := false))
  }

  /** Giving the next row of the batch its answer. */
  lemma PolledOneMore<E>(rows: seq<Row<E>>, batch: seq<nat>, k: nat, answers: seq<Answer>, now: seq<Row<E>>)
    requires Distinct(batch) && k < |batch| <= |answers| && batch[k] < |rows|
    requires Polled(rows, batch[..k], answers, now)
    ensures now[batch[k]] == rows[batch[k]]
    ensures Polled(rows, batch[..k + 1], answers, now[batch[k] := RowAfter(rows[batch[k]], answers[k])])
  {
    assert batch[k] !in batch[..k];
    forall i: nat | i !in batch[..k + 1]
      ensures i !in batch[..k] && i != batch[k]
    {
      assert batch[..k + 1] == batch[..k] + [batch[k]];
    }
  }

  class Publisher<E> {
    var rows: seq<Row<E>>
    /** The events handed to the exchange, oldest first. */
    var sent: seq<nat>

    constructor ()
      ensures rows == [] && sent == []
    {
      rows, sent := [], [];
    }

    method MarkFailed(i: nat)
      requires i < |rows|
      modifies this`rows
      ensures rows == MarkRowFailed(old(rows), i)
    {
      rows := rows[i := rows[i].(status := Failed, attempts := rows[i].attempts + 1)];
    }

    method MarkAllFailed(batch: seq<nat>, answers: seq<Answer>)
      requires Distinct(batch) && InTable(rows, batch) && |answers| == |batch|
      modifies this`rows
      ensures Polled(old(rows), batch, SetupFailure(answers), rows)
    {
      var k := 0;
      while k < |batch|
        invariant 0 <= k <= |batch|
        invariant Polled(old(rows), batch[..k], SetupFailure(answers), rows)
      {
        PolledOneMore(old(rows), batch, k, SetupFailure(answers), rows);
        if answers[k].failureRecorded {
          MarkFailed(batch[k]);
        } else {
          assert rows == rows[batch[k] := rows[batch[k]]];
        }
        k := k + 1;
      }
      assert batch[..|batch|] == batch;
    }

    method PublishBatch(batch: seq<nat>, answers: seq<Answer>)
      requires Distinct(batch) && InTable(rows, batch) && |answers| == |batch|
      modifies this
      ensures Polled(old(rows), batch[..Reached(Stops(answers))], answers, rows)
      ensures sent == old(sent) + batch[..Reached(Stops(answers))]
    {
      var k := 0;
      while k < |batch|
        invariant 0 <= k <= |batch| && sent == old(sent) + batch[..k]
        invariant Polled(old(rows), batch[..k], answers, rows)
        invariant forall j :: 0 <= j < k ==> !answers[j].Aborts()
      {
        PolledOneMore(old(rows), batch, k, answers, rows);
        assert batch[..k + 1] == batch[..k] + [batch[k]];
        ghost var next := rows[batch[k] := RowAfter(old(rows)[batch[k]], answers[k])];
        sent := sent + [batch[k]];
        if answers[k].confirmed && answers[k].recorded {
          rows := rows[batch[k] := rows[batch[k]].(status := Published)];
          assert rows == next;
        } else if answers[k].failureRecorded {
          MarkFailed(batch[k]);
          assert rows == next;
        } else {
          assert rows == next;
          ReachedIs(Stops(answers), k + 1);
          return;
        }
        k := k + 1;
      }
      if |batch| > 0 {
        ReachedIs(Stops(answers), |batch|);
      }
    }

    /** batch is what the query returned; setup says whether a channel could be opened. */
    method PublishPending(batch: seq<nat>, setup: bool, answers: seq<Answer>)
      requires IsBatch(rows, batch) && |answers| == |batch|
      modifies this
      ensures setup ==> Polled(old(rows), batch[..Reached(Stops(answers))], answers, rows)
      ensures setup ==> sent == old(sent) + batch[..Reached(Stops(answers))]
      ensures !setup ==> Polled(old(rows), batch, SetupFailure(answers), rows) && sent == old(sent)
    {
      if |batch| == 0 {
        return;
      }
      if setup {
        PublishBatch(batch, answers);
      } else {
        MarkAllFailed(batch, answers);
      }
    }
  }

  // ---------------------------------------------------------------- a series of polls

  function TriesLeft<E>(row: Row<E>): nat {
    if Selectable(row) then MAX_ATTEMPTS - row.attempts else 0
  }

  function Tries<E>(rows: seq<Row<E>>): nat {
    if rows == [] then 0 else Tries(rows[..|rows| - 1]) + TriesLeft(rows[|rows| - 1])
  }

  lemma {:induction false} FewerTries<E>(rows: seq<Row<E>>, rows': seq<Row<E>>, hit: set<nat>)
    requires |rows'| == |rows|
    requires forall i :: i in hit ==> i < |rows|
    requires forall i: nat :: i < |rows| ==> TriesLeft(rows'[i]) + (if i in hit then 1 else 0) <= TriesLeft(rows[i])
    ensures Tries(rows') + |hit| <= Tries(rows)
  {
    if rows == [] {
      assert hit == {};
    } else {
      var last := |rows| - 1;
      FewerTries(rows[..last], rows'[..last], hit - {last});
      if last in hit {
        assert hit == hit - {last} + {last};
      } else {
        assert hit == hit - {last};
      }
    }
  }

  function Members(batch: seq<nat>): set<nat> {
    set i | i in batch
  }

  lemma {:induction false} DistinctSize(batch: seq<nat>)
    requires Distinct(batch)
    ensures |Members(batch)| == |batch|
  {
    if batch != [] {
      var last := |batch| - 1;
      DistinctSize(batch[..last]);
      assert batch == batch[..last] + [batch[last]];
      assert Members(batch) == Members(batch[..last]) + {batch[last]};
    }
  }

  lemma SelectedRowUsesATry<E>(rows: seq<Row<E>>, batch: seq<nat>, answers: seq<Answer>, rows': seq<Row<E>>, k: nat)
    requires |batch| == |answers| && Polled(rows, batch, answers, rows')
    requires k < |batch| && batch[k] < |rows| && Selectable(rows[batch[k]]) && !answers[k].Aborts()
    ensures TriesLeft(rows'[batch[k]]) + 1 <= TriesLeft(rows[batch[k]])
  {
    assert rows'[batch[k]] == RowAfter(rows[batch[k]], answers[k]);
  }

  /** A poll whose updates reach the database uses up at least one try of every row it selected. */
  lemma PollUsesTries<E>(rows: seq<Row<E>>, batch: seq<nat>, answers: seq<Answer>, rows': seq<Row<E>>)
    requires Distinct(batch) && |batch| == |answers| && Polled(rows, batch, answers, rows')
    requires forall k :: 0 <= k < |batch| ==> batch[k] < |rows| && Selectable(rows[batch[k]])
    requires forall k :: 0 <= k < |answers| ==> !answers[k].Aborts()
    ensures Tries(rows') + |batch| <= Tries(rows)
  {
    forall i: nat | i < |rows|
      ensures TriesLeft(rows'[i]) + (if i in Members(batch) then 1 else 0) <= TriesLeft(rows[i])
    {
      if i in batch {
        var k :| 0 <= k < |batch| && batch[k] == i;
        SelectedRowUsesATry(rows, batch, answers, rows', k);
      }
    }
    FewerTries(rows, rows', Members(batch));
    DistinctSize(batch);
  }

  ghost predicate OnePoll<E>(rows: seq<Row<E>>, batch: seq<nat>, answers: seq<Answer>, rows': seq<Row<E>>) {
    && IsBatch(rows, batch) && |answers| == |batch|
    && (forall j :: 0 <= j < |answers| ==> !answers[j].Aborts())
    && Polled(rows, batch, answers, rows')
  }

  ghost predicate Polling<E>(history: seq<seq<Row<E>>>, batches: seq<seq<nat>>, answers: seq<seq<Answer>>) {
    && |history| == |batches| + 1 == |answers| + 1
    && forall k :: 0 <= k < |batches| ==> OnePoll(history[k], batches[k], answers[k], history[k + 1])
  }

  lemma FrontPolls<E>(history: seq<seq<Row<E>>>, batches: seq<seq<nat>>, answers: seq<seq<Answer>>)
    requires Polling(history, batches, answers) && |batches| > 0
    ensures Polling(history[..|batches|], batches[..|batches| - 1], answers[..|batches| - 1])
  {
    var h, b, a := history[..|batches|], batches[..|batches| - 1], answers[..|batches| - 1];
    forall k | 0 <= k < |b|
      ensures OnePoll(h[k], b[k], a[k], h[k + 1])
    {
      assert OnePoll(history[k], batches[k], answers[k], history[k + 1]);
      assert h[k] == history[k] && h[k + 1] == history[k + 1] && b[k] == batches[k] && a[k] == answers[k];
    }
  }

  /**
   Polling ends: over any series of polls whose updates reach the database, the selected rows number at most
   the tries left at the start, five for each row, whatever the broker answers.
   */
  lemma {:induction false} PollingEnds<E>(history: seq<seq<Row<E>>>, batches: seq<seq<nat>>, answers: seq<seq<Answer>>)
    requires Polling(history, batches, answers)
    ensures Tries(history[|batches|]) + Selected(batches) <= Tries(history[0])
    decreases |batches|
  {
    if |batches| > 0 {
      var last := |batches| - 1;
      FrontPolls(history, batches, answers);
      PollingEnds(history[..|batches|], batches[..last], answers[..last]);
      LastPoll(history, batches, answers);
    }
  }

  lemma LastPoll<E>(history: seq<seq<Row<E>>>, batches: seq<seq<nat>>, answers: seq<seq<Answer>>)
    requires Polling(history, batches, answers) && |batches| > 0
    ensures Tries(history[|batches|]) + |batches[|batches| - 1]| <= Tries(history[|batches| - 1])
  {
    var last := |batches| - 1;
    assert OnePoll(history[last], batches[last], answers[last], history[last + 1]);
    PollUsesTries(history[last], batches[last], answers[last], history[last + 1]);
  }

  function Selected(batches: seq<seq<nat>>): nat {
    if batches == [] then 0 else Selected(batches[..|batches| - 1]) + |batches[|batches| - 1]|
  }

  /** An empty batch means that every row is published or was given up after five attempts. */
  lemma {:induction false} NothingLeftToPublish<E>(rows: seq<Row<E>>)
    ensures IsBatch(rows, []) <==> forall i: nat :: i < |rows| ==> rows[i].status == Published || rows[i].attempts >= 5
    ensures IsBatch(rows, []) <==> Tries(rows) == 0
  {
    if Tries(rows) == 0 {
      forall i: nat | i < |rows|
        ensures !Selectable(rows[i])
      {
        TriesOf(rows, i);
      }
    } else {
      SomeTry(rows);
    }
  }

  lemma {:induction false} TriesOf<E>(rows: seq<Row<E>>, i: nat)
    requires i < |rows|
    ensures TriesLeft(rows[i]) <= Tries(rows)
  {
    if i < |rows| - 1 {
      TriesOf(rows[..|rows| - 1], i);
    }
  }

  lemma {:induction false} SomeTry<E>(rows: seq<Row<E>>)
    requires Tries(rows) > 0
    ensures exists i: nat :: i < |rows| && Selectable(rows[i])
  {
    if TriesLeft(rows[|rows| - 1]) == 0 {
      SomeTry(rows[..|rows| - 1]);
      var i: nat :| i < |rows| - 1 && Selectable(rows[..|rows| - 1][i]);
      assert Selectable(rows[i]);
    }
  }

  /** A batch holds the oldest unpublished rows with fewer than five attempts, twenty-five of them if there are so many. */
  lemma BatchIsTheOldest<E>(rows: seq<Row<E>>, batch: seq<nat>, i: nat)
    requires IsBatch(rows, batch) && i < |rows|
    ensures |batch| <= 25
    ensures i in batch ==> rows[i].status != Published && rows[i].attempts < 5
    ensures i !in batch && rows[i].status != Published && rows[i].attempts < 5 ==>
              |batch| == 25 && forall k :: 0 <= k < |batch| ==> batch[k] < |rows| && rows[batch[k]].createdAt <= rows[i].createdAt
  {
    if i in batch {
      var k :| 0 <= k < |batch| && batch[k] == i;
    } else if rows[i].status != Published && rows[i].attempts < 5 {
      assert Selectable(rows[i]);
    }
  }


  /** Some batch always answers the query, so a poll is never stuck. */
  lemma {:induction false} ABatchExists<E>(rows: seq<Row<E>>, batch: seq<nat>) returns (full: seq<nat>)
    requires |batch| <= BATCH_SIZE && Distinct(batch)
    requires forall k :: 0 <= k < |batch| ==> batch[k] < |rows| && Selectable(rows[batch[k]])
    requires forall j, k :: 0 <= j < k < |batch| ==> rows[batch[j]].createdAt <= rows[batch[k]].createdAt
    requires forall i: nat, k :: i < |rows| && Selectable(rows[i]) && i !in batch && 0 <= k < |batch| ==>
               rows[batch[k]].createdAt <= rows[i].createdAt
    ensures IsBatch(rows, full) && batch <= full
    decreases BATCH_SIZE - |batch|
  {
    full := batch;
    var rest := set i: nat | i < |rows| && Selectable(rows[i]) && i !in batch;
    if |batch| < BATCH_SIZE && rest != {} {
      var i := Oldest(rows, rest);
      full := ABatchExists(rows, batch + [i]);
    } else {
      assert forall i: nat :: i < |rows| && Selectable(rows[i]) && i !in batch ==> i in rest;
    }
  }

  lemma {:induction false} Oldest<E>(rows: seq<Row<E>>, indices: set<nat>) returns (oldest: nat)
    requires indices != {} && forall i :: i in indices ==> i < |rows|
    ensures oldest in indices && forall i :: i in indices ==> rows[oldest].createdAt <= rows[i].createdAt
  {
    oldest :| oldest in indices;
    if indices != {oldest} {
      var other := Oldest(rows, indices - {oldest});
      if rows[other].createdAt < rows[oldest].createdAt {
        oldest := other;
      }
    }
  }

  // ---------------------------------------------------------------- a poll is a run of the step system

  lemma Joined<D(!new), E(!new)>(handler: Handler<D, E>, keys: set<string>, first: Run<D, E>, second: Run<D, E>)
    returns (run: Run<D, E>)
    requires Valid(handler, keys, first) && Valid(handler, keys, second) && Last(first) == second.states[0]
    ensures Valid(handler, keys, run) && run.states[0] == first.states[0] && Last(run) == Last(second)
  {
    run := Trace(first.states + second.states[1..], first.labels + second.labels);
    forall k | 0 <= k < |run.labels|
      ensures Step(handler, keys, run.states[k], run.labels[k], run.states[k + 1])
    {
      var n := |first.labels|;
      assert run.states[k] == if k <= n then first.states[k] else second.states[k - n];
      if k < n {
        assert Step(handler, keys, first.states[k], first.labels[k], first.states[k + 1]);
      } else {
        assert run.states[k] == second.states[k - n];
        assert Step(handler, keys, second.states[k - n], second.labels[k - n], second.states[k - n + 1]);
      }
    }
  }

  lemma One<D(!new), E(!new)>(handler: Handler<D, E>, keys: set<string>, s: System<D, E>, l: Label<D, E>, s': System<D, E>)
    returns (run: Run<D, E>)
    requires Step(handler, keys, s, l, s')
    ensures Valid(handler, keys, run) && run.states[0] == s && Last(run) == s'
  {
    run := Trace([s, s'], [l]);
  }

  ghost predicate Idle<D, E>(s: System<D, E>) {
    s.polled == multiset{} && s.confirmed == multiset{} && s.failing == multiset{}
  }

  lemma PublishIsARun<D(!new), E(!new)>(handler: Handler<D, E>, keys: set<string>, s: System<D, E>, i: nat, confirmed: bool)
    returns (run: Run<D, E>)
    requires Idle(s) && i < |s.rows| && Selectable(s.rows[i])
    ensures Valid(handler, keys, run) && run.states[0] == s
    ensures Last(run) == if confirmed then Route(s, i, keys).(confirmed := multiset{i}) else s.(failing := multiset{i})
  {
    var s1 := s.(polled := multiset{i});
    var s2 := if confirmed then Route(s, i, keys).(confirmed := multiset{i}) else s.(failing := multiset{i});
    var poll := One(handler, keys, s, Poll(i), s1);
    var publish := One(handler, keys, s1, if confirmed then PublishConfirmed(i) else PublishFailed(i, false), s2);
    run := Joined(handler, keys, poll, publish);
  }

  /** What the publisher does with one event is a run of the step system with the same effect on the table. */
  lemma AnswerIsARun<D(!new), E(!new)>(handler: Handler<D, E>, keys: set<string>, s: System<D, E>, i: nat, answer: Answer)
    returns (run: Run<D, E>)
    requires Idle(s) && i < |s.rows| && Selectable(s.rows[i])
    ensures Valid(handler, keys, run) && run.states[0] == s && Idle(Last(run))
    ensures Last(run).rows == s.rows[i := RowAfter(s.rows[i], answer)]
  {
    run := PublishIsARun(handler, keys, s, i, answer.confirmed);
    var s2 := Last(run);
    var settled := s2.(polled := multiset{}, confirmed := multiset{}, failing := multiset{});
    if answer.Success() {
      var mark := One(handler, keys, s2, MarkPublished(i), settled.(rows := MarkRowPublished(s.rows, i)));
      run := Joined(handler, keys, run, mark);
    } else if answer.Aborts() {
      var crash := One(handler, keys, s2, PublisherCrash, settled);
      run := Joined(handler, keys, run, crash);
      assert s.rows == s.rows[i := s.rows[i]];
    } else {
      var rest := FailureIsARun(handler, keys, s2, i, answer.confirmed);
      run := Joined(handler, keys, run, rest);
    }
  }

  lemma FailureIsARun<D(!new), E(!new)>(handler: Handler<D, E>, keys: set<string>, s: System<D, E>, i: nat, confirmed: bool)
    returns (run: Run<D, E>)
    requires i < |s.rows| && s.polled == multiset{}
    requires s.confirmed == (if confirmed then multiset{i} else multiset{})
    requires s.failing == if confirmed then multiset{} else multiset{i}
    ensures Valid(handler, keys, run) && run.states[0] == s && Idle(Last(run))
    ensures Last(run).rows == MarkRowFailed(s.rows, i)
  {
    var failing := s.(confirmed := multiset{}, failing := multiset{i});
    var settled := s.(confirmed := multiset{}, failing := multiset{}, rows := MarkRowFailed(s.rows, i));
    run := One(handler, keys, failing, MarkFailed(i), settled);
    if confirmed {
      var fails := One(handler, keys, s, MarkPublishedFails(i), failing);
      run := Joined(handler, keys, fails, run);
    }
  }

  /** A whole poll is a run of the step system that ends with the table the publisher leaves. */
  lemma {:induction false} PollIsARun<D(!new), E(!new)>(
    handler: Handler<D, E>, keys: set<string>, s: System<D, E>, batch: seq<nat>, answers: seq<Answer>, rows: seq<Row<E>>)
    returns (run: Run<D, E>)
    requires Idle(s) && Distinct(batch) && |batch| <= |answers|
    requires forall k :: 0 <= k < |batch| ==> batch[k] < |s.rows| && Selectable(s.rows[batch[k]])
    requires Polled(s.rows, batch, answers, rows)
    ensures Valid(handler, keys, run) && run.states[0] == s && Idle(Last(run)) && Last(run).rows == rows
  {
    if batch == [] {
      run := Trace([s], []);
    } else {
      var last := |batch| - 1;
      var i := batch[last];
      assert batch == batch[..last] + [i];
      var before := rows[i := s.rows[i]];
      run := PollIsARun(handler, keys, s, batch[..last], answers, before);
      var next := AnswerIsARun(handler, keys, Last(run), i, answers[last]);
      assert before[i := RowAfter(s.rows[i], answers[last])] == rows;
      run := Joined(handler, keys, run, next);
    }
  }
}
