/**
 The waitlist and the metrics rows under at-least-once delivery: the system of Delivery, run with the worker's real
 waitlist handler and recalculation, reaches only states that the state machine of Runs reaches. So what Runs keeps
 holds of the database whatever the publisher and the broker do.
 */
module EndToEnd {
  import opened Outcomes
  import opened Tables
  import opened Loading
  import opened Appointments
  import opened Waitlist
  import opened Runs
  import opened Metrics
  import opened FreshDays
  import D = Delivery
  import T = Traces
  import WaitlistCoherence
  import Reassignment

  /** What the handlers read and write: the tables, and the cached daily totals. */
  datatype Data = Data(db: Db, rows: map<int, Summary>)

  /** What the handlers of events that open no opportunity emit, or None for an error. */
  type Others = (Event, Data) -> Option<seq<Event>>

  datatype Worker = Worker(price: int -> int, keyOf: EventKind -> string, others: Others)

  /** Their events concern reminders, risk and metrics. */
  ghost predicate EmitDerived(others: Others) {
    forall ev: Event, data: Data :: others(ev, data).Some? ==> OnlyDerived(others(ev, data).value)
  }

  /** The database: the outbox and the processed ids are kept by the delivery system. */
  function Merged(o: D.Once<Data, Event>): Db {
    o.data.db.(outbox := o.events, processed := o.handled)
  }

  function DbOf(s: D.System<Data, Event>): Db {
    Merged(D.Abstract(s))
  }

  lemma {:induction false} BestAmong(db: Db, ev: Event, n: nat) returns (c: Option<nat>)
    requires db.Linked() && n <= |db.entries|
    ensures c.Some? ==> c.value < n && Eligible(db, ev, c.value)
    ensures forall e: nat :: e < n && Eligible(db, ev, e) ==> c.Some? && (e == c.value || RanksBefore(db, c.value, e))
  {
    if n == 0 {
      c := None;
    } else {
      c := BestAmong(db, ev, n - 1);
      if Eligible(db, ev, n - 1) && (c.None? || RanksBefore(db, n - 1, c.value)) {
        c := Some(n - 1);
      }
    }
  }

  ghost function Candidate(db: Db, ev: Event): (c: Option<nat>)
    requires db.Linked()
    ensures IsCandidate(db, ev, c)
  {
    assert exists c :: IsCandidate(db, ev, c) by {
      var c := BestAmong(db, ev, |db.entries|);
      assert IsCandidate(db, ev, c);
    }
    var c :| IsCandidate(db, ev, c);
    c
  }

  function Drafts(events: seq<Event>, keyOf: EventKind -> string): seq<D.Draft<Event>> {
    seq(|events|, k requires 0 <= k < |events| => D.Draft(events[k], keyOf(events[k].kind), events[k].occurredAt))
  }

  /** The database an event's handler sees, with that event as its only outbox row. */
  function Seen(db: Db, ev: Event): Db {
    db.(outbox := [ev], processed := {})
  }

  /** One transaction: the event's own effect, its metrics row, and the events it emits. */
  ghost function HandlerEffect(w: Worker, ev: Event, data: Data): Option<D.Effect<Data, Event>> {
    var db, rows := Seen(data.db, ev), HandledRows(w.price, data.db.appointments, data.rows, ev);
    if !ev.kind.OpensOpportunity() then
      if w.others(ev, data).None? then None
      else Some(D.Effect(data.(rows := rows), Drafts(w.others(ev, data).value, w.keyOf)))
    else if !db.Linked() then None
    else
      var after := AfterOpportunity(db, 0, Candidate(db, ev));
      Some(D.Effect(Data(after, rows), Drafts(after.outbox[1..], w.keyOf)))
  }

  ghost function WorkerHandler(w: Worker): D.Handler<Data, Event> {
    (ev: Event, data: Data) => HandlerEffect(w, ev, data)
  }

  lemma DraftsCarry(events: seq<Event>, keyOf: EventKind -> string)
    ensures D.Payloads(D.NewRows(Drafts(events, keyOf))) == events
    ensures forall k :: 0 <= k < |events| ==>
              D.NewRows(Drafts(events, keyOf))[k] == D.Row(events[k], keyOf(events[k].kind), events[k].occurredAt, D.Pending, 0)
  {
  }

  /** Whether an entry is eligible does not depend on the outbox. */
  lemma SameCandidate(db: Db, i: nat, c: Option<nat>)
    requires db.Linked() && i < |db.outbox|
    requires Seen(db, db.outbox[i]).Linked() && IsCandidate(Seen(db, db.outbox[i]), db.outbox[i], c)
    ensures IsCandidate(db, db.outbox[i], c)
  {
    var seen, ev := Seen(db, db.outbox[i]), db.outbox[i];
    forall e: nat
      ensures Eligible(seen, ev, e) <==> Eligible(db, ev, e)
    {
    }
    if c.Some? {
      forall e: nat | Eligible(db, ev, e) && e != c.value
        ensures RanksBefore(db, c.value, e)
      {
        assert RanksBefore(seen, c.value, e);
      }
    }
  }

  /** Handling an event in the once-only system is the delivery step of Runs, with its recalculation. */
  lemma HandlingIsADelivery(w: Worker, o: D.Once<Data, Event>, i: nat, o': D.Once<Data, Event>) returns (derived: seq<Event>)
    requires EmitDerived(w.others) && Merged(o).Linked()
    requires D.OnceNext(WorkerHandler(w), o, D.Handle(i)) == Some(o')
    ensures Next(Merged(o), Deliver(i, derived), Merged(o'))
    ensures o'.data.rows == RowsAfter(w.price, Merged(o), Deliver(i, derived), o.data.rows)
  {
    derived := [];
    if o.events[i].kind.OpensOpportunity() {
      OpportunityIsADelivery(w, o, i, o');
    } else {
      derived := w.others(o.events[i], o.data).value;
      DraftsCarry(derived, w.keyOf);
      var db := Merged(o);
      assert Merged(o') == db.(processed := db.processed + {i}, outbox := db.outbox + derived);
    }
  }

  lemma OpportunityIsADelivery(w: Worker, o: D.Once<Data, Event>, i: nat, o': D.Once<Data, Event>)
    requires Merged(o).Linked() && i < |o.events| && o.events[i].kind.OpensOpportunity()
    requires D.OnceNext(WorkerHandler(w), o, D.Handle(i)) == Some(o')
    ensures Next(Merged(o), Deliver(i, []), Merged(o'))
    ensures o'.data.rows == RowsAfter(w.price, Merged(o), Deliver(i, []), o.data.rows)
  {
    var db, ev := Merged(o), o.events[i];
    var seen := Seen(o.data.db, ev);
    assert Seen(db, ev) == seen;
    var c := Candidate(seen, ev);
    SameCandidate(db, i, c);
    var news := AfterOpportunity(seen, 0, c).outbox[1..];
    DraftsCarry(news, w.keyOf);
    assert AfterOpportunity(db, i, c).outbox == db.outbox + news;
    assert Merged(o') == AfterOpportunity(db, i, c);
  }

  /** A commit of the API or of the scheduler is one of the actions of Runs, other than a delivery. */
  ghost predicate IsCommit(s: D.System<Data, Event>, t: Action, s': D.System<Data, Event>) {
    DbOf(s).Linked() && !t.Deliver? && Next(DbOf(s), t, DbOf(s')) && s'.data.rows == s.data.rows
  }

  ghost predicate CommitsAnAction(s: D.System<Data, Event>, s': D.System<Data, Event>) {
    exists t: Action :: IsCommit(s, t, s')
  }

  ghost predicate Genuine(w: Worker, keys: set<string>, run: D.Run<Data, Event>) {
    && EmitDerived(w.others)
    && D.Valid(WorkerHandler(w), keys, run)
    && D.Abstract(run.states[0]) == D.Once([], Data(EMPTY_DB, map[]), {})
    && forall k :: 0 <= k < |run.labels| && run.labels[k].Commit? ==> CommitsAnAction(run.states[k], run.states[k + 1])
  }

  lemma FrontIsGenuine(w: Worker, keys: set<string>, run: D.Run<Data, Event>)
    requires Genuine(w, keys, run) && |run.labels| > 0
    ensures Genuine(w, keys, T.Front(run))
    ensures var s, l, s' := T.Last(T.Front(run)), run.labels[|run.labels| - 1], T.Last(run);
            D.Step(WorkerHandler(w), keys, s, l, s') && (l.Commit? ==> CommitsAnAction(s, s'))
  {
    D.FrontIsValid(WorkerHandler(w), keys, run);
    var front, last := T.Front(run), |run.labels| - 1;
    forall k | 0 <= k < last && front.labels[k].Commit?
      ensures CommitsAnAction(front.states[k], front.states[k + 1])
    {
      assert CommitsAnAction(run.states[k], run.states[k + 1]);
    }
    assert run.labels[last].Commit? ==> CommitsAnAction(run.states[last], run.states[last + 1]);
  }

  /** The tables and the metrics rows after a run of the state machine are those of a delivery state. */
  ghost predicate Shadows(w: Worker, shadow: Run, rows: seq<map<int, Summary>>, s: D.System<Data, Event>) {
    && Recorded(w.price, shadow, rows)
    && shadow.Last() == DbOf(s) && DbOf(s).Linked()
    && rows[|shadow.actions|] == s.data.rows
  }

  /** Every run of the delivery system has a run of the state machine that ends with the same database and rows. */
  lemma {:induction false} DeliveryRefinesRuns(w: Worker, keys: set<string>, run: D.Run<Data, Event>)
    returns (shadow: Run, rows: seq<map<int, Summary>>)
    requires Genuine(w, keys, run)
    ensures Shadows(w, shadow, rows, T.Last(run))
    decreases |run.labels|
  {
    if |run.labels| == 0 {
      shadow, rows := Run([EMPTY_DB], []), [map[]];
    } else {
      FrontIsGenuine(w, keys, run);
      shadow, rows := DeliveryRefinesRuns(w, keys, T.Front(run));
      shadow, rows := LastStep(w, keys, T.Last(T.Front(run)), run.labels[|run.labels| - 1], T.Last(run), shadow, rows);
    }
  }

  lemma LastStep(
    w: Worker, keys: set<string>, s: D.System<Data, Event>, l: D.Label<Data, Event>, s': D.System<Data, Event>,
    before: Run, table: seq<map<int, Summary>>) returns (shadow: Run, rows: seq<map<int, Summary>>)
    requires EmitDerived(w.others) && D.Step(WorkerHandler(w), keys, s, l, s')
    requires l.Commit? ==> CommitsAnAction(s, s')
    requires Shadows(w, before, table, s)
    ensures Shadows(w, shadow, rows, s')
  {
    if l.Commit? {
      var t: Action :| IsCommit(s, t, s');
      shadow, rows := OneMoreStep(w, s, t, s', before, table);
    } else if l.Process? {
      var derived := ProcessIsADelivery(w, keys, s, l, s');
      shadow, rows := OneMoreStep(w, s, Deliver(l.i, derived), s', before, table);
    } else {
      D.OtherStepsStutter(WorkerHandler(w), keys, s, l, s');
      assert D.Abstract(s').data == D.Abstract(s).data;
      shadow, rows := before, table;
    }
  }

  lemma ProcessIsADelivery(
    w: Worker, keys: set<string>, s: D.System<Data, Event>, l: D.Label<Data, Event>, s': D.System<Data, Event>)
    returns (derived: seq<Event>)
    requires EmitDerived(w.others) && DbOf(s).Linked() && l.Process? && D.Step(WorkerHandler(w), keys, s, l, s')
    ensures Next(DbOf(s), Deliver(l.i, derived), DbOf(s'))
    ensures s'.data.rows == RowsAfter(w.price, DbOf(s), Deliver(l.i, derived), s.data.rows)
  {
    D.DataStepRefines(WorkerHandler(w), keys, s, l, s');
    derived := HandlingIsADelivery(w, D.Abstract(s), l.i, D.Abstract(s'));
  }

  lemma OneMoreStep(
    w: Worker, s: D.System<Data, Event>, t: Action, s': D.System<Data, Event>, before: Run, table: seq<map<int, Summary>>)
    returns (shadow: Run, rows: seq<map<int, Summary>>)
    requires Shadows(w, before, table, s) && Next(DbOf(s), t, DbOf(s'))
    requires s'.data.rows == RowsAfter(w.price, DbOf(s), t, s.data.rows)
    ensures Shadows(w, shadow, rows, s')
  {
    shadow, rows := RecordedExtended(w.price, before, table, t, DbOf(s'));
  }

  /**
   Whatever polls overlap, publishers crash, messages are lost, redelivered or requeued: the waitlist is
   coherent and one cancellation never yields two live offers.
   */
  lemma WaitlistSurvivesRedelivery(w: Worker, keys: set<string>, run: D.Run<Data, Event>, a: nat)
    requires Genuine(w, keys, run)
    ensures var db := DbOf(T.Last(run));
            && db.Linked() && WaitlistCoherence.Coherent(db)
            && Reassignment.OpenOffers(db, a) + Reassignment.Opportunities(db, a) <= Reassignment.Cancellations(db, a)
  {
    var shadow, rows := DeliveryRefinesRuns(w, keys, run);
    WaitlistCoherence.AlwaysCoherent(shadow);
    Reassignment.OpportunitiesAreConserved(shadow, a);
  }

  // ---------------------------------------------------------------- metrics rows

  /** No commit is one of the three that change a day and emit nothing to recalculate it. */
  ghost predicate CommitsQuietly(s: D.System<Data, Event>, s': D.System<Data, Event>, day: int) {
    exists t: Action :: IsCommit(s, t, s') && !Disturbs(DbOf(s), t, day)
  }

  ghost predicate Quiet(run: D.Run<Data, Event>, day: int)
    requires |run.states| == |run.labels| + 1
  {
    forall k :: 0 <= k < |run.labels| && run.labels[k].Commit? ==> CommitsQuietly(run.states[k], run.states[k + 1], day)
  }

  lemma DeliveryStepKeepsUp(
    w: Worker, keys: set<string>, s: D.System<Data, Event>, l: D.Label<Data, Event>, s': D.System<Data, Event>, day: int)
    requires EmitDerived(w.others) && D.Step(WorkerHandler(w), keys, s, l, s') && DbOf(s).Linked()
    requires l.Commit? ==> CommitsQuietly(s, s', day)
    requires KeptUp(w.price, DbOf(s), s.data.rows, day)
    ensures KeptUp(w.price, DbOf(s'), s'.data.rows, day)
  {
    if l.Commit? {
      var t: Action :| IsCommit(s, t, s') && !Disturbs(DbOf(s), t, day);
      StepKeepsUp(w.price, DbOf(s), t, DbOf(s'), s.data.rows, day);
    } else if l.Process? {
      var derived := ProcessIsADelivery(w, keys, s, l, s');
      StepKeepsUp(w.price, DbOf(s), Deliver(l.i, derived), DbOf(s'), s.data.rows, day);
    } else {
      D.OtherStepsStutter(WorkerHandler(w), keys, s, l, s');
      assert D.Abstract(s').data == D.Abstract(s).data;
    }
  }

  lemma {:induction false} DeliveryKeepsUp(w: Worker, keys: set<string>, run: D.Run<Data, Event>, day: int)
    requires Genuine(w, keys, run) && Quiet(run, day)
    ensures KeptUp(w.price, DbOf(T.Last(run)), T.Last(run).data.rows, day)
    decreases |run.labels|
  {
    if |run.labels| > 0 {
      FrontIsGenuine(w, keys, run);
      FrontIsQuiet(run, day);
      DeliveryKeepsUp(w, keys, T.Front(run), day);
      var shadow, rows := DeliveryRefinesRuns(w, keys, T.Front(run));
      DeliveryStepKeepsUp(w, keys, T.Last(T.Front(run)), run.labels[|run.labels| - 1], T.Last(run), day);
    }
  }

  lemma FrontIsQuiet(run: D.Run<Data, Event>, day: int)
    requires |run.states| == |run.labels| + 1 && |run.labels| > 0 && Quiet(run, day)
    ensures Quiet(T.Front(run), day)
    ensures run.labels[|run.labels| - 1].Commit? ==> CommitsQuietly(T.Last(T.Front(run)), T.Last(run), day)
  {
    var front, last := T.Front(run), |run.labels| - 1;
    forall k | 0 <= k < last && front.labels[k].Commit?
      ensures CommitsQuietly(front.states[k], front.states[k + 1], day)
    {
      assert CommitsQuietly(run.states[k], run.states[k + 1], day);
    }
    assert run.labels[last].Commit? ==> CommitsQuietly(run.states[last], run.states[last + 1], day);
  }

  /** Redelivered, requeued or late: once the events that recalculate a day are processed, its row is fresh. */
  lemma RowsSurviveRedelivery(w: Worker, keys: set<string>, run: D.Run<Data, Event>, day: int)
    requires Genuine(w, keys, run) && Quiet(run, day) && !Awaited(DbOf(T.Last(run)), day)
    ensures Fresh(w.price, T.Last(run).data.db.appointments, T.Last(run).data.rows, day)
  {
    DeliveryKeepsUp(w, keys, run, day);
  }
}
