/**
 A run from the empty database that leaves a day's metrics row wrong with no event left to correct it: a series
 cancellation reads its row on day 1, the customer moves the appointment to day 2, and the cancellation commits.
 */
module MovedUnread {
  import opened Outcomes
  import opened Tables
  import opened Loading
  import opened Appointments
  import opened Recurrence
  import opened Waitlist
  import opened Runs
  import opened Metrics
  import opened FreshDays
  import opened ExampleShop

  /** An entry that wants no day of the run; it brings the customer. */
  const REQUEST: EntryRequest := EntryRequest(None, 0, 5, 5, None, None, 0)
  const SERIES: SeriesRequest := SeriesRequest(0, 0, 1, Nine(1), Week, 1, 1, 0)

  function At(day: int, status: Status): Appointment {
    Appointment(0, 1, 0, Nine(day), Nine(day) + 1_800_000, status, Some(0))
  }

  /** What the later steps need to know of the earlier ones. */
  ghost predicate Holds(db: Db, row: Appointment, events: nat, processed: set<nat>) {
    && db.Linked() && db.appointments == [row]
    && |db.customers| == 1 && db.series == [Series(0, false)] && db.offers == []
    && |db.entries| == 1 && db.entries[0].dateStart == 5
    && |db.outbox| == events && db.processed == processed
  }

  lemma Wanted() returns (db: Db)
    ensures Next(EMPTY_DB, AddEntry(REQUEST), db)
    ensures Ready(db)
  {
    db := AfterCreateEntry(EMPTY_DB, REQUEST);
  }

  lemma OneOccurrence()
    ensures AddInterval(Nine(1), Week, 1, 0) == Nine(1)
    ensures Occurrences(SHOP, SERIES, 0, 0) == [] && Occurrences(SHOP, SERIES, 0, 1) == [At(1, Confirmed)]
    ensures OccurrenceEvents(SHOP, SERIES, 0, 0, 1) == [EventOf(AppointmentBooked, 0, At(1, Confirmed), 0)]
  {
    assert AddInterval(Nine(1), Week, 1, 0) == Nine(1);
    assert Occurrence(SHOP, SERIES, 0, 0) == At(1, Confirmed);
  }

  ghost predicate Ready(db: Db) {
    && db.Linked() && db.appointments == [] && |db.customers| == 1 && db.series == [] && db.offers == []
    && |db.entries| == 1 && db.entries[0].dateStart == 5
    && db.outbox == [Event(WaitlistEntryCreated, 0, 0, 5, 0)] && db.processed == {}
  }

  lemma SeriesFits(db: Db)
    requires Ready(db)
    ensures SeriesAllowed(db, SHOP, SERIES)
  {
    OneOccurrence();
    NineIsFree([], 1, None);
    assert db.appointments + [] == [];
    assert OccurrencePasses(db.appointments, SHOP, SERIES, 0, 0);
  }

  lemma Repeated(db: Db) returns (db': Db)
    requires Ready(db)
    ensures Next(db, CreateMany(SHOP, SERIES), db') && Holds(db', At(1, Confirmed), 3, {})
    ensures forall i :: 0 <= i < 3 ==> !RecalculatesDay(db'.outbox[i], 2)
  {
    SeriesFits(db);
    db' := AfterSeries(db, SHOP, SERIES);
    StepKeepsLinks(db, CreateMany(SHOP, SERIES), db');
    OneOccurrence();
  }

  const MOVE: Action := Reschedule(SHOP, 0, None, Nine(2), 0)

  lemma Moved(db: Db) returns (db': Db)
    requires Holds(db, At(1, Confirmed), 3, {})
    ensures Next(db, MOVE, db') && Holds(db', At(2, Confirmed), 4, {})
    ensures db'.outbox == db.outbox + [EventOf(AppointmentRescheduled, 0, At(2, Confirmed), 0)]
  {
    NineIsFree(db.appointments, 2, Some(0));
    db' := AfterReschedule(db, SHOP, 0, None, Nine(2), 0);
    StepKeepsLinks(db, MOVE, db');
  }

  lemma MoveHandled(db: Db) returns (db': Db)
    requires Holds(db, At(2, Confirmed), 4, {}) && db.outbox[3].kind.AppointmentRescheduled?
    ensures Next(db, Deliver(3, []), db') && Holds(db', At(2, Confirmed), 4, {3}) && db'.outbox == db.outbox
  {
    db' := db.(processed := {3});
    assert db.outbox + [] == db.outbox;
  }

  const CANCEL: Action := CancelMany(0, [0], [At(1, Confirmed)], 0)

  lemma CancelledUnread(db: Db) returns (db': Db)
    requires Holds(db, At(2, Confirmed), 4, {3})
    ensures Next(db, CANCEL, db') && db'.Linked() && Disturbs(db, CANCEL, 2)
    ensures |db'.outbox| == 6 && db'.outbox[4] == EventOf(AppointmentCancelled, 0, At(1, Confirmed), 0)
    ensures db'.processed == {3} && db'.offers == [] && |db'.entries| == 1 && db'.entries[0].dateStart == 5
  {
    db' := AfterCancelSeries(db, 0, [0], [At(1, Confirmed)], 0);
    StepKeepsLinks(db, CANCEL, db');
  }

  lemma CancellationHandled(db: Db) returns (db': Db)
    requires db.Linked() && |db.outbox| == 6 && db.outbox[4] == EventOf(AppointmentCancelled, 0, At(1, Confirmed), 0)
    requires db.processed == {3} && db.offers == [] && |db.entries| == 1 && db.entries[0].dateStart == 5
    ensures Next(db, Deliver(4, []), db')
  {
    assert IsCandidate(db, db.outbox[4], None);
    db' := AfterOpportunity(db, 4, None);
  }

  /** A run with two more actions, and the table after them. */
  lemma RecordedTwice(price: int -> int, run: Run, rows: seq<map<int, Summary>>, t: Action, db: Db, t': Action, db': Db)
    returns (longer: Run, rows': seq<map<int, Summary>>)
    requires Recorded(price, run, rows) && run.Last().Linked() && Next(run.Last(), t, db) && db.Linked() && Next(db, t', db')
    ensures Recorded(price, longer, rows') && longer.Last() == db' && db'.Linked()
    ensures |longer.actions| == |run.actions| + 2 && run.states <= longer.states && rows <= rows'
    ensures longer.actions[|run.actions|] == t && longer.actions[|run.actions| + 1] == t'
    ensures rows'[|run.actions| + 2] == RowsAfter(price, db, t', RowsAfter(price, run.Last(), t, rows[|run.actions|]))
  {
    longer, rows' := RecordedExtended(price, run, rows, t, db);
    longer, rows' := RecordedExtended(price, longer, rows', t', db');
    TwoMore(run.states, db, db');
    TwoMore(run.actions, t, t');
    var after := RowsAfter(price, run.Last(), t, rows[|run.actions|]);
    TwoMore(rows, after, RowsAfter(price, db, t', after));
  }

  lemma TwoMore<T>(s: seq<T>, a: T, b: T)
    ensures |s + [a] + [b]| == |s| + 2 && s <= s + [a] + [b]
    ensures (s + [a] + [b])[|s|] == a && (s + [a] + [b])[|s| + 1] == b
  {
  }

  lemma UpToTheSeries(price: int -> int) returns (run: Run, rows: seq<map<int, Summary>>)
    ensures Recorded(price, run, rows) && |run.actions| == 2 && Holds(run.Last(), At(1, Confirmed), 3, {})
    ensures forall i :: 0 <= i < 3 ==> !RecalculatesDay(run.Last().outbox[i], 2)
  {
    var wanted := Wanted();
    var repeated := Repeated(wanted);
    run, rows := RecordedTwice(price, Run([EMPTY_DB], []), [map[]], AddEntry(REQUEST), wanted, CreateMany(SHOP, SERIES), repeated);
  }

  lemma MovedAndHandled(price: int -> int, db: Db, table: map<int, Summary>) returns (moved: Db, handled: Db)
    requires Holds(db, At(1, Confirmed), 3, {}) && forall i :: 0 <= i < 3 ==> !RecalculatesDay(db.outbox[i], 2)
    ensures Next(db, MOVE, moved) && moved.Linked() && Next(moved, Deliver(3, []), handled)
    ensures Holds(handled, At(2, Confirmed), 4, {3}) && !Awaited(handled, 2)
    ensures KeptUp(price, handled, RowsAfter(price, moved, Deliver(3, []), table), 2)
  {
    moved := Moved(db);
    handled := MoveHandled(moved);
    MoveRepairs(price, moved, handled, table);
  }

  /** Up to the cancellation: day 2 is fresh, and its only event is handled. */
  lemma UpToTheMove(price: int -> int) returns (run: Run, rows: seq<map<int, Summary>>)
    ensures Recorded(price, run, rows) && |run.actions| == 4 && run.Last().Linked()
    ensures run.states[2].appointments == [At(1, Confirmed)]
    ensures Holds(run.Last(), At(2, Confirmed), 4, {3}) && !Awaited(run.Last(), 2)
    ensures KeptUp(price, run.Last(), rows[4], 2)
  {
    run, rows := UpToTheSeries(price);
    var moved, handled := MovedAndHandled(price, run.Last(), rows[2]);
    run, rows := RecordedTwice(price, run, rows, MOVE, moved, Deliver(3, []), handled);
  }

  lemma MoveRepairs(price: int -> int, db: Db, db': Db, rows: map<int, Summary>)
    requires Holds(db, At(2, Confirmed), 4, {}) && db.outbox[3] == EventOf(AppointmentRescheduled, 0, At(2, Confirmed), 0)
    requires forall i :: 0 <= i < 3 ==> !RecalculatesDay(db.outbox[i], 2)
    requires Next(db, Deliver(3, []), db') && db'.outbox == db.outbox && db'.processed == {3}
    ensures KeptUp(price, db', RowsAfter(price, db, Deliver(3, []), rows), 2) && !Awaited(db', 2)
  {
    OnDayHas(db.appointments, 0, 2);
    HandlingRepairs(price, db, Deliver(3, []), db', rows, 2);
  }

  /**
   The row the cancellation carries is the one of the third state. Day 2 is fresh when it commits; afterwards its row
   counts an active appointment that is cancelled, and handling the cancellation corrects another day.
   */
  lemma AMoveUnreadStalesItsNewDay(price: int -> int) returns (run: Run, rows: seq<map<int, Summary>>)
    ensures Recorded(price, run, rows) && |run.actions| == 6
    ensures run.actions[4] == CANCEL && CANCEL.rows == run.states[2].appointments
    ensures Fresh(price, run.states[4].appointments, rows[4], 2) && !Awaited(run.states[4], 2)
    ensures run.actions[5] == Deliver(4, [])
    ensures !Fresh(price, run.Last().appointments, rows[6], 2) && !Awaited(run.Last(), 2)
  {
    run, rows := UpToTheMove(price);
    var cancelled, handled := CancelledAndHandled(price, run.Last(), rows[4]);
    run, rows := RecordedTwice(price, run, rows, CANCEL, cancelled, Deliver(4, []), handled);
  }

  lemma CancelledAndHandled(price: int -> int, db: Db, table: map<int, Summary>) returns (cancelled: Db, handled: Db)
    requires Holds(db, At(2, Confirmed), 4, {3}) && KeptUp(price, db, table, 2) && !Awaited(db, 2)
    ensures Next(db, CANCEL, cancelled) && cancelled.Linked() && Next(cancelled, Deliver(4, []), handled)
    ensures !Fresh(price, handled.appointments, RowsAfter(price, cancelled, Deliver(4, []), table), 2) && !Awaited(handled, 2)
  {
    cancelled := CancelledUnread(db);
    DisturbedFallsBehind(price, db, CANCEL, cancelled, table, 2);
    handled := CancellationHandled(cancelled);
    DeliveriesDoNotRepair(price, cancelled, handled, 4, [], table, 2);
  }
}
