/**
 A run from the empty database that books an entry after it was withdrawn: the slot is booked and cancelled, offered
 to the entry, the entry is withdrawn, and the offer that stayed pending is accepted.
 */
module WithdrawnEntry {
  import opened Outcomes
  import opened Tables
  import opened Loading
  import opened Appointments
  import opened Waitlist
  import opened Runs
  import opened ExampleShop

  /** Nine o'clock on day 1. */
  const NINE: int := 118_800_000

  const BOOKING: Booking := Booking(0, Some(1), NINE, None, None, 0)
  const REQUEST: EntryRequest := EntryRequest(Some(0), 0, 1, 1, None, None, 0)
  const ACCEPTANCE: Booking := Booking(0, Some(1), NINE, Some(0), Some(0), 0)

  lemma Booked() returns (db: Db)
    ensures Next(EMPTY_DB, Create(SHOP, BOOKING, 1), db)
    ensures db.appointments == [Appointment(0, 1, 0, NINE, NINE + 1_800_000, Confirmed, None)]
    ensures db.customers == [Customer(1, 0, 0, 0)] && db.entries == [] && db.offers == []
    ensures |db.outbox| == 1 && db.processed == {}
  {
    NineIsFree([], 1, None);
    assert CreateAllowed(EMPTY_DB, SHOP, BOOKING, 1);
    db := AfterCreate(EMPTY_DB, SHOP, BOOKING, 1);
  }

  lemma WantedAndCancelled(db: Db) returns (db1: Db, db2: Db)
    requires db.Linked() && |db.outbox| == 1 && db.customers == [Customer(1, 0, 0, 0)] && db.entries == []
    requires db.appointments == [Appointment(0, 1, 0, NINE, NINE + 1_800_000, Confirmed, None)]
    ensures Next(db, AddEntry(REQUEST), db1) && db1.Linked() && Next(db1, Cancel(0, 0), db2)
    ensures |db2.appointments| == 1 && !db2.appointments[0].status.Active() && db2.customers == db.customers
    ensures db2.entries == [Entry(0, 0, 1, 1, None, None, 10, Waiting)]
    ensures db2.offers == db.offers && db2.processed == db.processed
    ensures |db2.outbox| == 4 && db2.outbox[2] == Event(AppointmentCancelled, 0, 0, NINE, 0)
  {
    db1 := AfterCreateEntry(db, REQUEST);
    StepKeepsLinks(db, AddEntry(REQUEST), db1);
    db2 := AfterCancel(db1, 0, CancelledByCustomer, 0);
  }

  lemma OfferedAndWithdrawn(db: Db) returns (db1: Db, db2: Db)
    requires db.Linked() && |db.appointments| == 1 && !db.appointments[0].status.Active()
    requires db.customers == [Customer(1, 0, 0, 0)] && db.offers == [] && db.processed == {}
    requires db.entries == [Entry(0, 0, 1, 1, None, None, 10, Waiting)]
    requires |db.outbox| == 4 && db.outbox[2] == Event(AppointmentCancelled, 0, 0, NINE, 0)
    ensures Next(db, Deliver(2, []), db1) && db1.Linked() && Next(db1, WithdrawEntry(0), db2) && db2.Linked()
    ensures |db2.entries| == 1 && db2.entries[0].status.Withdrawn? && |db2.customers| == 1
    ensures |db2.appointments| == 1 && !db2.appointments[0].status.Active()
    ensures db2.offers == [Offer(0, 0, OFFER_TTL, Open)]
  {
    assert Eligible(db, db.outbox[2], 0);
    assert IsCandidate(db, db.outbox[2], Some(0));
    db1 := AfterOpportunity(db, 2, Some(0));
    StepKeepsLinks(db, Deliver(2, []), db1);
    db2 := AfterCancelEntry(db1, 0);
    StepKeepsLinks(db1, WithdrawEntry(0), db2);
  }

  lemma AcceptedAfterAll(db: Db) returns (db': Db)
    requires db.Linked() && |db.entries| == 1 && |db.customers| == 1 && db.offers == [Offer(0, 0, OFFER_TTL, Open)]
    requires |db.appointments| == 1 && !db.appointments[0].status.Active()
    ensures Next(db, Create(SHOP, ACCEPTANCE, 1), db') && |db'.entries| == 1 && db'.entries[0].status.Booked?
  {
    NineIsFree(db.appointments, 1, None);
    db' := AfterCreate(db, SHOP, ACCEPTANCE, 1);
  }

  lemma FirstHalf() returns (run: Run, cancelled: Db)
    ensures run.Valid() && run.states[0] == EMPTY_DB && |run.actions| == 3
    ensures run.Last() == cancelled && cancelled.Linked()
    ensures |cancelled.appointments| == 1 && !cancelled.appointments[0].status.Active()
    ensures cancelled.customers == [Customer(1, 0, 0, 0)] && cancelled.offers == [] && cancelled.processed == {}
    ensures cancelled.entries == [Entry(0, 0, 1, 1, None, None, 10, Waiting)]
    ensures |cancelled.outbox| == 4 && cancelled.outbox[2] == Event(AppointmentCancelled, 0, 0, NINE, 0)
  {
    var booked := Booked();
    run := Extended(Run([EMPTY_DB], []), Create(SHOP, BOOKING, 1), booked);
    var wanted: Db;
    wanted, cancelled := WantedAndCancelled(booked);
    run := Extended(run, AddEntry(REQUEST), wanted);
    run := Extended(run, Cancel(0, 0), cancelled);
  }

  lemma TwoMore(start: Run, t1: Action, db1: Db, t2: Action, db2: Db) returns (run: Run)
    requires start.Valid() && start.Last().Linked() && Next(start.Last(), t1, db1)
    requires db1.Linked() && Next(db1, t2, db2)
    ensures run.Valid() && run.states[0] == start.states[0] && run.Last() == db2 && db2.Linked()
    ensures |run.actions| == |start.actions| + 2 && run.actions[|start.actions| + 1] == t2
  {
    run := Extended(start, t1, db1);
    run := Extended(run, t2, db2);
  }

  /** The entry is withdrawn after five actions of the run and booked after the sixth. */
  lemma AWithdrawnEntryCanBeBooked() returns (run: Run)
    ensures run.Valid() && run.states[0] == EMPTY_DB && |run.actions| == 6
    ensures run.actions[4] == WithdrawEntry(0) && |run.states[5].entries| == 1 && run.states[5].entries[0].status.Withdrawn?
    ensures |run.Last().entries| == 1 && run.Last().entries[0].status.Booked?
  {
    var start, cancelled := FirstHalf();
    var offered, withdrawn := OfferedAndWithdrawn(cancelled);
    var accepted := AcceptedAfterAll(withdrawn);
    run := TwoMore(start, Deliver(2, []), offered, WithdrawEntry(0), withdrawn);
    run := OneMore(run, Create(SHOP, ACCEPTANCE, 1), accepted);
  }

  lemma OneMore(start: Run, t: Action, db: Db) returns (run: Run)
    requires start.Valid() && start.Last().Linked() && Next(start.Last(), t, db)
    ensures run.Valid() && run.states == start.states + [db] && run.actions == start.actions + [t]
  {
    run := Extended(start, t, db);
  }
}
