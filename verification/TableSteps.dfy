/**
 Every step of Runs told in the rows of the tables: what an action needs and what it leaves, without the functions
 that the transactions are computed with.
 */
module TableSteps {
  import opened Outcomes
  import opened Tables
  import opened ZonedTime
  import opened Availability
  import opened Recurrence
  import opened Loading
  import opened Appointments
  import opened Waitlist
  import opened SeriesAdvance
  import opened Runs

  ghost predicate Told(db: Db, t: Action, db': Db)
    requires db.Linked()
  {
    match t
    case Create(cfg, b, staff) => MayBook(db, cfg, b, staff) && BookingStored(db, cfg, b, staff, db')
    case CreateMany(cfg, s) => MayRepeat(db, cfg, s) && SeriesStored(db, cfg, s, db')
    case Reschedule(cfg, id, staff, startsAt, now) =>
      MayMove(db, cfg, id, staff, startsAt, now) && MoveStored(db, cfg, id, staff, startsAt, now, db')
    case Cancel(id, now) => id < |db.appointments| && CancelStored(db, id, CancelledByCustomer, now, db')
    case SetStatus(id, next, read, now) =>
      && id < |db.appointments|
      && (next == Confirmed || next == Completed || next == NoShow || next == CancelledByBusiness)
      && StatusStored(db, id, next, read, now, db')
    case CancelMany(seriesId, ids, read, now) =>
      SeriesRows(db, seriesId, ids) && |read| == |ids| && SeriesCancelStored(db, seriesId, ids, read, now, db')
    case AddEntry(q) => (q.customer.Some? ==> q.customer.value < |db.customers|) && EntryStored(db, q, db')
    case WithdrawEntry(id) =>
      && id < |db.entries| && (db.entries[id].status == Waiting || db.entries[id].status == Offered)
      && WithdrawalStored(db, id, db')
    case Reject(o, read, now) => MayAccept(db, o, now) && RejectionStored(db, o, read, now, db')
    case Expire(now) => ExpiryStored(db, now, db')
    case Deliver(i, derived) => i < |db.outbox| && AllDerived(derived) && DeliveryStored(db, i, derived, db')
    case Advance(claim, taken, now) => claim.seriesId < |db.series| && AdvanceStored(db, claim, taken, now, db')
  }

  ghost predicate AllDerived(events: seq<Event>) {
    forall ev :: ev in events ==> ev.kind == Derived
  }

  // ---------------------------------------------------------------- one action leaves one state

  lemma BookingIsUnique(db: Db, cfg: Config, b: Booking, staff: int, db': Db)
    requires db.Linked() && CreateFits(db, cfg, b) && BookingStored(db, cfg, b, staff, db')
    ensures db' == AfterCreate(db, cfg, b, staff)
  {
    var after := AfterCreate(db, cfg, b, staff);
    AfterCreateIsStored(db, cfg, b, staff);
    assert db'.customers == after.customers;
    assert db'.offers == after.offers;
    assert db'.entries == after.entries;
  }

  lemma SeriesIsUnique(db: Db, cfg: Config, s: SeriesRequest, db': Db)
    requires s.serviceId in cfg.services && s.customer < |db.customers| && SeriesStored(db, cfg, s, db')
    ensures db' == AfterSeries(db, cfg, s)
  {
    var after, n, m := AfterSeries(db, cfg, s), |db.appointments|, |db.outbox|;
    AfterSeriesIsStored(db, cfg, s);
    RowsAreOccurrences(cfg, s, |db.series|, db'.appointments[n..]);
    RowsAreOccurrences(cfg, s, |db.series|, after.appointments[n..]);
    SameAfter(db.appointments, db'.appointments, after.appointments);
    EventsAreUnique(s, |db.series|, n, db'.appointments[n..], db'.outbox[m..], after.outbox[m..]);
    SameAfter(db.outbox, db'.outbox, after.outbox);
    assert db'.customers == after.customers;
  }

  lemma SameAfter<T>(front: seq<T>, a: seq<T>, b: seq<T>)
    requires front <= a && front <= b && a[|front|..] == b[|front|..]
    ensures a == b
  {
    assert a == a[..|front|] + a[|front|..] && b == b[..|front|] + b[|front|..];
  }

  lemma EventsAreUnique(s: SeriesRequest, seriesId: nat, firstId: nat, rows: seq<Appointment>, a: seq<Event>, b: seq<Event>)
    requires AreSeriesEvents(s, seriesId, firstId, rows, a) && AreSeriesEvents(s, seriesId, firstId, rows, b)
    ensures a == b
  {
  }

  lemma MoveIsUnique(db: Db, cfg: Config, id: nat, staff: Option<int>, startsAt: int, now: int, db': Db)
    requires id < |db.appointments| && db.appointments[id].serviceId in cfg.services
    requires MoveStored(db, cfg, id, staff, startsAt, now, db')
    ensures db' == AfterReschedule(db, cfg, id, staff, startsAt, now)
  {
    AfterRescheduleIsStored(db, cfg, id, staff, startsAt, now);
    assert db'.appointments == AfterReschedule(db, cfg, id, staff, startsAt, now).appointments;
  }

  lemma CancellationIsUnique(db: Db, id: nat, status: Status, now: int, db': Db)
    requires id < |db.appointments| && CancelStored(db, id, status, now, db')
    ensures db' == AfterCancel(db, id, status, now)
  {
    AfterCancelIsStored(db, id, status, now);
    assert db'.appointments == AfterCancel(db, id, status, now).appointments;
  }

  lemma StatusIsUnique(db: Db, id: nat, next: Status, read: StatusRead, now: int, db': Db)
    requires id < |db.appointments| && db.appointments[id].customerId < |db.customers|
    requires StatusStored(db, id, next, read, now, db')
    ensures db' == AfterStatus(db, id, next, read, now)
  {
    var after := AfterStatus(db, id, next, read, now);
    AfterStatusIsStored(db, id, next, read, now);
    assert db'.appointments == after.appointments;
    assert db'.customers == after.customers;
  }

  lemma SeriesCancellationIsUnique(db: Db, seriesId: nat, ids: seq<nat>, read: seq<Appointment>, now: int, db': Db)
    requires SeriesRows(db, seriesId, ids) && |read| == |ids| && SeriesCancelStored(db, seriesId, ids, read, now, db')
    ensures db' == AfterCancelSeries(db, seriesId, ids, read, now)
  {
    var after := AfterCancelSeries(db, seriesId, ids, read, now);
    AfterCancelSeriesIsStored(db, seriesId, ids, read, now);
    assert db'.appointments == after.appointments;
    assert db'.customers == after.customers;
    assert db'.series == after.series;
    CancelEventsAreUnique(ids, read, now, db.outbox, db'.outbox, after.outbox);
  }

  lemma CancelEventsAreUnique(ids: seq<nat>, read: seq<Appointment>, now: int, outbox: seq<Event>, a: seq<Event>, b: seq<Event>)
    requires |read| == |ids| && AreCancelEvents(ids, read, now, outbox, a) && AreCancelEvents(ids, read, now, outbox, b)
    ensures a == b
  {
    assert a[|outbox|..] == b[|outbox|..];
    SameAfter(outbox, a, b);
  }

  lemma WithdrawalIsUnique(db: Db, id: nat, db': Db)
    requires id < |db.entries| && WithdrawalStored(db, id, db')
    ensures db' == AfterCancelEntry(db, id)
  {
    assert db'.entries == AfterCancelEntry(db, id).entries;
  }

  lemma RejectionIsUnique(db: Db, o: nat, read: Appointment, now: int, db': Db)
    requires o < |db.offers| && db.offers[o].entryId < |db.entries| && RejectionStored(db, o, read, now, db')
    ensures db' == AfterReject(db, o, read, now)
  {
    AfterRejectIsStored(db, o, read, now);
    assert db'.offers == AfterReject(db, o, read, now).offers;
    assert db'.entries == AfterReject(db, o, read, now).entries;
  }

  /** The events of an expiry are determined: in order, one for each slot that ran out. */
  lemma {:induction false} ExpiryEventsAreUnique(db: Db, n: nat, now: int, events: seq<Event>)
    requires n <= |db.appointments| && AreExpiryEvents(db, n, now, events)
    ensures events == ExpiryEvents(db, n, now)
  {
    if n == 0 {
      NoExpiryEvents(db, n, now, events);
    } else if SlotRanOut(db.offers, n - 1, now) {
      LastExpiryEvent(db, n, now, events);
      ExpiryEventsAreUnique(db, n - 1, now, events[..|events| - 1]);
      WithTheLast(db, n, now, events);
    } else {
      NotTheLastSlot(db, n, now, events);
      ExpiryEventsAreUnique(db, n - 1, now, events);
      WithoutTheLast(db, n, now, events);
    }
  }

  lemma NoExpiryEvents(db: Db, n: nat, now: int, events: seq<Event>)
    requires n <= |db.appointments| && AreExpiryEvents(db, n, now, events)
    ensures n == 0 ==> events == ExpiryEvents(db, n, now)
  {
    assert events == [] || events[0].subject < n;
  }

  lemma WithoutTheLast(db: Db, n: nat, now: int, events: seq<Event>)
    requires 0 < n <= |db.appointments| && !SlotRanOut(db.offers, n - 1, now)
    requires events == ExpiryEvents(db, n - 1, now)
    ensures events == ExpiryEvents(db, n, now)
  {
    assert !AppointmentDue(db.offers, n - 1, now);
  }

  lemma WithTheLast(db: Db, n: nat, now: int, events: seq<Event>)
    requires 0 < n <= |db.appointments| && SlotRanOut(db.offers, n - 1, now) && events != []
    requires events[..|events| - 1] == ExpiryEvents(db, n - 1, now)
    requires events[|events| - 1] == EventOf(WaitlistOfferExpired, n - 1, db.appointments[n - 1], now)
    ensures events == ExpiryEvents(db, n, now)
  {
    assert AppointmentDue(db.offers, n - 1, now);
    assert events == events[..|events| - 1] + [events[|events| - 1]];
  }

  lemma Later(db: Db, n: nat, now: int, events: seq<Event>, k: nat)
    requires n <= |db.appointments| && AreExpiryEvents(db, n, now, events) && k < |events|
    ensures var last := |events| - 1; events[k].subject + (if k < last then 1 else 0) <= events[last].subject < n
  {
  }

  lemma LastExpiryEvent(db: Db, n: nat, now: int, events: seq<Event>)
    requires 0 < n <= |db.appointments| && AreExpiryEvents(db, n, now, events) && SlotRanOut(db.offers, n - 1, now)
    ensures events != [] && events[|events| - 1] == EventOf(WaitlistOfferExpired, n - 1, db.appointments[n - 1], now)
    ensures AreExpiryEvents(db, n - 1, now, events[..|events| - 1])
  {
    var k: nat :| k < |events| && events[k].subject == n - 1;
    Later(db, n, now, events, k);
    var front := events[..k];
    forall j | 0 <= j < k
      ensures front[j].subject < n - 1
    {
      assert events[j].subject < events[k].subject;
    }
    forall a: nat | a < n - 1 && SlotRanOut(db.offers, a, now)
      ensures exists j :: 0 <= j < |front| && front[j].subject == a
    {
      var j :| 0 <= j < |events| && events[j].subject == a;
      assert front[j].subject == a;
    }
  }

  lemma NotTheLastSlot(db: Db, n: nat, now: int, events: seq<Event>)
    requires 0 < n <= |db.appointments| && AreExpiryEvents(db, n, now, events) && !SlotRanOut(db.offers, n - 1, now)
    ensures AreExpiryEvents(db, n - 1, now, events)
  {
  }

  lemma ExpiryIsUnique(db: Db, now: int, db': Db)
    requires ExpiryStored(db, now, db')
    ensures db' == AfterExpire(db, now)
  {
    var after := AfterExpire(db, now);
    AfterExpireIsStored(db, now);
    assert db'.offers == after.offers;
    assert db'.entries == after.entries;
    ExpiryEventsAreUnique(db, |db.appointments|, now, db'.outbox[|db.outbox|..]);
    ExpiryEventsAreUnique(db, |db.appointments|, now, after.outbox[|db.outbox|..]);
    SameAfter(db.outbox, db'.outbox, after.outbox);
  }

  lemma DeliveryIsHandling(db: Db, i: nat, derived: seq<Event>, db': Db)
    requires db.Linked() && i < |db.outbox| && OnlyDerived(derived) && DeliveryStored(db, i, derived, db')
    ensures HandledOnce(db, db', i, derived)
  {
    if i !in db.processed && db.outbox[i].kind.OpensOpportunity() {
      var c :| OpportunityStored(db, i, c, db');
      CandidateComesFirst(db, db.outbox[i], c);
      AfterOpportunityIsStored(db, i, c);
      assert db'.entries == AfterOpportunity(db, i, c).entries;
      assert db' == AfterOpportunity(db, i, c);
    }
  }

  // ---------------------------------------------------------------- the steps

  lemma BookingStepsAreTold(db: Db, t: Action, db': Db)
    requires db.Linked() && (t.Create? || t.CreateMany?)
    ensures Next(db, t, db') <==> Told(db, t, db')
  {
    match t
    case Create(cfg, b, staff) =>
      CreateAllowedIsMayBook(db, cfg, b, staff);
      if CreateAllowed(db, cfg, b, staff) {
        AfterCreateIsStored(db, cfg, b, staff);
        if BookingStored(db, cfg, b, staff, db') {
          BookingIsUnique(db, cfg, b, staff, db');
        }
      }
    case CreateMany(cfg, s) =>
      SeriesAllowedIsMayRepeat(db, cfg, s);
      if SeriesAllowed(db, cfg, s) {
        AfterSeriesIsStored(db, cfg, s);
        if SeriesStored(db, cfg, s, db') {
          SeriesIsUnique(db, cfg, s, db');
        }
      }
  }

  lemma MovingStepsAreTold(db: Db, t: Action, db': Db)
    requires db.Linked() && (t.Reschedule? || t.Cancel?)
    ensures Next(db, t, db') <==> Told(db, t, db')
  {
    match t
    case Reschedule(cfg, id, staff, startsAt, now) =>
      RescheduleAllowedIsMayMove(db, cfg, id, staff, startsAt, now);
      if RescheduleAllowed(db, cfg, id, staff, startsAt, now) {
        AfterRescheduleIsStored(db, cfg, id, staff, startsAt, now);
        if MoveStored(db, cfg, id, staff, startsAt, now, db') {
          MoveIsUnique(db, cfg, id, staff, startsAt, now, db');
        }
      }
    case Cancel(id, now) =>
      if id < |db.appointments| {
        AfterCancelIsStored(db, id, CancelledByCustomer, now);
        if CancelStored(db, id, CancelledByCustomer, now, db') {
          CancellationIsUnique(db, id, CancelledByCustomer, now, db');
        }
      }
  }

  lemma ClosingStepsAreTold(db: Db, t: Action, db': Db)
    requires db.Linked() && (t.SetStatus? || t.CancelMany?)
    ensures Next(db, t, db') <==> Told(db, t, db')
  {
    match t
    case SetStatus(id, next, read, now) =>
      if id < |db.appointments| {
        AfterStatusIsStored(db, id, next, read, now);
        if StatusStored(db, id, next, read, now, db') {
          StatusIsUnique(db, id, next, read, now, db');
        }
      }
    case CancelMany(seriesId, ids, read, now) =>
      if SeriesRows(db, seriesId, ids) && |read| == |ids| {
        AfterCancelSeriesIsStored(db, seriesId, ids, read, now);
        if SeriesCancelStored(db, seriesId, ids, read, now, db') {
          SeriesCancellationIsUnique(db, seriesId, ids, read, now, db');
        }
      }
  }

  lemma EntryStepsAreTold(db: Db, t: Action, db': Db)
    requires db.Linked() && (t.AddEntry? || t.WithdrawEntry? || t.Reject?)
    ensures Next(db, t, db') <==> Told(db, t, db')
  {
    match t
    case AddEntry(q) =>
      if q.customer.Some? ==> q.customer.value < |db.customers| {
        AfterCreateEntryIsStored(db, q);
      }
    case WithdrawEntry(id) =>
      if id < |db.entries| && WithdrawalStored(db, id, db') {
        WithdrawalIsUnique(db, id, db');
      }
    case Reject(o, read, now) =>
      if MayAccept(db, o, now) {
        AfterRejectIsStored(db, o, read, now);
        if RejectionStored(db, o, read, now, db') {
          RejectionIsUnique(db, o, read, now, db');
        }
      }
  }

  lemma WorkerStepsAreTold(db: Db, t: Action, db': Db)
    requires db.Linked() && (t.Expire? || t.Deliver? || t.Advance?)
    ensures Next(db, t, db') <==> Told(db, t, db')
  {
    match t
    case Expire(now) =>
      AfterExpireIsStored(db, now);
      if ExpiryStored(db, now, db') {
        ExpiryIsUnique(db, now, db');
      }
    case Deliver(i, derived) => DeliveriesAreTold(db, i, derived, db');
    case Advance(claim, taken, now) =>
  }

  lemma DeliveriesAreTold(db: Db, i: nat, derived: seq<Event>, db': Db)
    requires db.Linked()
    ensures Next(db, Deliver(i, derived), db') <==> Told(db, Deliver(i, derived), db')
  {
    assert OnlyDerived(derived) <==> AllDerived(derived);
    if i < |db.outbox| && OnlyDerived(derived) {
      if HandledOnce(db, db', i, derived) {
        HandledIsStored(db, i, derived, db');
      }
      if DeliveryStored(db, i, derived, db') {
        DeliveryIsHandling(db, i, derived, db');
      }
    }
  }

  /** A step of the system is exactly what its telling says. */
  lemma EveryStepIsTold(db: Db, t: Action, db': Db)
    requires db.Linked()
    ensures Next(db, t, db') <==> Told(db, t, db')
  {
    if t.Create? || t.CreateMany? {
      BookingStepsAreTold(db, t, db');
    } else if t.Reschedule? || t.Cancel? {
      MovingStepsAreTold(db, t, db');
    } else if t.SetStatus? || t.CancelMany? {
      ClosingStepsAreTold(db, t, db');
    } else if t.AddEntry? || t.WithdrawEntry? || t.Reject? {
      EntryStepsAreTold(db, t, db');
    } else {
      WorkerStepsAreTold(db, t, db');
    }
  }
}
