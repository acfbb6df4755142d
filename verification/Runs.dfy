/**
 Runs of the whole system: every transaction of the API and of the worker that writes appointments,
 customers, series, waitlist rows or their events, in any interleaving. A status update, a series
 cancellation, a rejection and the worker's series step carry what their own earlier statements read, and a
 cancellation commits whatever the status has become since it was checked, so stale reads are runs too.
 */
module Runs {
  import opened Outcomes
  import opened Tables
  import opened ZonedTime
  import opened Availability
  import opened Recurrence
  import opened Loading
  import opened Appointments
  import opened Waitlist
  import opened SeriesAdvance

  datatype Action =
    | Create(cfg: Config, booking: Booking, staff: int)
    | CreateMany(cfg: Config, request: SeriesRequest)
    | Reschedule(cfg: Config, id: nat, newStaff: Option<int>, startsAt: int, now: int)
    | Cancel(id: nat, now: int)
    | SetStatus(id: nat, next: Status, read: StatusRead, now: int)
    | CancelMany(seriesId: nat, ids: seq<nat>, rows: seq<Appointment>, now: int)
    | AddEntry(entry: EntryRequest)
    | WithdrawEntry(entryId: nat)
    | Reject(offer: nat, row: Appointment, now: int)
    | Expire(now: int)
    | Deliver(event: nat, derived: seq<Event>)
    | Advance(claim: Claim, taken: bool, now: int)

  ghost predicate Enabled(db: Db, t: Action)
    requires db.Linked()
  {
    match t
    case Create(cfg, b, staff) => CreateAllowed(db, cfg, b, staff)
    case CreateMany(cfg, s) => SeriesAllowed(db, cfg, s)
    case Reschedule(cfg, id, staff, startsAt, now) => RescheduleAllowed(db, cfg, id, staff, startsAt, now)
    case Cancel(id, _) => id < |db.appointments|
    case SetStatus(id, next, _, _) => id < |db.appointments| && SettableStatus(next)
    case CancelMany(seriesId, ids, read, _) => SeriesRows(db, seriesId, ids) && |read| == |ids|
    case AddEntry(q) => q.customer.Some? ==> q.customer.value < |db.customers|
    case WithdrawEntry(id) => EntryOpen(db, id)
    case Reject(o, _, now) => OfferLive(db, o, now)
    case Expire(_) => true
    case Deliver(i, derived) => i < |db.outbox| && OnlyDerived(derived)
    case Advance(claim, _, _) => claim.seriesId < |db.series|
  }

  /** The state after an enabled action. */
  ghost predicate Next(db: Db, t: Action, db': Db)
    requires db.Linked()
  {
    Enabled(db, t) &&
    match t
    case Create(cfg, b, staff) => db' == AfterCreate(db, cfg, b, staff)
    case CreateMany(cfg, s) => db' == AfterSeries(db, cfg, s)
    case Reschedule(cfg, id, staff, startsAt, now) => db' == AfterReschedule(db, cfg, id, staff, startsAt, now)
    case Cancel(id, now) => db' == AfterCancel(db, id, CancelledByCustomer, now)
    case SetStatus(id, next, read, now) => db' == AfterStatus(db, id, next, read, now)
    case CancelMany(seriesId, ids, read, now) => db' == AfterCancelSeries(db, seriesId, ids, read, now)
    case AddEntry(q) => db' == AfterCreateEntry(db, q)
    case WithdrawEntry(id) => db' == AfterCancelEntry(db, id)
    case Reject(o, read, now) => db' == AfterReject(db, o, read, now)
    case Expire(now) => db' == AfterExpire(db, now)
    case Deliver(i, derived) => HandledOnce(db, db', i, derived)
    case Advance(claim, taken, now) => db' == AfterAdvance(db, claim, taken, now)
  }

  /** A delivery offers the slot to an eligible entry, or leaves entries and offers alone. */
  lemma DeliveryEffect(db: Db, i: nat, derived: seq<Event>, db': Db) returns (c: Option<nat>)
    requires db.Linked() && Next(db, Deliver(i, derived), db')
    ensures c.None? ==> db'.offers == db.offers && db'.entries == db.entries
    ensures c.Some? ==>
      && i !in db.processed && Eligible(db, db.outbox[i], c.value)
      && |db'.offers| == |db.offers| + 1 && db.offers <= db'.offers
      && db'.offers[|db.offers|].entryId == c.value && db'.offers[|db.offers|].appointmentId == db.outbox[i].subject
      && db'.offers[|db.offers|].status.Open?
      && db'.entries == db.entries[c.value := db.entries[c.value].(status := Offered)]
  {
    c := None;
    if i !in db.processed && db.outbox[i].kind.OpensOpportunity() {
      c :| IsCandidate(db, db.outbox[i], c) && db' == AfterOpportunity(db, i, c);
    }
  }

  /** The actions that touch no entry and no offer. */
  lemma OtherStepsKeepWaitlist(db: Db, t: Action, db': Db)
    requires db.Linked() && Next(db, t, db')
    requires t.CreateMany? || t.Reschedule? || t.Cancel? || t.SetStatus? || t.CancelMany? || t.Advance?
    ensures db'.entries == db.entries && db'.offers == db.offers
  {
  }

  ghost predicate ProcessedInRange(db: Db) {
    forall i :: i in db.processed ==> i < |db.outbox|
  }

  lemma {:induction false} ExpiryEventsKinds(db: Db, n: nat, now: int, k: int)
    requires n <= |db.appointments| && 0 <= k < |ExpiryEvents(db, n, now)|
    ensures var ev := ExpiryEvents(db, n, now)[k];
            ev.kind.WaitlistOfferExpired? && ev.subject < n && AppointmentDue(db.offers, ev.subject, now)
  {
    if k < |ExpiryEvents(db, n - 1, now)| {
      ExpiryEventsKinds(db, n - 1, now, k);
    }
  }

  lemma CreateKeepsLinks(db: Db, cfg: Config, b: Booking, staff: int)
    requires db.Linked() && CreateFits(db, cfg, b)
    ensures AfterCreate(db, cfg, b, staff).Linked()
  {
  }

  lemma CancelManyKeepsLinks(db: Db, seriesId: nat, ids: seq<nat>, read: seq<Appointment>, now: int)
    requires db.Linked() && SeriesRows(db, seriesId, ids) && |read| == |ids|
    ensures AfterCancelSeries(db, seriesId, ids, read, now).Linked()
  {
    forall k | 0 <= k < |CancelEvents(ids, read, now)|
      ensures CancelEvents(ids, read, now)[k].subject < |db.appointments|
    {
      CancelEventsKinds(ids, read, now, k);
    }
  }

  lemma ExpireKeepsLinks(db: Db, now: int)
    requires db.Linked()
    ensures AfterExpire(db, now).Linked()
  {
    forall k | 0 <= k < |ExpiryEvents(db, |db.appointments|, now)|
      ensures ExpiryEvents(db, |db.appointments|, now)[k].subject < |db.appointments|
    {
      ExpiryEventsKinds(db, |db.appointments|, now, k);
    }
  }

  lemma OpportunityKeepsLinks(db: Db, i: nat, c: Option<nat>)
    requires db.Linked() && i < |db.outbox| && db.outbox[i].kind.OpensOpportunity()
    requires c.Some? ==> c.value < |db.entries|
    ensures AfterOpportunity(db, i, c).Linked()
  {
  }

  lemma SeriesKeepsLinks(db: Db, cfg: Config, s: SeriesRequest)
    requires db.Linked() && s.customer < |db.customers| && s.serviceId in cfg.services
    ensures AfterSeries(db, cfg, s).Linked()
  {
  }

  lemma RowUpdatesKeepLinks(db: Db, id: nat, a: Appointment, events: seq<Event>)
    requires db.Linked() && id < |db.appointments| && a.customerId == db.appointments[id].customerId
    requires forall k :: 0 <= k < |events| ==> events[k].subject == id
    ensures db.(appointments := db.appointments[id := a], outbox := db.outbox + events).Linked()
  {
  }

  lemma StatusKeepsLinks(db: Db, id: nat, next: Status, read: StatusRead, now: int)
    requires db.Linked() && id < |db.appointments|
    ensures AfterStatus(db, id, next, read, now).Linked()
  {
  }

  lemma AddEntryKeepsLinks(db: Db, q: EntryRequest)
    requires db.Linked() && (q.customer.Some? ==> q.customer.value < |db.customers|)
    ensures AfterCreateEntry(db, q).Linked()
  {
  }

  lemma WithdrawKeepsLinks(db: Db, id: nat)
    requires db.Linked() && id < |db.entries|
    ensures AfterCancelEntry(db, id).Linked()
  {
  }

  lemma RejectKeepsLinks(db: Db, o: nat, read: Appointment, now: int)
    requires db.Linked() && o < |db.offers|
    ensures AfterReject(db, o, read, now).Linked()
  {
  }

  lemma AdvanceKeepsLinks(db: Db, claim: Claim, taken: bool, now: int)
    requires db.Linked() && claim.seriesId < |db.series|
    ensures AfterAdvance(db, claim, taken, now).Linked()
  {
  }

  ghost predicate Grows(db: Db, db': Db) {
    |db.appointments| <= |db'.appointments| && |db.entries| <= |db'.entries| && |db.offers| <= |db'.offers|
  }

  lemma BookingStepKeepsLinks(db: Db, t: Action, db': Db)
    requires db.Linked() && Next(db, t, db')
    requires t.Create? || t.CreateMany? || t.Advance?
    ensures db'.Linked() && Grows(db, db')
  {
    match t
    case Create(cfg, b, staff) => CreateKeepsLinks(db, cfg, b, staff);
    case CreateMany(cfg, s) => SeriesKeepsLinks(db, cfg, s);
    case Advance(claim, taken, now) => AdvanceKeepsLinks(db, claim, taken, now);
  }

  lemma ClosingStepKeepsLinks(db: Db, t: Action, db': Db)
    requires db.Linked() && Next(db, t, db') && (t.SetStatus? || t.CancelMany?)
    ensures db'.Linked() && Grows(db, db')
  {
    match t
    case SetStatus(id, next, read, now) => StatusKeepsLinks(db, id, next, read, now);
    case CancelMany(seriesId, ids, read, now) => CancelManyKeepsLinks(db, seriesId, ids, read, now);
  }

  lemma MoveKeepsLinks(db: Db, t: Action, db': Db)
    requires db.Linked() && Next(db, t, db') && (t.Reschedule? || t.Cancel?)
    ensures db'.Linked() && Grows(db, db')
  {
    RowUpdatesKeepLinks(db, t.id, db'.appointments[t.id], db'.outbox[|db.outbox|..]);
  }

  lemma WaitlistStepKeepsLinks(db: Db, t: Action, db': Db)
    requires db.Linked() && Next(db, t, db')
    requires t.AddEntry? || t.WithdrawEntry? || t.Reject? || t.Expire? || t.Deliver?
    ensures db'.Linked() && Grows(db, db')
  {
    match t
    case AddEntry(q) => AddEntryKeepsLinks(db, q);
    case WithdrawEntry(id) => WithdrawKeepsLinks(db, id);
    case Reject(o, read, now) => RejectKeepsLinks(db, o, read, now);
    case Expire(now) => ExpireKeepsLinks(db, now);
    case Deliver(i, derived) => DeliveryKeepsLinks(db, i, derived, db');
  }

  lemma DeliveryKeepsLinks(db: Db, i: nat, derived: seq<Event>, db': Db)
    requires db.Linked() && Next(db, Deliver(i, derived), db')
    ensures db'.Linked() && Grows(db, db')
  {
    if i !in db.processed && db.outbox[i].kind.OpensOpportunity() {
      var c :| IsCandidate(db, db.outbox[i], c) && db' == AfterOpportunity(db, i, c);
      OpportunityKeepsLinks(db, i, c);
    }
  }

  /** Foreign keys stay sound, and rows are never removed. */
  lemma StepKeepsLinks(db: Db, t: Action, db': Db)
    requires db.Linked() && Next(db, t, db')
    ensures db'.Linked() && Grows(db, db')
  {
    if t.Reschedule? || t.Cancel? {
      MoveKeepsLinks(db, t, db');
    } else if t.SetStatus? || t.CancelMany? {
      ClosingStepKeepsLinks(db, t, db');
    } else if t.Create? || t.CreateMany? || t.Advance? {
      BookingStepKeepsLinks(db, t, db');
    } else {
      WaitlistStepKeepsLinks(db, t, db');
    }
  }

  /** A run: states and the actions between them. */
  datatype Run = Run(states: seq<Db>, actions: seq<Action>) {
    ghost predicate Valid() {
      && |states| == |actions| + 1
      && states[0].Linked()
      && forall i :: 0 <= i < |actions| ==> states[i].Linked() && Next(states[i], actions[i], states[i + 1])
    }

    function Last(): Db
      requires |states| > 0
    {
      states[|states| - 1]
    }

    /** The run without its last action. */
    function Front(): Run
      requires |actions| > 0 && |states| == |actions| + 1
    {
      Run(states[..|actions|], actions[..|actions| - 1])
    }
  }

  lemma FrontIsValid(run: Run)
    requires run.Valid() && |run.actions| > 0
    ensures run.Front().Valid() && run.Front().states[0] == run.states[0]
    ensures run.Front().Last() == run.states[|run.actions| - 1]
    ensures run.Front().Last().Linked()
    ensures Next(run.Front().Last(), run.actions[|run.actions| - 1], run.Last())
  {
    var last := |run.actions| - 1;
    assert Next(run.states[last], run.actions[last], run.states[last + 1]);
  }

  lemma StepOf(run: Run, i: nat)
    requires run.Valid() && i < |run.actions|
    ensures run.states[i].Linked() && Next(run.states[i], run.actions[i], run.states[i + 1])
  {
  }

  lemma ExtendedIsValid(run: Run, t: Action, db': Db)
    requires run.Valid() && run.Last().Linked() && Next(run.Last(), t, db')
    ensures Run(run.states + [db'], run.actions + [t]).Valid()
  {
    var longer, n := Run(run.states + [db'], run.actions + [t]), |run.actions|;
    forall i | 0 <= i < |longer.actions|
      ensures longer.states[i].Linked() && Next(longer.states[i], longer.actions[i], longer.states[i + 1])
    {
      assert longer.states[i] == run.states[i];
      if i < n {
        StepOf(run, i);
        assert longer.actions[i] == run.actions[i] && longer.states[i + 1] == run.states[i + 1];
      } else {
        assert longer.actions[i] == t && longer.states[i + 1] == db';
      }
    }
  }

  /** A run with one more action. */
  lemma Extended(run: Run, t: Action, db': Db) returns (longer: Run)
    requires run.Valid() && run.Last().Linked() && Next(run.Last(), t, db')
    ensures longer == Run(run.states + [db'], run.actions + [t])
    ensures longer.Valid() && longer.states[0] == run.states[0] && longer.Last() == db' && db'.Linked()
  {
    ExtendedIsValid(run, t, db');
    StepKeepsLinks(run.Last(), t, db');
    longer := Run(run.states + [db'], run.actions + [t]);
  }
}
