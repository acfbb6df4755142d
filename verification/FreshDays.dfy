/**
 Which days' metrics rows are fresh over whole runs: the recalculation is the worker's, one event at a time
 (defaultHandlers and recalculateBusinessMetrics in service.go). Prices are fixed.
 */
module FreshDays {
  import opened Outcomes
  import opened Tables
  import opened Loading
  import opened Appointments
  import opened Waitlist
  import opened SeriesAdvance
  import opened Runs
  import opened Metrics

  /** The kinds whose handler ends with a recalculation, every opportunity among them; a confirmation has no handler. */
  predicate Recalculates(kind: EventKind) {
    kind.OpensOpportunity() || kind.AppointmentBooked? || kind.AppointmentCompleted?
    || kind.AppointmentMarkedAsNoShow? || kind.AppointmentRescheduled?
  }

  /** The other kinds have no handler, or one that concerns nothing modelled here. */
  lemma TheOtherKindsDoNot(kind: EventKind)
    ensures !Recalculates(kind) <==>
      kind in [AppointmentConfirmed, SlotReleased, SlotReassigned, WaitlistEntryCreated, WaitlistCandidateMatched,
               WaitlistOfferCreated, WaitlistOfferAccepted, RecurringSeriesCreated, RecurringSeriesConflict, Derived]
  {
  }

  predicate RecalculatesDay(ev: Event, day: int) {
    Recalculates(ev.kind) && UtcDate(ev.startsAt) == day
  }

  /** An event that will recalculate the day has not been handled yet. */
  ghost predicate Awaited(db: Db, day: int) {
    exists i: nat :: i < |db.outbox| && i !in db.processed && RecalculatesDay(db.outbox[i], day)
  }

  /** The first delivery of an event recalculates the day of its payload. */
  function HandledRows(price: int -> int, appointments: seq<Appointment>, rows: map<int, Summary>, ev: Event): map<int, Summary> {
    if Recalculates(ev.kind) then AfterRecalculation(price, appointments, rows, UtcDate(ev.startsAt)) else rows
  }

  predicate HandlesFirst(db: Db, t: Action) {
    t.Deliver? && t.event < |db.outbox| && t.event !in db.processed
  }

  function RowsAfter(price: int -> int, db: Db, t: Action, rows: map<int, Summary>): map<int, Summary> {
    if HandlesFirst(db, t) then HandledRows(price, db.appointments, rows, db.outbox[t.event]) else rows
  }

  predicate ListsRows(appointments: seq<Appointment>, ids: seq<nat>, read: seq<Appointment>) {
    |read| == |ids| && forall k | 0 <= k < |ids| :: ids[k] < |appointments|
  }

  /** A series cancellation cancels a row of the day, and read no row on it. */
  predicate CancelsUnread(appointments: seq<Appointment>, ids: seq<nat>, read: seq<Appointment>, day: int)
    requires ListsRows(appointments, ids, read)
  {
    && (exists k | 0 <= k < |ids| :: StartsOn(appointments[ids[k]], day) && !IsCancelled(appointments[ids[k]]))
    && (forall k | 0 <= k < |ids| :: UtcDate(read[k].startsAt) != day)
  }

  /**
   The three actions that change a day and emit nothing that recalculates it: moving away, reviving, and a series
   cancellation whose rows were moved to the day after they were read.
   */
  predicate Disturbs(db: Db, t: Action, day: int) {
    match t
    case Reschedule(_, id, _, startsAt, _) =>
      id < |db.appointments| && StartsOn(db.appointments[id], day) && UtcDate(startsAt) != day
    case SetStatus(id, next, _, _) =>
      id < |db.appointments| && next.Confirmed? && StartsOn(db.appointments[id], day) && !db.appointments[id].status.Active()
    case CancelMany(_, ids, read, _) =>
      ListsRows(db.appointments, ids, read) && CancelsUnread(db.appointments, ids, read, day)
    case _ => false
  }

  ghost predicate KeptUp(price: int -> int, db: Db, rows: map<int, Summary>, day: int) {
    && ProcessedInRange(db)
    && (day in rows ==> OnDay(db.appointments, day) != [])
    && (Fresh(price, db.appointments, rows, day) || Awaited(db, day))
  }

  // ---------------------------------------------------------------- days and updates

  lemma StartsOnItsDay(a: Appointment, day: int)
    ensures StartsOn(a, day) <==> UtcDate(a.startsAt) == day
  {
  }

  /** Rows of other days may change at will. */
  lemma {:induction false} SameOnDay(before: seq<Appointment>, after: seq<Appointment>, day: int)
    requires |before| == |after|
    requires forall k :: 0 <= k < |before| ==>
               after[k] == before[k] || (!StartsOn(before[k], day) && !StartsOn(after[k], day))
    ensures OnDay(after, day) == OnDay(before, day)
  {
    if before != [] {
      SameOnDay(before[..|before| - 1], after[..|after| - 1], day);
    }
  }

  lemma {:induction false} AddedElsewhere(before: seq<Appointment>, more: seq<Appointment>, day: int)
    requires forall k :: 0 <= k < |more| ==> !StartsOn(more[k], day)
    ensures OnDay(before + more, day) == OnDay(before, day)
  {
    if more == [] {
      assert before + more == before;
    } else {
      var front := more[..|more| - 1];
      AddedElsewhere(before, front, day);
      assert (before + more)[..|before + more| - 1] == before + front;
    }
  }

  /** No appointment moves, and the column's term falls for none of the day. */
  ghost predicate TermsKept(price: int -> int, p: Part, before: seq<Appointment>, after: seq<Appointment>, day: int) {
    && |before| == |after|
    && forall k :: 0 <= k < |before| ==>
         && after[k].startsAt == before[k].startsAt
         && (StartsOn(before[k], day) ==> Term(price, p, before[k]) <= Term(price, p, after[k]))
  }

  lemma {:induction false} ColumnKept(price: int -> int, p: Part, before: seq<Appointment>, after: seq<Appointment>, day: int)
    requires TermsKept(price, p, before, after, day)
    ensures Column(price, p, OnDay(before, day)) <= Column(price, p, OnDay(after, day))
  {
    if before != [] {
      ColumnKept(price, p, before[..|before| - 1], after[..|after| - 1], day);
      OneMoreOnDay(price, p, before, day);
      OneMoreOnDay(price, p, after, day);
    }
  }

  lemma {:induction false} ColumnRises(
    price: int -> int, p: Part, before: seq<Appointment>, after: seq<Appointment>, k: nat, day: int)
    requires TermsKept(price, p, before, after, day)
    requires k < |before| && StartsOn(before[k], day) && Term(price, p, before[k]) < Term(price, p, after[k])
    ensures Column(price, p, OnDay(before, day)) < Column(price, p, OnDay(after, day))
  {
    var last := |before| - 1;
    if k < last {
      ColumnRises(price, p, before[..last], after[..last], k, day);
    } else {
      ColumnKept(price, p, before[..last], after[..last], day);
    }
    OneMoreOnDay(price, p, before, day);
    OneMoreOnDay(price, p, after, day);
  }

  lemma OneMoreOnDay(price: int -> int, p: Part, appointments: seq<Appointment>, day: int)
    requires appointments != []
    ensures var last := |appointments| - 1;
            Column(price, p, OnDay(appointments, day))
            == Column(price, p, OnDay(appointments[..last], day))
               + (if StartsOn(appointments[last], day) then Term(price, p, appointments[last]) else 0)
  {
    OneMoreInRange(price, p, appointments, day * 86_400_000, (day + 1) * 86_400_000);
  }

  /** Appointments that stay where they are and keep their terms keep the aggregate. */
  lemma SameTermsSameAggregate(price: int -> int, before: seq<Appointment>, after: seq<Appointment>, day: int)
    requires |before| == |after|
    requires forall k :: 0 <= k < |before| ==> after[k].startsAt == before[k].startsAt
    requires forall p: Part, k :: 0 <= k < |before| && StartsOn(before[k], day) ==>
               Term(price, p, after[k]) == Term(price, p, before[k])
    ensures Aggregate(price, OnDay(after, day)) == Aggregate(price, OnDay(before, day))
  {
    forall p: Part
      ensures Get(Aggregate(price, OnDay(after, day)), p) == Get(Aggregate(price, OnDay(before, day)), p)
    {
      ColumnKept(price, p, before, after, day);
      ColumnKept(price, p, after, before, day);
    }
    SameParts(Aggregate(price, OnDay(after, day)), Aggregate(price, OnDay(before, day)));
  }

  /** Appointments that stay where they are keep the day's size. */
  lemma SameStartsSameSize(price: int -> int, before: seq<Appointment>, after: seq<Appointment>, day: int)
    requires |before| == |after| && forall k :: 0 <= k < |before| ==> after[k].startsAt == before[k].startsAt
    ensures |OnDay(after, day)| == |OnDay(before, day)|
  {
    ColumnKept(price, AllCount, before, after, day);
    ColumnKept(price, AllCount, after, before, day);
    ColumnAll(price, OnDay(before, day));
    ColumnAll(price, OnDay(after, day));
  }

  /** Confirming an active appointment changes no column. */
  lemma ConfirmingActiveKeepsAggregate(price: int -> int, before: seq<Appointment>, k: nat, day: int)
    requires k < |before| && before[k].status.Active()
    ensures Aggregate(price, OnDay(before[k := before[k].(status := Confirmed)], day)) == Aggregate(price, OnDay(before, day))
  {
    SameTermsSameAggregate(price, before, before[k := before[k].(status := Confirmed)], day);
  }

  // ---------------------------------------------------------------- one step

  lemma StillAwaited(db: Db, db': Db, day: int)
    requires Awaited(db, day) && db.outbox <= db'.outbox && db'.processed == db.processed
    ensures Awaited(db', day)
  {
    var i: nat :| i < |db.outbox| && i !in db.processed && RecalculatesDay(db.outbox[i], day);
    assert db'.outbox[i] == db.outbox[i];
  }

  /** Nothing changes in the day's columns. */
  lemma QuietStep(price: int -> int, db: Db, db': Db, rows: map<int, Summary>, day: int)
    requires KeptUp(price, db, rows, day)
    requires Aggregate(price, OnDay(db'.appointments, day)) == Aggregate(price, OnDay(db.appointments, day))
    requires db.outbox <= db'.outbox && db'.processed == db.processed
    ensures KeptUp(price, db', rows, day)
  {
    ColumnAll(price, OnDay(db.appointments, day));
    ColumnAll(price, OnDay(db'.appointments, day));
    if Awaited(db, day) {
      StillAwaited(db, db', day);
    }
  }

  /** The day changes and an event that will recalculate it is emitted. */
  lemma EmittingStep(price: int -> int, db: Db, db': Db, rows: map<int, Summary>, day: int, i: nat)
    requires KeptUp(price, db, rows, day) && (day in rows ==> OnDay(db'.appointments, day) != [])
    requires |db.outbox| <= i < |db'.outbox| && RecalculatesDay(db'.outbox[i], day) && db'.processed == db.processed
    ensures KeptUp(price, db', rows, day)
  {
  }

  lemma UpdateStep(price: int -> int, db: Db, db': Db, rows: map<int, Summary>, day: int, id: nat)
    requires KeptUp(price, db, rows, day) && id < |db.appointments|
    requires |db'.appointments| == |db.appointments| && db'.appointments == db.appointments[id := db'.appointments[id]]
    requires db.outbox < db'.outbox && db'.processed == db.processed
    requires StartsOn(db'.appointments[id], day) ==> RecalculatesDay(db'.outbox[|db.outbox|], day)
    requires StartsOn(db.appointments[id], day) ==> StartsOn(db'.appointments[id], day)
    ensures KeptUp(price, db', rows, day)
  {
    if StartsOn(db'.appointments[id], day) {
      OnDayHas(db'.appointments, id, day);
      EmittingStep(price, db, db', rows, day, |db.outbox|);
    } else {
      SameOnDay(db.appointments, db'.appointments, day);
      QuietStep(price, db, db', rows, day);
    }
  }

  lemma InsertStep(price: int -> int, db: Db, db': Db, rows: map<int, Summary>, day: int)
    requires KeptUp(price, db, rows, day) && |db'.appointments| == |db.appointments| + 1
    requires db.appointments <= db'.appointments && db.outbox < db'.outbox && db'.processed == db.processed
    requires var a, ev := db'.appointments[|db.appointments|], db'.outbox[|db.outbox|];
             ev.kind.AppointmentBooked? && ev.startsAt == a.startsAt
    ensures KeptUp(price, db', rows, day)
  {
    var a := db'.appointments[|db.appointments|];
    assert db'.appointments == db.appointments + [a];
    StartsOnItsDay(a, day);
    if StartsOn(a, day) {
      OnDayHas(db'.appointments, |db.appointments|, day);
      EmittingStep(price, db, db', rows, day, |db.outbox|);
    } else {
      AddedElsewhere(db.appointments, [a], day);
      QuietStep(price, db, db', rows, day);
    }
  }

  lemma SeriesStep(price: int -> int, db: Db, cfg: Config, s: SeriesRequest, rows: map<int, Summary>, day: int)
    requires KeptUp(price, db, rows, day) && s.customer < |db.customers| && s.serviceId in cfg.services
    ensures KeptUp(price, AfterSeries(db, cfg, s), rows, day)
  {
    var db', more := AfterSeries(db, cfg, s), Occurrences(cfg, s, |db.series|, s.count);
    if k: nat :| k < |more| && StartsOn(more[k], day) {
      StartsOnItsDay(more[k], day);
      assert db'.appointments[|db.appointments| + k] == more[k];
      OnDayHas(db'.appointments, |db.appointments| + k, day);
      assert db'.outbox[|db.outbox| + k] == OccurrenceEvents(cfg, s, |db.series|, |db.appointments|, s.count)[k];
      EmittingStep(price, db, db', rows, day, |db.outbox| + k);
    } else {
      AddedElsewhere(db.appointments, more, day);
      QuietStep(price, db, db', rows, day);
    }
  }

  // ---------------------------------------------------------------- cancelling a series

  lemma CancelSeriesWrites(db: Db, seriesId: nat, ids: seq<nat>, read: seq<Appointment>, now: int)
    requires SeriesRows(db, seriesId, ids) && |read| == |ids|
    ensures var db' := AfterCancelSeries(db, seriesId, ids, read, now);
            && db'.appointments == CancelRows(db.appointments, ids) && db'.processed == db.processed
            && db'.outbox == db.outbox + CancelEvents(ids, read, now)
  {
    if ids == [] {
      assert CancelRows(db.appointments, ids) == db.appointments;
    }
  }

  lemma SameSizeAfterCancelling(price: int -> int, appointments: seq<Appointment>, ids: seq<nat>, day: int)
    ensures |OnDay(CancelRows(appointments, ids), day)| == |OnDay(appointments, day)|
  {
    SameStartsSameSize(price, appointments, CancelRows(appointments, ids), day);
  }

  /** Cancelling rows of the day that are cancelled already changes no column. */
  lemma CancellingAgainKeepsAggregate(price: int -> int, appointments: seq<Appointment>, ids: seq<nat>, day: int)
    requires forall k :: 0 <= k < |ids| ==>
               ids[k] < |appointments| && (StartsOn(appointments[ids[k]], day) ==> IsCancelled(appointments[ids[k]]))
    ensures Aggregate(price, OnDay(CancelRows(appointments, ids), day)) == Aggregate(price, OnDay(appointments, day))
  {
    SameTermsSameAggregate(price, appointments, CancelRows(appointments, ids), day);
  }

  /** Cancelling one that is not raises the cancelled count. */
  lemma CancellingRaisesTheCount(price: int -> int, appointments: seq<Appointment>, ids: seq<nat>, k: nat, day: int)
    requires k < |ids| && ids[k] < |appointments| && StartsOn(appointments[ids[k]], day) && !IsCancelled(appointments[ids[k]])
    ensures Aggregate(price, OnDay(appointments, day)).cancelled
          < Aggregate(price, OnDay(CancelRows(appointments, ids), day)).cancelled
  {
    var after := CancelRows(appointments, ids);
    assert after[ids[k]] == appointments[ids[k]].(status := CancelledByBusiness);
    ColumnRises(price, CancelledCount, appointments, after, ids[k], day);
  }

  lemma CancelSeriesStep(
    price: int -> int, db: Db, seriesId: nat, ids: seq<nat>, read: seq<Appointment>, now: int, rows: map<int, Summary>, day: int)
    requires SeriesRows(db, seriesId, ids) && |read| == |ids| && KeptUp(price, db, rows, day)
    requires !CancelsUnread(db.appointments, ids, read, day)
    ensures KeptUp(price, AfterCancelSeries(db, seriesId, ids, read, now), rows, day)
  {
    var db' := AfterCancelSeries(db, seriesId, ids, read, now);
    CancelSeriesWrites(db, seriesId, ids, read, now);
    if k: nat :| k < |ids| && UtcDate(read[k].startsAt) == day {
      SameSizeAfterCancelling(price, db.appointments, ids, day);
      ReadRowsEmit(db, db', ids, read, now, k);
      EmittingStep(price, db, db', rows, day, |db.outbox| + 2 * k);
    } else {
      CancellingAgainKeepsAggregate(price, db.appointments, ids, day);
      QuietStep(price, db, db', rows, day);
    }
  }

  lemma ReadRowsEmit(db: Db, db': Db, ids: seq<nat>, read: seq<Appointment>, now: int, k: nat)
    requires |read| == |ids| && k < |ids| && db'.outbox == db.outbox + CancelEvents(ids, read, now)
    ensures |db.outbox| + 2 * k < |db'.outbox| && RecalculatesDay(db'.outbox[|db.outbox| + 2 * k], UtcDate(read[k].startsAt))
  {
    CancelEventsKinds(ids, read, now, 2 * k);
  }

  lemma UnreadEmitsNothing(
    db: Db, seriesId: nat, ids: seq<nat>, read: seq<Appointment>, now: int, day: int)
    requires SeriesRows(db, seriesId, ids) && |read| == |ids| && !Awaited(db, day)
    requires forall k :: 0 <= k < |ids| ==> UtcDate(read[k].startsAt) != day
    ensures !Awaited(AfterCancelSeries(db, seriesId, ids, read, now), day)
  {
    var db' := AfterCancelSeries(db, seriesId, ids, read, now);
    CancelSeriesWrites(db, seriesId, ids, read, now);
    forall i: nat | i < |db'.outbox| && i !in db'.processed
      ensures !RecalculatesDay(db'.outbox[i], day)
    {
      if i < |db.outbox| {
        assert db'.outbox[i] == db.outbox[i];
      } else {
        CancelEventsKinds(ids, read, now, i - |db.outbox|);
      }
    }
  }

  /** A fresh day with nothing awaited keeps up with a series cancellation if and only if no row was moved to it unread. */
  lemma CancelSeriesKeepsUpIff(
    price: int -> int, db: Db, seriesId: nat, ids: seq<nat>, read: seq<Appointment>, now: int, rows: map<int, Summary>, day: int)
    requires SeriesRows(db, seriesId, ids) && |read| == |ids| && KeptUp(price, db, rows, day) && !Awaited(db, day)
    ensures var db' := AfterCancelSeries(db, seriesId, ids, read, now);
            Fresh(price, db'.appointments, rows, day) || Awaited(db', day) <==> !CancelsUnread(db.appointments, ids, read, day)
  {
    if !CancelsUnread(db.appointments, ids, read, day) {
      CancelSeriesStep(price, db, seriesId, ids, read, now, rows, day);
    } else {
      var k: nat :| k < |ids| && StartsOn(db.appointments[ids[k]], day) && !IsCancelled(db.appointments[ids[k]]);
      OnDayHas(db.appointments, ids[k], day);
      CancelSeriesWrites(db, seriesId, ids, read, now);
      CancellingRaisesTheCount(price, db.appointments, ids, k, day);
      UnreadEmitsNothing(db, seriesId, ids, read, now, day);
    }
  }

  // ---------------------------------------------------------------- status updates and moves

  lemma StatusStep(price: int -> int, db: Db, id: nat, next: Status, read: StatusRead, now: int, rows: map<int, Summary>, day: int)
    requires db.Linked() && id < |db.appointments| && SettableStatus(next) && KeptUp(price, db, rows, day)
    requires !Disturbs(db, SetStatus(id, next, read, now), day)
    ensures KeptUp(price, AfterStatus(db, id, next, read, now), rows, day)
  {
    var db' := AfterStatus(db, id, next, read, now);
    StartsOnItsDay(db.appointments[id], day);
    if next.Confirmed? {
      if StartsOn(db.appointments[id], day) {
        ConfirmingActiveKeepsAggregate(price, db.appointments, id, day);
      } else {
        SameOnDay(db.appointments, db'.appointments, day);
      }
      QuietStep(price, db, db', rows, day);
    } else {
      UpdateStep(price, db, db', rows, day, id);
    }
  }

  /** A revival raises the active count of its day and emits nothing that would recalculate it. */
  lemma ARevivalStalesItsDay(
    price: int -> int, db: Db, id: nat, read: StatusRead, now: int, rows: map<int, Summary>, day: int)
    requires db.Linked() && id < |db.appointments| && Disturbs(db, SetStatus(id, Confirmed, read, now), day)
    requires Fresh(price, db.appointments, rows, day) && !Awaited(db, day)
    ensures var db' := AfterStatus(db, id, Confirmed, read, now);
            !Fresh(price, db'.appointments, rows, day) && !Awaited(db', day)
  {
    var db' := AfterStatus(db, id, Confirmed, read, now);
    OnDayHas(db.appointments, id, day);
    ColumnRises(price, ActiveCount, db.appointments, db'.appointments, id, day);
    NothingNewAwaited(db, db', day);
  }

  /** One event that does not recalculate the day leaves nothing awaited. */
  lemma NothingNewAwaited(db: Db, db': Db, day: int)
    requires !Awaited(db, day) && db'.processed == db.processed
    requires db.outbox <= db'.outbox && forall i :: |db.outbox| <= i < |db'.outbox| ==> !RecalculatesDay(db'.outbox[i], day)
    ensures !Awaited(db', day)
  {
    forall i: nat | i < |db'.outbox| && i !in db'.processed
      ensures !RecalculatesDay(db'.outbox[i], day)
    {
      if i < |db.outbox| {
        assert db'.outbox[i] == db.outbox[i];
      }
    }
  }

  /** Moving away takes one from the day's total and recalculates another day. */
  lemma MovingAwayFallsBehind(
    price: int -> int, db: Db, cfg: Config, id: nat, staff: Option<int>, startsAt: int, now: int, rows: map<int, Summary>, day: int)
    requires KeptUp(price, db, rows, day) && !Awaited(db, day)
    requires id < |db.appointments| && db.appointments[id].serviceId in cfg.services
    requires StartsOn(db.appointments[id], day) && UtcDate(startsAt) != day
    ensures var db' := AfterReschedule(db, cfg, id, staff, startsAt, now);
            !Fresh(price, db'.appointments, rows, day) && !Awaited(db', day)
  {
    var db' := AfterReschedule(db, cfg, id, staff, startsAt, now);
    OnDayHas(db.appointments, id, day);
    StartsOnItsDay(db'.appointments[id], day);
    UpdateOneSize(db.appointments, id, db'.appointments[id], day);
    ColumnAll(price, OnDay(db.appointments, day));
    ColumnAll(price, OnDay(db'.appointments, day));
    NothingNewAwaited(db, db', day);
  }

  // ---------------------------------------------------------------- deliveries

  /** What a delivery appends recalculates nothing. */
  lemma DeliveryEmits(db: Db, db': Db, i: nat, derived: seq<Event>)
    requires db.Linked() && Next(db, Deliver(i, derived), db') && i !in db.processed
    ensures db'.appointments == db.appointments && db'.processed == db.processed + {i} && db.outbox <= db'.outbox
    ensures forall k :: |db.outbox| <= k < |db'.outbox| ==> !Recalculates(db'.outbox[k].kind)
  {
  }

  /** Handling an event recalculates its day and leaves the others as they are. */
  lemma DeliveryStep(price: int -> int, db: Db, db': Db, i: nat, derived: seq<Event>, rows: map<int, Summary>, day: int)
    requires db.Linked() && Next(db, Deliver(i, derived), db') && i !in db.processed && KeptUp(price, db, rows, day)
    ensures KeptUp(price, db', RowsAfter(price, db, Deliver(i, derived), rows), day)
  {
    DeliveryEmits(db, db', i, derived);
    if !RecalculatesDay(db.outbox[i], day) && Awaited(db, day) {
      var k: nat :| k < |db.outbox| && k !in db.processed && RecalculatesDay(db.outbox[k], day);
      assert db'.outbox[k] == db.outbox[k] && k != i;
    }
  }

  /** Whatever happened before, handling an event of a day that has appointments brings its row up to date. */
  lemma HandlingRepairs(price: int -> int, db: Db, t: Action, db': Db, rows: map<int, Summary>, day: int)
    requires db.Linked() && Next(db, t, db') && ProcessedInRange(db) && Repairs(db, t, day)
    ensures KeptUp(price, db', RowsAfter(price, db, t, rows), day)
  {
    DeliveryEmits(db, db', t.event, t.derived);
  }

  ghost predicate Repairs(db: Db, t: Action, day: int) {
    HandlesFirst(db, t) && RecalculatesDay(db.outbox[t.event], day) && OnDay(db.appointments, day) != []
  }

  /** A stale day with nothing awaited is not helped by any delivery. */
  lemma DeliveriesDoNotRepair(price: int -> int, db: Db, db': Db, i: nat, derived: seq<Event>, rows: map<int, Summary>, day: int)
    requires db.Linked() && Next(db, Deliver(i, derived), db')
    requires !Fresh(price, db.appointments, rows, day) && !Awaited(db, day)
    ensures !Fresh(price, db'.appointments, RowsAfter(price, db, Deliver(i, derived), rows), day) && !Awaited(db', day)
  {
    if i !in db.processed {
      DeliveryEmits(db, db', i, derived);
      forall k: nat | k < |db'.outbox| && k !in db'.processed
        ensures !RecalculatesDay(db'.outbox[k], day)
      {
        if k < |db.outbox| {
          assert db'.outbox[k] == db.outbox[k];
        }
      }
    }
  }

  // ---------------------------------------------------------------- every step

  lemma MovingStepKeepsUp(price: int -> int, db: Db, t: Action, db': Db, rows: map<int, Summary>, day: int)
    requires db.Linked() && Next(db, t, db') && !Disturbs(db, t, day) && KeptUp(price, db, rows, day)
    requires t.Reschedule? || t.Cancel?
    ensures KeptUp(price, db', rows, day)
  {
    StartsOnItsDay(db.appointments[t.id], day);
    StartsOnItsDay(db'.appointments[t.id], day);
    UpdateStep(price, db, db', rows, day, t.id);
  }

  lemma InsertingStepKeepsUp(price: int -> int, db: Db, t: Action, db': Db, rows: map<int, Summary>, day: int)
    requires db.Linked() && Next(db, t, db') && KeptUp(price, db, rows, day)
    requires t.Create? || t.CreateMany? || t.Advance?
    ensures KeptUp(price, db', rows, day)
  {
    match t
    case Create(cfg, b, staff) => InsertStep(price, db, db', rows, day);
    case CreateMany(cfg, s) => SeriesStep(price, db, cfg, s, rows, day);
    case Advance(claim, taken, now) =>
      if taken {
        QuietStep(price, db, db', rows, day);
      } else {
        InsertStep(price, db, db', rows, day);
      }
  }

  lemma ClosingStepKeepsUp(price: int -> int, db: Db, t: Action, db': Db, rows: map<int, Summary>, day: int)
    requires db.Linked() && Next(db, t, db') && !Disturbs(db, t, day) && KeptUp(price, db, rows, day)
    requires t.SetStatus? || t.CancelMany?
    ensures KeptUp(price, db', rows, day)
  {
    match t
    case SetStatus(id, next, read, now) => StatusStep(price, db, id, next, read, now, rows, day);
    case CancelMany(seriesId, ids, read, now) => CancelSeriesStep(price, db, seriesId, ids, read, now, rows, day);
  }

  lemma StepKeepsUp(price: int -> int, db: Db, t: Action, db': Db, rows: map<int, Summary>, day: int)
    requires db.Linked() && Next(db, t, db') && !Disturbs(db, t, day) && KeptUp(price, db, rows, day)
    ensures KeptUp(price, db', RowsAfter(price, db, t, rows), day)
  {
    if t.Reschedule? || t.Cancel? {
      MovingStepKeepsUp(price, db, t, db', rows, day);
    } else if t.Create? || t.CreateMany? || t.Advance? {
      InsertingStepKeepsUp(price, db, t, db', rows, day);
    } else if t.SetStatus? || t.CancelMany? {
      ClosingStepKeepsUp(price, db, t, db', rows, day);
    } else if t.Deliver? && t.event !in db.processed {
      DeliveryStep(price, db, db', t.event, t.derived, rows, day);
    } else {
      QuietStep(price, db, db', rows, day);
    }
  }

  lemma DisturbedFallsBehind(price: int -> int, db: Db, t: Action, db': Db, rows: map<int, Summary>, day: int)
    requires db.Linked() && Next(db, t, db') && Disturbs(db, t, day) && KeptUp(price, db, rows, day) && !Awaited(db, day)
    ensures !Fresh(price, db'.appointments, rows, day) && !Awaited(db', day)
  {
    match t
    case Reschedule(cfg, id, staff, startsAt, now) =>
      MovingAwayFallsBehind(price, db, cfg, id, staff, startsAt, now, rows, day);
    case SetStatus(id, next, read, now) => ARevivalStalesItsDay(price, db, id, read, now, rows, day);
    case CancelMany(seriesId, ids, read, now) => CancelSeriesKeepsUpIff(price, db, seriesId, ids, read, now, rows, day);
    case _ =>
  }

  /** A fresh day with nothing awaited is fresh or awaited after a step if and only if the step is none of the three. */
  lemma StepKeepsUpIff(price: int -> int, db: Db, t: Action, db': Db, rows: map<int, Summary>, day: int)
    requires db.Linked() && Next(db, t, db') && KeptUp(price, db, rows, day) && !Awaited(db, day)
    ensures Fresh(price, db'.appointments, RowsAfter(price, db, t, rows), day) || Awaited(db', day) <==> !Disturbs(db, t, day)
  {
    if Disturbs(db, t, day) {
      DisturbedFallsBehind(price, db, t, db', rows, day);
    } else {
      StepKeepsUp(price, db, t, db', rows, day);
    }
  }

  // ---------------------------------------------------------------- runs

  /** The metrics table beside a run from the empty database. */
  ghost predicate Recorded(price: int -> int, run: Run, rows: seq<map<int, Summary>>) {
    && run.Valid() && run.states[0] == EMPTY_DB
    && |rows| == |run.states| && rows[0] == map[]
    && forall k :: 0 <= k < |run.actions| ==> rows[k + 1] == RowsAfter(price, run.states[k], run.actions[k], rows[k])
  }

  /** A run with one more action, and the table after it. */
  lemma RecordedExtended(price: int -> int, run: Run, rows: seq<map<int, Summary>>, t: Action, db': Db)
    returns (longer: Run, rows': seq<map<int, Summary>>)
    requires Recorded(price, run, rows) && run.Last().Linked() && Next(run.Last(), t, db')
    ensures longer == Run(run.states + [db'], run.actions + [t]) && longer.Last() == db' && db'.Linked()
    ensures rows' == rows + [RowsAfter(price, run.Last(), t, rows[|run.actions|])]
    ensures Recorded(price, longer, rows')
  {
    longer := Extended(run, t, db');
    rows' := rows + [RowsAfter(price, run.Last(), t, rows[|run.actions|])];
    RecordsAgree(price, run, rows, longer, rows');
  }

  lemma RecordsAgree(
    price: int -> int, run: Run, rows: seq<map<int, Summary>>, longer: Run, rows': seq<map<int, Summary>>)
    requires Recorded(price, run, rows) && longer.Valid() && |longer.actions| == |run.actions| + 1
    requires run.states <= longer.states && run.actions <= longer.actions
    requires rows' == rows + [RowsAfter(price, run.Last(), longer.actions[|run.actions|], rows[|run.actions|])]
    ensures Recorded(price, longer, rows')
  {
    forall k | 0 <= k < |longer.actions|
      ensures rows'[k + 1] == RowsAfter(price, longer.states[k], longer.actions[k], rows'[k])
    {
      assert longer.states[k] == run.states[k];
      if k < |run.actions| {
        assert rows[k + 1] == RowsAfter(price, run.states[k], run.actions[k], rows[k]);
        assert longer.actions[k] == run.actions[k];
      }
    }
  }

  ghost predicate UndisturbedFrom(run: Run, j: nat, day: int)
    requires |run.states| == |run.actions| + 1
  {
    forall k :: j <= k < |run.actions| ==> !Disturbs(run.states[k], run.actions[k], day)
  }

  /** Undisturbed since the beginning, or since an event of the day was handled while it had appointments. */
  ghost predicate Settled(run: Run, day: int)
    requires |run.states| == |run.actions| + 1
  {
    exists j: nat :: j <= |run.actions| && UndisturbedFrom(run, j, day)
                     && (j == 0 || Repairs(run.states[j - 1], run.actions[j - 1], day))
  }

  lemma StepKeepsProcessed(db: Db, t: Action, db': Db)
    requires db.Linked() && Next(db, t, db') && ProcessedInRange(db)
    ensures ProcessedInRange(db')
  {
    if t.Deliver? && t.event !in db.processed {
      DeliveryEmits(db, db', t.event, t.derived);
    }
  }

  lemma {:induction false} AlwaysInRange(run: Run, k: nat)
    requires run.Valid() && run.states[0] == EMPTY_DB && k <= |run.actions|
    ensures ProcessedInRange(run.states[k])
  {
    if k > 0 {
      AlwaysInRange(run, k - 1);
      StepOf(run, k - 1);
      StepKeepsProcessed(run.states[k - 1], run.actions[k - 1], run.states[k]);
    }
  }

  ghost predicate KeptUpAt(price: int -> int, run: Run, rows: seq<map<int, Summary>>, k: nat, day: int) {
    k < |run.states| && k < |rows| && KeptUp(price, run.states[k], rows[k], day)
  }

  lemma OneStepKeepsUp(price: int -> int, run: Run, rows: seq<map<int, Summary>>, k: nat, day: int)
    requires Recorded(price, run, rows) && k < |run.actions| && KeptUpAt(price, run, rows, k, day)
    requires !Disturbs(run.states[k], run.actions[k], day)
    ensures KeptUpAt(price, run, rows, k + 1, day)
  {
    StepOf(run, k);
    assert rows[k + 1] == RowsAfter(price, run.states[k], run.actions[k], rows[k]);
    StepKeepsUp(price, run.states[k], run.actions[k], run.states[k + 1], rows[k], day);
  }

  lemma {:induction false} RunsKeepUp(price: int -> int, run: Run, rows: seq<map<int, Summary>>, j: nat, day: int)
    requires Recorded(price, run, rows) && j <= |run.actions| && KeptUpAt(price, run, rows, j, day)
    requires UndisturbedFrom(run, j, day)
    ensures KeptUpAt(price, run, rows, |run.actions|, day)
    decreases |run.actions| - j
  {
    if j < |run.actions| {
      OneStepKeepsUp(price, run, rows, j, day);
      RunsKeepUp(price, run, rows, j + 1, day);
    }
  }

  /**
   Over every run from the empty database: once the events that recalculate a day are all handled, its row is fresh,
   if since the last repair nothing was moved away from the day, revived on it, or cancelled on it unread.
   */
  lemma HandledDaysAreFresh(price: int -> int, run: Run, rows: seq<map<int, Summary>>, day: int)
    requires Recorded(price, run, rows) && Settled(run, day) && !Awaited(run.Last(), day)
    ensures Fresh(price, run.Last().appointments, rows[|run.actions|], day)
  {
    var j: nat :| j <= |run.actions| && UndisturbedFrom(run, j, day)
                  && (j == 0 || Repairs(run.states[j - 1], run.actions[j - 1], day));
    if j > 0 {
      AlwaysInRange(run, j - 1);
      StepOf(run, j - 1);
      HandlingRepairs(price, run.states[j - 1], run.actions[j - 1], run.states[j], rows[j - 1], day);
    }
    RunsKeepUp(price, run, rows, j, day);
  }

  /** So the sum of a month's rows is the month, once its events are handled. */
  lemma HandledMonthsAddUp(
    price: int -> int, run: Run, rows: seq<map<int, Summary>>, first: int, end: int, sum: Summary)
    requires Recorded(price, run, rows) && first <= end
    requires forall day :: first <= day < end ==> Settled(run, day) && !Awaited(run.Last(), day)
    requires IsSum(sum, RowsBetween(rows[|run.actions|], first, end))
    ensures sum == Aggregate(price, InDays(run.Last().appointments, first, end))
  {
    forall day | first <= day < end
      ensures Fresh(price, run.Last().appointments, rows[|run.actions|], day)
    {
      HandledDaysAreFresh(price, run, rows, day);
    }
    RowsSumToTheMonth(price, run.Last().appointments, rows[|run.actions|], first, end, sum);
  }
}
