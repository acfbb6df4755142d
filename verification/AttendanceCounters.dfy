/**
 The cached attendance counters of a customer against the appointments they count
 (buildCustomerCounterUpdate and statusDelta in appointments.service.ts).
 */
module AttendanceCounters {
  import opened Outcomes
  import opened Tables
  import opened Availability
  import opened Loading
  import opened Appointments
  import opened Waitlist
  import opened SeriesAdvance
  import opened Runs

  predicate Counts(a: Appointment, customer: nat, status: Status) {
    a.customerId == customer && a.status == status
  }

  function Count(appointments: seq<Appointment>, customer: nat, status: Status): nat {
    if appointments == [] then 0
    else
      var last := |appointments| - 1;
      Count(appointments[..last], customer, status) + (if Counts(appointments[last], customer, status) then 1 else 0)
  }

  /** Every counter is the number of rows it stands for. */
  ghost predicate CountersAgree(db: Db) {
    forall c: nat :: c < |db.customers| ==> CustomerAgrees(db, c)
  }

  ghost predicate CustomerAgrees(db: Db, c: nat)
    requires c < |db.customers|
  {
    && db.customers[c].completed == Count(db.appointments, c, Completed)
    && db.customers[c].noShow == Count(db.appointments, c, NoShow)
  }

  lemma {:induction false} CountUpdate(appointments: seq<Appointment>, i: nat, a: Appointment, customer: nat, status: Status)
    requires i < |appointments|
    ensures Count(appointments[i := a], customer, status)
         == Count(appointments, customer, status)
            - (if Counts(appointments[i], customer, status) then 1 else 0)
            + (if Counts(a, customer, status) then 1 else 0)
  {
    var last := |appointments| - 1;
    if i == last {
      assert appointments[i := a][..last] == appointments[..last];
    } else {
      assert appointments[i := a][..last] == appointments[..last][i := a];
      CountUpdate(appointments[..last], i, a, customer, status);
    }
  }

  lemma {:induction false} CountAppend(appointments: seq<Appointment>, more: seq<Appointment>, customer: nat, status: Status)
    requires forall k :: 0 <= k < |more| ==> more[k].status != status
    ensures Count(appointments + more, customer, status) == Count(appointments, customer, status)
  {
    if more == [] {
      assert appointments + more == appointments;
    } else {
      var last := |more| - 1;
      CountAppend(appointments, more[..last], customer, status);
      assert (appointments + more)[..|appointments| + last] == appointments + more[..last];
    }
  }

  lemma {:induction false} CountSame(before: seq<Appointment>, after: seq<Appointment>, customer: nat, status: Status)
    requires |before| == |after|
    requires forall k :: 0 <= k < |before| ==> Counts(before[k], customer, status) == Counts(after[k], customer, status)
    ensures Count(before, customer, status) == Count(after, customer, status)
  {
    if before != [] {
      var last := |before| - 1;
      assert forall k :: 0 <= k < last ==> before[..last][k] == before[k] && after[..last][k] == after[k];
      CountSame(before[..last], after[..last], customer, status);
    }
  }

  lemma {:induction false} CountOfStranger(appointments: seq<Appointment>, customer: nat, status: Status)
    requires forall k :: 0 <= k < |appointments| ==> appointments[k].customerId != customer
    ensures Count(appointments, customer, status) == 0
  {
    if appointments != [] {
      CountOfStranger(appointments[..|appointments| - 1], customer, status);
    }
  }

  /** Nothing the action read has changed since. */
  ghost predicate Fresh(db: Db, t: Action)
    requires db.Linked()
  {
    match t
    case Cancel(id, _) => id < |db.appointments| ==> db.appointments[id].status.Active()
    case SetStatus(id, _, read, _) => id < |db.appointments| ==> read == ReadOf(db, id)
    case CancelMany(_, ids, _, _) =>
      forall k :: 0 <= k < |ids| && ids[k] < |db.appointments| ==> db.appointments[ids[k]].status.Active()
    case _ => true
  }

  /** Rows appended as confirmed, customers appended with zero counters, totals changed at will. */
  lemma InsertKeepsCounters(db: Db, db': Db, more: seq<Appointment>)
    requires db.Linked() && CountersAgree(db)
    requires db'.appointments == db.appointments + more
    requires forall k :: 0 <= k < |more| ==> more[k].status.Confirmed?
    requires |db.customers| <= |db'.customers|
    requires forall c :: 0 <= c < |db'.customers| ==>
               if c < |db.customers|
               then db'.customers[c].completed == db.customers[c].completed && db'.customers[c].noShow == db.customers[c].noShow
               else db'.customers[c].completed == 0 && db'.customers[c].noShow == 0
    ensures CountersAgree(db')
  {
    forall c: nat | c < |db'.customers|
      ensures CustomerAgrees(db', c)
    {
      CountAppend(db.appointments, more, c, Completed);
      CountAppend(db.appointments, more, c, NoShow);
      if c < |db.customers| {
        assert CustomerAgrees(db, c);
      } else {
        CountOfStranger(db.appointments, c, Completed);
        CountOfStranger(db.appointments, c, NoShow);
      }
    }
  }

  lemma UntrackedChangesKeepCounters(db: Db, db': Db)
    requires CountersAgree(db) && |db'.appointments| == |db.appointments| && |db'.customers| == |db.customers|
    requires forall c :: 0 <= c < |db.customers| ==>
               db'.customers[c].completed == db.customers[c].completed && db'.customers[c].noShow == db.customers[c].noShow
    requires forall k :: 0 <= k < |db.appointments| ==>
               && db'.appointments[k].customerId == db.appointments[k].customerId
               && (db'.appointments[k].status.Completed? <==> db.appointments[k].status.Completed?)
               && (db'.appointments[k].status.NoShow? <==> db.appointments[k].status.NoShow?)
    ensures CountersAgree(db')
  {
    forall c: nat | c < |db'.customers|
      ensures CustomerAgrees(db', c)
    {
      assert CustomerAgrees(db, c);
      CountSame(db.appointments, db'.appointments, c, Completed);
      CountSame(db.appointments, db'.appointments, c, NoShow);
    }
  }

  /** What a status update does to every count. */
  lemma StatusCounts(db: Db, id: nat, next: Status, read: StatusRead, now: int, c: nat)
    requires db.Linked() && id < |db.appointments| && SettableStatus(next) && c < |db.customers|
    ensures var owner, was := db.appointments[id].customerId, db.appointments[id].status;
            var after := AfterStatus(db, id, next, read, now).appointments;
            && Count(after, c, Completed)
               == Count(db.appointments, c, Completed) + (if c == owner then StatusDelta(was, next, Completed) else 0)
            && Count(after, c, NoShow)
               == Count(db.appointments, c, NoShow) + (if c == owner then StatusDelta(was, next, NoShow) else 0)
  {
    var a := db.appointments[id].(status := next);
    CountUpdate(db.appointments, id, a, c, Completed);
    CountUpdate(db.appointments, id, a, c, NoShow);
  }

  lemma {:induction false} CountIsPositive(appointments: seq<Appointment>, i: nat)
    requires i < |appointments|
    ensures Count(appointments, appointments[i].customerId, appointments[i].status) >= 1
  {
    var last := |appointments| - 1;
    if i < last {
      CountIsPositive(appointments[..last], i);
    }
  }

  /** A read taken in a state where the counters agreed. */
  predicate PlausibleRead(read: StatusRead) {
    && 0 <= read.completed && 0 <= read.noShow
    && (read.status.Completed? ==> 1 <= read.completed)
    && (read.status.NoShow? ==> 1 <= read.noShow)
  }

  lemma ReadsArePlausible(db: Db, id: nat)
    requires db.Linked() && id < |db.appointments| && CountersAgree(db)
    ensures PlausibleRead(ReadOf(db, id))
  {
    assert CustomerAgrees(db, db.appointments[id].customerId);
    CountIsPositive(db.appointments, id);
  }

  /**
   Exactly when a status update keeps the counters right, whatever it read: what it writes must be what the
   appointment's present status and the customer's present counters call for.
   */
  lemma StatusKeepsCountersIff(db: Db, id: nat, next: Status, read: StatusRead, now: int)
    requires db.Linked() && id < |db.appointments| && SettableStatus(next) && CountersAgree(db)
    ensures var c, was := db.customers[db.appointments[id].customerId], db.appointments[id].status;
            var w := CountersAfter(c, next, read);
            CountersAgree(AfterStatus(db, id, next, read, now)) <==>
              && w.completed == c.completed + StatusDelta(was, next, Completed)
              && w.noShow == c.noShow + StatusDelta(was, next, NoShow)
  {
    var after, owner := AfterStatus(db, id, next, read, now), db.appointments[id].customerId;
    forall c: nat | c < |db.customers|
      ensures c != owner ==> CustomerAgrees(after, c)
    {
      assert CustomerAgrees(db, c);
      StatusCounts(db, id, next, read, now, c);
    }
    assert CustomerAgrees(db, owner);
    StatusCounts(db, id, next, read, now, owner);
    assert CountersAgree(after) <==> CustomerAgrees(after, owner);
  }

  /**
   In particular, when the appointment itself has not changed since it was read, the update is right exactly
   when it moves no counter or the counters have not changed either.
   */
  lemma SameStatusKeepsCountersIff(db: Db, id: nat, next: Status, read: StatusRead, now: int)
    requires db.Linked() && id < |db.appointments| && SettableStatus(next) && CountersAgree(db)
    requires read.status == db.appointments[id].status && PlausibleRead(read)
    ensures CountersAgree(AfterStatus(db, id, next, read, now)) <==>
              || (StatusDelta(read.status, next, Completed) == 0 && StatusDelta(read.status, next, NoShow) == 0)
              || read == ReadOf(db, id)
  {
    StatusKeepsCountersIff(db, id, next, read, now);
    ReadsArePlausible(db, id);
  }

  /**
   Two requests on one confirmed appointment both read before either commits, and the first completes it. A second
   that confirms it moves no counter by its own read and leaves one too many; a second that marks it missed
   overwrites the counters with the right ones.
   */
  lemma TwoRequestsOnOneAppointment(a: Appointment, db: Db, now: int)
    requires db == EMPTY_DB.(appointments := [a], customers := [Customer(1, 0, 0, 0)])
    requires a.customerId == 0 && a.status.Confirmed?
    ensures db.Linked() && CountersAgree(db)
    ensures var read := ReadOf(db, 0);
            var first := AfterStatus(db, 0, Completed, read, now);
            && CountersAgree(first)
            && !CountersAgree(AfterStatus(first, 0, Confirmed, read, now))
            && CountersAgree(AfterStatus(first, 0, NoShow, read, now))
  {
    assert [a][..0] == [];
    forall s: Status | s.Completed? || s.NoShow?
      ensures Count(db.appointments, 0, s) == 0
    {
      assert Count([], 0, s) == 0;
    }
    assert CustomerAgrees(db, 0);
    var read := ReadOf(db, 0);
    StatusKeepsCountersIff(db, 0, Completed, read, now);
    var first := AfterStatus(db, 0, Completed, read, now);
    StatusKeepsCountersIff(first, 0, Confirmed, read, now);
    StatusKeepsCountersIff(first, 0, NoShow, read, now);
  }

  /** With agreeing counters and a fresh read the clamp at zero never acts. */
  lemma ClampNeverActs(db: Db, id: nat, next: Status)
    requires db.Linked() && id < |db.appointments| && CountersAgree(db)
    ensures var read := ReadOf(db, id);
            && 0 <= read.completed + StatusDelta(read.status, next, Completed)
            && 0 <= read.noShow + StatusDelta(read.status, next, NoShow)
  {
    ReadsArePlausible(db, id);
  }

  /** A cancellation leaves counters alone, so it is right exactly on appointments that are not counted. */
  lemma CancelKeepsCountersIff(db: Db, id: nat, now: int)
    requires db.Linked() && id < |db.appointments| && CountersAgree(db)
    ensures CountersAgree(AfterCancel(db, id, CancelledByCustomer, now))
       <==> !db.appointments[id].status.Completed? && !db.appointments[id].status.NoShow?
  {
    var after, owner := AfterCancel(db, id, CancelledByCustomer, now), db.appointments[id].customerId;
    var a := db.appointments[id].(status := CancelledByCustomer);
    forall c: nat | c < |db.customers|
      ensures CustomerAgrees(after, c) <==> c != owner || (!db.appointments[id].status.Completed? && !db.appointments[id].status.NoShow?)
    {
      assert CustomerAgrees(db, c);
      CountUpdate(db.appointments, id, a, c, Completed);
      CountUpdate(db.appointments, id, a, c, NoShow);
    }
    assert CountersAgree(after) <==> CustomerAgrees(after, owner);
  }

  /** So does a series cancellation, whose rows were read before its transaction. */
  lemma CancelManyKeepsCountersIff(db: Db, seriesId: nat, ids: seq<nat>, read: seq<Appointment>, now: int)
    requires db.Linked() && SeriesRows(db, seriesId, ids) && |read| == |ids| && CountersAgree(db)
    ensures CountersAgree(AfterCancelSeries(db, seriesId, ids, read, now)) <==>
              forall k :: 0 <= k < |ids| ==> !Tracked(db.appointments[ids[k]].status)
  {
    var after := AfterCancelSeries(db, seriesId, ids, read, now);
    if forall k :: 0 <= k < |ids| ==> !Tracked(db.appointments[ids[k]].status) {
      UntrackedChangesKeepCounters(db, after);
    } else {
      var k :| 0 <= k < |ids| && Tracked(db.appointments[ids[k]].status);
      var c, status := db.appointments[ids[k]].customerId, db.appointments[ids[k]].status;
      CountDrops(db.appointments, after.appointments, ids[k]);
      assert CustomerAgrees(db, c);
      assert after.customers[c].completed == db.customers[c].completed && after.customers[c].noShow == db.customers[c].noShow;
      assert !CustomerAgrees(after, c);
    }
  }

  predicate Tracked(status: Status) {
    status.Completed? || status.NoShow?
  }

  /** Rows that only leave a status lower its count, and strictly so if the given one leaves it. */
  lemma {:induction false} CountDrops(before: seq<Appointment>, after: seq<Appointment>, i: nat)
    requires |before| == |after| && i < |before|
    requires forall k :: 0 <= k < |before| ==>
               after[k] == before[k] || after[k] == before[k].(status := CancelledByBusiness)
    requires after[i].status.CancelledByBusiness? && Tracked(before[i].status)
    ensures Count(after, before[i].customerId, before[i].status) < Count(before, before[i].customerId, before[i].status)
  {
    var last := |before| - 1;
    if i < last {
      CountDrops(before[..last], after[..last], i);
    } else {
      CountNeverRises(before[..last], after[..last], before[i].customerId, before[i].status);
    }
  }

  lemma {:induction false} CountNeverRises(before: seq<Appointment>, after: seq<Appointment>, customer: nat, status: Status)
    requires |before| == |after| && Tracked(status)
    requires forall k :: 0 <= k < |before| ==>
               after[k] == before[k] || after[k] == before[k].(status := CancelledByBusiness)
    ensures Count(after, customer, status) <= Count(before, customer, status)
  {
    if before != [] {
      CountNeverRises(before[..|before| - 1], after[..|before| - 1], customer, status);
    }
  }

  lemma CreateKeepsCounters(db: Db, cfg: Config, b: Booking, staff: int)
    requires db.Linked() && CreateFits(db, cfg, b) && CountersAgree(db)
    ensures CountersAgree(AfterCreate(db, cfg, b, staff))
  {
    var after := AfterCreate(db, cfg, b, staff);
    InsertKeepsCounters(db, after, [after.appointments[|db.appointments|]]);
  }

  lemma SeriesKeepsCounters(db: Db, cfg: Config, s: SeriesRequest)
    requires db.Linked() && s.customer < |db.customers| && s.serviceId in cfg.services && CountersAgree(db)
    ensures CountersAgree(AfterSeries(db, cfg, s))
  {
    InsertKeepsCounters(db, AfterSeries(db, cfg, s), Occurrences(cfg, s, |db.series|, s.count));
  }

  lemma RescheduleKeepsCounters(db: Db, cfg: Config, id: nat, staff: Option<int>, startsAt: int, now: int)
    requires RescheduleAllowed(db, cfg, id, staff, startsAt, now) && CountersAgree(db)
    ensures CountersAgree(AfterReschedule(db, cfg, id, staff, startsAt, now))
  {
    UntrackedChangesKeepCounters(db, AfterReschedule(db, cfg, id, staff, startsAt, now));
  }

  lemma StepKeepsCounters(db: Db, t: Action, db': Db)
    requires db.Linked() && Next(db, t, db') && Fresh(db, t) && CountersAgree(db)
    ensures CountersAgree(db')
  {
    if t.SetStatus? || t.Cancel? || t.CancelMany? || t.Reschedule? {
      UpdateStepKeepsCounters(db, t, db');
    } else if t.Create? || t.CreateMany? || t.AddEntry? || t.Advance? {
      InsertStepKeepsCounters(db, t, db');
    } else {
      OtherStepKeepsCounters(db, t, db');
    }
  }

  lemma UpdateStepKeepsCounters(db: Db, t: Action, db': Db)
    requires db.Linked() && Next(db, t, db') && Fresh(db, t) && CountersAgree(db)
    requires t.SetStatus? || t.Cancel? || t.CancelMany? || t.Reschedule?
    ensures CountersAgree(db')
  {
    match t
    case Reschedule(cfg, id, staff, startsAt, now) => RescheduleKeepsCounters(db, cfg, id, staff, startsAt, now);
    case Cancel(id, now) => CancelKeepsCountersIff(db, id, now);
    case SetStatus(id, next, read, now) =>
      ReadsArePlausible(db, id);
      SameStatusKeepsCountersIff(db, id, next, read, now);
    case CancelMany(seriesId, ids, read, now) => CancelManyKeepsCountersIff(db, seriesId, ids, read, now);
  }

  lemma InsertStepKeepsCounters(db: Db, t: Action, db': Db)
    requires db.Linked() && Next(db, t, db') && CountersAgree(db)
    requires t.Create? || t.CreateMany? || t.AddEntry? || t.Advance?
    ensures CountersAgree(db')
  {
    match t
    case Create(cfg, b, staff) => CreateKeepsCounters(db, cfg, b, staff);
    case CreateMany(cfg, s) => SeriesKeepsCounters(db, cfg, s);
    case AddEntry(q) => InsertKeepsCounters(db, db', []);
    case Advance(claim, taken, now) =>
      InsertKeepsCounters(db, db', if taken then [] else [ClaimedAppointment(db, claim)]);
  }

  lemma OtherStepKeepsCounters(db: Db, t: Action, db': Db)
    requires db.Linked() && Next(db, t, db') && CountersAgree(db)
    requires t.WithdrawEntry? || t.Reject? || t.Expire? || t.Deliver?
    ensures CountersAgree(db')
  {
    UntrackedChangesKeepCounters(db, db');
  }

  /** Over every run without stale reads, each counter equals the number of rows in its state. */
  lemma {:induction false} CountersAlwaysAgree(run: Run)
    requires run.Valid() && CountersAgree(run.states[0])
    requires forall i :: 0 <= i < |run.actions| ==> Fresh(run.states[i], run.actions[i])
    ensures CountersAgree(run.Last())
    decreases |run.actions|
  {
    if |run.actions| > 0 {
      FrontIsValid(run);
      CountersAlwaysAgree(run.Front());
      StepKeepsCounters(run.Front().Last(), run.actions[|run.actions| - 1], run.Last());
    }
  }

  /** Two requests that both read before either commits lose one of the two visits. */
  lemma ConcurrentCompletionsLoseAVisit(db: Db, a: Appointment)
    requires db == EMPTY_DB.(appointments := [a, a], customers := [Customer(2, 0, 0, 0)])
    requires a.customerId == 0 && a.status.Confirmed?
    ensures db.Linked() && CountersAgree(db)
    ensures var first := AfterStatus(db, 0, Completed, ReadOf(db, 0), 0);
            var second := AfterStatus(first, 1, Completed, ReadOf(db, 1), 0);
            second.customers[0].completed == 1 && Count(second.appointments, 0, Completed) == 2
  {
    assert [a, a][..1] == [a] && [a][..0] == [];
    forall s: Status | s.Completed? || s.NoShow?
      ensures Count(db.appointments, 0, s) == 0
    {
      assert Count([a], 0, s) == Count([], 0, s);
    }
    assert CustomerAgrees(db, 0);
    var done := a.(status := Completed);
    assert [done, done][..1] == [done] && [done][..0] == [];
    assert Count([done], 0, Completed) == 1;
    var first := AfterStatus(db, 0, Completed, ReadOf(db, 0), 0);
    var second := AfterStatus(first, 1, Completed, ReadOf(db, 1), 0);
    assert second.appointments == [done, done];
  }
}
