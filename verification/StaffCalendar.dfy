/**
 No staff member is booked twice at the same time. The claim is about the application's own guard
 (assertStaffMemberCanTakeSlot); the exclusion constraint of the appointments table is not assumed,
 so these results also say when that constraint has nothing left to reject.
 */
module StaffCalendar {
  import opened Outcomes
  import opened Tables
  import opened ZonedTime
  import opened Availability
  import opened Recurrence
  import opened Loading
  import opened Appointments
  import opened Waitlist
  import opened SeriesAdvance
  import opened Runs

  predicate Clash(a: Appointment, b: Appointment) {
    && a.staffMemberId == b.staffMemberId
    && a.status.Active() && b.status.Active()
    && Overlap(a.startsAt, a.endsAt, b.startsAt, b.endsAt)
  }

  ghost predicate NoClash(appointments: seq<Appointment>) {
    forall i, j :: 0 <= i < j < |appointments| ==> !Clash(appointments[i], appointments[j])
  }

  ghost predicate ClashFree(appointments: seq<Appointment>, a: Appointment, exclude: Option<nat>) {
    forall i :: 0 <= i < |appointments| && exclude != Some(i) ==> !Clash(appointments[i], a)
  }

  /**
   The interval that will be stored lies within the slot that was checked and within the day whose
   appointments were loaded.
   */
  predicate Covers(zone: Zone, slot: Slot, endsAt: int) {
    var date := DateInTimeZone(zone, slot.startsAt);
    endsAt <= slot.endsAt && DayStart(date, zone) <= slot.startsAt && endsAt <= DayEnd(date, zone)
  }

  /** The guard was passed on a slot that covers what the booking stores. */
  ghost predicate GuardCovers(
    appointments: seq<Appointment>, cfg: Config, serviceId: int, staff: int, startsAt: int, now: int)
  {
    serviceId in cfg.services &&
    exists endsAt ::
      && Availability.Offered(GuardInput(appointments, cfg, serviceId, startsAt, None, now), Slot(staff, startsAt, endsAt))
      && Covers(cfg.zone, Slot(staff, startsAt, endsAt), startsAt + cfg.services[serviceId].LengthMs())
  }

  /** On a day with one offset every slot covers its booking. */
  lemma SteadyDayCovers(
    appointments: seq<Appointment>, cfg: Config, serviceId: int, staff: int, startsAt: int, now: int, o: int)
    requires CanTakeSlot(appointments, cfg, serviceId, staff, startsAt, None, now)
    requires SteadyDay(cfg.zone, DateInTimeZone(cfg.zone, startsAt), o)
    requires 0 <= cfg.services[serviceId].durationMinutes + cfg.services[serviceId].bufferMinutes
    ensures GuardCovers(appointments, cfg, serviceId, staff, startsAt, now)
  {
    var input := GuardInput(appointments, cfg, serviceId, startsAt, None, now);
    var endsAt :| Availability.Offered(input, Slot(staff, startsAt, endsAt));
    OfferedWithinTheDay(input, Slot(staff, startsAt, endsAt), o);
  }

  lemma GuardKeepsClear(appointments: seq<Appointment>, cfg: Config, a: Appointment, slot: Slot, now: int)
    requires a.serviceId in cfg.services
    requires Availability.Offered(GuardInput(appointments, cfg, a.serviceId, a.startsAt, None, now), slot)
    requires slot.staffMemberId == a.staffMemberId && slot.startsAt == a.startsAt
    requires Covers(cfg.zone, slot, a.endsAt)
    ensures ClashFree(appointments, a, None)
  {
    var input := GuardInput(appointments, cfg, a.serviceId, a.startsAt, None, now);
    OfferedIsTheDeclaredSet(input, slot);
    forall i | 0 <= i < |appointments|
      ensures !Clash(appointments[i], a)
    {
      if Clash(appointments[i], a) {
        ClashingRowIsLoaded(appointments, cfg.zone, input.date, a, slot, i);
      }
    }
  }

  lemma ClashingRowIsLoaded(appointments: seq<Appointment>, zone: Zone, date: Date, a: Appointment, slot: Slot, i: nat)
    requires i < |appointments| && Clash(appointments[i], a)
    requires slot.startsAt == a.startsAt && date == DateInTimeZone(zone, slot.startsAt) && Covers(zone, slot, a.endsAt)
    ensures BusyOf(appointments[i]) in LoadBusy(appointments, date, zone, None)
  {
    assert BusyRow(appointments, date, zone, None, i, BusyOf(appointments[i]));
    LoadBusyMembers(appointments, date, zone, None, BusyOf(appointments[i]));
  }

  lemma AddingClashFree(appointments: seq<Appointment>, a: Appointment)
    requires NoClash(appointments) && ClashFree(appointments, a, None)
    ensures NoClash(appointments + [a])
  {
  }

  lemma ReplacingClashFree(appointments: seq<Appointment>, id: nat, a: Appointment)
    requires NoClash(appointments) && id < |appointments|
    requires ClashFree(appointments, a, Some(id))
    ensures NoClash(appointments[id := a])
  {
    var after := appointments[id := a];
    forall i, j | 0 <= i < j < |after|
      ensures !Clash(after[i], after[j])
    {
      if i == id {
        assert !Clash(appointments[j], a);
      } else if j == id {
        assert !Clash(appointments[i], a);
      } else {
        assert !Clash(appointments[i], appointments[j]);
      }
    }
  }

  lemma ClosingKeepsNoClash(before: seq<Appointment>, after: seq<Appointment>)
    requires NoClash(before) && |before| == |after|
    requires forall i :: 0 <= i < |before| ==> after[i] == before[i] || !after[i].status.Active()
    ensures NoClash(after)
  {
    forall i, j | 0 <= i < j < |after|
      ensures !Clash(after[i], after[j])
    {
      assert !Clash(before[i], before[j]);
    }
  }

  // ---------------------------------------------------------------- runs

  /** No status update revives a closed appointment, and the worker's series step finds its slot still free. */
  ghost predicate TakesNothing(db: Db, t: Action) {
    match t
    case SetStatus(id, next, _, _) => id < |db.appointments| && next.Confirmed? ==> db.appointments[id].status.Active()
    case Advance(claim, taken, _) =>
      taken || !IsSlotTaken(db.appointments, claim.staffMemberId, claim.startsAt, claim.EndsAt())
    case _ => true
  }

  /**
   Guarded insertions fall on slots that cover them as well. Nothing is asked of reschedules, cancellations or
   the rest of the worker.
   */
  ghost predicate Careful(db: Db, t: Action) {
    TakesNothing(db, t) &&
    match t
    case Create(cfg, b, staff) => GuardCovers(db.appointments, cfg, b.serviceId, staff, b.startsAt, b.now)
    case CreateMany(cfg, s) => SeriesCovered(db.appointments, cfg, s, |db.series|)
    case _ => true
  }

  ghost predicate SeriesCovered(appointments: seq<Appointment>, cfg: Config, s: SeriesRequest, seriesId: nat) {
    s.serviceId in cfg.services && forall i: nat :: i < s.count ==> OccurrenceCovered(appointments, cfg, s, seriesId, i)
  }

  ghost predicate OccurrenceCovered(appointments: seq<Appointment>, cfg: Config, s: SeriesRequest, seriesId: nat, i: nat)
    requires s.serviceId in cfg.services
  {
    GuardCovers(appointments + Occurrences(cfg, s, seriesId, i), cfg, s.serviceId, s.staff,
                AddInterval(s.first, s.unit, s.value, i), s.now)
  }

  lemma InsertKeepsNoClash(appointments: seq<Appointment>, cfg: Config, a: Appointment, now: int)
    requires NoClash(appointments)
    requires GuardCovers(appointments, cfg, a.serviceId, a.staffMemberId, a.startsAt, now)
    requires a.endsAt == a.startsAt + cfg.services[a.serviceId].LengthMs()
    ensures NoClash(appointments + [a])
  {
    var input := GuardInput(appointments, cfg, a.serviceId, a.startsAt, None, now);
    var endsAt :| Availability.Offered(input, Slot(a.staffMemberId, a.startsAt, endsAt))
                  && Covers(cfg.zone, Slot(a.staffMemberId, a.startsAt, endsAt), a.endsAt);
    GuardKeepsClear(appointments, cfg, a, Slot(a.staffMemberId, a.startsAt, endsAt), now);
    AddingClashFree(appointments, a);
  }

  lemma OccurrenceKeepsNoClash(appointments: seq<Appointment>, cfg: Config, s: SeriesRequest, seriesId: nat, i: nat)
    requires s.serviceId in cfg.services && OccurrenceCovered(appointments, cfg, s, seriesId, i)
    requires NoClash(appointments + Occurrences(cfg, s, seriesId, i))
    ensures NoClash(appointments + Occurrences(cfg, s, seriesId, i + 1))
  {
    var inserted, a := Occurrences(cfg, s, seriesId, i), Occurrence(cfg, s, seriesId, i);
    InsertKeepsNoClash(appointments + inserted, cfg, a, s.now);
    OccurrencesExtend(cfg, s, seriesId, i);
    assert appointments + inserted + [a] == appointments + (inserted + [a]);
  }

  lemma NoOccurrences(appointments: seq<Appointment>, cfg: Config, s: SeriesRequest, seriesId: nat)
    requires s.serviceId in cfg.services
    ensures appointments + Occurrences(cfg, s, seriesId, 0) == appointments
  {
  }

  lemma {:induction false} SeriesKeepsNoClash(
    appointments: seq<Appointment>, cfg: Config, s: SeriesRequest, seriesId: nat, n: nat)
    requires n <= s.count && NoClash(appointments) && SeriesCovered(appointments, cfg, s, seriesId)
    ensures NoClash(appointments + Occurrences(cfg, s, seriesId, n))
  {
    if n == 0 {
      NoOccurrences(appointments, cfg, s, seriesId);
    } else {
      SeriesKeepsNoClash(appointments, cfg, s, seriesId, n - 1);
      OccurrenceKeepsNoClash(appointments, cfg, s, seriesId, n - 1);
    }
  }

  lemma CreateKeepsNoClash(db: Db, cfg: Config, b: Booking, staff: int)
    requires db.Linked() && CreateFits(db, cfg, b) && NoClash(db.appointments)
    requires GuardCovers(db.appointments, cfg, b.serviceId, staff, b.startsAt, b.now)
    ensures NoClash(AfterCreate(db, cfg, b, staff).appointments)
  {
    var a := AfterCreate(db, cfg, b, staff).appointments[|db.appointments|];
    InsertKeepsNoClash(db.appointments, cfg, a, b.now);
  }

  /** Rescheduling checks the stored interval against every active row, so it needs no condition on the zone. */
  lemma RescheduleKeepsNoClash(db: Db, cfg: Config, id: nat, staff: Option<int>, startsAt: int, now: int)
    requires RescheduleAllowed(db, cfg, id, staff, startsAt, now) && NoClash(db.appointments)
    ensures NoClash(AfterReschedule(db, cfg, id, staff, startsAt, now).appointments)
  {
    var moved := AfterReschedule(db, cfg, id, staff, startsAt, now).appointments[id];
    forall i | 0 <= i < |db.appointments| && i != id
      ensures !Clash(db.appointments[i], moved)
    {
      var b := db.appointments[i];
      assert b.status.Active() ==> !Overlap(moved.startsAt, moved.endsAt, b.startsAt, b.endsAt);
    }
    ReplacingClashFree(db.appointments, id, moved);
  }

  /**
   The worker's series step keeps the calendar free of overlaps exactly when it read a conflict or its slot is
   free at commit; a check that is still right at commit is enough, with or without a buffer.
   */
  lemma AdvanceKeepsNoClashIff(db: Db, claim: Claim, taken: bool, now: int)
    requires claim.seriesId < |db.series| && NoClash(db.appointments)
    ensures NoClash(AfterAdvance(db, claim, taken, now).appointments)
       <==> taken || ClashFree(db.appointments, ClaimedAppointment(db, claim), None)
    ensures !IsSlotTaken(db.appointments, claim.staffMemberId, claim.startsAt, claim.EndsAt()) ==>
              ClashFree(db.appointments, ClaimedAppointment(db, claim), None)
  {
    var a := ClaimedAppointment(db, claim);
    if !taken && !ClashFree(db.appointments, a, None) {
      var i :| 0 <= i < |db.appointments| && Clash(db.appointments[i], a);
      var after := AfterAdvance(db, claim, taken, now).appointments;
      assert Clash(after[i], after[|db.appointments|]);
    } else if !taken {
      AddingClashFree(db.appointments, a);
    }
  }

  /** A job that runs alone keeps the calendar free of overlaps, whichever of its steps fail. */
  lemma {:induction false} JobKeepsNoClash(db: Db, claims: seq<Claim>, fails: seq<bool>, now: int)
    requires Claimable(db, claims) && |fails| == |claims| && NoClash(db.appointments)
    ensures NoClash(AfterAdvances(db, claims, fails, now).appointments)
  {
    if claims != [] {
      var last := |claims| - 1;
      var claim, before := claims[last], AfterAdvances(db, claims[..last], fails[..last], now);
      JobKeepsNoClash(db, claims[..last], fails[..last], now);
      AdvanceKeepsNoClashIff(before, claim, IsSlotTaken(before.appointments, claim.staffMemberId, claim.startsAt, claim.EndsAt()), now);
    }
  }

  /** Two workers that both check before either inserts book one interval twice. */
  lemma ConcurrentAdvancesDoubleBook(first: Claim, second: Claim)
    requires first.seriesId == 0 && second.seriesId == 1 && first.durationMinutes > 0
    requires second == first.(seriesId := 1)
    ensures var db := EMPTY_DB.(customers := [Customer(0, 0, 0, 0)], series := [Series(0, false), Series(0, false)]);
            var taken := IsSlotTaken(db.appointments, first.staffMemberId, first.startsAt, first.EndsAt());
            !NoClash(AfterAdvance(AfterAdvance(db, first, taken, 0), second, taken, 0).appointments)
  {
    var db := EMPTY_DB.(customers := [Customer(0, 0, 0, 0)], series := [Series(0, false), Series(0, false)]);
    var appointments := AfterAdvance(AfterAdvance(db, first, false, 0), second, false, 0).appointments;
    assert Clash(appointments[0], appointments[1]);
  }

  lemma StepKeepsNoClash(db: Db, t: Action, db': Db)
    requires db.Linked() && Next(db, t, db') && Careful(db, t) && NoClash(db.appointments)
    ensures NoClash(db'.appointments)
  {
    if t.Create? || t.CreateMany? || t.Advance? {
      InsertStepKeepsNoClash(db, t, db');
    } else if t.Reschedule? || t.SetStatus? {
      UpdateStepKeepsNoClash(db, t, db');
    } else {
      OtherStepKeepsNoClash(db, t, db');
    }
  }

  lemma InsertStepKeepsNoClash(db: Db, t: Action, db': Db)
    requires db.Linked() && Next(db, t, db') && Careful(db, t) && NoClash(db.appointments)
    requires t.Create? || t.CreateMany? || t.Advance?
    ensures NoClash(db'.appointments)
  {
    match t
    case Create(cfg, b, staff) => CreateKeepsNoClash(db, cfg, b, staff);
    case CreateMany(cfg, s) => SeriesKeepsNoClash(db.appointments, cfg, s, |db.series|, s.count);
    case Advance(claim, taken, now) => AdvanceKeepsNoClashIff(db, claim, taken, now);
  }

  lemma UpdateStepKeepsNoClash(db: Db, t: Action, db': Db)
    requires db.Linked() && Next(db, t, db') && Careful(db, t) && NoClash(db.appointments)
    requires t.Reschedule? || t.SetStatus?
    ensures NoClash(db'.appointments)
  {
    match t
    case Reschedule(cfg, id, staff, startsAt, now) => RescheduleKeepsNoClash(db, cfg, id, staff, startsAt, now);
    case SetStatus(id, next, read, now) => StatusKeepsNoClashIff(db, id, next, read, now);
  }

  lemma OtherStepKeepsNoClash(db: Db, t: Action, db': Db)
    requires db.Linked() && Next(db, t, db') && NoClash(db.appointments)
    requires !t.Create? && !t.CreateMany? && !t.Advance? && !t.Reschedule? && !t.SetStatus?
    ensures NoClash(db'.appointments)
  {
    ClosingKeepsNoClash(db.appointments, db'.appointments);
  }

  /** Over every run of careful actions no staff member has two overlapping active appointments. */
  lemma {:induction false} NeverDoubleBooked(run: Run)
    requires run.Valid() && NoClash(run.states[0].appointments)
    requires forall i :: 0 <= i < |run.actions| ==> Careful(run.states[i], run.actions[i])
    ensures NoClash(run.Last().appointments)
    decreases |run.actions|
  {
    if |run.actions| > 0 {
      FrontIsValid(run);
      NeverDoubleBooked(run.Front());
      StepKeepsNoClash(run.Front().Last(), run.actions[|run.actions| - 1], run.Last());
    }
  }

  ghost predicate HasOneOffset(zone: Zone, date: Date) {
    exists o :: SteadyDay(zone, date, o)
  }

  /** Every day of the zone has one offset, and no service has a negative length. */
  ghost predicate Steady(cfg: Config) {
    && (forall date :: HasOneOffset(cfg.zone, date))
    && (forall id :: id in cfg.services ==> 0 <= cfg.services[id].durationMinutes + cfg.services[id].bufferMinutes)
  }

  /** What a caller can see to: bookings in steady zones, no revival, the worker's check still right when it inserts. */
  ghost predicate Ordinary(db: Db, t: Action) {
    TakesNothing(db, t) && ((t.Create? || t.CreateMany?) ==> Steady(t.cfg))
  }

  lemma SteadyGuardCovers(appointments: seq<Appointment>, cfg: Config, serviceId: int, staff: int, startsAt: int, now: int)
    requires Steady(cfg) && CanTakeSlot(appointments, cfg, serviceId, staff, startsAt, None, now)
    ensures GuardCovers(appointments, cfg, serviceId, staff, startsAt, now)
  {
    assert HasOneOffset(cfg.zone, DateInTimeZone(cfg.zone, startsAt));
    var o :| SteadyDay(cfg.zone, DateInTimeZone(cfg.zone, startsAt), o);
    SteadyDayCovers(appointments, cfg, serviceId, staff, startsAt, now, o);
  }

  lemma SteadySeriesIsCovered(db: Db, cfg: Config, s: SeriesRequest)
    requires Steady(cfg) && SeriesAllowed(db, cfg, s)
    ensures SeriesCovered(db.appointments, cfg, s, |db.series|)
  {
    forall i: nat | i < s.count
      ensures OccurrenceCovered(db.appointments, cfg, s, |db.series|, i)
    {
      assert OccurrencePasses(db.appointments, cfg, s, |db.series|, i);
      SteadyGuardCovers(db.appointments + Occurrences(cfg, s, |db.series|, i), cfg, s.serviceId, s.staff,
                        AddInterval(s.first, s.unit, s.value, i), s.now);
    }
  }

  lemma OrdinaryIsCareful(db: Db, t: Action)
    requires db.Linked() && Enabled(db, t) && Ordinary(db, t)
    ensures Careful(db, t)
  {
    match t
    case Create(cfg, b, staff) => SteadyGuardCovers(db.appointments, cfg, b.serviceId, staff, b.startsAt, b.now);
    case CreateMany(cfg, s) => SteadySeriesIsCovered(db, cfg, s);
    case _ =>
  }

  /**
   With one offset on each day of the zone and no revival, no staff member is ever booked twice at the same time:
   over every run of bookings, acceptances, series, rescheduling, cancelling, status updates and the worker's jobs.
   */
  lemma NeverDoubleBookedInSteadyZones(run: Run)
    requires run.Valid() && NoClash(run.states[0].appointments)
    requires forall i :: 0 <= i < |run.actions| ==> Ordinary(run.states[i], run.actions[i])
    ensures NoClash(run.Last().appointments)
  {
    forall i | 0 <= i < |run.actions|
      ensures Careful(run.states[i], run.actions[i])
    {
      assert run.states[i].Linked() && Next(run.states[i], run.actions[i], run.states[i + 1]);
      assert Ordinary(run.states[i], run.actions[i]);
      OrdinaryIsCareful(run.states[i], run.actions[i]);
    }
    NeverDoubleBooked(run);
  }

  // ---------------------------------------------------------------- where the conditions bite

  /** A status update keeps the calendar sound exactly when it does not revive into a taken interval. */
  lemma StatusKeepsNoClashIff(db: Db, id: nat, next: Status, read: StatusRead, now: int)
    requires db.Linked() && id < |db.appointments| && NoClash(db.appointments)
    ensures NoClash(AfterStatus(db, id, next, read, now).appointments)
       <==> !next.Active() || db.appointments[id].status.Active()
            || ClashFree(db.appointments, db.appointments[id].(status := Confirmed), Some(id))
  {
    var before, after := db.appointments, AfterStatus(db, id, next, read, now).appointments;
    var revived := before[id].(status := Confirmed);
    forall i | 0 <= i < |before| && i != id
      ensures Clash(before[i], after[id]) == (next.Active() && Clash(before[i], revived))
      ensures before[id].status.Active() ==> !Clash(before[i], revived)
    {
      var lo, hi := if i < id then i else id, if i < id then id else i;
      assert !Clash(before[lo], before[hi]);
    }
    if !next.Active() || before[id].status.Active() || ClashFree(before, revived, Some(id)) {
      ReplacingClashFree(before, id, after[id]);
    } else {
      var i :| 0 <= i < |before| && Some(id) != Some(i) && Clash(before[i], revived);
      if i < id {
        assert Clash(after[i], after[id]);
      } else {
        assert Clash(after[id], after[i]);
      }
    }
  }

  /**
   Covering is exactly what the guard needs: a slot that does not cover its booking is still offered
   in the presence of some active appointment that the booking overlaps.
   */
  lemma GuardIsAdequateIffCovered(cfg: Config, a: Appointment, slot: Slot, now: int)
    requires a.serviceId in cfg.services && a.status.Active() && a.startsAt < a.endsAt
    requires slot.staffMemberId == a.staffMemberId && slot.startsAt == a.startsAt
    requires Availability.Offered(GuardInput([], cfg, a.serviceId, a.startsAt, None, now), slot)
    ensures Covers(cfg.zone, slot, a.endsAt) <==>
              forall others: seq<Appointment> ::
                Availability.Offered(GuardInput(others, cfg, a.serviceId, a.startsAt, None, now), slot)
                ==> ClashFree(others, a, None)
  {
    if Covers(cfg.zone, slot, a.endsAt) {
      forall others: seq<Appointment> |
        Availability.Offered(GuardInput(others, cfg, a.serviceId, a.startsAt, None, now), slot)
        ensures ClashFree(others, a, None)
      {
        GuardKeepsClear(others, cfg, a, slot, now);
      }
    } else {
      var date := DateInTimeZone(cfg.zone, a.startsAt);
      var missed := if a.startsAt < DayStart(date, cfg.zone) then a.(endsAt := a.startsAt + 1) else a.(startsAt := a.endsAt - 1);
      var loaded := GuardInput([missed], cfg, a.serviceId, a.startsAt, None, now);
      forall b | b in loaded.busySlots
        ensures !Overlap(slot.startsAt, slot.endsAt, b.startsAt, b.endsAt)
      {
        LoadBusyMembers([missed], date, cfg.zone, None, b);
      }
      OfferedSplits(loaded, slot);
      assert loaded.(busySlots := []) == GuardInput([], cfg, a.serviceId, a.startsAt, None, now);
      assert Clash([missed][0], a);
    }
  }

  /** Three hours behind, then two: clocks go forward when day 0 ends. */
  function MidnightChange(t: int): int {
    if t < 97_200_000 then -10_800_000 else -7_200_000
  }

  const EVENING_CONFIG: Config := Config(
    MidnightChange,
    map[0 := Service(30, 0, true)],
    [1],
    map[],
    [WeeklyRule(4, true, Rule(1, "23:00", "23:59"))],
    [])

  lemma MidnightChangeTimes()
    ensures DateAtZonedMinutes(0, 1380, MidnightChange) == 93_600_000
    ensures DateAtZonedMinutes(0, 1410, MidnightChange) == 95_400_000
    ensures DayEnd(0, MidnightChange) == 93_600_000
  {
    assert forall m :: LocalAsUtc(0, m) == m / 60 * 3_600_000 + m % 60 * 60_000;
    assert SaneZone(MidnightChange, 4 * HOUR);
    TwoPasses(0, 1380, MidnightChange, 4 * HOUR);
    TwoPasses(0, 1410, MidnightChange, 4 * HOUR);
    TwoPasses(0, 1440, MidnightChange, 4 * HOUR);
  }

  const EVENING_RULE: Rule := Rule(1, "23:00", "23:59")
  const EVENING_INPUT: Input := Input(0, 30, 0, [EVENING_RULE], [], [], [1], MidnightChange, 0)

  lemma EveningSlotIsOffered()
    ensures Availability.Offered(EVENING_INPUT, Slot(1, 93_600_000, 95_400_000))
    ensures !Throws(EVENING_INPUT)
  {
    MidnightChangeTimes();
    var slot := Slot(1, 93_600_000, 95_400_000);
    assert Windows(EVENING_INPUT) == [EVENING_RULE];
    assert MinutesSinceMidnight("23:00") == Ok(1380) && MinutesSinceMidnight("23:59") == Ok(1439);
    assert OnGrid(30, EVENING_RULE, 1380) && slot == EVENING_INPUT.SlotAt(1, 1380);
    assert OfferedIn(EVENING_INPUT, EVENING_RULE, slot);
    assert EVENING_RULE in Windows(EVENING_INPUT);
  }

  lemma EveningIsNotLoaded(taken: Appointment)
    requires taken == Appointment(0, 1, taken.customerId, 93_600_000, 95_400_000, Confirmed, None)
    ensures LoadBusy([taken], 0, MidnightChange, None) == []
    ensures GuardInput([taken], EVENING_CONFIG, 0, 93_600_000, None, 0) == EVENING_INPUT
  {
    MidnightChangeTimes();
    assert LoadBusy([], 0, MidnightChange, None) == [];
    assert [taken][..0] == [];
    assert DateInTimeZone(MidnightChange, 93_600_000) == 0;
    assert WeekdayInTimeZone(0, MidnightChange) == 4;
    assert RulesOn([], 4, [1]) == [];
    assert RulesOn(EVENING_CONFIG.rules, 4, [1]) == [EVENING_RULE];
    assert ExceptionsOn([], 0, [1]) == [];
  }

  /**
   There the day ends an hour early for the guard, which then does not load an evening appointment
   and accepts the very interval it occupies.
   */
  lemma MidnightChangeDoubleBooks(taken: Appointment)
    requires taken == Appointment(0, 1, taken.customerId, 93_600_000, 95_400_000, Confirmed, None)
    ensures CanTakeSlot([taken], EVENING_CONFIG, 0, 1, taken.startsAt, None, 0)
    ensures Clash(taken, taken.(endsAt := taken.startsAt + EVENING_CONFIG.services[0].LengthMs()))
  {
    EveningIsNotLoaded(taken);
    EveningSlotIsOffered();
    assert SlotOpen(EVENING_INPUT, 1, 93_600_000);
  }
}
