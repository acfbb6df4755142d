/**
 What a transaction loads to compute availability (appointments.service.ts:1184-1236, 1368-1435): the business's
 services, team, opening hours and exceptions, and the active appointments of a day.
 */
module Loading {
  import opened Outcomes
  import opened Tables
  import opened ZonedTime
  import opened Availability

  datatype Service = Service(durationMinutes: int, bufferMinutes: int, active: bool) {
    function LengthMs(): int {
      (durationMinutes + bufferMinutes) * 60_000
    }
  }

  datatype WeeklyRule = WeeklyRule(weekday: int, active: bool, rule: Rule)

  datatype DatedException = DatedException(date: Date, exception: Exception)

  /** What a transaction reads and never writes: the business's services, team and opening hours. */
  datatype Config = Config(
    zone: Zone,
    services: map<int, Service>,
    activeStaff: seq<int>,
    assignedStaff: map<int, seq<int>>,
    rules: seq<WeeklyRule>,
    exceptions: seq<DatedException>
  )

  function RuleOn(r: WeeklyRule, weekday: int, activeStaff: seq<int>): seq<Rule> {
    if r.active && r.weekday == weekday && r.rule.staffMemberId in activeStaff then [r.rule] else []
  }

  function RulesOn(rules: seq<WeeklyRule>, weekday: int, activeStaff: seq<int>): seq<Rule> {
    if rules == [] then [] else RuleOn(rules[0], weekday, activeStaff) + RulesOn(rules[1..], weekday, activeStaff)
  }

  function ExceptionOn(e: DatedException, date: Date, activeStaff: seq<int>): seq<Exception> {
    var staff := e.exception.staffMemberId;
    if e.date == date && (staff.Some? ==> staff.value in activeStaff) then [e.exception] else []
  }

  function ExceptionsOn(exceptions: seq<DatedException>, date: Date, activeStaff: seq<int>): seq<Exception> {
    if exceptions == [] then [] else ExceptionOn(exceptions[0], date, activeStaff) + ExceptionsOn(exceptions[1..], date, activeStaff)
  }

  function BusyOf(a: Appointment): BusySlot {
    BusySlot(a.staffMemberId, a.startsAt, a.endsAt)
  }

  /** The active appointments that meet the bounds of the day, leaving out one of them if asked. */
  function LoadBusy(appointments: seq<Appointment>, date: Date, zone: Zone, exclude: Option<nat>): seq<BusySlot> {
    if appointments == [] then []
    else
      var last := |appointments| - 1;
      var a := appointments[last];
      LoadBusy(appointments[..last], date, zone, exclude)
      + (if a.status.Active() && exclude != Some(last) && MeetsDay(BusyOf(a), date, zone) then [BusyOf(a)] else [])
  }

  /** Row i is active, is not left out, and meets the day from its first to its last minute. */
  ghost predicate BusyRow(appointments: seq<Appointment>, date: Date, zone: Zone, exclude: Option<nat>, i: nat, b: BusySlot) {
    && i < |appointments| && exclude != Some(i)
    && (appointments[i].status == Pending || appointments[i].status == Confirmed)
    && appointments[i].startsAt < DateAtZonedMinutes(date, 1440, zone)
    && DateAtZonedMinutes(date, 0, zone) < appointments[i].endsAt
    && b == BusySlot(appointments[i].staffMemberId, appointments[i].startsAt, appointments[i].endsAt)
  }

  lemma {:induction false} LoadBusyMembers(
    appointments: seq<Appointment>, date: Date, zone: Zone, exclude: Option<nat>, b: BusySlot)
    ensures b in LoadBusy(appointments, date, zone, exclude) <==> exists i :: BusyRow(appointments, date, zone, exclude, i, b)
  {
    if appointments != [] {
      var last := |appointments| - 1;
      LoadBusyMembers(appointments[..last], date, zone, exclude, b);
      forall i: nat
        ensures BusyRow(appointments[..last], date, zone, exclude, i, b) ==> BusyRow(appointments, date, zone, exclude, i, b)
        ensures BusyRow(appointments, date, zone, exclude, i, b) && i < last ==>
                  BusyRow(appointments[..last], date, zone, exclude, i, b)
      {
      }
      LastBusyRow(appointments, date, zone, exclude, b);
    }
  }

  lemma LastBusyRow(appointments: seq<Appointment>, date: Date, zone: Zone, exclude: Option<nat>, b: BusySlot)
    requires appointments != []
    ensures var last := |appointments| - 1;
            b in LoadBusy(appointments, date, zone, exclude) <==>
            b in LoadBusy(appointments[..last], date, zone, exclude) || BusyRow(appointments, date, zone, exclude, last, b)
  {
  }

  function EligibleAmong(staff: seq<int>, assignedStaff: seq<int>): seq<int> {
    if staff == [] then []
    else (if staff[0] in assignedStaff then [staff[0]] else []) + EligibleAmong(staff[1..], assignedStaff)
  }

  function EligibleStaff(cfg: Config, serviceId: int): seq<int> {
    var assignedStaff := if serviceId in cfg.assignedStaff then cfg.assignedStaff[serviceId] else [];
    if assignedStaff != [] then EligibleAmong(cfg.activeStaff, assignedStaff) else cfg.activeStaff
  }

  function InputFor(
    appointments: seq<Appointment>, cfg: Config, serviceId: int, date: Date, exclude: Option<nat>, now: int): Input
    requires serviceId in cfg.services
  {
    Input(date,
          cfg.services[serviceId].durationMinutes,
          cfg.services[serviceId].bufferMinutes,
          RulesOn(cfg.rules, WeekdayInTimeZone(date, cfg.zone), cfg.activeStaff),
          ExceptionsOn(cfg.exceptions, date, cfg.activeStaff),
          LoadBusy(appointments, date, cfg.zone, exclude),
          EligibleStaff(cfg, serviceId),
          cfg.zone,
          now)
  }

  // ---------------------------------------------------------------- exactly what is loaded

  /** The rules of that weekday that are switched on, of active staff. */
  lemma {:induction false} RulesOnMembers(rules: seq<WeeklyRule>, weekday: int, activeStaff: seq<int>, w: Rule)
    ensures w in RulesOn(rules, weekday, activeStaff) <==>
            WeeklyRule(weekday, true, w) in rules && w.staffMemberId in activeStaff
  {
    if rules != [] {
      RulesOnMembers(rules[1..], weekday, activeStaff, w);
      assert rules == [rules[0]] + rules[1..];
    }
  }

  /** The exceptions of that date, of the whole business or of active staff. */
  lemma {:induction false} ExceptionsOnMembers(exceptions: seq<DatedException>, date: Date, activeStaff: seq<int>, x: Exception)
    ensures x in ExceptionsOn(exceptions, date, activeStaff) <==>
            DatedException(date, x) in exceptions && (x.staffMemberId == None || x.staffMemberId.value in activeStaff)
  {
    if exceptions != [] {
      ExceptionsOnMembers(exceptions[1..], date, activeStaff, x);
      assert exceptions == [exceptions[0]] + exceptions[1..];
    }
  }

  lemma {:induction false} EligibleAmongMembers(staff: seq<int>, assignedStaff: seq<int>, member: int)
    ensures member in EligibleAmong(staff, assignedStaff) <==> member in staff && member in assignedStaff
  {
    if staff != [] {
      EligibleAmongMembers(staff[1..], assignedStaff, member);
      assert staff == [staff[0]] + staff[1..];
    }
  }

  /** Active, and assigned to the service if anybody is. */
  ghost predicate Serves(cfg: Config, serviceId: int, member: int) {
    && member in cfg.activeStaff
    && (serviceId in cfg.assignedStaff && cfg.assignedStaff[serviceId] != [] ==> member in cfg.assignedStaff[serviceId])
  }

  lemma EligibleStaffMembers(cfg: Config, serviceId: int, member: int)
    ensures member in EligibleStaff(cfg, serviceId) <==> Serves(cfg, serviceId, member)
  {
    if serviceId in cfg.assignedStaff && cfg.assignedStaff[serviceId] != [] {
      EligibleAmongMembers(cfg.activeStaff, cfg.assignedStaff[serviceId], member);
    }
  }

  /** Whoever is offered is an active staff member. */
  lemma OfferedStaffAreActive(
    appointments: seq<Appointment>, cfg: Config, serviceId: int, date: Date, exclude: Option<nat>, now: int, s: Slot)
    requires serviceId in cfg.services
    requires Availability.Offered(InputFor(appointments, cfg, serviceId, date, exclude, now), s)
    ensures s.staffMemberId in cfg.activeStaff
  {
    var input := InputFor(appointments, cfg, serviceId, date, exclude, now);
    var w :| w in Windows(input) && OfferedIn(input, w, s);
    assert w.staffMemberId == s.staffMemberId;
    if w in input.rules {
      RulesOnMembers(cfg.rules, WeekdayInTimeZone(date, cfg.zone), cfg.activeStaff, w);
    } else {
      OpeningWindowsMembers(input.exceptions, input.activeStaffMemberIds, w);
      var e :| e in input.exceptions && Opens(e, input.activeStaffMemberIds, w);
      ExceptionsOnMembers(cfg.exceptions, date, cfg.activeStaff, e);
      EligibleStaffMembers(cfg, serviceId, w.staffMemberId);
    }
  }

  // ---------------------------------------------------------------- the guard

  /** The availability of the day of startsAt, as the guard computes it. */
  function GuardInput(
    appointments: seq<Appointment>, cfg: Config, serviceId: int, startsAt: int, exclude: Option<nat>, now: int): Input
    requires serviceId in cfg.services
  {
    InputFor(appointments, cfg, serviceId, DateInTimeZone(cfg.zone, startsAt), exclude, now)
  }

  ghost predicate SlotOpen(input: Input, staff: int, startsAt: int) {
    exists endsAt :: Availability.Offered(input, Slot(staff, startsAt, endsAt))
  }

  ghost predicate CanTakeSlot(
    appointments: seq<Appointment>, cfg: Config, serviceId: int, staff: int, startsAt: int, exclude: Option<nat>, now: int)
  {
    && serviceId in cfg.services
    && staff in cfg.activeStaff
    && var input := GuardInput(appointments, cfg, serviceId, startsAt, exclude, now);
       !Throws(input) && SlotOpen(input, staff, startsAt)
  }

  // ---------------------------------------------------------------- the guard in terms of the tables

  /** The request itself, with nothing loaded. */
  function Request(cfg: Config, service: Service, date: Date, now: int): Input {
    Input(date, service.durationMinutes, service.bufferMinutes, [], [], [], [], cfg.zone, now)
  }

  /** A row opens the business on that date, from startTime to endTime, for this active staff member. */
  ghost predicate OpenedByRow(cfg: Config, serviceId: int, date: Date, staff: int, startTime: string, endTime: string) {
    staff in cfg.activeStaff &&
    (|| WeeklyRule(WeekdayInTimeZone(date, cfg.zone), true, Rule(staff, startTime, endTime)) in cfg.rules
     || DatedException(date, Exception(Some(staff), startTime, endTime, ExtraOpening)) in cfg.exceptions
     || (DatedException(date, Exception(None, startTime, endTime, ExtraOpening)) in cfg.exceptions && Serves(cfg, serviceId, staff)))
  }

  ghost predicate FitsARow(cfg: Config, serviceId: int, request: Input, s: Slot) {
    exists startTime, endTime, halfHours ::
      && OpenedByRow(cfg, serviceId, request.date, s.staffMemberId, startTime, endTime)
      && FitsAfter(request, startTime, endTime, halfHours, s)
  }

  /** The slot is open, ahead, clear of every other active appointment of the day and of every block of the date. */
  ghost predicate OpenInTables(
    appointments: seq<Appointment>, cfg: Config, serviceId: int, date: Date, exclude: Option<nat>, now: int, s: Slot)
    requires serviceId in cfg.services
  {
    var request := Request(cfg, cfg.services[serviceId], date, now);
    && FitsARow(cfg, serviceId, request, s)
    && NotPast(request, s)
    && (forall i, b :: BusyRow(appointments, date, cfg.zone, exclude, i, b) && b.staffMemberId == s.staffMemberId ==>
          b.endsAt <= s.startsAt || s.endsAt <= b.startsAt)
    && (forall e :: DatedException(date, e) in cfg.exceptions && Concerns(e, s.staffMemberId) ==> ClearOf(request, e, s))
  }

  lemma OpenedIsARow(
    appointments: seq<Appointment>, cfg: Config, serviceId: int, date: Date, exclude: Option<nat>, now: int,
    staff: int, startTime: string, endTime: string)
    requires serviceId in cfg.services
    ensures Opened(InputFor(appointments, cfg, serviceId, date, exclude, now), staff, startTime, endTime)
       <==> OpenedByRow(cfg, serviceId, date, staff, startTime, endTime)
  {
    var input := InputFor(appointments, cfg, serviceId, date, exclude, now);
    var named, general := Exception(Some(staff), startTime, endTime, ExtraOpening), Exception(None, startTime, endTime, ExtraOpening);
    RulesOnMembers(cfg.rules, WeekdayInTimeZone(date, cfg.zone), cfg.activeStaff, Rule(staff, startTime, endTime));
    ExceptionsOnMembers(cfg.exceptions, date, cfg.activeStaff, named);
    ExceptionsOnMembers(cfg.exceptions, date, cfg.activeStaff, general);
    EligibleStaffMembers(cfg, serviceId, staff);
    forall e: Exception
      ensures OpenedBy(e, input.activeStaffMemberIds, staff, startTime, endTime) <==>
              e == named || (e == general && staff in input.activeStaffMemberIds)
    {
    }
    assert Opened(input, staff, startTime, endTime) <==>
      || Rule(staff, startTime, endTime) in input.rules
      || named in input.exceptions
      || (general in input.exceptions && staff in input.activeStaffMemberIds);
  }

  /** A slot is offered if and only if the tables say so. */
  lemma OfferedIsOpenInTables(
    appointments: seq<Appointment>, cfg: Config, serviceId: int, date: Date, exclude: Option<nat>, now: int, s: Slot)
    requires serviceId in cfg.services
    ensures Availability.Offered(InputFor(appointments, cfg, serviceId, date, exclude, now), s)
       <==> OpenInTables(appointments, cfg, serviceId, date, exclude, now, s)
  {
    var input := InputFor(appointments, cfg, serviceId, date, exclude, now);
    OfferedIsTheDeclaredSet(input, s);
    FitsIsARow(appointments, cfg, serviceId, date, exclude, now, s);
    BusyIsARow(appointments, cfg, serviceId, date, exclude, now, s);
    if s.staffMemberId in cfg.activeStaff {
      BlockIsARow(appointments, cfg, serviceId, date, exclude, now, s);
    }
  }

  lemma FitsIsARow(
    appointments: seq<Appointment>, cfg: Config, serviceId: int, date: Date, exclude: Option<nat>, now: int, s: Slot)
    requires serviceId in cfg.services
    ensures var input, request := InputFor(appointments, cfg, serviceId, date, exclude, now), Request(cfg, cfg.services[serviceId], date, now);
            (Fits(input, s) <==> FitsARow(cfg, serviceId, request, s)) && (NotPast(input, s) <==> NotPast(request, s))
    ensures FitsARow(cfg, serviceId, Request(cfg, cfg.services[serviceId], date, now), s) ==> s.staffMemberId in cfg.activeStaff
  {
    var input, request := InputFor(appointments, cfg, serviceId, date, exclude, now), Request(cfg, cfg.services[serviceId], date, now);
    forall startTime, endTime, halfHours: nat
      ensures Opened(input, s.staffMemberId, startTime, endTime)
         <==> OpenedByRow(cfg, serviceId, date, s.staffMemberId, startTime, endTime)
      ensures FitsAfter(input, startTime, endTime, halfHours, s) <==> FitsAfter(request, startTime, endTime, halfHours, s)
    {
      OpenedIsARow(appointments, cfg, serviceId, date, exclude, now, s.staffMemberId, startTime, endTime);
    }
  }

  lemma BusyIsARow(
    appointments: seq<Appointment>, cfg: Config, serviceId: int, date: Date, exclude: Option<nat>, now: int, s: Slot)
    requires serviceId in cfg.services
    ensures (forall b :: b in InputFor(appointments, cfg, serviceId, date, exclude, now).busySlots && b.staffMemberId == s.staffMemberId ==>
               b.endsAt <= s.startsAt || s.endsAt <= b.startsAt)
       <==> (forall i, b :: BusyRow(appointments, date, cfg.zone, exclude, i, b) && b.staffMemberId == s.staffMemberId ==>
               b.endsAt <= s.startsAt || s.endsAt <= b.startsAt)
  {
    forall b: BusySlot
      ensures b in LoadBusy(appointments, date, cfg.zone, exclude) <==> exists i :: BusyRow(appointments, date, cfg.zone, exclude, i, b)
    {
      LoadBusyMembers(appointments, date, cfg.zone, exclude, b);
    }
  }

  lemma BlockIsARow(
    appointments: seq<Appointment>, cfg: Config, serviceId: int, date: Date, exclude: Option<nat>, now: int, s: Slot)
    requires serviceId in cfg.services && s.staffMemberId in cfg.activeStaff
    ensures var input, request := InputFor(appointments, cfg, serviceId, date, exclude, now), Request(cfg, cfg.services[serviceId], date, now);
            ((forall e :: e in input.exceptions && Concerns(e, s.staffMemberId) ==> ClearOf(input, e, s))
             <==> (forall e :: DatedException(date, e) in cfg.exceptions && Concerns(e, s.staffMemberId) ==> ClearOf(request, e, s)))
  {
    var input, request := InputFor(appointments, cfg, serviceId, date, exclude, now), Request(cfg, cfg.services[serviceId], date, now);
    forall e: Exception
      ensures Concerns(e, s.staffMemberId) ==> (e in input.exceptions <==> DatedException(date, e) in cfg.exceptions)
      ensures ClearOf(input, e, s) <==> ClearOf(request, e, s)
    {
      ExceptionsOnMembers(cfg.exceptions, date, cfg.activeStaff, e);
    }
  }

  /** The first block of the date that the slot does not clear, at row i, is malformed. */
  ghost predicate StopsAtRow(exceptions: seq<DatedException>, request: Input, s: Slot, i: nat) {
    && i < |exceptions| && exceptions[i].date == request.date && Concerns(exceptions[i].exception, s.staffMemberId)
    && (MinutesSinceMidnight(exceptions[i].exception.startTime).Err? || MinutesSinceMidnight(exceptions[i].exception.endTime).Err?)
    && forall j :: 0 <= j < i && exceptions[j].date == request.date && Concerns(exceptions[j].exception, s.staffMemberId) ==>
         ClearOf(request, exceptions[j].exception, s)
  }

  lemma {:induction false} SearchStopsAtARow(exceptions: seq<DatedException>, activeStaff: seq<int>, request: Input, s: Slot)
    requires s.staffMemberId in activeStaff
    ensures BlockVerdict(request.date, request.zone, ExceptionsOn(exceptions, request.date, activeStaff), s).Err?
       <==> exists i :: StopsAtRow(exceptions, request, s, i)
  {
    if exceptions != [] {
      SearchStopsAtARow(exceptions[1..], activeStaff, request, s);
      FirstRow(exceptions, request, s);
      FirstVerdict(exceptions, activeStaff, request, s);
    }
  }

  lemma FirstRow(exceptions: seq<DatedException>, request: Input, s: Slot)
    requires exceptions != []
    ensures var first := exceptions[0];
            var counts := first.date == request.date && Concerns(first.exception, s.staffMemberId);
            (exists i :: StopsAtRow(exceptions, request, s, i)) <==>
            if counts && (MinutesSinceMidnight(first.exception.startTime).Err? || MinutesSinceMidnight(first.exception.endTime).Err?)
            then true
            else (counts ==> ClearOf(request, first.exception, s)) && exists i :: StopsAtRow(exceptions[1..], request, s, i)
  {
    forall i: nat
      ensures StopsAtRow(exceptions, request, s, i + 1) <==>
              StopsAtRow(exceptions[1..], request, s, i)
              && (exceptions[0].date == request.date && Concerns(exceptions[0].exception, s.staffMemberId) ==>
                    ClearOf(request, exceptions[0].exception, s))
    {
      LaterRow(exceptions, request, s, i);
    }
    if i: nat :| StopsAtRow(exceptions, request, s, i) && i > 0 {
      assert StopsAtRow(exceptions[1..], request, s, i - 1);
    }
    if i: nat :| StopsAtRow(exceptions[1..], request, s, i) {
      assert StopsAtRow(exceptions, request, s, i + 1) ||
             !(exceptions[0].date == request.date && Concerns(exceptions[0].exception, s.staffMemberId) ==>
                 ClearOf(request, exceptions[0].exception, s));
    }
    assert StopsAtRow(exceptions, request, s, 0) <==>
      && exceptions[0].date == request.date && Concerns(exceptions[0].exception, s.staffMemberId)
      && (MinutesSinceMidnight(exceptions[0].exception.startTime).Err? || MinutesSinceMidnight(exceptions[0].exception.endTime).Err?);
  }

  lemma LaterRow(exceptions: seq<DatedException>, request: Input, s: Slot, i: nat)
    requires exceptions != []
    ensures StopsAtRow(exceptions, request, s, i + 1) <==>
            StopsAtRow(exceptions[1..], request, s, i)
            && (exceptions[0].date == request.date && Concerns(exceptions[0].exception, s.staffMemberId) ==>
                  ClearOf(request, exceptions[0].exception, s))
  {
    var rest := exceptions[1..];
    assert forall j :: 0 <= j < |rest| ==> rest[j] == exceptions[j + 1];
    assert forall j :: 0 < j < |exceptions| ==> exceptions[j] == rest[j - 1];
  }

  lemma FirstVerdict(exceptions: seq<DatedException>, activeStaff: seq<int>, request: Input, s: Slot)
    requires exceptions != [] && s.staffMemberId in activeStaff
    ensures var first, rest := exceptions[0], ExceptionsOn(exceptions[1..], request.date, activeStaff);
            var counts := first.date == request.date && Concerns(first.exception, s.staffMemberId);
            BlockVerdict(request.date, request.zone, ExceptionsOn(exceptions, request.date, activeStaff), s).Err? <==>
            if counts && (MinutesSinceMidnight(first.exception.startTime).Err? || MinutesSinceMidnight(first.exception.endTime).Err?)
            then true
            else (counts ==> ClearOf(request, first.exception, s)) && BlockVerdict(request.date, request.zone, rest, s).Err?
  {
    var first, rest := exceptions[0], ExceptionsOn(exceptions[1..], request.date, activeStaff);
    var loaded := ExceptionsOn(exceptions, request.date, activeStaff);
    if first.date == request.date && (first.exception.staffMemberId.Some? ==> first.exception.staffMemberId.value in activeStaff) {
      assert loaded == [first.exception] + rest && loaded[1..] == rest;
    } else {
      assert loaded == rest;
    }
  }

  ghost predicate MalformedRow(cfg: Config, request: Input, staff: int, startTime: string, endTime: string) {
    || MinutesSinceMidnight(startTime).Err? || MinutesSinceMidnight(endTime).Err?
    || exists s: Slot, halfHours, i :: StopsRowSearch(cfg, request, staff, startTime, endTime, s, halfHours, i)
  }

  ghost predicate StopsRowSearch(
    cfg: Config, request: Input, staff: int, startTime: string, endTime: string, s: Slot, halfHours: nat, i: nat)
  {
    && s.staffMemberId == staff && FitsAfter(request, startTime, endTime, halfHours, s)
    && NotPast(request, s) && StopsAtRow(cfg.exceptions, request, s, i)
  }

  ghost predicate ThrowsInTables(cfg: Config, serviceId: int, date: Date, now: int)
    requires serviceId in cfg.services
  {
    var request := Request(cfg, cfg.services[serviceId], date, now);
    && DateInTimeZone(cfg.zone, now) <= date
    && exists staff, startTime, endTime ::
         OpenedByRow(cfg, serviceId, date, staff, startTime, endTime) && MalformedRow(cfg, request, staff, startTime, endTime)
  }

  lemma SlotSearchStops(
    appointments: seq<Appointment>, cfg: Config, serviceId: int, date: Date, exclude: Option<nat>, now: int, s: Slot)
    requires serviceId in cfg.services && s.staffMemberId in cfg.activeStaff
    ensures (exists i :: StopsAtMalformed(InputFor(appointments, cfg, serviceId, date, exclude, now), s, i)) <==>
            (exists i :: StopsAtRow(cfg.exceptions, Request(cfg, cfg.services[serviceId], date, now), s, i))
  {
    var input, request := InputFor(appointments, cfg, serviceId, date, exclude, now), Request(cfg, cfg.services[serviceId], date, now);
    SearchThrows(input, s, input.exceptions);
    SearchStopsAtARow(cfg.exceptions, cfg.activeStaff, request, s);
  }

  lemma MalformedIsARow(
    appointments: seq<Appointment>, cfg: Config, serviceId: int, date: Date, exclude: Option<nat>, now: int,
    staff: int, startTime: string, endTime: string)
    requires serviceId in cfg.services && staff in cfg.activeStaff
    ensures Malformed(InputFor(appointments, cfg, serviceId, date, exclude, now), staff, startTime, endTime)
       <==> MalformedRow(cfg, Request(cfg, cfg.services[serviceId], date, now), staff, startTime, endTime)
  {
    var input, request := InputFor(appointments, cfg, serviceId, date, exclude, now), Request(cfg, cfg.services[serviceId], date, now);
    if s: Slot, halfHours: nat, i: nat :| StopsThere(input, staff, startTime, endTime, s, halfHours, i) {
      var k := StopMovesToRow(appointments, cfg, serviceId, exclude, staff, input, request, startTime, endTime, s, halfHours, i);
    }
    if s: Slot, halfHours: nat, i: nat :| StopsRowSearch(cfg, request, staff, startTime, endTime, s, halfHours, i) {
      var k := StopMovesToInput(appointments, cfg, serviceId, exclude, staff, input, request, startTime, endTime, s, halfHours, i);
    }
  }

  lemma StopMovesToRow(
    appointments: seq<Appointment>, cfg: Config, serviceId: int, exclude: Option<nat>, staff: int, input: Input, request: Input,
    startTime: string, endTime: string, s: Slot, halfHours: nat, i: nat) returns (k: nat)
    requires serviceId in cfg.services && staff in cfg.activeStaff
    requires input == InputFor(appointments, cfg, serviceId, request.date, exclude, request.now)
    requires request == Request(cfg, cfg.services[serviceId], request.date, request.now)
    requires StopsThere(input, staff, startTime, endTime, s, halfHours, i)
    ensures StopsRowSearch(cfg, request, staff, startTime, endTime, s, halfHours, k)
  {
    SlotSearchStops(appointments, cfg, serviceId, request.date, exclude, request.now, s);
    k :| StopsAtRow(cfg.exceptions, request, s, k);
  }

  lemma StopMovesToInput(
    appointments: seq<Appointment>, cfg: Config, serviceId: int, exclude: Option<nat>, staff: int, input: Input, request: Input,
    startTime: string, endTime: string, s: Slot, halfHours: nat, i: nat) returns (k: nat)
    requires serviceId in cfg.services && staff in cfg.activeStaff
    requires input == InputFor(appointments, cfg, serviceId, request.date, exclude, request.now)
    requires request == Request(cfg, cfg.services[serviceId], request.date, request.now)
    requires StopsRowSearch(cfg, request, staff, startTime, endTime, s, halfHours, i)
    ensures StopsThere(input, staff, startTime, endTime, s, halfHours, k)
  {
    SlotSearchStops(appointments, cfg, serviceId, request.date, exclude, request.now, s);
    k :| StopsAtMalformed(input, s, k);
  }

  /** The computation throws if and only if the tables hold a malformed time that it reads. */
  lemma ThrowsIsInTables(
    appointments: seq<Appointment>, cfg: Config, serviceId: int, date: Date, exclude: Option<nat>, now: int)
    requires serviceId in cfg.services
    ensures Throws(InputFor(appointments, cfg, serviceId, date, exclude, now)) <==> ThrowsInTables(cfg, serviceId, date, now)
  {
    var input, request := InputFor(appointments, cfg, serviceId, date, exclude, now), Request(cfg, cfg.services[serviceId], date, now);
    ThrowsIsDeclared(input);
    forall staff, startTime, endTime
      ensures Opened(input, staff, startTime, endTime) && Malformed(input, staff, startTime, endTime)
         <==> OpenedByRow(cfg, serviceId, date, staff, startTime, endTime) && MalformedRow(cfg, request, staff, startTime, endTime)
    {
      OpenedIsARow(appointments, cfg, serviceId, date, exclude, now, staff, startTime, endTime);
      if staff in cfg.activeStaff {
        MalformedIsARow(appointments, cfg, serviceId, date, exclude, now, staff, startTime, endTime);
      }
    }
  }

  /** What the guard promises, told in the rows of the tables alone. */
  ghost predicate FreeInTables(
    appointments: seq<Appointment>, cfg: Config, serviceId: int, staff: int, startsAt: int, exclude: Option<nat>, now: int)
    requires serviceId in cfg.services
  {
    var date := DateInTimeZone(cfg.zone, startsAt);
    && staff in cfg.activeStaff
    && !ThrowsInTables(cfg, serviceId, date, now)
    && exists endsAt :: OpenInTables(appointments, cfg, serviceId, date, exclude, now, Slot(staff, startsAt, endsAt))
  }

  lemma CanTakeSlotIsFreeInTables(
    appointments: seq<Appointment>, cfg: Config, serviceId: int, staff: int, startsAt: int, exclude: Option<nat>, now: int)
    requires serviceId in cfg.services
    ensures CanTakeSlot(appointments, cfg, serviceId, staff, startsAt, exclude, now)
       <==> FreeInTables(appointments, cfg, serviceId, staff, startsAt, exclude, now)
  {
    var date := DateInTimeZone(cfg.zone, startsAt);
    ThrowsIsInTables(appointments, cfg, serviceId, date, exclude, now);
    forall endsAt
      ensures Availability.Offered(GuardInput(appointments, cfg, serviceId, startsAt, exclude, now), Slot(staff, startsAt, endsAt))
         <==> OpenInTables(appointments, cfg, serviceId, date, exclude, now, Slot(staff, startsAt, endsAt))
    {
      OfferedIsOpenInTables(appointments, cfg, serviceId, date, exclude, now, Slot(staff, startsAt, endsAt));
    }
  }

  // ---------------------------------------------------------------- rows that do not matter

  lemma Associative<T>(a: seq<T>, b: seq<T>, c: seq<T>)
    ensures a + (b + c) == (a + b) + c
  {
  }

  lemma {:induction false} ExceptionsOnSplit(a: seq<DatedException>, b: seq<DatedException>, date: Date, activeStaff: seq<int>)
    ensures ExceptionsOn(a + b, date, activeStaff) == ExceptionsOn(a, date, activeStaff) + ExceptionsOn(b, date, activeStaff)
  {
    if a == [] {
      assert a + b == b;
    } else {
      ExceptionsOnSplit(a[1..], b, date, activeStaff);
      FirstOfExceptionsOn(a, b, date, activeStaff);
      Associative(ExceptionOn(a[0], date, activeStaff), ExceptionsOn(a[1..], date, activeStaff), ExceptionsOn(b, date, activeStaff));
    }
  }

  lemma FirstOfExceptionsOn(a: seq<DatedException>, b: seq<DatedException>, date: int, activeStaff: seq<int>)
    requires a != []
    ensures ExceptionsOn(a + b, date, activeStaff) == ExceptionOn(a[0], date, activeStaff) + ExceptionsOn(a[1..] + b, date, activeStaff)
  {
    assert (a + b)[0] == a[0] && (a + b)[1..] == a[1..] + b;
  }

  lemma {:induction false} RulesOnSplit(a: seq<WeeklyRule>, b: seq<WeeklyRule>, weekday: int, activeStaff: seq<int>)
    ensures RulesOn(a + b, weekday, activeStaff) == RulesOn(a, weekday, activeStaff) + RulesOn(b, weekday, activeStaff)
  {
    if a == [] {
      assert a + b == b;
    } else {
      RulesOnSplit(a[1..], b, weekday, activeStaff);
      FirstOfRulesOn(a, b, weekday, activeStaff);
      Associative(RuleOn(a[0], weekday, activeStaff), RulesOn(a[1..], weekday, activeStaff), RulesOn(b, weekday, activeStaff));
    }
  }

  lemma FirstOfRulesOn(a: seq<WeeklyRule>, b: seq<WeeklyRule>, weekday: int, activeStaff: seq<int>)
    requires a != []
    ensures RulesOn(a + b, weekday, activeStaff) == RuleOn(a[0], weekday, activeStaff) + RulesOn(a[1..] + b, weekday, activeStaff)
  {
    assert (a + b)[0] == a[0] && (a + b)[1..] == a[1..] + b;
  }

  lemma {:induction false} NoneOfThatDate(more: seq<DatedException>, date: Date, activeStaff: seq<int>)
    requires forall e :: e in more ==> e.date != date
    ensures ExceptionsOn(more, date, activeStaff) == []
  {
    if more != [] {
      assert more[0] in more;
      NoneOfThatDate(more[1..], date, activeStaff);
    }
  }

  lemma {:induction false} NoneInForce(more: seq<WeeklyRule>, weekday: int, activeStaff: seq<int>)
    requires forall r :: r in more ==> !r.active || r.weekday != weekday || r.rule.staffMemberId !in activeStaff
    ensures RulesOn(more, weekday, activeStaff) == []
  {
    if more != [] {
      assert more[0] in more;
      NoneInForce(more[1..], weekday, activeStaff);
    }
  }

  /** Exceptions of other dates, and rules that are off, of other weekdays or of inactive staff, change no answer. */
  lemma OtherRowsDoNotMatter(
    appointments: seq<Appointment>, cfg: Config, more: Config, serviceId: int, staff: int, startsAt: int, exclude: Option<nat>, now: int,
    e0: seq<DatedException>, e1: seq<DatedException>, e2: seq<DatedException>,
    r0: seq<WeeklyRule>, r1: seq<WeeklyRule>, r2: seq<WeeklyRule>)
    requires serviceId in cfg.services
    requires cfg.exceptions == e0 + e2 && cfg.rules == r0 + r2
    requires more == cfg.(exceptions := e0 + (e1 + e2), rules := r0 + (r1 + r2))
    requires forall e :: e in e1 ==> e.date != DateInTimeZone(cfg.zone, startsAt)
    requires forall r :: r in r1 ==>
               !r.active || r.weekday != WeekdayInTimeZone(DateInTimeZone(cfg.zone, startsAt), cfg.zone)
               || r.rule.staffMemberId !in cfg.activeStaff
    ensures CanTakeSlot(appointments, more, serviceId, staff, startsAt, exclude, now)
       <==> CanTakeSlot(appointments, cfg, serviceId, staff, startsAt, exclude, now)
  {
    var date := DateInTimeZone(cfg.zone, startsAt);
    var weekday := WeekdayInTimeZone(date, cfg.zone);
    SameExceptions(e0, e1, e2, date, cfg.activeStaff);
    SameRules(r0, r1, r2, weekday, cfg.activeStaff);
    assert GuardInput(appointments, more, serviceId, startsAt, exclude, now)
        == GuardInput(appointments, cfg, serviceId, startsAt, exclude, now);
  }

  lemma SameExceptions(
    e0: seq<DatedException>, e1: seq<DatedException>, e2: seq<DatedException>, date: Date, activeStaff: seq<int>)
    requires forall e :: e in e1 ==> e.date != date
    ensures ExceptionsOn(e0 + (e1 + e2), date, activeStaff) == ExceptionsOn(e0 + e2, date, activeStaff)
  {
    NoneOfThatDate(e1, date, activeStaff);
    ExceptionsOnSplit(e0, e2, date, activeStaff);
    ExceptionsOnSplit(e0, e1 + e2, date, activeStaff);
    ExceptionsOnSplit(e1, e2, date, activeStaff);
  }

  lemma SameRules(r0: seq<WeeklyRule>, r1: seq<WeeklyRule>, r2: seq<WeeklyRule>, weekday: int, activeStaff: seq<int>)
    requires forall r :: r in r1 ==> !r.active || r.weekday != weekday || r.rule.staffMemberId !in activeStaff
    ensures RulesOn(r0 + (r1 + r2), weekday, activeStaff) == RulesOn(r0 + r2, weekday, activeStaff)
  {
    NoneInForce(r1, weekday, activeStaff);
    RulesOnSplit(r0, r2, weekday, activeStaff);
    RulesOnSplit(r0, r1 + r2, weekday, activeStaff);
    RulesOnSplit(r1, r2, weekday, activeStaff);
  }
}
