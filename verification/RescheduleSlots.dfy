/**
 The times a customer is offered for moving an appointment (getRescheduleSlotsForAppointment,
 appointments.service.ts:1238-1301) against the guard that the move itself meets.
 */
module RescheduleSlots {
  import opened Outcomes
  import opened Tables
  import opened ZonedTime
  import opened Availability
  import opened Loading
  import opened Appointments
  import opened StaffCalendar

  /** An active appointment other than the moved one meets both the day and the slot. */
  predicate Taken(appointments: seq<Appointment>, zone: Zone, date: Date, id: nat, s: Slot) {
    exists i | 0 <= i < |appointments| ::
      && i != id && appointments[i].status.Active()
      && MeetsDay(BusyOf(appointments[i]), date, zone)
      && Overlap(s.startsAt, s.endsAt, appointments[i].startsAt, appointments[i].endsAt)
  }

  ghost predicate Listable(db: Db, cfg: Config, id: nat, date: Date, now: int, s: Slot)
    requires id < |db.appointments| && db.appointments[id].serviceId in cfg.services
  {
    && Availability.Offered(InputFor(db.appointments, cfg, db.appointments[id].serviceId, date, Some(id), now), s)
    && Ahead(db, cfg, id, date, now, s)
  }

  predicate Ahead(db: Db, cfg: Config, id: nat, date: Date, now: int, s: Slot) {
    now < s.startsAt && !Taken(db.appointments, cfg.zone, date, id, s)
  }

  /** A slot of the day that is ahead, open, and clear of every other active appointment of the day, whoever has it. */
  ghost predicate ListedInTables(db: Db, cfg: Config, id: nat, date: Date, now: int, s: Slot)
    requires id < |db.appointments| && db.appointments[id].serviceId in cfg.services
  {
    && OpenInTables(db.appointments, cfg, db.appointments[id].serviceId, date, Some(id), now, s)
    && now < s.startsAt
    && forall i, b :: BusyRow(db.appointments, date, cfg.zone, Some(id), i, b) ==> b.endsAt <= s.startsAt || s.endsAt <= b.startsAt
  }

  lemma ListableIsInTables(db: Db, cfg: Config, id: nat, date: Date, now: int, s: Slot)
    requires id < |db.appointments| && db.appointments[id].serviceId in cfg.services
    ensures Listable(db, cfg, id, date, now, s) <==> ListedInTables(db, cfg, id, date, now, s)
  {
    OfferedIsOpenInTables(db.appointments, cfg, db.appointments[id].serviceId, date, Some(id), now, s);
    TakenIsABusyRow(db.appointments, cfg.zone, date, id, s);
  }

  lemma TakenIsABusyRow(appointments: seq<Appointment>, zone: Zone, date: Date, id: nat, s: Slot)
    ensures !Taken(appointments, zone, date, id, s) <==>
            forall i, b :: BusyRow(appointments, date, zone, Some(id), i, b) ==> b.endsAt <= s.startsAt || s.endsAt <= b.startsAt
  {
    if !Taken(appointments, zone, date, id, s) {
      forall i: nat, b | BusyRow(appointments, date, zone, Some(id), i, b)
        ensures b.endsAt <= s.startsAt || s.endsAt <= b.startsAt
      {
        assert BusyOf(appointments[i]) == b;
      }
    } else {
      var i: nat :|
        && i < |appointments| && i != id && appointments[i].status.Active()
        && MeetsDay(BusyOf(appointments[i]), date, zone)
        && Overlap(s.startsAt, s.endsAt, appointments[i].startsAt, appointments[i].endsAt);
      assert BusyRow(appointments, date, zone, Some(id), i, BusyOf(appointments[i]));
    }
  }

  method FreeSlots(db: Db, cfg: Config, id: nat, date: Date, now: int, slots: seq<Slot>) returns (free: seq<Slot>)
    requires Sorted(slots)
    ensures Sorted(free)
    ensures forall s :: s in free <==> s in slots && Ahead(db, cfg, id, date, now, s)
  {
    free := [];
    for k := 0 to |slots|
      invariant Sorted(free)
      invariant forall s :: s in free <==> s in slots[..k] && Ahead(db, cfg, id, date, now, s)
    {
      assert slots[..k + 1] == slots[..k] + [slots[k]];
      if slots[k].startsAt > now && !Taken(db.appointments, cfg.zone, date, id, slots[k]) {
        InOrder(slots, k, free);
        free := free + [slots[k]];
      }
    }
    assert slots[..|slots|] == slots;
  }

  /** The start times of the slots, each once and in order, with the first staff member who has it. */
  ghost predicate FirstOfEach(slots: seq<Slot>, unique: seq<Slot>) {
    && (forall s :: s in unique ==> s in slots)
    && (forall i, j :: 0 <= i < j < |unique| ==> unique[i].startsAt < unique[j].startsAt)
    && (forall s :: s in slots ==> Represented(unique, s))
  }

  predicate HasTime(unique: seq<Slot>, startsAt: int) {
    exists t | t in unique :: t.startsAt == startsAt
  }

  /** What filling a map by start time, without replacing, leaves in it. */
  function UniqueByStart(slots: seq<Slot>): seq<Slot> {
    if slots == [] then []
    else
      var before, s := UniqueByStart(slots[..|slots| - 1]), slots[|slots| - 1];
      if HasTime(before, s.startsAt) then before else before + [s]
  }

  method UniqueSlotsByStartTime(slots: seq<Slot>) returns (unique: seq<Slot>)
    ensures unique == UniqueByStart(slots)
  {
    unique := [];
    for k := 0 to |slots|
      invariant unique == UniqueByStart(slots[..k])
    {
      assert slots[..k + 1][..k] == slots[..k];
      if !HasTime(unique, slots[k].startsAt) {
        unique := unique + [slots[k]];
      }
    }
    assert slots[..|slots|] == slots;
  }

  ghost predicate IsFirstOfItsTime(slots: seq<Slot>, t: Slot) {
    exists k :: 0 <= k < |slots| && slots[k] == t && forall j :: 0 <= j < k ==> slots[j].startsAt != t.startsAt
  }

  /** In any list it keeps the first slot of each start time: none twice, and none lost. */
  lemma {:induction false} UniqueKeepsTheFirst(slots: seq<Slot>)
    ensures forall t :: t in UniqueByStart(slots) <==> IsFirstOfItsTime(slots, t)
    ensures forall i, j :: 0 <= i < j < |UniqueByStart(slots)| ==>
              UniqueByStart(slots)[i].startsAt != UniqueByStart(slots)[j].startsAt
    ensures forall s :: s in slots ==> HasTime(UniqueByStart(slots), s.startsAt)
  {
    if slots != [] {
      var front, s := slots[..|slots| - 1], slots[|slots| - 1];
      UniqueKeepsTheFirst(front);
      OneMoreFirst(front, s);
      assert slots == front + [s];
    }
  }

  lemma OneMoreFirst(front: seq<Slot>, s: Slot)
    requires forall t :: t in UniqueByStart(front) <==> IsFirstOfItsTime(front, t)
    requires forall other :: other in front ==> HasTime(UniqueByStart(front), other.startsAt)
    ensures forall t :: IsFirstOfItsTime(front + [s], t) <==>
              IsFirstOfItsTime(front, t) || (t == s && !HasTime(UniqueByStart(front), s.startsAt))
  {
    forall t
      ensures IsFirstOfItsTime(front + [s], t) <==>
              IsFirstOfItsTime(front, t) || (t == s && !HasTime(UniqueByStart(front), s.startsAt))
    {
      var slots := front + [s];
      if k :| 0 <= k < |front| && front[k] == t && forall j :: 0 <= j < k ==> front[j].startsAt != t.startsAt {
        assert slots[k] == t && forall j :: 0 <= j < k ==> slots[j] == front[j];
      }
      if k :| 0 <= k < |slots| && slots[k] == t && forall j :: 0 <= j < k ==> slots[j].startsAt != t.startsAt {
        assert forall j :: 0 <= j < k ==> slots[j] == front[j];
        if k == |front| {
          forall first | first in UniqueByStart(front)
            ensures first.startsAt != s.startsAt
          {
            var i :| 0 <= i < |front| && front[i] == first;
            assert slots[i].startsAt != t.startsAt;
          }
        }
      }
      if t == s && !HasTime(UniqueByStart(front), s.startsAt) {
        forall j | 0 <= j < |front|
          ensures slots[j].startsAt != s.startsAt
        {
          assert front[j] in front;
        }
        assert slots[|front|] == t;
      }
    }
  }

  /** In a sorted list the times kept are in order, each with the first staff member who has it. */
  lemma {:induction false} UniqueOfSorted(slots: seq<Slot>)
    requires Sorted(slots)
    ensures FirstOfEach(slots, UniqueByStart(slots))
  {
    if slots != [] {
      var front, s := slots[..|slots| - 1], slots[|slots| - 1];
      UniqueOfSorted(front);
      InOrder(slots, |slots| - 1, UniqueByStart(front));
      LastSorted(slots);
    }
  }

  lemma LastSorted(slots: seq<Slot>)
    requires slots != []
    requires var front := slots[..|slots| - 1];
             FirstOfEach(front, UniqueByStart(front)) && forall t :: t in UniqueByStart(front) ==> Precedes(t, slots[|slots| - 1])
    ensures FirstOfEach(slots, UniqueByStart(slots))
  {
    var front, s := slots[..|slots| - 1], slots[|slots| - 1];
    assert slots == front + [s];
    OneMoreSorted(front, UniqueByStart(front), s);
  }

  lemma OneMoreSorted(front: seq<Slot>, unique: seq<Slot>, s: Slot)
    requires FirstOfEach(front, unique) && forall t :: t in unique ==> Precedes(t, s)
    ensures FirstOfEach(front + [s], if HasTime(unique, s.startsAt) then unique else unique + [s])
  {
    if HasTime(unique, s.startsAt) {
      KnownTime(front, unique, s);
    } else {
      NewTime(front, unique, s);
    }
  }

  lemma NewTime(slots: seq<Slot>, unique: seq<Slot>, s: Slot)
    requires FirstOfEach(slots, unique)
    requires forall t :: t in unique ==> Precedes(t, s) && t.startsAt != s.startsAt
    ensures FirstOfEach(slots + [s], unique + [s])
  {
    forall other | other in slots + [s]
      ensures Represented(unique + [s], other)
    {
      if other in slots {
        var t :| t in unique && t.startsAt == other.startsAt && t.staffMemberId <= other.staffMemberId;
        assert t in unique + [s];
      } else {
        assert s in unique + [s];
      }
    }
  }

  lemma KnownTime(slots: seq<Slot>, unique: seq<Slot>, s: Slot)
    requires FirstOfEach(slots, unique)
    requires forall t :: t in unique ==> Precedes(t, s)
    requires exists t :: t in unique && t.startsAt == s.startsAt
    ensures FirstOfEach(slots + [s], unique)
  {
    assert Represented(unique, s);
  }

  /** The times offered are exactly those of listable slots, each once. */
  method GetRescheduleSlots(db: Db, cfg: Config, id: nat, date: Date, now: int) returns (r: Result<seq<Slot>, ApiError>)
    requires id < |db.appointments| && db.appointments[id].serviceId in cfg.services
    ensures r == Err(NotActive) <==> db.appointments[id].status != Pending && db.appointments[id].status != Confirmed
    ensures r.Ok? ==> forall s :: s in r.value ==> ListedInTables(db, cfg, id, date, now, s)
    ensures r.Ok? ==> forall s :: ListedInTables(db, cfg, id, date, now, s) ==> Represented(r.value, s)
    ensures r == Err(InvalidTime) <==>
              (db.appointments[id].status == Pending || db.appointments[id].status == Confirmed)
              && ThrowsInTables(cfg, db.appointments[id].serviceId, date, now)
    ensures r.Ok? ==> forall s :: s in r.value ==> Listable(db, cfg, id, date, now, s)
    ensures r.Ok? ==> forall i, j :: 0 <= i < j < |r.value| ==> r.value[i].startsAt < r.value[j].startsAt
    ensures r.Ok? ==> forall s :: Listable(db, cfg, id, date, now, s) ==> Represented(r.value, s)
    ensures r == Err(InvalidTime) <==>
              db.appointments[id].status.Active()
              && Throws(InputFor(db.appointments, cfg, db.appointments[id].serviceId, date, Some(id), now))
    ensures r.Err? ==> r.error == NotActive || r.error == InvalidTime
  {
    forall s
      ensures Listable(db, cfg, id, date, now, s) <==> ListedInTables(db, cfg, id, date, now, s)
    {
      ListableIsInTables(db, cfg, id, date, now, s);
    }
    ThrowsIsInTables(db.appointments, cfg, db.appointments[id].serviceId, date, Some(id), now);
    if !db.appointments[id].status.Active() {
      return Err(NotActive);
    }
    var computed := CalculateAvailability(InputFor(db.appointments, cfg, db.appointments[id].serviceId, date, Some(id), now));
    if computed.Err? {
      return Err(InvalidTime);
    }
    var free := FreeSlots(db, cfg, id, date, now, computed.value);
    UniqueOfSorted(free);
    var unique := UniqueSlotsByStartTime(free);
    r := Ok(unique);
  }

  /** A slot of the same time whose staff member comes no later. */
  ghost predicate Represented(unique: seq<Slot>, s: Slot) {
    exists t :: t in unique && t.startsAt == s.startsAt && t.staffMemberId <= s.staffMemberId
  }

  lemma InOrder(slots: seq<Slot>, k: nat, earlier: seq<Slot>)
    requires Sorted(slots) && k < |slots|
    requires forall t :: t in earlier ==> t in slots[..k]
    ensures forall t :: t in earlier ==> Precedes(t, slots[k])
  {
    forall t | t in earlier
      ensures Precedes(t, slots[k])
    {
      var j :| 0 <= j < k && slots[..k][j] == t;
      assert slots[j] == t;
    }
  }

  // ---------------------------------------------------------------- what is listed can be taken

  /** Within the day, being clear of the loaded appointments is being clear of all. */
  lemma NotTakenIsFree(db: Db, cfg: Config, id: nat, date: Date, s: Slot)
    requires DayStart(date, cfg.zone) <= s.startsAt && s.endsAt <= DayEnd(date, cfg.zone)
    ensures !Taken(db.appointments, cfg.zone, date, id, s) <==>
            BusinessSlotIsFree(db.appointments, s.startsAt, s.endsAt, id)
  {
    if !Taken(db.appointments, cfg.zone, date, id, s) {
      forall i | 0 <= i < |db.appointments| && i != id && db.appointments[i].status.Active()
        ensures !Overlap(s.startsAt, s.endsAt, db.appointments[i].startsAt, db.appointments[i].endsAt)
      {
        assert MeetsDay(BusyOf(db.appointments[i]), date, cfg.zone) ==>
               !Overlap(s.startsAt, s.endsAt, db.appointments[i].startsAt, db.appointments[i].endsAt);
      }
    }
  }

  /**
   On a day with one offset the list and the guard agree: a staff member and time can be taken if and only if
   the slot is listable and is not the time the appointment already has.
   */
  lemma ListingAgreesWithTheGuard(db: Db, cfg: Config, id: nat, date: Date, now: int, staff: int, startsAt: int, o: int)
    requires id < |db.appointments| && db.appointments[id].status.Active()
    requires db.appointments[id].serviceId in cfg.services
    requires SteadyDay(cfg.zone, date, o) && DateInTimeZone(cfg.zone, startsAt) == date
    requires 0 <= cfg.services[db.appointments[id].serviceId].durationMinutes + cfg.services[db.appointments[id].serviceId].bufferMinutes
    requires !Throws(InputFor(db.appointments, cfg, db.appointments[id].serviceId, date, Some(id), now))
    ensures RescheduleAllowed(db, cfg, id, Some(staff), startsAt, now) <==>
              startsAt != db.appointments[id].startsAt
              && exists endsAt :: Listable(db, cfg, id, date, now, Slot(staff, startsAt, endsAt))
  {
    var serviceId := db.appointments[id].serviceId;
    var input := InputFor(db.appointments, cfg, serviceId, date, Some(id), now);
    forall endsAt | Availability.Offered(input, Slot(staff, startsAt, endsAt))
      ensures endsAt == startsAt + cfg.services[serviceId].LengthMs() && staff in cfg.activeStaff
      ensures Listable(db, cfg, id, date, now, Slot(staff, startsAt, endsAt)) <==>
              now < startsAt && BusinessSlotIsFree(db.appointments, startsAt, endsAt, id)
    {
      OfferedWithinTheDay(input, Slot(staff, startsAt, endsAt), o);
      OfferedStaffAreActive(db.appointments, cfg, serviceId, date, Some(id), now, Slot(staff, startsAt, endsAt));
      NotTakenIsFree(db, cfg, id, date, Slot(staff, startsAt, endsAt));
    }
    if RescheduleAllowed(db, cfg, id, Some(staff), startsAt, now) {
      var endsAt :| Availability.Offered(input, Slot(staff, startsAt, endsAt));
      assert Listable(db, cfg, id, date, now, Slot(staff, startsAt, endsAt));
    }
  }
}
