/**
 The booking engine (apps/api/src/appointments/appointments.service.ts and createSeries,
 cancelSeries in recurring-series.service.ts). Each method is one transaction: it works on a
 copy of the database and stores the copy at commit, so an error leaves the database unchanged.
 One business is modelled; time is a parameter of each call.
 */
module Appointments {
  import opened Outcomes
  import opened Tables
  import opened ZonedTime
  import opened Availability
  import opened Recurrence
  import opened Loading

  datatype ApiError =
    | OfferNotFound | ServiceNotFound | StaffNotFound | AppointmentNotFound | EntryNotFound | SeriesNotFound
    | NoStaffAvailable | SlotDoesNotMatchService | StaffNotAvailable | InvalidTime
    | InThePast | NotActive | SameTime | Occupied | AlreadyCancelled | InvalidDateRange

  // ---------------------------------------------------------------- the guard

  method AssertStaffMemberCanTakeSlot(
    appointments: seq<Appointment>, cfg: Config, serviceId: int, staff: int, startsAt: int, exclude: Option<nat>, now: int)
    returns (r: Result<(), ApiError>)
    requires serviceId in cfg.services
    ensures r.Ok? <==> FreeInTables(appointments, cfg, serviceId, staff, startsAt, exclude, now)
    ensures r.Ok? <==> CanTakeSlot(appointments, cfg, serviceId, staff, startsAt, exclude, now)
  {
    CanTakeSlotIsFreeInTables(appointments, cfg, serviceId, staff, startsAt, exclude, now);
    if staff !in cfg.activeStaff {
      return Err(StaffNotFound);
    }
    var slots := CalculateAvailability(GuardInput(appointments, cfg, serviceId, startsAt, exclude, now));
    if slots.Err? {
      return Err(InvalidTime);
    }
    if exists s | s in slots.value :: s.staffMemberId == staff && s.startsAt == startsAt {
      var s :| s in slots.value && s.staffMemberId == staff && s.startsAt == startsAt;
      assert s == Slot(staff, startsAt, s.endsAt);
      return Ok(());
    }
    return Err(StaffNotAvailable);
  }

  /** The first staff member, in order, who has a slot at that time. */
  ghost predicate First(input: Input, startsAt: int, staff: int) {
    SlotOpen(input, staff, startsAt) && forall other :: SlotOpen(input, other, startsAt) ==> staff <= other
  }

  /** Every slot of that staff member and time lasts as long as the service. */
  ghost predicate EndsMatch(input: Input, startsAt: int, staff: int, endsAt: int) {
    forall s :: Availability.Offered(input, s) && s.staffMemberId == staff && s.startsAt == startsAt ==> s.endsAt == endsAt
  }

  /** What the selection answers, up to which of several slots of one member and time comes first. */
  ghost predicate Selects(input: Input, startsAt: int, endsAt: int, r: Result<int, ApiError>) {
    match r
    case Ok(staff) =>
      !Throws(input) && First(input, startsAt, staff) && Availability.Offered(input, Slot(staff, startsAt, endsAt))
    case Err(error) =>
      match error
      case InvalidTime => Throws(input)
      case NoStaffAvailable => !Throws(input) && forall other :: !SlotOpen(input, other, startsAt)
      case SlotDoesNotMatchService =>
        !Throws(input) && exists staff :: First(input, startsAt, staff) && !EndsMatch(input, startsAt, staff, endsAt)
      case _ => false
  }

  /** So a first member whose slots all match is selected, and the two other answers are exact. */
  lemma SelectionIsExact(input: Input, startsAt: int, endsAt: int, r: Result<int, ApiError>)
    requires Selects(input, startsAt, endsAt, r)
    ensures r == Err(InvalidTime) <==> Throws(input)
    ensures r == Err(NoStaffAvailable) <==> !Throws(input) && forall other :: !SlotOpen(input, other, startsAt)
    ensures forall staff :: !Throws(input) && First(input, startsAt, staff) && EndsMatch(input, startsAt, staff, endsAt)
              ==> r == Ok(staff)
  {
    if r.Ok? {
      assert SlotOpen(input, r.value, startsAt);
    } else if r.error == SlotDoesNotMatchService {
      var staff :| First(input, startsAt, staff) && !EndsMatch(input, startsAt, staff, endsAt);
      assert SlotOpen(input, staff, startsAt);
    }
  }

  /** The first slot that starts at the requested time; slots come sorted, so its staff id is least. */
  method SelectAvailableStaffMember(
    appointments: seq<Appointment>, cfg: Config, serviceId: int, startsAt: int, now: int)
    returns (r: Result<int, ApiError>)
    requires serviceId in cfg.services
    ensures Selects(GuardInput(appointments, cfg, serviceId, startsAt, None, now), startsAt,
                    startsAt + cfg.services[serviceId].LengthMs(), r)
  {
    var input := GuardInput(appointments, cfg, serviceId, startsAt, None, now);
    var slotEnd := startsAt + cfg.services[serviceId].LengthMs();
    r := SelectFirst(input, startsAt, slotEnd);
  }

  method SelectFirst(input: Input, startsAt: int, slotEnd: int) returns (r: Result<int, ApiError>)
    ensures Selects(input, startsAt, slotEnd, r)
  {
    var slots := CalculateAvailability(input);
    if slots.Err? {
      ThrowingSelectsNone(input, startsAt, slotEnd);
      return Err(InvalidTime);
    }
    r := SelectFrom(input, slots.value, startsAt, slotEnd);
  }

  method SelectFrom(ghost input: Input, slots: seq<Slot>, startsAt: int, slotEnd: int) returns (r: Result<int, ApiError>)
    requires !Throws(input) && Sorted(slots) && forall s :: s in slots <==> Availability.Offered(input, s)
    ensures Selects(input, startsAt, slotEnd, r)
  {
    var i := FindSlot(slots, startsAt);
    if i.None? {
      NoneIsSelected(input, slots, startsAt, slotEnd);
      return Err(NoStaffAvailable);
    }
    FirstIsSelected(input, slots, i.value, startsAt, slotEnd);
    r := if slots[i.value].endsAt == slotEnd then Ok(slots[i.value].staffMemberId) else Err(SlotDoesNotMatchService);
  }

  lemma ThrowingSelectsNone(input: Input, startsAt: int, endsAt: int)
    requires Throws(input)
    ensures Selects(input, startsAt, endsAt, Err(InvalidTime))
  {
  }

  method FindSlot(slots: seq<Slot>, startsAt: int) returns (i: Option<nat>)
    ensures i.Some? ==> i.value < |slots| && slots[i.value].startsAt == startsAt
    ensures forall j :: 0 <= j < (if i.Some? then i.value else |slots|) ==> slots[j].startsAt != startsAt
  {
    for k := 0 to |slots|
      invariant forall j :: 0 <= j < k ==> slots[j].startsAt != startsAt
    {
      if slots[k].startsAt == startsAt {
        return Some(k);
      }
    }
    return None;
  }

  lemma NoneIsSelected(input: Input, slots: seq<Slot>, startsAt: int, endsAt: int)
    requires !Throws(input) && forall s :: s in slots <==> Availability.Offered(input, s)
    requires forall j :: 0 <= j < |slots| ==> slots[j].startsAt != startsAt
    ensures Selects(input, startsAt, endsAt, Err(NoStaffAvailable))
  {
    assert forall s :: s in slots ==> s.startsAt != startsAt;
    assert forall other, e :: Availability.Offered(input, Slot(other, startsAt, e)) ==> Slot(other, startsAt, e) in slots;
  }

  lemma FirstIsSelected(input: Input, slots: seq<Slot>, i: nat, startsAt: int, endsAt: int)
    requires !Throws(input) && Sorted(slots) && forall s :: s in slots <==> Availability.Offered(input, s)
    requires i < |slots| && slots[i].startsAt == startsAt
    requires forall j :: 0 <= j < i ==> slots[j].startsAt != startsAt
    ensures Selects(input, startsAt, endsAt,
                    if slots[i].endsAt == endsAt then Ok(slots[i].staffMemberId) else Err(SlotDoesNotMatchService))
  {
    FirstInOrder(input, slots, i, startsAt);
    var s := slots[i];
    assert s == Slot(s.staffMemberId, startsAt, s.endsAt);
    assert SlotOpen(input, s.staffMemberId, startsAt) && First(input, startsAt, s.staffMemberId);
  }

  lemma FirstInOrder(input: Input, slots: seq<Slot>, i: nat, startsAt: int)
    requires Sorted(slots) && forall s :: s in slots <==> Availability.Offered(input, s)
    requires i < |slots| && slots[i].startsAt == startsAt
    requires forall j :: 0 <= j < i ==> slots[j].startsAt != startsAt
    ensures Availability.Offered(input, slots[i])
    ensures forall staff :: First(input, startsAt, staff) <==> staff == slots[i].staffMemberId
  {
    var s := slots[i];
    assert s in slots && s == Slot(s.staffMemberId, startsAt, s.endsAt);
    assert SlotOpen(input, s.staffMemberId, startsAt);
    forall other | SlotOpen(input, other, startsAt)
      ensures s.staffMemberId <= other
    {
      var e :| Availability.Offered(input, Slot(other, startsAt, e));
      var k :| 0 <= k < |slots| && slots[k] == Slot(other, startsAt, e);
      assert k == i || Precedes(slots[i], slots[k]);
    }
  }

  /** The given staff member, or the first available one, after the guard. */
  method ChooseStaffMember(
    appointments: seq<Appointment>, cfg: Config, serviceId: int, staff: Option<int>, startsAt: int, now: int)
    returns (r: Result<int, ApiError>)
    requires serviceId in cfg.services
    ensures r.Ok? ==> CanTakeSlot(appointments, cfg, serviceId, r.value, startsAt, None, now)
    ensures staff.Some? ==> (r.Ok? <==> CanTakeSlot(appointments, cfg, serviceId, staff.value, startsAt, None, now))
    ensures staff.Some? && r.Ok? ==> r.value == staff.value
    ensures staff.None? && r.Ok? ==> First(GuardInput(appointments, cfg, serviceId, startsAt, None, now), startsAt, r.value)
    ensures staff.None? ==>
              forall member :: Selectable(appointments, cfg, serviceId, startsAt, now, member) ==> r == Ok(member)
  {
    var staffMemberId: int;
    if staff.Some? {
      staffMemberId := staff.value;
    } else {
      var selected := SelectAvailableStaffMember(appointments, cfg, serviceId, startsAt, now);
      SelectionIsExact(GuardInput(appointments, cfg, serviceId, startsAt, None, now), startsAt,
                       startsAt + cfg.services[serviceId].LengthMs(), selected);
      if selected.Err? {
        return Err(selected.error);
      }
      staffMemberId := selected.value;
      OfferedStaffAreActive(appointments, cfg, serviceId, DateInTimeZone(cfg.zone, startsAt), None, now,
                            Slot(staffMemberId, startsAt, startsAt + cfg.services[serviceId].LengthMs()));
    }
    var guard := AssertStaffMemberCanTakeSlot(appointments, cfg, serviceId, staffMemberId, startsAt, None, now);
    if guard.Err? {
      return Err(guard.error);
    }
    r := Ok(staffMemberId);
  }

  /** Without a given staff member: the first one available, whose slot at that time lasts as long as the service. */
  ghost predicate Selectable(
    appointments: seq<Appointment>, cfg: Config, serviceId: int, startsAt: int, now: int, member: int)
    requires serviceId in cfg.services
  {
    var input := GuardInput(appointments, cfg, serviceId, startsAt, None, now);
    && !Throws(input)
    && First(input, startsAt, member)
    && EndsMatch(input, startsAt, member, startsAt + cfg.services[serviceId].LengthMs())
  }

  /** On a day with one offset every slot lasts as long as its service, so the first available member is selectable. */
  lemma SlotsMatchOnASteadyDay(
    appointments: seq<Appointment>, cfg: Config, serviceId: int, startsAt: int, now: int, member: int, o: int)
    requires serviceId in cfg.services && SteadyDay(cfg.zone, DateInTimeZone(cfg.zone, startsAt), o)
    requires 0 <= cfg.services[serviceId].durationMinutes + cfg.services[serviceId].bufferMinutes
    ensures EndsMatch(GuardInput(appointments, cfg, serviceId, startsAt, None, now), startsAt, member,
                      startsAt + cfg.services[serviceId].LengthMs())
  {
    var input := GuardInput(appointments, cfg, serviceId, startsAt, None, now);
    forall s | Availability.Offered(input, s) && s.startsAt == startsAt
      ensures s.endsAt == startsAt + cfg.services[serviceId].LengthMs()
    {
      OfferedWithinTheDay(input, s, o);
    }
  }

  // ---------------------------------------------------------------- create, and accept an offer

  /** An unknown customer is created; a waitlist offer is present when the booking accepts it. */
  datatype Booking = Booking(
    serviceId: int,
    staff: Option<int>,
    startsAt: int,
    customer: Option<nat>,
    offer: Option<nat>,
    now: int
  )

  predicate OfferLive(db: Db, offer: nat, now: int) {
    offer < |db.offers| && db.offers[offer].status.Open? && db.offers[offer].expiresAt > now
  }

  predicate CreateFits(db: Db, cfg: Config, b: Booking) {
    && (b.customer.Some? ==> b.customer.value < |db.customers|)
    && (b.offer.Some? ==> OfferLive(db, b.offer.value, b.now))
    && b.serviceId in cfg.services && cfg.services[b.serviceId].active
  }

  ghost predicate CreateAllowed(db: Db, cfg: Config, b: Booking, staff: int) {
    && CreateFits(db, cfg, b)
    && (b.staff.Some? ==> staff == b.staff.value)
    && CanTakeSlot(db.appointments, cfg, b.serviceId, staff, b.startsAt, None, b.now)
  }

  function UpsertCustomer(customers: seq<Customer>, known: Option<nat>): (seq<Customer>, nat)
    requires known.Some? ==> known.value < |customers|
  {
    if known.Some? then (customers, known.value) else (customers + [Customer(0, 0, 0, 0)], |customers|)
  }

  function NewAppointment(cfg: Config, b: Booking, staff: int, customer: nat): Appointment
    requires b.serviceId in cfg.services
  {
    Appointment(b.serviceId, staff, customer, b.startsAt, b.startsAt + cfg.services[b.serviceId].LengthMs(), Confirmed, None)
  }

  function EventOf(kind: EventKind, id: nat, a: Appointment, now: int): Event {
    Event(kind, id, a.serviceId, a.startsAt, now)
  }

  function AcceptOffer(offers: seq<Offer>, offer: Option<nat>): seq<Offer>
    requires offer.Some? ==> offer.value < |offers|
  {
    if offer.None? then offers else offers[offer.value := offers[offer.value].(status := Accepted)]
  }

  ghost function AfterCreate(db: Db, cfg: Config, b: Booking, staff: int): Db
    requires db.Linked() && CreateFits(db, cfg, b)
  {
    var (customers, c) := UpsertCustomer(db.customers, b.customer);
    var a, id := NewAppointment(cfg, b, staff, c), |db.appointments|;
    var booked := db.(
      appointments := db.appointments + [a],
      customers := customers[c := customers[c].(total := customers[c].total + 1)],
      outbox := db.outbox + [EventOf(AppointmentBooked, id, a, b.now)]);
    if b.offer.None? then booked
    else
      var o := b.offer.value;
      var e := db.offers[o].entryId;
      booked.(
        offers := db.offers[o := db.offers[o].(status := Accepted)],
        entries := db.entries[e := db.entries[e].(status := Booked)],
        outbox := booked.outbox + [EventOf(WaitlistOfferAccepted, o, a, b.now), EventOf(SlotReassigned, id, a, b.now)])
  }

  /** What a booking leaves in the tables, row by row. */
  ghost predicate BookingStored(db: Db, cfg: Config, b: Booking, staff: int, db': Db)
    requires b.serviceId in cfg.services
  {
    var c := if b.customer.Some? then b.customer.value else |db.customers|;
    var service := cfg.services[b.serviceId];
    && db'.appointments == db.appointments
         + [Appointment(b.serviceId, staff, c, b.startsAt,
                        b.startsAt + 60_000 * (service.durationMinutes + service.bufferMinutes), Confirmed, None)]
    && OneMoreTotal(db.customers, c, db'.customers)
    && db'.series == db.series && db'.processed == db.processed
    && if b.offer.None? then
         && db'.offers == db.offers && db'.entries == db.entries
         && db'.outbox == db.outbox + [Event(AppointmentBooked, |db.appointments|, b.serviceId, b.startsAt, b.now)]
       else
         && OfferTaken(db, b.offer.value, db')
         && db'.outbox == db.outbox
              + [Event(AppointmentBooked, |db.appointments|, b.serviceId, b.startsAt, b.now),
                 Event(WaitlistOfferAccepted, b.offer.value, b.serviceId, b.startsAt, b.now),
                 Event(SlotReassigned, |db.appointments|, b.serviceId, b.startsAt, b.now)]
  }

  /** One customer has one appointment more in total, or is new and has one; the others are as they were. */
  ghost predicate OneMoreTotal(customers: seq<Customer>, c: nat, after: seq<Customer>) {
    && c <= |customers|
    && |after| == (if c < |customers| then |customers| else |customers| + 1)
    && (if c < |customers| then after[c] == customers[c].(total := customers[c].total + 1) else after[c] == Customer(1, 0, 0, 0))
    && forall k :: 0 <= k < |customers| && k != c ==> after[k] == customers[k]
  }

  /** The offer is accepted and its entry booked; the others are as they were. */
  ghost predicate OfferTaken(db: Db, o: nat, db': Db) {
    && o < |db.offers| == |db'.offers| && db.offers[o].entryId < |db.entries| == |db'.entries|
    && (forall k :: 0 <= k < |db.offers| ==>
          db'.offers[k] == if k == o then db.offers[k].(status := Accepted) else db.offers[k])
    && (forall k :: 0 <= k < |db.entries| ==>
          db'.entries[k] == if k == db.offers[o].entryId then db.entries[k].(status := Booked) else db.entries[k])
  }

  /** What a booking with this staff member needs, told in rows and times. */
  ghost predicate MayBook(db: Db, cfg: Config, b: Booking, staff: int) {
    && (b.customer.Some? ==> b.customer.value < |db.customers|)
    && (b.offer.Some? ==> MayAccept(db, b.offer.value, b.now))
    && (b.staff == None || b.staff == Some(staff))
    && b.serviceId in cfg.services && cfg.services[b.serviceId].active
    && FreeInTables(db.appointments, cfg, b.serviceId, staff, b.startsAt, None, b.now)
  }

  /** The offer is still pending and its time has not run out. */
  ghost predicate MayAccept(db: Db, o: nat, now: int) {
    o < |db.offers| && db.offers[o].status == Open && now < db.offers[o].expiresAt
  }

  lemma CreateAllowedIsMayBook(db: Db, cfg: Config, b: Booking, staff: int)
    ensures CreateAllowed(db, cfg, b, staff) <==> MayBook(db, cfg, b, staff)
  {
    if b.serviceId in cfg.services {
      CanTakeSlotIsFreeInTables(db.appointments, cfg, b.serviceId, staff, b.startsAt, None, b.now);
    }
  }

  ghost predicate OpenFor(db: Db, cfg: Config, b: Booking, staff: int)
    requires b.serviceId in cfg.services
  {
    exists endsAt ::
      OpenInTables(db.appointments, cfg, b.serviceId, DateInTimeZone(cfg.zone, b.startsAt), None, b.now, Slot(staff, b.startsAt, endsAt))
  }

  /** Nobody who comes earlier in the order of staff members is open at that time. */
  lemma FirstIsLeast(db: Db, cfg: Config, b: Booking, staff: int)
    requires b.serviceId in cfg.services
    ensures FirstAvailable(db, cfg, b, staff) <==>
            OpenFor(db, cfg, b, staff) && forall other :: OpenFor(db, cfg, b, other) ==> staff <= other
  {
    var date := DateInTimeZone(cfg.zone, b.startsAt);
    forall other
      ensures SlotOpen(GuardInput(db.appointments, cfg, b.serviceId, b.startsAt, None, b.now), other, b.startsAt)
         <==> OpenFor(db, cfg, b, other)
    {
      forall endsAt
        ensures Availability.Offered(GuardInput(db.appointments, cfg, b.serviceId, b.startsAt, None, b.now),
                                     Slot(other, b.startsAt, endsAt))
           <==> OpenInTables(db.appointments, cfg, b.serviceId, date, None, b.now, Slot(other, b.startsAt, endsAt))
      {
        OfferedIsOpenInTables(db.appointments, cfg, b.serviceId, date, None, b.now, Slot(other, b.startsAt, endsAt));
      }
    }
  }

  lemma AfterCreateIsStored(db: Db, cfg: Config, b: Booking, staff: int)
    requires db.Linked() && CreateFits(db, cfg, b)
    ensures BookingStored(db, cfg, b, staff, AfterCreate(db, cfg, b, staff))
  {
    var db' := AfterCreate(db, cfg, b, staff);
    if b.offer.Some? {
      assert db'.outbox == db.outbox
        + [Event(AppointmentBooked, |db.appointments|, b.serviceId, b.startsAt, b.now),
           Event(WaitlistOfferAccepted, b.offer.value, b.serviceId, b.startsAt, b.now),
           Event(SlotReassigned, |db.appointments|, b.serviceId, b.startsAt, b.now)];
    }
  }

  /** The booking names nobody and this member is selectable for it. */
  ghost predicate SelectsItself(db: Db, cfg: Config, b: Booking, staff: int) {
    b.staff.None? && CreateFits(db, cfg, b) && Selectable(db.appointments, cfg, b.serviceId, b.startsAt, b.now, staff)
  }

  ghost predicate FirstAvailable(db: Db, cfg: Config, b: Booking, staff: int) {
    b.serviceId in cfg.services
    && First(GuardInput(db.appointments, cfg, b.serviceId, b.startsAt, None, b.now), b.startsAt, staff)
  }

  /** The booking was allowed with this staff member, who is the first in order if none was asked for, and is stored. */
  ghost predicate BookedWith(db: Db, cfg: Config, b: Booking, staff: int, db': Db)
    requires db.Linked()
  {
    && CreateAllowed(db, cfg, b, staff) && db' == AfterCreate(db, cfg, b, staff)
    && (b.staff.None? ==> FirstAvailable(db, cfg, b, staff))
    && MayBook(db, cfg, b, staff)
    && (b.staff == None ==> OpenFor(db, cfg, b, staff) && forall other :: OpenFor(db, cfg, b, other) ==> staff <= other)
    && BookingStored(db, cfg, b, staff, db')
  }

  lemma BookingMeetsItsContract(db: Db, cfg: Config, b: Booking, staff: int)
    requires db.Linked() && CreateAllowed(db, cfg, b, staff) && (b.staff.None? ==> FirstAvailable(db, cfg, b, staff))
    ensures BookedWith(db, cfg, b, staff, AfterCreate(db, cfg, b, staff))
  {
    CreateAllowedIsMayBook(db, cfg, b, staff);
    AfterCreateIsStored(db, cfg, b, staff);
    FirstIsLeast(db, cfg, b, staff);
  }

  lemma BookingWithStaff(db: Db, cfg: Config, b: Booking)
    ensures b.staff.Some? ==> (MayBook(db, cfg, b, b.staff.value) <==> CreateAllowed(db, cfg, b, b.staff.value))
  {
    if b.staff.Some? {
      CreateAllowedIsMayBook(db, cfg, b, b.staff.value);
    }
  }

  method CreateAppointmentInTransaction(store: Database, cfg: Config, b: Booking) returns (r: Result<nat, ApiError>)
    requires store.db.Linked()
    requires b.customer.Some? ==> b.customer.value < |store.db.customers|
    modifies store
    ensures r.Err? ==> store.db == old(store.db)
    ensures r.Ok? ==> r.value == |old(store.db).appointments| && exists staff :: BookedWith(old(store.db), cfg, b, staff, store.db)
    ensures b.staff.Some? ==> (r.Ok? <==> MayBook(old(store.db), cfg, b, b.staff.value))
    ensures b.staff.Some? ==> (r.Ok? <==> CreateAllowed(old(store.db), cfg, b, b.staff.value))
    ensures forall staff :: SelectsItself(old(store.db), cfg, b, staff) ==>
              r.Ok? && store.db == AfterCreate(old(store.db), cfg, b, staff)
  {
    BookingWithStaff(store.db, cfg, b);
    var tx := store.db;
    if b.offer.Some? {
      if !OfferLive(tx, b.offer.value, b.now) {
        return Err(OfferNotFound);
      }
      tx := tx.(offers := AcceptOffer(tx.offers, b.offer));
    }
    if b.serviceId !in cfg.services || !cfg.services[b.serviceId].active {
      return Err(ServiceNotFound);
    }
    var chosen := ChooseStaffMember(tx.appointments, cfg, b.serviceId, b.staff, b.startsAt, b.now);
    if chosen.Err? {
      return Err(chosen.error);
    }
    var staff := chosen.value;
    tx := InsertBooking(store.db, tx, cfg, b, staff);
    BookingMeetsItsContract(store.db, cfg, b, staff);
    r := Ok(|store.db.appointments|);
    store.db := tx;
  }

  /** The writes that follow the guard. */
  method InsertBooking(ghost db: Db, begun: Db, cfg: Config, b: Booking, staff: int) returns (tx: Db)
    requires db.Linked() && CreateFits(db, cfg, b)
    requires begun == db.(offers := AcceptOffer(db.offers, b.offer))
    ensures tx == AfterCreate(db, cfg, b, staff)
  {
    tx := begun;
    var (customers, c) := UpsertCustomer(tx.customers, b.customer);
    var a, id := NewAppointment(cfg, b, staff, c), |tx.appointments|;
    tx := tx.(appointments := tx.appointments + [a]);
    tx := tx.(customers := customers[c := customers[c].(total := customers[c].total + 1)]);
    if b.offer.Some? {
      var e := tx.offers[b.offer.value].entryId;
      tx := tx.(entries := tx.entries[e := tx.entries[e].(status := Booked)]);
    }
    tx := tx.(outbox := tx.outbox + [EventOf(AppointmentBooked, id, a, b.now)]);
    if b.offer.Some? {
      tx := tx.(outbox := tx.outbox + [EventOf(WaitlistOfferAccepted, b.offer.value, a, b.now)]);
      tx := tx.(outbox := tx.outbox + [EventOf(SlotReassigned, id, a, b.now)]);
    }
    assert tx.outbox == AfterCreate(db, cfg, b, staff).outbox;
  }

  // ---------------------------------------------------------------- reschedule

  ghost predicate BusinessSlotIsFree(appointments: seq<Appointment>, startsAt: int, endsAt: int, exclude: nat) {
    forall i :: 0 <= i < |appointments| && i != exclude && appointments[i].status.Active() ==>
      !Overlap(startsAt, endsAt, appointments[i].startsAt, appointments[i].endsAt)
  }

  method AssertBusinessSlotIsFree(appointments: seq<Appointment>, startsAt: int, endsAt: int, exclude: nat)
    returns (r: Result<(), ApiError>)
    ensures r.Ok? <==> BusinessSlotIsFree(appointments, startsAt, endsAt, exclude)
    ensures r.Err? ==> r.error == Occupied
  {
    if exists i | 0 <= i < |appointments| ::
         && i != exclude && appointments[i].status.Active()
         && Overlap(startsAt, endsAt, appointments[i].startsAt, appointments[i].endsAt)
    {
      return Err(Occupied);
    }
    r := Ok(());
  }

  function RescheduleStaff(db: Db, id: nat, staff: Option<int>): int
    requires id < |db.appointments|
  {
    if staff.Some? then staff.value else db.appointments[id].staffMemberId
  }

  ghost predicate RescheduleAllowed(db: Db, cfg: Config, id: nat, staff: Option<int>, startsAt: int, now: int) {
    && now < startsAt
    && id < |db.appointments|
    && var a := db.appointments[id];
       && a.status.Active()
       && startsAt != a.startsAt
       && CanTakeSlot(db.appointments, cfg, a.serviceId, RescheduleStaff(db, id, staff), startsAt, Some(id), now)
       && BusinessSlotIsFree(db.appointments, startsAt, startsAt + cfg.services[a.serviceId].LengthMs(), id)
  }

  function AfterReschedule(db: Db, cfg: Config, id: nat, staff: Option<int>, startsAt: int, now: int): Db
    requires id < |db.appointments| && db.appointments[id].serviceId in cfg.services
  {
    var a := db.appointments[id];
    var moved := a.(startsAt := startsAt, endsAt := startsAt + cfg.services[a.serviceId].LengthMs(),
                    staffMemberId := RescheduleStaff(db, id, staff));
    db.(appointments := db.appointments[id := moved],
        outbox := db.outbox + [EventOf(AppointmentRescheduled, id, moved, now)])
  }

  /** What a move leaves: one row with a new time and staff member, and one event. */
  ghost predicate MoveStored(db: Db, cfg: Config, id: nat, staff: Option<int>, startsAt: int, now: int, db': Db)
    requires id < |db.appointments| && db.appointments[id].serviceId in cfg.services
  {
    var a := db.appointments[id];
    var service := cfg.services[a.serviceId];
    && db' == db.(appointments := db'.appointments, outbox := db'.outbox)
    && |db'.appointments| == |db.appointments|
    && db'.appointments[id]
         == Appointment(a.serviceId, if staff == None then a.staffMemberId else staff.value, a.customerId, startsAt,
                        startsAt + 60_000 * (service.durationMinutes + service.bufferMinutes), a.status, a.seriesId)
    && (forall k :: 0 <= k < |db.appointments| && k != id ==> db'.appointments[k] == db.appointments[k])
    && db'.outbox == db.outbox + [Event(AppointmentRescheduled, id, a.serviceId, startsAt, now)]
  }

  lemma AfterRescheduleIsStored(db: Db, cfg: Config, id: nat, staff: Option<int>, startsAt: int, now: int)
    requires id < |db.appointments| && db.appointments[id].serviceId in cfg.services
    ensures MoveStored(db, cfg, id, staff, startsAt, now, AfterReschedule(db, cfg, id, staff, startsAt, now))
  {
  }

  /** The move keeps to the rules: what it checks, told in rows and times. */
  ghost predicate MayMove(db: Db, cfg: Config, id: nat, staff: Option<int>, startsAt: int, now: int) {
    && now < startsAt && id < |db.appointments|
    && var a := db.appointments[id];
       && (a.status == Pending || a.status == Confirmed) && a.startsAt != startsAt
       && a.serviceId in cfg.services
       && FreeInTables(db.appointments, cfg, a.serviceId, if staff == None then a.staffMemberId else staff.value, startsAt, Some(id), now)
       && var endsAt := startsAt + 60_000 * (cfg.services[a.serviceId].durationMinutes + cfg.services[a.serviceId].bufferMinutes);
          forall k :: 0 <= k < |db.appointments| && k != id
                      && (db.appointments[k].status == Pending || db.appointments[k].status == Confirmed) ==>
                        db.appointments[k].endsAt <= startsAt || endsAt <= db.appointments[k].startsAt
  }

  lemma RescheduleAllowedIsMayMove(db: Db, cfg: Config, id: nat, staff: Option<int>, startsAt: int, now: int)
    ensures RescheduleAllowed(db, cfg, id, staff, startsAt, now) <==> MayMove(db, cfg, id, staff, startsAt, now)
  {
    if id < |db.appointments| && db.appointments[id].serviceId in cfg.services {
      CanTakeSlotIsFreeInTables(db.appointments, cfg, db.appointments[id].serviceId, RescheduleStaff(db, id, staff), startsAt, Some(id), now);
    }
  }

  /** The checks that come before the writes. */
  method CheckReschedule(tx: Db, cfg: Config, id: nat, staff: Option<int>, startsAt: int, now: int)
    returns (r: Result<(), ApiError>)
    requires forall i :: 0 <= i < |tx.appointments| ==> tx.appointments[i].serviceId in cfg.services
    ensures r.Ok? <==> RescheduleAllowed(tx, cfg, id, staff, startsAt, now)
  {
    if startsAt <= now {
      return Err(InThePast);
    }
    if |tx.appointments| <= id {
      return Err(AppointmentNotFound);
    }
    var current := tx.appointments[id];
    if !current.status.Active() {
      return Err(NotActive);
    }
    if startsAt == current.startsAt {
      return Err(SameTime);
    }
    var staffMemberId := RescheduleStaff(tx, id, staff);
    var guard := AssertStaffMemberCanTakeSlot(tx.appointments, cfg, current.serviceId, staffMemberId, startsAt, Some(id), now);
    if guard.Err? {
      return Err(guard.error);
    }
    var endsAt := startsAt + cfg.services[current.serviceId].LengthMs();
    var free := AssertBusinessSlotIsFree(tx.appointments, startsAt, endsAt, id);
    if free.Err? {
      return Err(Occupied);
    }
    r := Ok(());
  }

  method WriteReschedule(begun: Db, cfg: Config, id: nat, staff: Option<int>, startsAt: int, now: int) returns (tx: Db)
    requires id < |begun.appointments| && begun.appointments[id].serviceId in cfg.services
    ensures tx == AfterReschedule(begun, cfg, id, staff, startsAt, now)
  {
    tx := begun;
    var current := tx.appointments[id];
    var endsAt := startsAt + cfg.services[current.serviceId].LengthMs();
    var moved := current.(startsAt := startsAt, endsAt := endsAt, staffMemberId := RescheduleStaff(tx, id, staff));
    tx := tx.(appointments := tx.appointments[id := moved]);
    tx := tx.(outbox := tx.outbox + [EventOf(AppointmentRescheduled, id, moved, now)]);
  }

  method RescheduleAppointment(store: Database, cfg: Config, id: nat, staff: Option<int>, startsAt: int, now: int)
    returns (r: Result<(), ApiError>)
    requires forall i :: 0 <= i < |store.db.appointments| ==> store.db.appointments[i].serviceId in cfg.services
    modifies store
    ensures r.Ok? <==> MayMove(old(store.db), cfg, id, staff, startsAt, now)
    ensures r.Ok? ==> MoveStored(old(store.db), cfg, id, staff, startsAt, now, store.db)
    ensures r.Ok? <==> RescheduleAllowed(old(store.db), cfg, id, staff, startsAt, now)
    ensures r.Ok? ==> store.db == AfterReschedule(old(store.db), cfg, id, staff, startsAt, now)
    ensures r.Err? ==> store.db == old(store.db)
  {
    RescheduleAllowedIsMayMove(store.db, cfg, id, staff, startsAt, now);
    var tx := store.db;
    var check := CheckReschedule(tx, cfg, id, staff, startsAt, now);
    if check.Err? {
      return Err(check.error);
    }
    AfterRescheduleIsStored(tx, cfg, id, staff, startsAt, now);
    tx := WriteReschedule(tx, cfg, id, staff, startsAt, now);
    store.db := tx;
    r := Ok(());
  }

  // ---------------------------------------------------------------- cancel and status updates

  function AfterCancel(db: Db, id: nat, status: Status, now: int): Db
    requires id < |db.appointments|
  {
    var a := db.appointments[id].(status := status);
    db.(appointments := db.appointments[id := a],
        outbox := db.outbox + [EventOf(AppointmentCancelled, id, a, now), EventOf(SlotReleased, id, a, now)])
  }

  /** What a cancellation leaves: one closed row, its cancellation and the release of its slot. */
  ghost predicate CancelStored(db: Db, id: nat, status: Status, now: int, db': Db)
    requires id < |db.appointments|
  {
    var a := db.appointments[id];
    && db' == db.(appointments := db'.appointments, outbox := db'.outbox)
    && |db'.appointments| == |db.appointments|
    && (forall k :: 0 <= k < |db.appointments| ==>
          db'.appointments[k] == if k == id then db.appointments[k].(status := status) else db.appointments[k])
    && db'.outbox == db.outbox + [Event(AppointmentCancelled, id, a.serviceId, a.startsAt, now),
                                  Event(SlotReleased, id, a.serviceId, a.startsAt, now)]
  }

  lemma AfterCancelIsStored(db: Db, id: nat, status: Status, now: int)
    requires id < |db.appointments|
    ensures CancelStored(db, id, status, now, AfterCancel(db, id, status, now))
  {
  }

  /** The customer's cancellation; the public and the portal path differ only in how they authenticate. */
  method CancelByCustomer(store: Database, id: nat, now: int) returns (r: Result<(), ApiError>)
    modifies store
    ensures r.Ok? <==>
              id < |old(store.db).appointments|
              && (old(store.db).appointments[id].status == Pending || old(store.db).appointments[id].status == Confirmed)
    ensures r.Ok? ==> CancelStored(old(store.db), id, CancelledByCustomer, now, store.db)
    ensures r.Ok? ==> store.db == AfterCancel(old(store.db), id, CancelledByCustomer, now)
    ensures r.Err? ==> store.db == old(store.db)
  {
    if |store.db.appointments| <= id {
      return Err(AppointmentNotFound);
    }
    if !store.db.appointments[id].status.Active() {
      return Err(NotActive);
    }
    var tx := store.db;
    var a := tx.appointments[id].(status := CancelledByCustomer);
    tx := tx.(appointments := tx.appointments[id := a]);
    tx := tx.(outbox := tx.outbox + [EventOf(AppointmentCancelled, id, a, now)]);
    tx := tx.(outbox := tx.outbox + [EventOf(SlotReleased, id, a, now)]);
    assert tx.outbox == AfterCancel(store.db, id, CancelledByCustomer, now).outbox;
    store.db := tx;
    r := Ok(());
  }

  /** What a status update reads, in a statement of its own, before its transaction begins. */
  datatype StatusRead = StatusRead(status: Status, completed: int, noShow: int)

  function ReadOf(db: Db, id: nat): StatusRead
    requires id < |db.appointments| && db.appointments[id].customerId < |db.customers|
  {
    var c := db.customers[db.appointments[id].customerId];
    StatusRead(db.appointments[id].status, c.completed, c.noShow)
  }

  function StatusDelta(previous: Status, next: Status, tracked: Status): int {
    if previous == tracked && next != tracked then -1
    else if previous != tracked && next == tracked then 1
    else 0
  }

  function AtLeastZero(x: int): int {
    if x < 0 then 0 else x
  }

  function CountersAfter(c: Customer, next: Status, read: StatusRead): Customer {
    var noShowDelta := StatusDelta(read.status, next, NoShow);
    var completedDelta := StatusDelta(read.status, next, Completed);
    if noShowDelta == 0 && completedDelta == 0 then c
    else c.(completed := AtLeastZero(read.completed + completedDelta), noShow := AtLeastZero(read.noShow + noShowDelta))
  }

  predicate SettableStatus(s: Status) {
    s.Confirmed? || s.Completed? || s.NoShow? || s.CancelledByBusiness?
  }

  function StatusEvents(next: Status, id: nat, a: Appointment, now: int): seq<Event> {
    match next
    case Confirmed => [EventOf(AppointmentConfirmed, id, a, now)]
    case Completed => [EventOf(AppointmentCompleted, id, a, now)]
    case NoShow => [EventOf(AppointmentMarkedAsNoShow, id, a, now)]
    case CancelledByBusiness => [EventOf(AppointmentCancelled, id, a, now), EventOf(SlotReleased, id, a, now)]
    case _ => []
  }

  /** The commit of a status update: no guard on the previous status, counters from what was read. */
  function AfterStatus(db: Db, id: nat, next: Status, read: StatusRead, now: int): Db
    requires id < |db.appointments| && db.appointments[id].customerId < |db.customers|
  {
    var a := db.appointments[id].(status := next);
    db.(appointments := db.appointments[id := a],
        customers := db.customers[a.customerId := CountersAfter(db.customers[a.customerId], next, read)],
        outbox := db.outbox + StatusEvents(next, id, a, now))
  }

  /** A counter after an update: one more, one less but not below zero, or the one the update need not touch. */
  function Counted(present: int, read: int, was: bool, will: bool, touched: bool): int {
    if !touched then present
    else if will && !was then (if read + 1 < 0 then 0 else read + 1)
    else if was && !will then (if read - 1 < 0 then 0 else read - 1)
    else if read < 0 then 0 else read
  }

  /** What a status update leaves: one row, its customer's two counters as read and moved, and the events of the status. */
  ghost predicate StatusStored(db: Db, id: nat, next: Status, read: StatusRead, now: int, db': Db)
    requires id < |db.appointments| && db.appointments[id].customerId < |db.customers|
  {
    var a := db.appointments[id];
    var c := db.customers[a.customerId];
    var touched := (read.status == Completed) != (next == Completed) || (read.status == NoShow) != (next == NoShow);
    && db' == db.(appointments := db'.appointments, customers := db'.customers, outbox := db'.outbox)
    && |db'.appointments| == |db.appointments| && |db'.customers| == |db.customers|
    && (forall k :: 0 <= k < |db.appointments| ==>
          db'.appointments[k] == if k == id then db.appointments[k].(status := next) else db.appointments[k])
    && (forall k :: 0 <= k < |db.customers| && k != a.customerId ==> db'.customers[k] == db.customers[k])
    && db'.customers[a.customerId]
         == Customer(c.total, Counted(c.completed, read.completed, read.status == Completed, next == Completed, touched),
                     Counted(c.noShow, read.noShow, read.status == NoShow, next == NoShow, touched), c.cancelled)
    && db'.outbox == db.outbox +
         match next
         case Confirmed => [Event(AppointmentConfirmed, id, a.serviceId, a.startsAt, now)]
         case Completed => [Event(AppointmentCompleted, id, a.serviceId, a.startsAt, now)]
         case NoShow => [Event(AppointmentMarkedAsNoShow, id, a.serviceId, a.startsAt, now)]
         case CancelledByBusiness => [Event(AppointmentCancelled, id, a.serviceId, a.startsAt, now),
                                      Event(SlotReleased, id, a.serviceId, a.startsAt, now)]
         case _ => []
  }

  lemma AfterStatusIsStored(db: Db, id: nat, next: Status, read: StatusRead, now: int)
    requires id < |db.appointments| && db.appointments[id].customerId < |db.customers|
    ensures StatusStored(db, id, next, read, now, AfterStatus(db, id, next, read, now))
  {
    var db', a := AfterStatus(db, id, next, read, now), db.appointments[id].(status := next);
    assert db'.outbox == db.outbox + StatusEvents(next, id, a, now);
  }

  /** The whole request when nothing commits between its read and its transaction. */
  method UpdatePrivateAppointmentStatus(store: Database, id: nat, next: Status, now: int) returns (r: Result<(), ApiError>)
    requires store.db.Linked() && SettableStatus(next)
    modifies store
    ensures r.Ok? <==> id < |old(store.db).appointments|
    ensures r.Ok? ==>
      var a := old(store.db).appointments[id];
      var c := old(store.db).customers[a.customerId];
      StatusStored(old(store.db), id, next, StatusRead(a.status, c.completed, c.noShow), now, store.db)
    ensures r.Ok? ==> store.db == AfterStatus(old(store.db), id, next, ReadOf(old(store.db), id), now)
    ensures r.Err? ==> store.db == old(store.db)
  {
    if |store.db.appointments| <= id {
      return Err(AppointmentNotFound);
    }
    var read := ReadOf(store.db, id);
    AfterStatusIsStored(store.db, id, next, read, now);
    var tx := store.db;
    var a := tx.appointments[id].(status := next);
    tx := tx.(appointments := tx.appointments[id := a]);
    var noShowDelta := StatusDelta(read.status, next, NoShow);
    var completedDelta := StatusDelta(read.status, next, Completed);
    if noShowDelta != 0 || completedDelta != 0 {
      var c := tx.customers[a.customerId].(
        completed := AtLeastZero(read.completed + completedDelta),
        noShow := AtLeastZero(read.noShow + noShowDelta));
      tx := tx.(customers := tx.customers[a.customerId := c]);
    }
    tx := tx.(outbox := tx.outbox + StatusEvents(next, id, a, now));
    store.db := tx;
    r := Ok(());
  }

  // ---------------------------------------------------------------- recurring series

  datatype SeriesRequest = SeriesRequest(
    customer: nat,
    serviceId: int,
    staff: int,
    first: int,
    unit: Unit,
    value: int,
    count: nat,
    now: int
  )

  function Occurrence(cfg: Config, s: SeriesRequest, seriesId: nat, i: int): Appointment
    requires s.serviceId in cfg.services
  {
    var startsAt := AddInterval(s.first, s.unit, s.value, i);
    Appointment(s.serviceId, s.staff, s.customer, startsAt, startsAt + cfg.services[s.serviceId].LengthMs(), Confirmed,
                Some(seriesId))
  }

  function Occurrences(cfg: Config, s: SeriesRequest, seriesId: nat, n: nat): seq<Appointment>
    requires s.serviceId in cfg.services
  {
    seq(n, i requires 0 <= i < n => Occurrence(cfg, s, seriesId, i))
  }

  lemma OccurrencesExtend(cfg: Config, s: SeriesRequest, seriesId: nat, n: nat)
    requires s.serviceId in cfg.services
    ensures Occurrences(cfg, s, seriesId, n + 1) == Occurrences(cfg, s, seriesId, n) + [Occurrence(cfg, s, seriesId, n)]
  {
  }

  function OccurrenceEvents(cfg: Config, s: SeriesRequest, seriesId: nat, firstId: nat, n: nat): seq<Event>
    requires s.serviceId in cfg.services
  {
    seq(n, i requires 0 <= i < n => EventOf(AppointmentBooked, firstId + i, Occurrence(cfg, s, seriesId, i), s.now))
  }

  /** Each of the first n occurrences passes the guard in the presence of those inserted before it. */
  ghost predicate OccurrencesPass(appointments: seq<Appointment>, cfg: Config, s: SeriesRequest, seriesId: nat, n: nat)
    requires s.serviceId in cfg.services
  {
    forall i: nat :: i < n ==> OccurrencePasses(appointments, cfg, s, seriesId, i)
  }

  ghost predicate OccurrencePasses(appointments: seq<Appointment>, cfg: Config, s: SeriesRequest, seriesId: nat, i: nat)
    requires s.serviceId in cfg.services
  {
    CanTakeSlot(appointments + Occurrences(cfg, s, seriesId, i), cfg, s.serviceId, s.staff,
                AddInterval(s.first, s.unit, s.value, i), None, s.now)
  }

  ghost predicate SeriesAllowed(db: Db, cfg: Config, s: SeriesRequest) {
    && s.customer < |db.customers|
    && s.serviceId in cfg.services && cfg.services[s.serviceId].active
    && s.staff in cfg.activeStaff
    && OccurrencesPass(db.appointments, cfg, s, |db.series|, s.count)
  }

  function WithOccurrences(db: Db, cfg: Config, s: SeriesRequest, n: nat): Db
    requires s.customer < |db.customers| && s.serviceId in cfg.services
  {
    var c := db.customers[s.customer];
    db.(appointments := db.appointments + Occurrences(cfg, s, |db.series|, n),
        customers := db.customers[s.customer := c.(total := c.total + n)],
        series := db.series + [Series(s.customer, false)],
        outbox := db.outbox + OccurrenceEvents(cfg, s, |db.series|, |db.appointments|, n))
  }

  function AfterSeries(db: Db, cfg: Config, s: SeriesRequest): Db
    requires s.customer < |db.customers| && s.serviceId in cfg.services
  {
    var tx := WithOccurrences(db, cfg, s, s.count);
    tx.(outbox := tx.outbox + [Event(RecurringSeriesCreated, |db.series|, s.serviceId, s.first, s.now)])
  }

  /** Row i of a new series: the requested customer, staff member and service, at occurrence i. */
  ghost predicate IsOccurrenceRow(cfg: Config, s: SeriesRequest, seriesId: nat, i: int, a: Appointment)
    requires s.serviceId in cfg.services
  {
    var service := cfg.services[s.serviceId];
    && IsOccurrence(s.first, s.unit, s.value, i, a.startsAt)
    && a == Appointment(s.serviceId, s.staff, s.customer, a.startsAt,
                        a.startsAt + 60_000 * (service.durationMinutes + service.bufferMinutes), Confirmed, Some(seriesId))
  }

  ghost predicate AreOccurrenceRows(cfg: Config, s: SeriesRequest, seriesId: nat, rows: seq<Appointment>)
    requires s.serviceId in cfg.services
  {
    |rows| == s.count && forall i :: 0 <= i < |rows| ==> IsOccurrenceRow(cfg, s, seriesId, i, rows[i])
  }

  /** A booked event for each row, and the event of the series. */
  ghost predicate AreSeriesEvents(s: SeriesRequest, seriesId: nat, firstId: nat, rows: seq<Appointment>, events: seq<Event>) {
    && |events| == |rows| + 1
    && events[|rows|] == Event(RecurringSeriesCreated, seriesId, s.serviceId, s.first, s.now)
    && forall i :: 0 <= i < |rows| ==> events[i] == Event(AppointmentBooked, firstId + i, s.serviceId, rows[i].startsAt, s.now)
  }

  /** What a new series leaves: its rows, their events, one series row and event, and the customer's total. */
  ghost predicate SeriesStored(db: Db, cfg: Config, s: SeriesRequest, db': Db)
    requires s.serviceId in cfg.services && s.customer < |db.customers|
  {
    var n, m, c := |db.appointments|, |db.outbox|, db.customers[s.customer];
    && db.appointments <= db'.appointments && db.outbox <= db'.outbox
    && AreOccurrenceRows(cfg, s, |db.series|, db'.appointments[n..])
    && AreSeriesEvents(s, |db.series|, n, db'.appointments[n..], db'.outbox[m..])
    && |db'.customers| == |db.customers|
    && (forall k :: 0 <= k < |db.customers| ==>
          db'.customers[k] == if k == s.customer then c.(total := c.total + s.count) else db.customers[k])
    && db'.series == db.series + [Series(s.customer, false)]
    && db'.entries == db.entries && db'.offers == db.offers && db'.processed == db.processed
  }

  lemma OccurrencesAreRows(cfg: Config, s: SeriesRequest, seriesId: nat)
    requires s.serviceId in cfg.services
    ensures AreOccurrenceRows(cfg, s, seriesId, Occurrences(cfg, s, seriesId, s.count))
  {
    var rows := Occurrences(cfg, s, seriesId, s.count);
    forall i | 0 <= i < |rows|
      ensures IsOccurrenceRow(cfg, s, seriesId, i, rows[i])
    {
      AddIntervalIsOccurrence(s.first, s.unit, s.value, i);
    }
  }

  lemma OccurrenceEventsAreEvents(cfg: Config, s: SeriesRequest, seriesId: nat, firstId: nat)
    requires s.serviceId in cfg.services
    ensures AreSeriesEvents(s, seriesId, firstId, Occurrences(cfg, s, seriesId, s.count),
                            OccurrenceEvents(cfg, s, seriesId, firstId, s.count)
                            + [Event(RecurringSeriesCreated, seriesId, s.serviceId, s.first, s.now)])
  {
  }

  /** What a series needs, told in rows: each occurrence is free beside the ones before it. */
  ghost predicate MayRepeat(db: Db, cfg: Config, s: SeriesRequest) {
    && s.customer < |db.customers| && s.serviceId in cfg.services && cfg.services[s.serviceId].active && s.staff in cfg.activeStaff
    && exists rows :: AreOccurrenceRows(cfg, s, |db.series|, rows) && EachIsFree(db.appointments, cfg, s, rows)
  }

  ghost predicate EachIsFree(appointments: seq<Appointment>, cfg: Config, s: SeriesRequest, rows: seq<Appointment>)
    requires s.serviceId in cfg.services
  {
    forall i :: 0 <= i < |rows| ==>
      FreeInTables(appointments + rows[..i], cfg, s.serviceId, s.staff, rows[i].startsAt, None, s.now)
  }

  lemma RowsAreOccurrences(cfg: Config, s: SeriesRequest, seriesId: nat, rows: seq<Appointment>)
    requires s.serviceId in cfg.services && AreOccurrenceRows(cfg, s, seriesId, rows)
    ensures rows == Occurrences(cfg, s, seriesId, s.count)
  {
    forall i | 0 <= i < |rows|
      ensures rows[i] == Occurrence(cfg, s, seriesId, i)
    {
      OccurrenceIsUnique(s.first, s.unit, s.value, i, rows[i].startsAt);
    }
  }

  lemma PassesIsFree(appointments: seq<Appointment>, cfg: Config, s: SeriesRequest, seriesId: nat)
    requires s.serviceId in cfg.services
    ensures OccurrencesPass(appointments, cfg, s, seriesId, s.count)
       <==> EachIsFree(appointments, cfg, s, Occurrences(cfg, s, seriesId, s.count))
  {
    var rows := Occurrences(cfg, s, seriesId, s.count);
    forall i: nat | i < s.count
      ensures OccurrencePasses(appointments, cfg, s, seriesId, i)
         <==> FreeInTables(appointments + rows[..i], cfg, s.serviceId, s.staff, rows[i].startsAt, None, s.now)
    {
      assert rows[..i] == Occurrences(cfg, s, seriesId, i);
      CanTakeSlotIsFreeInTables(appointments + rows[..i], cfg, s.serviceId, s.staff, rows[i].startsAt, None, s.now);
    }
  }

  lemma SeriesAllowedIsMayRepeat(db: Db, cfg: Config, s: SeriesRequest)
    ensures SeriesAllowed(db, cfg, s) <==> MayRepeat(db, cfg, s)
  {
    if s.serviceId in cfg.services {
      OccurrencesAreRows(cfg, s, |db.series|);
      PassesIsFree(db.appointments, cfg, s, |db.series|);
      if rows :| AreOccurrenceRows(cfg, s, |db.series|, rows) && EachIsFree(db.appointments, cfg, s, rows) {
        RowsAreOccurrences(cfg, s, |db.series|, rows);
      }
    }
  }

  lemma AfterSeriesIsStored(db: Db, cfg: Config, s: SeriesRequest)
    requires s.serviceId in cfg.services && s.customer < |db.customers|
    ensures SeriesStored(db, cfg, s, AfterSeries(db, cfg, s))
  {
    var db', n, m, seriesId := AfterSeries(db, cfg, s), |db.appointments|, |db.outbox|, |db.series|;
    OccurrencesAreRows(cfg, s, seriesId);
    OccurrenceEventsAreEvents(cfg, s, seriesId, n);
    assert db'.appointments[n..] == Occurrences(cfg, s, seriesId, s.count);
    assert db'.outbox[m..] == OccurrenceEvents(cfg, s, seriesId, n, s.count)
                              + [Event(RecurringSeriesCreated, seriesId, s.serviceId, s.first, s.now)];
  }

  /** All or nothing: it adds every occurrence or changes nothing. */
  method CreateSeries(store: Database, cfg: Config, s: SeriesRequest) returns (r: Result<nat, ApiError>)
    requires s.customer < |store.db.customers|
    modifies store
    ensures r.Ok? <==> MayRepeat(old(store.db), cfg, s)
    ensures r.Ok? <==> SeriesAllowed(old(store.db), cfg, s)
    ensures r.Ok? ==> SeriesStored(old(store.db), cfg, s, store.db)
    ensures r.Ok? ==> store.db == AfterSeries(old(store.db), cfg, s) && r.value == |old(store.db).series|
    ensures r.Err? ==> store.db == old(store.db)
  {
    SeriesAllowedIsMayRepeat(store.db, cfg, s);
    if s.serviceId !in cfg.services || !cfg.services[s.serviceId].active {
      return Err(ServiceNotFound);
    }
    if s.staff !in cfg.activeStaff {
      return Err(StaffNotFound);
    }
    var tx, db := store.db, store.db;
    var id := |tx.series|;
    tx := tx.(series := tx.series + [Series(s.customer, false)]);
    assert tx == WithOccurrences(db, cfg, s, 0);
    for i := 0 to s.count
      invariant store.db == db
      invariant tx == WithOccurrences(db, cfg, s, i)
      invariant OccurrencesPass(db.appointments, cfg, s, id, i)
    {
      var startsAt := AddInterval(s.first, s.unit, s.value, i);
      var guard := AssertStaffMemberCanTakeSlot(tx.appointments, cfg, s.serviceId, s.staff, startsAt, None, s.now);
      if guard.Err? {
        assert !OccurrencePasses(db.appointments, cfg, s, id, i);
        return Err(guard.error);
      }
      assert OccurrencePasses(db.appointments, cfg, s, id, i);
      tx := InsertOccurrence(db, tx, cfg, s, i);
    }
    tx := tx.(outbox := tx.outbox + [Event(RecurringSeriesCreated, id, s.serviceId, s.first, s.now)]);
    AfterSeriesIsStored(db, cfg, s);
    store.db := tx;
    r := Ok(id);
  }

  method InsertOccurrence(ghost db: Db, before: Db, cfg: Config, s: SeriesRequest, i: nat) returns (tx: Db)
    requires s.customer < |db.customers| && s.serviceId in cfg.services
    requires before == WithOccurrences(db, cfg, s, i)
    ensures tx == WithOccurrences(db, cfg, s, i + 1)
  {
    tx := before;
    var a := Occurrence(cfg, s, |tx.series| - 1, i);
    var id, c := |tx.appointments|, tx.customers[s.customer];
    tx := tx.(appointments := tx.appointments + [a]);
    tx := tx.(customers := tx.customers[s.customer := c.(total := c.total + 1)]);
    tx := tx.(outbox := tx.outbox + [EventOf(AppointmentBooked, id, a, s.now)]);
    assert tx.appointments == WithOccurrences(db, cfg, s, i + 1).appointments;
    assert tx.outbox == WithOccurrences(db, cfg, s, i + 1).outbox;
  }

  /** The ids were read before the transaction: rows of the series, without repetition. */
  ghost predicate SeriesRows(db: Db, seriesId: nat, ids: seq<nat>) {
    && seriesId < |db.series|
    && db.series[seriesId].customerId < |db.customers|
    && NoDuplicates(ids)
    && forall k :: 0 <= k < |ids| ==> ids[k] < |db.appointments| && db.appointments[ids[k]].seriesId == Some(seriesId)
  }

  function CancelRows(appointments: seq<Appointment>, ids: seq<nat>): seq<Appointment> {
    seq(|appointments|, i requires 0 <= i < |appointments| =>
      if i in ids then appointments[i].(status := CancelledByBusiness) else appointments[i])
  }

  /** read holds the rows as they were when the ids were read; the payloads are built from them. */
  function CancelEvents(ids: seq<nat>, read: seq<Appointment>, now: int): (r: seq<Event>)
    requires |read| == |ids|
    ensures |r| == 2 * |ids|
  {
    if ids == [] then []
    else
      var last := |ids| - 1;
      CancelEvents(ids[..last], read[..last], now)
      + [EventOf(AppointmentCancelled, ids[last], read[last], now), EventOf(SlotReleased, ids[last], read[last], now)]
  }

  /** A cancellation and a release for each row, in order, as the row was read. */
  lemma {:induction false} CancelEventsKinds(ids: seq<nat>, read: seq<Appointment>, now: int, k: int)
    requires |read| == |ids| && 0 <= k < |CancelEvents(ids, read, now)|
    ensures CancelEvents(ids, read, now)[k]
         == Event(if k % 2 == 0 then AppointmentCancelled else SlotReleased, ids[k / 2],
                  read[k / 2].serviceId, read[k / 2].startsAt, now)
  {
    var last := |ids| - 1;
    if k < 2 * last {
      CancelEventsKinds(ids[..last], read[..last], now, k);
    }
  }

  ghost function AfterCancelSeries(db: Db, seriesId: nat, ids: seq<nat>, read: seq<Appointment>, now: int): Db
    requires SeriesRows(db, seriesId, ids) && |read| == |ids|
  {
    var closed := db.(series := db.series[seriesId := db.series[seriesId].(cancelled := true)]);
    if ids == [] then closed
    else
      var owner := db.series[seriesId].customerId;
      var c := db.customers[owner];
      closed.(
        appointments := CancelRows(db.appointments, ids),
        customers := db.customers[owner := c.(cancelled := c.cancelled + |ids|, total := c.total - |ids|)],
        outbox := db.outbox + CancelEvents(ids, read, now))
  }

  /** What a series cancellation leaves in the tables, row by row. */
  ghost predicate SeriesCancelStored(db: Db, seriesId: nat, ids: seq<nat>, read: seq<Appointment>, now: int, db': Db)
    requires SeriesRows(db, seriesId, ids) && |read| == |ids|
  {
    var owner := db.series[seriesId].customerId;
    var c := db.customers[owner];
    && db'.entries == db.entries && db'.offers == db.offers && db'.processed == db.processed
    && |db'.appointments| == |db.appointments| && |db'.customers| == |db.customers| && |db'.series| == |db.series|
    && (forall i :: 0 <= i < |db.appointments| ==>
          db'.appointments[i] == if i in ids then db.appointments[i].(status := CancelledByBusiness) else db.appointments[i])
    && (forall i :: 0 <= i < |db.customers| ==>
          db'.customers[i] == if i == owner then c.(cancelled := c.cancelled + |ids|, total := c.total - |ids|) else db.customers[i])
    && (forall i :: 0 <= i < |db.series| ==>
          db'.series[i] == if i == seriesId then db.series[i].(cancelled := true) else db.series[i])
    && AreCancelEvents(ids, read, now, db.outbox, db'.outbox)
  }

  ghost predicate AreCancelEvents(ids: seq<nat>, read: seq<Appointment>, now: int, outbox: seq<Event>, outbox': seq<Event>)
    requires |read| == |ids|
  {
    && outbox <= outbox' && |outbox'| == |outbox| + 2 * |ids|
    && var events := outbox'[|outbox|..];
       forall k :: 0 <= k < |events| ==>
         events[k] == Event(if k % 2 == 0 then AppointmentCancelled else SlotReleased, ids[k / 2],
                            read[k / 2].serviceId, read[k / 2].startsAt, now)
  }

  lemma CancelEventsAreEvents(ids: seq<nat>, read: seq<Appointment>, now: int, outbox: seq<Event>)
    requires |read| == |ids|
    ensures AreCancelEvents(ids, read, now, outbox, outbox + CancelEvents(ids, read, now))
  {
    var events := CancelEvents(ids, read, now);
    assert (outbox + events)[|outbox|..] == events;
    forall k | 0 <= k < |events|
      ensures events[k] == Event(if k % 2 == 0 then AppointmentCancelled else SlotReleased, ids[k / 2],
                                 read[k / 2].serviceId, read[k / 2].startsAt, now)
    {
      CancelEventsKinds(ids, read, now, k);
    }
  }

  lemma AfterCancelSeriesIsStored(db: Db, seriesId: nat, ids: seq<nat>, read: seq<Appointment>, now: int)
    requires SeriesRows(db, seriesId, ids) && |read| == |ids|
    ensures SeriesCancelStored(db, seriesId, ids, read, now, AfterCancelSeries(db, seriesId, ids, read, now))
  {
    CancelEventsAreEvents(ids, read, now, db.outbox);
    if ids == [] {
      assert db.outbox + CancelEvents(ids, read, now) == db.outbox;
    }
  }

  predicate FutureOfSeries(a: Appointment, seriesId: nat, now: int) {
    a.seriesId == Some(seriesId) && a.startsAt > now && a.status.Active()
  }

  /** The rows to cancel, read in a statement of its own before the transaction. */
  method ReadFutureAppointments(appointments: seq<Appointment>, seriesId: nat, now: int)
    returns (ids: seq<nat>, read: seq<Appointment>)
    ensures NoDuplicates(ids) && |read| == |ids|
    ensures forall i: nat :: i in ids <==> i < |appointments| && FutureOfSeries(appointments[i], seriesId, now)
    ensures forall i: nat :: i in ids <==>
              && i < |appointments| && appointments[i].seriesId == Some(seriesId) && now < appointments[i].startsAt
              && (appointments[i].status == Pending || appointments[i].status == Confirmed)
    ensures forall k :: 0 <= k < |ids| ==> ids[k] < |appointments| && read[k] == appointments[ids[k]]
  {
    ids, read := [], [];
    for i := 0 to |appointments|
      invariant NoDuplicates(ids) && |read| == |ids|
      invariant forall k: nat :: k in ids <==> k < i && FutureOfSeries(appointments[k], seriesId, now)
      invariant forall k :: 0 <= k < |ids| ==> ids[k] < |appointments| && read[k] == appointments[ids[k]]
    {
      if FutureOfSeries(appointments[i], seriesId, now) {
        ids, read := ids + [i], read + [appointments[i]];
      }
    }
  }

  /** The transaction: it cancels the rows that were read, whatever they have become, with the payloads as read. */
  method CommitSeriesCancellation(store: Database, seriesId: nat, ids: seq<nat>, read: seq<Appointment>, now: int)
    requires SeriesRows(store.db, seriesId, ids) && |read| == |ids|
    modifies store
    ensures SeriesCancelStored(old(store.db), seriesId, ids, read, now, store.db)
    ensures store.db == AfterCancelSeries(old(store.db), seriesId, ids, read, now)
  {
    AfterCancelSeriesIsStored(store.db, seriesId, ids, read, now);
    var tx := store.db;
    if |ids| > 0 {
      var outboxRows := CancelEvents(ids, read, now);
      var owner := tx.series[seriesId].customerId;
      var c := tx.customers[owner];
      tx := tx.(appointments := CancelRows(tx.appointments, ids));
      tx := tx.(customers := tx.customers[owner := c.(cancelled := c.cancelled + |ids|, total := c.total - |ids|)]);
      tx := tx.(outbox := tx.outbox + outboxRows);
    }
    tx := tx.(series := tx.series[seriesId := tx.series[seriesId].(cancelled := true)]);
    store.db := tx;
  }

  /**
   The whole request when nothing commits between its read and its transaction: it cancels every active future
   appointment of the series, and no other row.
   */
  method CancelSeries(store: Database, seriesId: nat, now: int)
    returns (r: Result<nat, ApiError>, ids: seq<nat>, read: seq<Appointment>)
    requires store.db.Linked()
    modifies store
    ensures r.Ok? <==> seriesId < |old(store.db).series| && !old(store.db).series[seriesId].cancelled
    ensures r.Ok? ==>
      && SeriesRows(old(store.db), seriesId, ids) && |read| == |ids|
      && (forall i: nat :: i in ids <==>
            i < |old(store.db).appointments| && FutureOfSeries(old(store.db).appointments[i], seriesId, now))
      && (forall k :: 0 <= k < |ids| ==> read[k] == old(store.db).appointments[ids[k]])
      && SeriesCancelStored(old(store.db), seriesId, ids, read, now, store.db)
      && store.db == AfterCancelSeries(old(store.db), seriesId, ids, read, now)
      && r.value == |ids|
    ensures r.Err? ==> store.db == old(store.db)
  {
    ids, read := [], [];
    if |store.db.series| <= seriesId {
      return Err(SeriesNotFound), ids, read;
    }
    if store.db.series[seriesId].cancelled {
      return Err(AlreadyCancelled), ids, read;
    }
    ids, read := ReadFutureAppointments(store.db.appointments, seriesId, now);
    assert forall k :: 0 <= k < |ids| ==> ids[k] in ids;
    CommitSeriesCancellation(store, seriesId, ids, read, now);
    r := Ok(|ids|);
  }
}
