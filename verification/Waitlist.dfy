/**
 The waitlist transactions of the API (appointments.service.ts) and of the worker
 (apps/worker/internal/postgres/repository.go, apps/worker/internal/worker/service.go).
 */
module Waitlist {
  import opened Outcomes
  import opened Tables
  import opened Loading
  import opened Appointments

  const OFFER_TTL: int := 900_000

  // ---------------------------------------------------------------- API side

  datatype EntryRequest = EntryRequest(
    customer: Option<nat>,
    serviceId: int,
    dateStart: int,
    dateEnd: int,
    earliest: Option<int>,
    latest: Option<int>,
    now: int
  )

  function AfterCreateEntry(db: Db, q: EntryRequest): Db
    requires q.customer.Some? ==> q.customer.value < |db.customers|
  {
    var (customers, c) := UpsertCustomer(db.customers, q.customer);
    var priority := AtLeastZero(10 - customers[c].noShow * 2);
    db.(customers := customers,
        entries := db.entries + [Entry(c, q.serviceId, q.dateStart, q.dateEnd, q.earliest, q.latest, priority, Waiting)],
        outbox := db.outbox + [Event(WaitlistEntryCreated, |db.entries|, q.serviceId, q.dateStart, q.now)])
  }

  /** What a request to be put on the list leaves: a waiting entry whose priority falls by two for each missed visit. */
  ghost predicate EntryStored(db: Db, q: EntryRequest, db': Db)
    requires q.customer.Some? ==> q.customer.value < |db.customers|
  {
    var c := if q.customer.Some? then q.customer.value else |db.customers|;
    var missed := if q.customer.Some? then db.customers[c].noShow else 0;
    && db' == db.(customers := db'.customers, entries := db'.entries, outbox := db'.outbox)
    && db'.customers == (if q.customer.Some? then db.customers else db.customers + [Customer(0, 0, 0, 0)])
    && db'.entries == db.entries
         + [Entry(c, q.serviceId, q.dateStart, q.dateEnd, q.earliest, q.latest, if missed > 5 then 0 else 10 - 2 * missed, Waiting)]
    && db'.outbox == db.outbox + [Event(WaitlistEntryCreated, |db.entries|, q.serviceId, q.dateStart, q.now)]
  }

  lemma AfterCreateEntryIsStored(db: Db, q: EntryRequest)
    requires q.customer.Some? ==> q.customer.value < |db.customers|
    ensures EntryStored(db, q, AfterCreateEntry(db, q))
  {
  }

  method CreateWaitlistEntry(store: Database, cfg: Config, q: EntryRequest) returns (r: Result<nat, ApiError>)
    requires q.customer.Some? ==> q.customer.value < |store.db.customers|
    modifies store
    ensures r.Ok? <==> q.serviceId in cfg.services && cfg.services[q.serviceId].active && q.dateStart <= q.dateEnd
    ensures r.Ok? ==> EntryStored(old(store.db), q, store.db)
    ensures r.Ok? ==> store.db == AfterCreateEntry(old(store.db), q) && r.value == |old(store.db).entries|
    ensures r.Err? ==> store.db == old(store.db)
  {
    if q.serviceId !in cfg.services || !cfg.services[q.serviceId].active {
      return Err(ServiceNotFound);
    }
    if q.dateStart > q.dateEnd {
      return Err(InvalidDateRange);
    }
    var tx := store.db;
    var (customers, c) := UpsertCustomer(tx.customers, q.customer);
    tx := tx.(customers := customers);
    var id := |tx.entries|;
    var entry := Entry(c, q.serviceId, q.dateStart, q.dateEnd, q.earliest, q.latest,
                       AtLeastZero(10 - customers[c].noShow * 2), Waiting);
    tx := tx.(entries := tx.entries + [entry]);
    tx := tx.(outbox := tx.outbox + [Event(WaitlistEntryCreated, id, q.serviceId, q.dateStart, q.now)]);
    store.db := tx;
    r := Ok(id);
  }

  /** The booking an acceptance asks for: the released slot, for the entry's customer. */
  function OfferedBooking(db: Db, o: nat, now: int): Booking
    requires o < |db.offers|
    requires db.offers[o].entryId < |db.entries| && db.offers[o].appointmentId < |db.appointments|
  {
    var a := db.appointments[db.offers[o].appointmentId];
    Booking(a.serviceId, Some(a.staffMemberId), a.startsAt, Some(db.entries[db.offers[o].entryId].customerId), Some(o), now)
  }

  /** The offer is live and the guard lets the released slot be booked again, for the same staff member. */
  ghost predicate CanAccept(db: Db, cfg: Config, o: nat, now: int)
    requires db.Linked()
  {
    OfferLive(db, o, now)
    && CreateAllowed(db, cfg, OfferedBooking(db, o, now), db.appointments[db.offers[o].appointmentId].staffMemberId)
  }

  /** The booking of the released slot for the customer of the entry. */
  ghost function Rebooking(db: Db, o: nat, now: int): Booking
    requires db.Linked() && o < |db.offers|
  {
    var released := db.appointments[db.offers[o].appointmentId];
    Booking(released.serviceId, Some(released.staffMemberId), released.startsAt,
            Some(db.entries[db.offers[o].entryId].customerId), Some(o), now)
  }

  lemma CanAcceptIsMayBook(db: Db, cfg: Config, o: nat, now: int)
    requires db.Linked()
    ensures CanAccept(db, cfg, o, now) <==>
            MayAccept(db, o, now) && MayBook(db, cfg, Rebooking(db, o, now), db.appointments[db.offers[o].appointmentId].staffMemberId)
    ensures CanAccept(db, cfg, o, now) ==>
            var staff := db.appointments[db.offers[o].appointmentId].staffMemberId;
            BookingStored(db, cfg, Rebooking(db, o, now), staff, AfterCreate(db, cfg, OfferedBooking(db, o, now), staff))
  {
    if MayAccept(db, o, now) {
      var staff := db.appointments[db.offers[o].appointmentId].staffMemberId;
      CreateAllowedIsMayBook(db, cfg, OfferedBooking(db, o, now), staff);
      if CreateAllowed(db, cfg, OfferedBooking(db, o, now), staff) {
        AfterCreateIsStored(db, cfg, OfferedBooking(db, o, now), staff);
      }
    }
  }

  /** Accepting books the released slot again, for the same staff member, or changes nothing. */
  method AcceptWaitlistOffer(store: Database, cfg: Config, o: nat, now: int) returns (r: Result<nat, ApiError>)
    requires store.db.Linked()
    modifies store
    ensures r.Ok? <==>
              && MayAccept(old(store.db), o, now)
              && MayBook(old(store.db), cfg, Rebooking(old(store.db), o, now),
                         old(store.db).appointments[old(store.db).offers[o].appointmentId].staffMemberId)
    ensures r.Ok? ==>
      BookingStored(old(store.db), cfg, Rebooking(old(store.db), o, now),
                    old(store.db).appointments[old(store.db).offers[o].appointmentId].staffMemberId, store.db)
    ensures r.Ok? <==> CanAccept(old(store.db), cfg, o, now)
    ensures r.Ok? ==>
      var a := old(store.db).appointments[old(store.db).offers[o].appointmentId];
      store.db == AfterCreate(old(store.db), cfg, OfferedBooking(old(store.db), o, now), a.staffMemberId)
    ensures r.Err? ==> store.db == old(store.db)
  {
    CanAcceptIsMayBook(store.db, cfg, o, now);
    if !OfferLive(store.db, o, now) {
      return Err(OfferNotFound);
    }
    r := CreateAppointmentInTransaction(store, cfg, OfferedBooking(store.db, o, now));
  }

  predicate EntryOpen(db: Db, id: nat) {
    id < |db.entries| && (db.entries[id].status.Waiting? || db.entries[id].status.Offered?)
  }

  function AfterCancelEntry(db: Db, id: nat): Db
    requires id < |db.entries|
  {
    db.(entries := db.entries[id := db.entries[id].(status := Withdrawn)])
  }

  /** One entry is withdrawn; its pending offer, if it has one, stays as it is. */
  ghost predicate WithdrawalStored(db: Db, id: nat, db': Db) {
    && db' == db.(entries := db'.entries) && |db'.entries| == |db.entries|
    && forall k :: 0 <= k < |db.entries| ==>
         db'.entries[k] == if k == id then db.entries[k].(status := Withdrawn) else db.entries[k]
  }

  method CancelPrivateWaitlistEntry(store: Database, id: nat) returns (r: Result<(), ApiError>)
    modifies store
    ensures r.Ok? <==>
              id < |old(store.db).entries|
              && (old(store.db).entries[id].status == Waiting || old(store.db).entries[id].status == Offered)
    ensures r.Ok? ==> WithdrawalStored(old(store.db), id, store.db)
    ensures r.Ok? <==> EntryOpen(old(store.db), id)
    ensures store.db == if r.Ok? then AfterCancelEntry(old(store.db), id) else old(store.db)
  {
    if !EntryOpen(store.db, id) {
      return Err(EntryNotFound);
    }
    store.db := store.db.(entries := store.db.entries[id := store.db.entries[id].(status := Withdrawn)]);
    r := Ok(());
  }

  /** An entry goes back to waiting only if it is still on offer. */
  function Reopened(e: Entry): Entry {
    if e.status.Offered? then e.(status := Waiting) else e
  }

  /** read is the released appointment as it was before the transaction; the payload is built from it. */
  function AfterReject(db: Db, o: nat, read: Appointment, now: int): Db
    requires o < |db.offers| && db.offers[o].entryId < |db.entries|
  {
    var offer := db.offers[o];
    db.(offers := db.offers[o := offer.(status := Rejected)],
        entries := db.entries[offer.entryId := Reopened(db.entries[offer.entryId])],
        outbox := db.outbox + [EventOf(WaitlistOfferRejected, offer.appointmentId, read, now)])
  }

  /** What a rejection leaves: the offer rejected, its entry waiting again if it was on offer, and one event as read. */
  ghost predicate RejectionStored(db: Db, o: nat, read: Appointment, now: int, db': Db)
    requires o < |db.offers|
  {
    && db' == db.(offers := db'.offers, entries := db'.entries, outbox := db'.outbox)
    && |db'.offers| == |db.offers| && |db'.entries| == |db.entries|
    && (forall k :: 0 <= k < |db.offers| ==>
          db'.offers[k] == if k == o then db.offers[k].(status := Rejected) else db.offers[k])
    && (forall k :: 0 <= k < |db.entries| ==>
          db'.entries[k] == if k == db.offers[o].entryId && db.entries[k].status == Offered then db.entries[k].(status := Waiting)
                            else db.entries[k])
    && db'.outbox == db.outbox + [Event(WaitlistOfferRejected, db.offers[o].appointmentId, read.serviceId, read.startsAt, now)]
  }

  lemma AfterRejectIsStored(db: Db, o: nat, read: Appointment, now: int)
    requires o < |db.offers| && db.offers[o].entryId < |db.entries|
    ensures RejectionStored(db, o, read, now, AfterReject(db, o, read, now))
  {
  }

  method RejectWaitlistOfferRecord(store: Database, o: nat, read: Appointment, now: int) returns (r: Result<(), ApiError>)
    requires store.db.Linked()
    modifies store
    ensures r.Ok? <==> MayAccept(old(store.db), o, now)
    ensures r.Ok? ==> RejectionStored(old(store.db), o, read, now, store.db)
    ensures r.Ok? ==> store.db == AfterReject(old(store.db), o, read, now)
    ensures r.Err? ==> store.db == old(store.db)
  {
    if !OfferLive(store.db, o, now) {
      return Err(OfferNotFound);
    }
    AfterRejectIsStored(store.db, o, read, now);
    var tx := store.db;
    var offer := tx.offers[o];
    tx := tx.(offers := tx.offers[o := offer.(status := Rejected)]);
    if tx.entries[offer.entryId].status.Offered? {
      tx := tx.(entries := tx.entries[offer.entryId := tx.entries[offer.entryId].(status := Waiting)]);
    }
    tx := tx.(outbox := tx.outbox + [EventOf(WaitlistOfferRejected, offer.appointmentId, read, now)]);
    store.db := tx;
    r := Ok(());
  }

  /** The whole request when nothing commits between its read and its transaction. */
  method RejectWaitlistOffer(store: Database, o: nat, now: int) returns (r: Result<(), ApiError>)
    requires store.db.Linked()
    modifies store
    ensures r.Ok? <==> MayAccept(old(store.db), o, now)
    ensures r.Ok? ==>
      RejectionStored(old(store.db), o, old(store.db).appointments[old(store.db).offers[o].appointmentId], now, store.db)
    ensures r.Ok? ==>
      store.db == AfterReject(old(store.db), o, old(store.db).appointments[old(store.db).offers[o].appointmentId], now)
    ensures r.Err? ==> store.db == old(store.db)
  {
    if !OfferLive(store.db, o, now) {
      return Err(OfferNotFound);
    }
    r := RejectWaitlistOfferRecord(store, o, store.db.appointments[store.db.offers[o].appointmentId], now);
  }

  // ---------------------------------------------------------------- worker: expiry

  predicate Due(o: Offer, now: int) {
    o.status.Open? && o.expiresAt <= now
  }

  predicate EntryDue(offers: seq<Offer>, entry: nat, now: int) {
    exists i | 0 <= i < |offers| :: offers[i].entryId == entry && Due(offers[i], now)
  }

  predicate AppointmentDue(offers: seq<Offer>, appointment: nat, now: int) {
    exists i | 0 <= i < |offers| :: offers[i].appointmentId == appointment && Due(offers[i], now)
  }

  function ExpireRows(offers: seq<Offer>, now: int): seq<Offer> {
    seq(|offers|, i requires 0 <= i < |offers| =>
      if Due(offers[i], now) then offers[i].(status := Expired) else offers[i])
  }

  function ResetRows(entries: seq<Entry>, offers: seq<Offer>, now: int): seq<Entry> {
    seq(|entries|, i requires 0 <= i < |entries| =>
      if EntryDue(offers, i, now) then Reopened(entries[i]) else entries[i])
  }

  /** One event per appointment, however many of its offers expire together. */
  function ExpiryEvents(db: Db, n: nat, now: int): seq<Event>
    requires n <= |db.appointments|
  {
    if n == 0 then []
    else
      ExpiryEvents(db, n - 1, now) + ExpiryEvent(db, n - 1, now)
  }

  function ExpiryEvent(db: Db, a: nat, now: int): seq<Event>
    requires a < |db.appointments|
  {
    if AppointmentDue(db.offers, a, now) then [EventOf(WaitlistOfferExpired, a, db.appointments[a], now)] else []
  }

  function AfterExpire(db: Db, now: int): Db {
    db.(offers := ExpireRows(db.offers, now),
        entries := ResetRows(db.entries, db.offers, now),
        outbox := db.outbox + ExpiryEvents(db, |db.appointments|, now))
  }

  /** The offer was pending and its time has run out. */
  ghost predicate RanOut(o: Offer, now: int) {
    o.status == Open && o.expiresAt <= now
  }

  ghost predicate SlotRanOut(offers: seq<Offer>, a: nat, now: int) {
    exists i :: 0 <= i < |offers| && offers[i].appointmentId == a && RanOut(offers[i], now)
  }

  ghost predicate EntryRanOut(offers: seq<Offer>, e: nat, now: int) {
    exists i :: 0 <= i < |offers| && offers[i].entryId == e && RanOut(offers[i], now)
  }

  /** One event for each appointment below n with such an offer, in order, however many of its offers there are. */
  ghost predicate AreExpiryEvents(db: Db, n: nat, now: int, events: seq<Event>)
    requires n <= |db.appointments|
  {
    && (forall k :: 0 <= k < |events| ==>
          && events[k].subject < n && SlotRanOut(db.offers, events[k].subject, now)
          && events[k] == Event(WaitlistOfferExpired, events[k].subject, db.appointments[events[k].subject].serviceId,
                                db.appointments[events[k].subject].startsAt, now))
    && (forall j, k :: 0 <= j < k < |events| ==> events[j].subject < events[k].subject)
    && (forall a: nat :: a < n && SlotRanOut(db.offers, a, now) ==> exists k :: 0 <= k < |events| && events[k].subject == a)
  }

  lemma {:induction false} ExpiryEventsAreEvents(db: Db, n: nat, now: int)
    requires n <= |db.appointments|
    ensures AreExpiryEvents(db, n, now, ExpiryEvents(db, n, now))
  {
    if n > 0 {
      ExpiryEventsAreEvents(db, n - 1, now);
      OneMoreExpiryEvent(db, n, now, ExpiryEvents(db, n - 1, now));
    }
  }

  lemma OneMoreExpiryEvent(db: Db, n: nat, now: int, events: seq<Event>)
    requires 0 < n <= |db.appointments| && AreExpiryEvents(db, n - 1, now, events)
    ensures AreExpiryEvents(db, n, now, events + ExpiryEvent(db, n - 1, now))
  {
    var more := events + ExpiryEvent(db, n - 1, now);
    assert SlotRanOut(db.offers, n - 1, now) <==> AppointmentDue(db.offers, n - 1, now);
    forall a: nat | a < n && SlotRanOut(db.offers, a, now)
      ensures exists k :: 0 <= k < |more| && more[k].subject == a
    {
      if a < n - 1 {
        var k :| 0 <= k < |events| && events[k].subject == a;
        assert more[k].subject == a;
      } else {
        assert more[|events|].subject == a;
      }
    }
  }

  /** What the expiry leaves: due offers expired, their entries waiting again if they were on offer, and the events. */
  ghost predicate ExpiryStored(db: Db, now: int, db': Db) {
    && db' == db.(offers := db'.offers, entries := db'.entries, outbox := db'.outbox)
    && |db'.offers| == |db.offers| && |db'.entries| == |db.entries|
    && (forall k :: 0 <= k < |db.offers| ==>
          db'.offers[k] == if RanOut(db.offers[k], now) then db.offers[k].(status := Expired) else db.offers[k])
    && (forall k :: 0 <= k < |db.entries| ==>
          db'.entries[k] == if EntryRanOut(db.offers, k, now) && db.entries[k].status == Offered
                            then db.entries[k].(status := Waiting) else db.entries[k])
    && db.outbox <= db'.outbox && AreExpiryEvents(db, |db.appointments|, now, db'.outbox[|db.outbox|..])
  }

  lemma AfterExpireIsStored(db: Db, now: int)
    ensures ExpiryStored(db, now, AfterExpire(db, now))
  {
    ExpiryEventsAreEvents(db, |db.appointments|, now);
    assert AfterExpire(db, now).outbox[|db.outbox|..] == ExpiryEvents(db, |db.appointments|, now);
    forall e: nat
      ensures EntryRanOut(db.offers, e, now) <==> EntryDue(db.offers, e, now)
    {
    }
  }

  method ExpireWaitlistOffers(store: Database, now: int)
    modifies store
    ensures ExpiryStored(old(store.db), now, store.db)
    ensures store.db == AfterExpire(old(store.db), now)
  {
    AfterExpireIsStored(store.db, now);
    var db := store.db;
    var offers: seq<Offer> := [];
    for i := 0 to |db.offers|
      invariant offers == ExpireRows(db.offers, now)[..i]
    {
      offers := offers + [if Due(db.offers[i], now) then db.offers[i].(status := Expired) else db.offers[i]];
    }
    var entries: seq<Entry> := [];
    for i := 0 to |db.entries|
      invariant entries == ResetRows(db.entries, db.offers, now)[..i]
    {
      entries := entries + [if EntryDue(db.offers, i, now) then Reopened(db.entries[i]) else db.entries[i]];
    }
    var events: seq<Event> := [];
    for i := 0 to |db.appointments|
      invariant events == ExpiryEvents(db, i, now)
    {
      if AppointmentDue(db.offers, i, now) {
        events := events + [EventOf(WaitlistOfferExpired, i, db.appointments[i], now)];
      }
    }
    store.db := db.(offers := offers, entries := entries, outbox := db.outbox + events);
  }

  // ---------------------------------------------------------------- worker: matching

  predicate HasOpenOffer(offers: seq<Offer>, entry: nat) {
    exists i | 0 <= i < |offers| :: offers[i].entryId == entry && offers[i].status.Open?
  }

  predicate HasOfferFor(offers: seq<Offer>, entry: nat, appointment: nat) {
    exists i | 0 <= i < |offers| :: offers[i].entryId == entry && offers[i].appointmentId == appointment
  }

  /** The dates and times of day, both ends included, at which an entry wants its appointment. */
  predicate Prefers(e: Entry, date: int, minute: int) {
    && e.dateStart <= date <= e.dateEnd
    && (e.earliest.Some? ==> e.earliest.value <= minute)
    && (e.latest.Some? ==> minute <= e.latest.value)
  }

  function UtcDate(t: int): int {
    t / 86_400_000
  }

  function UtcMinute(t: int): int {
    t % 86_400_000 / 60_000
  }

  /** The candidate query's conditions; the payload's start is read as a UTC date and time. */
  predicate Eligible(db: Db, ev: Event, entry: nat) {
    && entry < |db.entries|
    && var e := db.entries[entry];
       && e.serviceId == ev.serviceId
       && e.status.Waiting?
       && Prefers(e, UtcDate(ev.startsAt), UtcMinute(ev.startsAt))
       && !HasOpenOffer(db.offers, entry)
       && !HasOfferFor(db.offers, entry, ev.subject)
  }

  /** Priority first, then fewer no-shows, then the older entry. */
  predicate RanksBefore(db: Db, x: nat, y: nat)
    requires db.Linked() && x < |db.entries| && y < |db.entries|
  {
    var px, py := db.entries[x].priority, db.entries[y].priority;
    var nx, ny := db.customers[db.entries[x].customerId].noShow, db.customers[db.entries[y].customerId].noShow;
    px > py || (px == py && (nx < ny || (nx == ny && x < y)))
  }

  /** No candidate, or the one eligible entry that ranks before every other. */
  ghost predicate IsCandidate(db: Db, ev: Event, c: Option<nat>)
    requires db.Linked()
  {
    if c.None? then forall e: nat :: !Eligible(db, ev, e)
    else Eligible(db, ev, c.value) && forall e: nat :: Eligible(db, ev, e) && e != c.value ==> RanksBefore(db, c.value, e)
  }

  /** The entry waits for that service on that date and at that time, has no pending offer and never had this slot. */
  ghost predicate Wants(db: Db, ev: Event, e: nat) {
    && e < |db.entries|
    && var entry, date, minute := db.entries[e], ev.startsAt / 86_400_000, ev.startsAt % 86_400_000 / 60_000;
       && entry.status == Waiting && entry.serviceId == ev.serviceId
       && entry.dateStart <= date <= entry.dateEnd
       && (entry.earliest == None || entry.earliest.value <= minute)
       && (entry.latest == None || minute <= entry.latest.value)
       && forall o :: 0 <= o < |db.offers| && db.offers[o].entryId == e ==>
            db.offers[o].status != Open && db.offers[o].appointmentId != ev.subject
  }

  function MissedVisits(db: Db, e: nat): int
    requires db.Linked() && e < |db.entries|
  {
    db.customers[db.entries[e].customerId].noShow
  }

  /** It wants the slot, and no other entry that does comes first: by priority, then fewer missed visits, then age. */
  ghost predicate ComesFirst(db: Db, ev: Event, c: nat)
    requires db.Linked()
  {
    && Wants(db, ev, c)
    && forall e: nat :: Wants(db, ev, e) && e != c ==>
         && db.entries[e].priority <= db.entries[c].priority
         && (db.entries[e].priority == db.entries[c].priority ==>
               && MissedVisits(db, c) <= MissedVisits(db, e)
               && (MissedVisits(db, c) == MissedVisits(db, e) ==> c < e))
  }

  lemma CandidateComesFirst(db: Db, ev: Event, c: Option<nat>)
    requires db.Linked()
    ensures IsCandidate(db, ev, c) <==> if c.None? then forall e: nat :: !Wants(db, ev, e) else ComesFirst(db, ev, c.value)
  {
    forall e: nat
      ensures Eligible(db, ev, e) <==> Wants(db, ev, e)
    {
    }
  }

  method FindWaitlistCandidate(db: Db, ev: Event) returns (c: Option<nat>)
    requires db.Linked()
    ensures if c.None? then forall e: nat :: !Wants(db, ev, e) else ComesFirst(db, ev, c.value)
    ensures IsCandidate(db, ev, c)
  {
    c := SearchEntries(db, ev);
    CandidateComesFirst(db, ev, c);
  }

  method SearchEntries(db: Db, ev: Event) returns (c: Option<nat>)
    requires db.Linked()
    ensures IsCandidate(db, ev, c)
  {
    c := None;
    for i := 0 to |db.entries|
      invariant c.Some? ==> c.value < i && Eligible(db, ev, c.value)
      invariant forall e: nat :: e < i && Eligible(db, ev, e) ==>
                  c.Some? && (e == c.value || RanksBefore(db, c.value, e))
    {
      if Eligible(db, ev, i) && (c.None? || RanksBefore(db, i, c.value)) {
        c := Some(i);
      }
    }
  }

  /** An opportunity offered to the candidate, if there is one. */
  function AfterOpportunity(db: Db, i: nat, c: Option<nat>): Db
    requires i < |db.outbox| && (c.Some? ==> c.value < |db.entries|)
  {
    var ev := db.outbox[i];
    var metrics := Event(Derived, ev.subject, ev.serviceId, ev.startsAt, ev.occurredAt);
    if c.None? then
      db.(processed := db.processed + {i}, outbox := db.outbox + [metrics])
    else
      db.(processed := db.processed + {i},
          offers := db.offers + [Offer(c.value, ev.subject, ev.occurredAt + OFFER_TTL, Open)],
          entries := db.entries[c.value := db.entries[c.value].(status := Offered)],
          outbox := db.outbox + [ev.(kind := WaitlistCandidateMatched, subject := c.value),
                                 ev.(kind := WaitlistOfferCreated, subject := |db.offers|),
                                 metrics])
  }

  /** What an opportunity leaves: nothing but its mark, or an offer of fifteen minutes to the entry that comes first. */
  ghost predicate OpportunityStored(db: Db, i: nat, c: Option<nat>, db': Db)
    requires db.Linked() && i < |db.outbox|
  {
    var ev := db.outbox[i];
    && db' == db.(processed := db.processed + {i}, offers := db'.offers, entries := db'.entries, outbox := db'.outbox)
    && if c.None? then
         && (forall e: nat :: !Wants(db, ev, e))
         && db'.offers == db.offers && db'.entries == db.entries
         && db'.outbox == db.outbox + [Event(Derived, ev.subject, ev.serviceId, ev.startsAt, ev.occurredAt)]
       else
         && ComesFirst(db, ev, c.value)
         && db'.offers == db.offers + [Offer(c.value, ev.subject, ev.occurredAt + 15 * 60_000, Open)]
         && |db'.entries| == |db.entries|
         && (forall e :: 0 <= e < |db.entries| ==>
               db'.entries[e] == if e == c.value then db.entries[e].(status := Offered) else db.entries[e])
         && db'.outbox == db.outbox + [Event(WaitlistCandidateMatched, c.value, ev.serviceId, ev.startsAt, ev.occurredAt),
                                       Event(WaitlistOfferCreated, |db.offers|, ev.serviceId, ev.startsAt, ev.occurredAt),
                                       Event(Derived, ev.subject, ev.serviceId, ev.startsAt, ev.occurredAt)]
  }

  lemma AfterOpportunityIsStored(db: Db, i: nat, c: Option<nat>)
    requires db.Linked() && i < |db.outbox| && IsCandidate(db, db.outbox[i], c)
    ensures OpportunityStored(db, i, c, AfterOpportunity(db, i, c))
  {
    CandidateComesFirst(db, db.outbox[i], c);
  }

  /** What one delivery leaves: nothing new if the event was handled before, and otherwise the work of its handler. */
  ghost predicate DeliveryStored(db: Db, i: nat, derived: seq<Event>, db': Db)
    requires db.Linked() && i < |db.outbox|
  {
    var kind := db.outbox[i].kind;
    if i in db.processed then db' == db
    else if kind == AppointmentCancelled || kind == WaitlistOfferExpired || kind == WaitlistOfferRejected then
      exists c :: OpportunityStored(db, i, c, db')
    else db' == db.(processed := db.processed + {i}, outbox := db.outbox + derived)
  }

  lemma HandledIsStored(db: Db, i: nat, derived: seq<Event>, db': Db)
    requires db.Linked() && i < |db.outbox| && HandledOnce(db, db', i, derived)
    ensures DeliveryStored(db, i, derived, db')
  {
    if i !in db.processed && db.outbox[i].kind.OpensOpportunity() {
      var c :| IsCandidate(db, db.outbox[i], c) && db' == AfterOpportunity(db, i, c);
      AfterOpportunityIsStored(db, i, c);
    }
  }

  predicate OnlyDerived(events: seq<Event>) {
    forall k | 0 <= k < |events| :: events[k].kind.Derived?
  }

  /** One delivery of event i: a repeated one changes nothing, a first one runs its handler. */
  ghost predicate HandledOnce(db: Db, db': Db, i: nat, derived: seq<Event>)
    requires db.Linked() && i < |db.outbox|
  {
    if i in db.processed then db' == db
    else if db.outbox[i].kind.OpensOpportunity() then
      exists c :: IsCandidate(db, db.outbox[i], c) && db' == AfterOpportunity(db, i, c)
    else
      OnlyDerived(derived) && db' == db.(processed := db.processed + {i}, outbox := db.outbox + derived)
  }

  datatype WorkerError = HandlerFailed

  /**
   RunOnce with HandleEvent; derived is what the handlers not modelled here emit, and fails says whether the handler
   returns an error, which rolls the transaction back and leaves the event for redelivery.
   */
  method RunOnce(store: Database, i: nat, derived: seq<Event>, fails: bool) returns (r: Result<bool, WorkerError>)
    requires store.db.Linked() && i < |store.db.outbox| && OnlyDerived(derived)
    modifies store
    ensures r.Err? <==> fails && i !in old(store.db).processed
    ensures r.Err? ==> store.db == old(store.db)
    ensures r.Ok? ==> DeliveryStored(old(store.db), i, derived, store.db)
    ensures r.Ok? ==> HandledOnce(old(store.db), store.db, i, derived)
    ensures r.Ok? ==> (r.value <==> i !in old(store.db).processed)
  {
    r := HandleEvent(store, i, derived, fails);
    if r.Ok? {
      HandledIsStored(old(store.db), i, derived, store.db);
    }
  }

  method HandleEvent(store: Database, i: nat, derived: seq<Event>, fails: bool) returns (r: Result<bool, WorkerError>)
    requires store.db.Linked() && i < |store.db.outbox| && OnlyDerived(derived)
    modifies store
    ensures r.Err? <==> fails && i !in old(store.db).processed
    ensures r.Err? ==> store.db == old(store.db)
    ensures r.Ok? ==> HandledOnce(old(store.db), store.db, i, derived)
    ensures r.Ok? ==> (r.value <==> i !in old(store.db).processed)
  {
    if i in store.db.processed {
      return Ok(false);
    }
    if fails {
      return Err(HandlerFailed);
    }
    var tx := store.db;
    tx := tx.(processed := tx.processed + {i});
    var ev := tx.outbox[i];
    if ev.kind.OpensOpportunity() {
      var c := FindWaitlistCandidate(store.db, ev);
      if c.Some? {
        var offer := |tx.offers|;
        tx := tx.(offers := tx.offers + [Offer(c.value, ev.subject, ev.occurredAt + OFFER_TTL, Open)]);
        tx := tx.(entries := tx.entries[c.value := tx.entries[c.value].(status := Offered)]);
        tx := tx.(outbox := tx.outbox + [ev.(kind := WaitlistCandidateMatched, subject := c.value)]);
        tx := tx.(outbox := tx.outbox + [ev.(kind := WaitlistOfferCreated, subject := offer)]);
      }
      tx := tx.(outbox := tx.outbox + [Event(Derived, ev.subject, ev.serviceId, ev.startsAt, ev.occurredAt)]);
      assert tx.outbox == AfterOpportunity(store.db, i, c).outbox;
    } else {
      tx := tx.(outbox := tx.outbox + derived);
    }
    store.db := tx;
    r := Ok(true);
  }
}
