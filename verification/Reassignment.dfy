/**
 The reassignment of a released slot. One cancellation starts at most one chain of offers, and
 every chain ends, whatever customers, staff, the worker and the broker do.
 */
module Reassignment {
  import opened Outcomes
  import opened Tables
  import opened Availability
  import opened Loading
  import opened Appointments
  import opened Waitlist
  import opened SeriesAdvance
  import opened Runs
  import opened Tallies

  // ---------------------------------------------------------------- what is counted

  function OpenFlags(offers: seq<Offer>, a: nat): seq<bool> {
    seq(|offers|, i requires 0 <= i < |offers| => offers[i].appointmentId == a && offers[i].status.Open?)
  }

  function OpportunityFlags(outbox: seq<Event>, processed: set<nat>, a: nat): seq<bool> {
    seq(|outbox|, i requires 0 <= i < |outbox| =>
      i !in processed && outbox[i].kind.OpensOpportunity() && outbox[i].subject == a)
  }

  function CancelledFlags(outbox: seq<Event>, a: nat): seq<bool> {
    seq(|outbox|, i requires 0 <= i < |outbox| => outbox[i].kind.AppointmentCancelled? && outbox[i].subject == a)
  }

  function UnofferedFlags(entries: seq<Entry>, offers: seq<Offer>, a: nat): seq<bool> {
    seq(|entries|, e requires 0 <= e < |entries| => !HasOfferFor(offers, e, a))
  }

  /** Pending offers of the slot of appointment a. */
  function OpenOffers(db: Db, a: nat): nat {
    Tally(OpenFlags(db.offers, a))
  }

  /** Events not yet processed that will look for a candidate for it. */
  function Opportunities(db: Db, a: nat): nat {
    Tally(OpportunityFlags(db.outbox, db.processed, a))
  }

  /** Cancellations of it that were ever emitted. */
  function Cancellations(db: Db, a: nat): nat {
    Tally(CancelledFlags(db.outbox, a))
  }

  /** Entries that were never offered it. */
  function Unoffered(db: Db, a: nat): nat {
    Tally(UnofferedFlags(db.entries, db.offers, a))
  }

  // ---------------------------------------------------------------- new events

  function NewOpportunities(events: seq<Event>, a: nat): nat {
    Tally(OpportunityFlags(events, {}, a))
  }

  lemma OpportunityFlagsSplit(outbox: seq<Event>, processed: set<nat>, events: seq<Event>, a: nat)
    requires forall i :: i in processed ==> i < |outbox|
    ensures OpportunityFlags(outbox + events, processed, a)
         == OpportunityFlags(outbox, processed, a) + OpportunityFlags(events, {}, a)
  {
    var whole, front, back :=
      OpportunityFlags(outbox + events, processed, a), OpportunityFlags(outbox, processed, a), OpportunityFlags(events, {}, a);
    forall i | 0 <= i < |whole|
      ensures whole[i] == (front + back)[i]
    {
      OpportunityFlagAt(outbox, processed, events, a, i);
    }
  }

  lemma OpportunityFlagAt(outbox: seq<Event>, processed: set<nat>, events: seq<Event>, a: nat, i: nat)
    requires forall i :: i in processed ==> i < |outbox|
    requires i < |outbox + events|
    ensures OpportunityFlags(outbox + events, processed, a)[i]
         == if i < |outbox| then OpportunityFlags(outbox, processed, a)[i] else OpportunityFlags(events, {}, a)[i - |outbox|]
  {
    if i < |outbox| {
      assert (outbox + events)[i] == outbox[i];
    } else {
      assert (outbox + events)[i] == events[i - |outbox|] && i !in processed;
    }
  }

  lemma OpportunityFlagsAppend(outbox: seq<Event>, processed: set<nat>, events: seq<Event>, a: nat)
    requires forall i :: i in processed ==> i < |outbox|
    ensures Tally(OpportunityFlags(outbox + events, processed, a))
         == Tally(OpportunityFlags(outbox, processed, a)) + NewOpportunities(events, a)
  {
    OpportunityFlagsSplit(outbox, processed, events, a);
    TallySplit(OpportunityFlags(outbox, processed, a), OpportunityFlags(events, {}, a));
  }

  lemma CancelledFlagsAppend(outbox: seq<Event>, events: seq<Event>, a: nat)
    ensures Tally(CancelledFlags(outbox + events, a)) == Tally(CancelledFlags(outbox, a)) + Tally(CancelledFlags(events, a))
  {
    assert CancelledFlags(outbox + events, a) == CancelledFlags(outbox, a) + CancelledFlags(events, a);
    TallySplit(CancelledFlags(outbox, a), CancelledFlags(events, a));
  }

  lemma OneEvent(ev: Event, a: nat)
    ensures NewOpportunities([ev], a) == if ev.kind.OpensOpportunity() && ev.subject == a then 1 else 0
    ensures Tally(CancelledFlags([ev], a)) == if ev.kind.AppointmentCancelled? && ev.subject == a then 1 else 0
  {
    TallyOne(ev.kind.OpensOpportunity() && ev.subject == a);
    assert OpportunityFlags([ev], {}, a) == [ev.kind.OpensOpportunity() && ev.subject == a];
    TallyOne(ev.kind.AppointmentCancelled? && ev.subject == a);
    assert CancelledFlags([ev], a) == [ev.kind.AppointmentCancelled? && ev.subject == a];
  }

  lemma Emitting(db: Db, events: seq<Event>, a: nat)
    requires ProcessedInRange(db)
    ensures var after := db.(outbox := db.outbox + events);
            && Opportunities(after, a) == Opportunities(db, a) + NewOpportunities(events, a)
            && Cancellations(after, a) == Cancellations(db, a) + Tally(CancelledFlags(events, a))
  {
    OpportunityFlagsAppend(db.outbox, db.processed, events, a);
    CancelledFlagsAppend(db.outbox, events, a);
  }

  /** Events without expiries and rejections open exactly as many opportunities as they cancel. */
  lemma {:induction false} CancellationsAreOpportunities(events: seq<Event>, a: nat)
    requires forall k :: 0 <= k < |events| ==> events[k].kind.OpensOpportunity() ==> events[k].kind.AppointmentCancelled?
    ensures NewOpportunities(events, a) == Tally(CancelledFlags(events, a))
  {
    assert OpportunityFlags(events, {}, a) == CancelledFlags(events, a);
  }

  lemma {:induction false} ExpiryOpportunities(db: Db, n: nat, now: int, a: nat)
    requires n <= |db.appointments|
    ensures NewOpportunities(ExpiryEvents(db, n, now), a) == if a < n && AppointmentDue(db.offers, a, now) then 1 else 0
  {
    if n == 0 {
      NoExpiry(db, now, a);
    } else {
      ExpiryOpportunities(db, n - 1, now, a);
      OneMoreExpiry(db, n, now, a);
    }
  }

  lemma NoExpiry(db: Db, now: int, a: nat)
    ensures NewOpportunities(ExpiryEvents(db, 0, now), a) == 0
  {
  }

  lemma {:induction false} ExpiryCancelsNothing(db: Db, n: nat, now: int, a: nat)
    requires n <= |db.appointments|
    ensures Tally(CancelledFlags(ExpiryEvents(db, n, now), a)) == 0
  {
    if n == 0 {
      assert CancelledFlags(ExpiryEvents(db, 0, now), a) == [];
    } else {
      ExpiryCancelsNothing(db, n - 1, now, a);
      OneMoreExpiry(db, n, now, a);
    }
  }

  lemma OneMoreExpiry(db: Db, n: nat, now: int, a: nat)
    requires 0 < n <= |db.appointments|
    ensures NewOpportunities(ExpiryEvents(db, n, now), a)
         == NewOpportunities(ExpiryEvents(db, n - 1, now), a)
            + (if a == n - 1 && AppointmentDue(db.offers, a, now) then 1 else 0)
    ensures Tally(CancelledFlags(ExpiryEvents(db, n, now), a)) == Tally(CancelledFlags(ExpiryEvents(db, n - 1, now), a))
  {
    var front, last := ExpiryEvents(db, n - 1, now), ExpiryEvent(db, n - 1, now);
    OpportunityFlagsAppend(front, {}, last, a);
    CancelledFlagsAppend(front, last, a);
    OneExpiry(db, n - 1, now, a);
  }

  lemma OneExpiry(db: Db, b: nat, now: int, a: nat)
    requires b < |db.appointments|
    ensures NewOpportunities(ExpiryEvent(db, b, now), a) == if a == b && AppointmentDue(db.offers, b, now) then 1 else 0
    ensures Tally(CancelledFlags(ExpiryEvent(db, b, now), a)) == 0
  {
    if AppointmentDue(db.offers, b, now) {
      OneEvent(ExpiryEvent(db, b, now)[0], a);
    }
  }

  // ---------------------------------------------------------------- the account of one step

  /** Steps that carry the reassignment of a's slot forward. */
  predicate Reassigns(db: Db, t: Action, a: nat) {
    match t
    case Create(_, b, _) =>
      b.offer.Some? && b.offer.value < |db.offers| && db.offers[b.offer.value].appointmentId == a
    case Reject(o, _, _) => o < |db.offers| && db.offers[o].appointmentId == a
    case Expire(now) => AppointmentDue(db.offers, a, now)
    case Deliver(i, _) =>
      i !in db.processed && i < |db.outbox| && db.outbox[i].kind.OpensOpportunity() && db.outbox[i].subject == a
    case _ => false
  }

  /** Offers pending or about to be made, against cancellations and entries still to be offered. */
  ghost predicate Accounts(db: Db, t: Action, db': Db, a: nat) {
    var step := if Reassigns(db, t, a) then 1 else 0;
    var emitted := Cancellations(db', a) - Cancellations(db, a);
    && 0 <= emitted
    && OpenOffers(db', a) + Opportunities(db', a) <= OpenOffers(db, a) + Opportunities(db, a) + emitted
    && step + Potential(db', a) <= Potential(db, a) + emitted + 3 * (|db'.entries| - |db.entries|)
    && ProcessedInRange(db')
  }

  /** Each reassigning step lowers it; only a cancellation or a new entry raises it. */
  function Potential(db: Db, a: nat): nat {
    3 * Unoffered(db, a) + 2 * OpenOffers(db, a) + Opportunities(db, a)
  }

  lemma EmittingAccounts(db: Db, t: Action, db': Db, events: seq<Event>, a: nat)
    requires ProcessedInRange(db) && !Reassigns(db, t, a)
    requires db'.outbox == db.outbox + events && db'.processed == db.processed
    requires db'.offers == db.offers && |db'.entries| == |db.entries|
    requires forall k :: 0 <= k < |events| ==> events[k].kind.OpensOpportunity() ==> events[k].kind.AppointmentCancelled?
    ensures Accounts(db, t, db', a)
  {
    Emitting(db, events, a);
    CancellationsAreOpportunities(events, a);
    assert Opportunities(db', a) == Opportunities(db.(outbox := db.outbox + events), a);
    assert UnofferedFlags(db'.entries, db'.offers, a) == UnofferedFlags(db.entries, db.offers, a);
  }

  lemma SettlingAccounts(db: Db, t: Action, db': Db, events: seq<Event>, o: nat, a: nat)
    requires ProcessedInRange(db) && o < |db.offers| && db.offers[o].status.Open?
    requires Reassigns(db, t, a) <==> db.offers[o].appointmentId == a
    requires db'.outbox == db.outbox + events && db'.processed == db.processed && |db'.entries| == |db.entries|
    requires exists s: OfferStatus :: !s.Open? && db'.offers == db.offers[o := db.offers[o].(status := s)]
    requires NewOpportunities(events, a) <= if db.offers[o].appointmentId == a then 1 else 0
    requires Tally(CancelledFlags(events, a)) == 0
    ensures Accounts(db, t, db', a)
  {
    Emitting(db, events, a);
    assert Opportunities(db', a) == Opportunities(db.(outbox := db.outbox + events), a);
    SettledOffer(db.offers, db'.offers, o, a);
    SameOffersTo(db, db', a);
  }

  lemma SettledOffer(offers: seq<Offer>, offers': seq<Offer>, o: nat, a: nat)
    requires o < |offers| && offers[o].status.Open?
    requires exists s: OfferStatus :: !s.Open? && offers' == offers[o := offers[o].(status := s)]
    ensures Tally(OpenFlags(offers', a)) == Tally(OpenFlags(offers, a)) - (if offers[o].appointmentId == a then 1 else 0)
  {
    assert OpenFlags(offers', a) == OpenFlags(offers, a)[o := false];
    TallyUpdate(OpenFlags(offers, a), o, false);
  }

  lemma SameOffersTo(db: Db, db': Db, a: nat)
    requires |db'.entries| == |db.entries| && |db'.offers| == |db.offers|
    requires forall i :: 0 <= i < |db.offers| ==>
               db'.offers[i].entryId == db.offers[i].entryId && db'.offers[i].appointmentId == db.offers[i].appointmentId
    ensures Unoffered(db', a) == Unoffered(db, a)
  {
    forall e | 0 <= e < |db.entries|
      ensures HasOfferFor(db'.offers, e, a) == HasOfferFor(db.offers, e, a)
    {
      if i :| 0 <= i < |db.offers| && db.offers[i].entryId == e && db.offers[i].appointmentId == a {
        assert db'.offers[i].entryId == e && db'.offers[i].appointmentId == a;
      }
    }
    assert UnofferedFlags(db'.entries, db'.offers, a) == UnofferedFlags(db.entries, db.offers, a);
  }

  lemma NoOpportunities(events: seq<Event>, a: nat)
    requires forall k :: 0 <= k < |events| ==> !events[k].kind.OpensOpportunity()
    ensures NewOpportunities(events, a) == 0 && Tally(CancelledFlags(events, a)) == 0
  {
    TallyZero(OpportunityFlags(events, {}, a));
    TallyZero(CancelledFlags(events, a));
  }

  lemma CreateAccounts(db: Db, cfg: Config, b: Booking, staff: int, a: nat)
    requires db.Linked() && CreateFits(db, cfg, b) && ProcessedInRange(db)
    ensures Accounts(db, Create(cfg, b, staff), AfterCreate(db, cfg, b, staff), a)
  {
    var after := AfterCreate(db, cfg, b, staff);
    var events := after.outbox[|db.outbox|..];
    assert after.outbox == db.outbox + events;
    NoOpportunities(events, a);
    if b.offer.Some? {
      assert after.offers == db.offers[b.offer.value := db.offers[b.offer.value].(status := Accepted)];
      SettlingAccounts(db, Create(cfg, b, staff), after, events, b.offer.value, a);
    } else {
      EmittingAccounts(db, Create(cfg, b, staff), after, events, a);
    }
  }

  lemma RejectAccounts(db: Db, o: nat, read: Appointment, now: int, a: nat)
    requires db.Linked() && OfferLive(db, o, now) && ProcessedInRange(db)
    ensures Accounts(db, Reject(o, read, now), AfterReject(db, o, read, now), a)
  {
    var after := AfterReject(db, o, read, now);
    var subject := db.offers[o].appointmentId;
    var events := [EventOf(WaitlistOfferRejected, subject, read, now)];
    OneEvent(events[0], a);
    assert after.offers == db.offers[o := db.offers[o].(status := Rejected)];
    SettlingAccounts(db, Reject(o, read, now), after, events, o, a);
  }

  lemma ExpireOffersCount(db: Db, now: int, a: nat)
    ensures OpenOffers(AfterExpire(db, now), a) + (if AppointmentDue(db.offers, a, now) then 1 else 0) <= OpenOffers(db, a)
    ensures Unoffered(AfterExpire(db, now), a) == Unoffered(db, a)
  {
    var after := AfterExpire(db, now);
    SameOffersTo(db, after, a);
    var was, left := OpenFlags(db.offers, a), OpenFlags(after.offers, a);
    TallyWithin(left, was);
    if AppointmentDue(db.offers, a, now) {
      var i :| 0 <= i < |db.offers| && db.offers[i].appointmentId == a && Due(db.offers[i], now);
      assert was[i] && !left[i];
    }
  }

  lemma ExpireEventsCount(db: Db, now: int, a: nat)
    requires db.Linked() && ProcessedInRange(db)
    ensures Opportunities(AfterExpire(db, now), a)
         == Opportunities(db, a) + (if AppointmentDue(db.offers, a, now) then 1 else 0)
    ensures Cancellations(AfterExpire(db, now), a) == Cancellations(db, a)
    ensures ProcessedInRange(AfterExpire(db, now))
  {
    var events := ExpiryEvents(db, |db.appointments|, now);
    ExpiryOpportunities(db, |db.appointments|, now, a);
    ExpiryCancelsNothing(db, |db.appointments|, now, a);
    OpportunityFlagsAppend(db.outbox, db.processed, events, a);
    CancelledFlagsAppend(db.outbox, events, a);
  }

  lemma ExpireAccounts(db: Db, now: int, a: nat)
    requires db.Linked() && ProcessedInRange(db)
    ensures Accounts(db, Expire(now), AfterExpire(db, now), a)
  {
    ExpireOffersCount(db, now, a);
    ExpireEventsCount(db, now, a);
  }

  lemma AddEntryAccounts(db: Db, q: EntryRequest, a: nat)
    requires db.Linked() && (q.customer.Some? ==> q.customer.value < |db.customers|) && ProcessedInRange(db)
    ensures Accounts(db, AddEntry(q), AfterCreateEntry(db, q), a)
  {
    var after := AfterCreateEntry(db, q);
    var events := after.outbox[|db.outbox|..];
    assert after.outbox == db.outbox + events;
    Emitting(db, events, a);
    NoOpportunities(events, a);
    assert Opportunities(after, a) == Opportunities(db.(outbox := db.outbox + events), a);
    OneMoreEntry(db, after, a);
  }

  lemma OneMoreEntry(db: Db, after: Db, a: nat)
    requires after.offers == db.offers && |after.entries| == |db.entries| + 1
    ensures Unoffered(db, a) <= Unoffered(after, a) <= Unoffered(db, a) + 1
  {
    var added := [!HasOfferFor(db.offers, |db.entries|, a)];
    assert UnofferedFlags(after.entries, after.offers, a) == UnofferedFlags(db.entries, db.offers, a) + added;
    TallySplit(UnofferedFlags(db.entries, db.offers, a), added);
    TallyOne(added[0]);
  }

  /** Marking an event processed takes one opportunity away if it was one. */
  lemma Consuming(db: Db, i: nat, a: nat)
    requires i < |db.outbox| && i !in db.processed
    ensures Opportunities(db.(processed := db.processed + {i}), a)
         == Opportunities(db, a) - (if db.outbox[i].kind.OpensOpportunity() && db.outbox[i].subject == a then 1 else 0)
  {
    assert OpportunityFlags(db.outbox, db.processed + {i}, a) == OpportunityFlags(db.outbox, db.processed, a)[i := false];
    TallyUpdate(OpportunityFlags(db.outbox, db.processed, a), i, false);
  }

  lemma MatchEvents(db: Db, i: nat, c: Option<nat>, a: nat)
    requires ProcessedInRange(db) && i < |db.outbox| && i !in db.processed
    requires db.outbox[i].kind.OpensOpportunity() && (c.Some? ==> c.value < |db.entries|)
    ensures var after := AfterOpportunity(db, i, c);
            && Opportunities(after, a) == Opportunities(db, a) - (if db.outbox[i].subject == a then 1 else 0)
            && Cancellations(after, a) == Cancellations(db, a)
            && ProcessedInRange(after)
  {
    var after := AfterOpportunity(db, i, c);
    var events := after.outbox[|db.outbox|..];
    assert after.outbox == db.outbox + events;
    Consuming(db, i, a);
    NoOpportunities(events, a);
    OpportunityFlagsAppend(db.outbox, db.processed + {i}, events, a);
    CancelledFlagsAppend(db.outbox, events, a);
  }

  lemma MatchOffers(db: Db, i: nat, e: nat, a: nat)
    requires i < |db.outbox| && Eligible(db, db.outbox[i], e)
    ensures var after, hit := AfterOpportunity(db, i, Some(e)), if db.outbox[i].subject == a then 1 else 0;
            OpenOffers(after, a) == OpenOffers(db, a) + hit && Unoffered(after, a) == Unoffered(db, a) - hit
  {
    var after, subject := AfterOpportunity(db, i, Some(e)), db.outbox[i].subject;
    assert OpenFlags(after.offers, a) == OpenFlags(db.offers, a) + [subject == a];
    TallySplit(OpenFlags(db.offers, a), [subject == a]);
    TallyOne(subject == a);
    NewOffer(db, after, e, subject, a);
  }

  lemma MatchAccounts(db: Db, i: nat, c: Option<nat>, derived: seq<Event>, a: nat)
    requires ProcessedInRange(db) && i < |db.outbox| && i !in db.processed
    requires db.outbox[i].kind.OpensOpportunity()
    requires c.Some? ==> Eligible(db, db.outbox[i], c.value)
    ensures Accounts(db, Deliver(i, derived), AfterOpportunity(db, i, c), a)
  {
    MatchEvents(db, i, c, a);
    if c.Some? {
      MatchOffers(db, i, c.value, a);
    }
  }

  lemma NewOffer(db: Db, after: Db, e: nat, subject: nat, a: nat)
    requires e < |db.entries| == |after.entries| && !HasOfferFor(db.offers, e, subject)
    requires |after.offers| == |db.offers| + 1 && after.offers[..|db.offers|] == db.offers
    requires after.offers[|db.offers|].entryId == e && after.offers[|db.offers|].appointmentId == subject
    ensures Unoffered(after, a) == Unoffered(db, a) - (if subject == a then 1 else 0)
  {
    forall f: nat | f < |db.entries|
      ensures HasOfferFor(after.offers, f, a) == (HasOfferFor(db.offers, f, a) || (f == e && subject == a))
    {
      assert forall i :: 0 <= i < |db.offers| ==> after.offers[i] == db.offers[i];
      if i :| 0 <= i < |db.offers| && db.offers[i].entryId == f && db.offers[i].appointmentId == a {
        assert after.offers[i].entryId == f;
      }
    }
    var flags := UnofferedFlags(db.entries, db.offers, a);
    if subject == a {
      assert UnofferedFlags(after.entries, after.offers, a) == flags[e := false];
      TallyUpdate(flags, e, false);
    } else {
      assert UnofferedFlags(after.entries, after.offers, a) == flags;
    }
  }

  lemma OtherDeliveryAccounts(db: Db, i: nat, derived: seq<Event>, a: nat)
    requires ProcessedInRange(db) && i < |db.outbox| && i !in db.processed
    requires !db.outbox[i].kind.OpensOpportunity() && OnlyDerived(derived)
    ensures Accounts(db, Deliver(i, derived), db.(processed := db.processed + {i}, outbox := db.outbox + derived), a)
  {
    Consuming(db, i, a);
    NoOpportunities(derived, a);
    OpportunityFlagsAppend(db.outbox, db.processed + {i}, derived, a);
    CancelledFlagsAppend(db.outbox, derived, a);
  }

  lemma CancelManyAccounts(db: Db, seriesId: nat, ids: seq<nat>, read: seq<Appointment>, now: int, a: nat)
    requires db.Linked() && SeriesRows(db, seriesId, ids) && |read| == |ids| && ProcessedInRange(db)
    ensures Accounts(db, CancelMany(seriesId, ids, read, now), AfterCancelSeries(db, seriesId, ids, read, now), a)
  {
    var events := CancelEvents(ids, read, now);
    forall k | 0 <= k < |events|
      ensures events[k].kind.OpensOpportunity() ==> events[k].kind.AppointmentCancelled?
    {
      CancelEventsKinds(ids, read, now, k);
    }
    EmittingAccounts(db, CancelMany(seriesId, ids, read, now), AfterCancelSeries(db, seriesId, ids, read, now), events, a);
  }

  lemma SeriesAccounts(db: Db, cfg: Config, s: SeriesRequest, a: nat)
    requires s.customer < |db.customers| && s.serviceId in cfg.services && ProcessedInRange(db)
    ensures Accounts(db, CreateMany(cfg, s), AfterSeries(db, cfg, s), a)
  {
    var events := AfterSeries(db, cfg, s).outbox[|db.outbox|..];
    assert AfterSeries(db, cfg, s).outbox == db.outbox + events;
    EmittingAccounts(db, CreateMany(cfg, s), AfterSeries(db, cfg, s), events, a);
  }

  lemma RowStepAccounts(db: Db, t: Action, db': Db, a: nat)
    requires db.Linked() && Next(db, t, db') && ProcessedInRange(db)
    requires t.Reschedule? || t.Cancel? || t.Advance?
    ensures Accounts(db, t, db', a)
  {
    EmittingAccounts(db, t, db', db'.outbox[|db.outbox|..], a);
  }

  lemma BookingStepAccounts(db: Db, t: Action, db': Db, a: nat)
    requires db.Linked() && Next(db, t, db') && ProcessedInRange(db)
    requires t.Create? || t.CreateMany? || t.SetStatus? || t.CancelMany?
    ensures Accounts(db, t, db', a)
  {
    match t
    case Create(cfg, b, staff) => CreateAccounts(db, cfg, b, staff, a);
    case CreateMany(cfg, s) => SeriesAccounts(db, cfg, s, a);
    case SetStatus(id, next, _, now) => EmittingAccounts(db, t, db', StatusEvents(next, id, db'.appointments[id], now), a);
    case CancelMany(seriesId, ids, read, now) => CancelManyAccounts(db, seriesId, ids, read, now, a);
  }

  lemma WaitlistStepAccounts(db: Db, t: Action, db': Db, a: nat)
    requires db.Linked() && Next(db, t, db') && ProcessedInRange(db)
    requires t.AddEntry? || t.WithdrawEntry? || t.Reject? || t.Expire?
    ensures Accounts(db, t, db', a)
  {
    match t
    case AddEntry(q) => AddEntryAccounts(db, q, a);
    case WithdrawEntry(_) => EmittingAccounts(db, t, db', [], a);
    case Reject(o, read, now) => RejectAccounts(db, o, read, now, a);
    case Expire(now) => ExpireAccounts(db, now, a);
  }

  lemma DeliveryAccounts(db: Db, i: nat, derived: seq<Event>, db': Db, a: nat)
    requires db.Linked() && Next(db, Deliver(i, derived), db') && ProcessedInRange(db)
    ensures Accounts(db, Deliver(i, derived), db', a)
  {
    if i in db.processed {
      EmittingAccounts(db, Deliver(i, derived), db', [], a);
    } else if db.outbox[i].kind.OpensOpportunity() {
      var c :| IsCandidate(db, db.outbox[i], c) && db' == AfterOpportunity(db, i, c);
      MatchAccounts(db, i, c, derived, a);
    } else {
      OtherDeliveryAccounts(db, i, derived, a);
    }
  }

  lemma StepAccounts(db: Db, t: Action, db': Db, a: nat)
    requires db.Linked() && Next(db, t, db') && ProcessedInRange(db)
    ensures Accounts(db, t, db', a)
  {
    if t.Deliver? {
      DeliveryAccounts(db, t.event, t.derived, db', a);
    } else if t.AddEntry? || t.WithdrawEntry? || t.Reject? || t.Expire? {
      WaitlistStepAccounts(db, t, db', a);
    } else if t.Reschedule? || t.Cancel? || t.Advance? {
      RowStepAccounts(db, t, db', a);
    } else {
      BookingStepAccounts(db, t, db', a);
    }
  }

  // ---------------------------------------------------------------- runs

  /**
   At every reachable state, the pending offers of a slot and the events that can still lead to one
   are no more than its cancellations: one cancellation never yields two live offers.
   */
  lemma {:induction false} OpportunitiesAreConserved(run: Run, a: nat)
    requires run.Valid() && run.states[0] == EMPTY_DB
    ensures OpenOffers(run.Last(), a) + Opportunities(run.Last(), a) <= Cancellations(run.Last(), a)
    ensures ProcessedInRange(run.Last())
    decreases |run.actions|
  {
    if |run.actions| == 0 {
      assert OpenFlags(EMPTY_DB.offers, a) == [] && OpportunityFlags(EMPTY_DB.outbox, EMPTY_DB.processed, a) == [];
    } else {
      FrontIsValid(run);
      OpportunitiesAreConserved(run.Front(), a);
      StepAccounts(run.Front().Last(), run.actions[|run.actions| - 1], run.Last(), a);
    }
  }

  function ReassigningSteps(run: Run, a: nat): nat
    requires |run.states| == |run.actions| + 1
    decreases |run.actions|
  {
    if run.actions == [] then 0
    else
      var last := |run.actions| - 1;
      ReassigningSteps(run.Front(), a) + (if Reassigns(run.states[last], run.actions[last], a) then 1 else 0)
  }

  function Budget(db: Db, a: nat): int {
    Potential(db, a) - Cancellations(db, a) - 3 * |db.entries|
  }

  lemma LastStepComesOutOfTheBudget(run: Run, a: nat)
    requires run.Valid() && |run.actions| > 0 && ProcessedInRange(run.Front().Last())
    ensures ReassigningSteps(run, a) - ReassigningSteps(run.Front(), a) + Budget(run.Last(), a)
         <= Budget(run.Front().Last(), a)
    ensures ProcessedInRange(run.Last())
  {
    var last := |run.actions| - 1;
    FrontIsValid(run);
    StepAccounts(run.states[last], run.actions[last], run.Last(), a);
  }

  lemma {:induction false} StepsComeOutOfTheBudget(run: Run, a: nat)
    requires run.Valid() && ProcessedInRange(run.states[0])
    ensures ReassigningSteps(run, a) + Budget(run.Last(), a) <= Budget(run.states[0], a)
    ensures ProcessedInRange(run.Last())
    decreases |run.actions|
  {
    if |run.actions| > 0 {
      FrontIsValid(run);
      StepsComeOutOfTheBudget(run.Front(), a);
      LastStepComesOutOfTheBudget(run, a);
    }
  }

  /**
   The chain terminates: the reassigning steps of a run, of whatever length, are bounded by the
   potential at its start, the cancellations it emits and three times the entries it adds.
   */
  lemma ReassignmentTerminates(run: Run, a: nat)
    requires run.Valid() && ProcessedInRange(run.states[0])
    ensures ReassigningSteps(run, a)
         <= Potential(run.states[0], a)
            + (Cancellations(run.Last(), a) - Cancellations(run.states[0], a))
            + 3 * (|run.Last().entries| - |run.states[0].entries|)
  {
    StepsComeOutOfTheBudget(run, a);
  }

  /** No entry is offered the same slot twice. */
  ghost predicate OffersDistinct(db: Db) {
    forall i, j :: 0 <= i < j < |db.offers| ==>
      !(db.offers[i].entryId == db.offers[j].entryId && db.offers[i].appointmentId == db.offers[j].appointmentId)
  }

  lemma SameKeysStayDistinct(db: Db, db': Db)
    requires OffersDistinct(db) && |db'.offers| == |db.offers|
    requires forall i :: 0 <= i < |db.offers| ==>
               db'.offers[i].entryId == db.offers[i].entryId && db'.offers[i].appointmentId == db.offers[i].appointmentId
    ensures OffersDistinct(db')
  {
  }

  lemma DeliveryKeepsOffersDistinct(db: Db, i: nat, derived: seq<Event>, db': Db)
    requires db.Linked() && Next(db, Deliver(i, derived), db') && OffersDistinct(db)
    ensures OffersDistinct(db')
  {
    var c := DeliveryEffect(db, i, derived, db');
    assert c.Some? ==> !HasOfferFor(db.offers, c.value, db.outbox[i].subject);
  }

  /** No step but a delivery adds an offer, and none changes an offer's entry or slot. */
  lemma StepKeepsKeys(db: Db, t: Action, db': Db)
    requires db.Linked() && Next(db, t, db') && (t.Create? || t.Reject? || t.Expire?)
    ensures |db'.offers| == |db.offers|
    ensures forall i :: 0 <= i < |db.offers| ==>
              db'.offers[i].entryId == db.offers[i].entryId && db'.offers[i].appointmentId == db.offers[i].appointmentId
  {
    if t.Create? {
      assert db'.offers == AcceptOffer(db.offers, t.booking.offer);
    }
  }

  lemma StepKeepsOffersDistinct(db: Db, t: Action, db': Db)
    requires db.Linked() && Next(db, t, db') && OffersDistinct(db)
    ensures OffersDistinct(db')
  {
    if t.Deliver? {
      DeliveryKeepsOffersDistinct(db, t.event, t.derived, db');
    } else if t.Create? || t.Reject? || t.Expire? {
      StepKeepsKeys(db, t, db');
      SameKeysStayDistinct(db, db');
    } else if !t.AddEntry? && !t.WithdrawEntry? {
      OtherStepsKeepWaitlist(db, t, db');
    }
  }

  lemma {:induction false} NoSlotIsOfferedTwice(run: Run)
    requires run.Valid() && OffersDistinct(run.states[0])
    ensures OffersDistinct(run.Last())
    decreases |run.actions|
  {
    if |run.actions| > 0 {
      FrontIsValid(run);
      NoSlotIsOfferedTwice(run.Front());
      StepKeepsOffersDistinct(run.Front().Last(), run.actions[|run.actions| - 1], run.Last());
    }
  }
}
