/**
 The worker's own step of a recurring series (CreateRecurringAppointments in service.go, IsSlotTaken and
 AdvanceRecurringSeries in repository.go). The slot is checked in a statement of its own before the
 transaction that inserts the occurrence, and the stored interval is the service's duration without its buffer.
 */
module SeriesAdvance {
  import opened Outcomes
  import opened Tables
  import opened Availability
  import opened Loading
  import opened Appointments

  /** A claimed series: the part of its row that the insert uses. */
  datatype Claim = Claim(seriesId: nat, serviceId: int, staffMemberId: int, startsAt: int, durationMinutes: int)
  {
    function EndsAt(): int {
      startsAt + durationMinutes * 60_000
    }
  }

  /** Only cancelled appointments free their interval; completed and missed ones do not. */
  predicate IsSlotTaken(appointments: seq<Appointment>, staffMemberId: int, startsAt: int, endsAt: int) {
    exists i | 0 <= i < |appointments| ::
      && appointments[i].staffMemberId == staffMemberId
      && !appointments[i].status.CancelledByCustomer? && !appointments[i].status.CancelledByBusiness?
      && Overlap(startsAt, endsAt, appointments[i].startsAt, appointments[i].endsAt)
  }

  /** A pending, confirmed, completed or missed visit to that staff member begins before the end and ends after the start. */
  ghost predicate Holds(a: Appointment, staffMemberId: int, startsAt: int, endsAt: int) {
    && a.staffMemberId == staffMemberId
    && (a.status == Pending || a.status == Confirmed || a.status == Completed || a.status == NoShow)
    && a.startsAt < endsAt && startsAt < a.endsAt
  }

  lemma SlotIsTakenIffHeld(appointments: seq<Appointment>, staffMemberId: int, startsAt: int, endsAt: int)
    ensures IsSlotTaken(appointments, staffMemberId, startsAt, endsAt)
       <==> exists i :: 0 <= i < |appointments| && Holds(appointments[i], staffMemberId, startsAt, endsAt)
  {
    forall a: Appointment
      ensures Holds(a, staffMemberId, startsAt, endsAt) <==>
        && a.staffMemberId == staffMemberId && !a.status.CancelledByCustomer? && !a.status.CancelledByBusiness?
        && Overlap(startsAt, endsAt, a.startsAt, a.endsAt)
    {
    }
  }

  function ClaimedAppointment(db: Db, claim: Claim): Appointment
    requires claim.seriesId < |db.series|
  {
    Appointment(claim.serviceId, claim.staffMemberId, db.series[claim.seriesId].customerId, claim.startsAt, claim.EndsAt(),
                Confirmed, Some(claim.seriesId))
  }

  /** taken is what the earlier statement read. Neither the customer's total nor the guard is consulted. */
  function AfterAdvance(db: Db, claim: Claim, taken: bool, now: int): Db
    requires claim.seriesId < |db.series|
  {
    if taken then
      db.(outbox := db.outbox + [Event(RecurringSeriesConflict, claim.seriesId, claim.serviceId, claim.startsAt, now)])
    else
      var a := ClaimedAppointment(db, claim);
      db.(appointments := db.appointments + [a],
          outbox := db.outbox + [EventOf(AppointmentBooked, |db.appointments|, a, now)])
  }

  /** What one step leaves: the occurrence as claimed and its event, or the event of a conflict. */
  ghost predicate AdvanceStored(db: Db, claim: Claim, taken: bool, now: int, db': Db)
    requires claim.seriesId < |db.series|
  {
    && db' == db.(appointments := db'.appointments, outbox := db'.outbox)
    && if taken then
         && db'.appointments == db.appointments
         && db'.outbox == db.outbox + [Event(RecurringSeriesConflict, claim.seriesId, claim.serviceId, claim.startsAt, now)]
       else
         && db'.appointments == db.appointments
              + [Appointment(claim.serviceId, claim.staffMemberId, db.series[claim.seriesId].customerId, claim.startsAt,
                             claim.startsAt + 60_000 * claim.durationMinutes, Confirmed, Some(claim.seriesId))]
         && db'.outbox == db.outbox + [Event(AppointmentBooked, |db.appointments|, claim.serviceId, claim.startsAt, now)]
  }

  method AdvanceRecurringSeries(store: Database, claim: Claim, taken: bool, now: int)
    requires claim.seriesId < |store.db.series|
    modifies store
    ensures AdvanceStored(old(store.db), claim, taken, now, store.db)
    ensures store.db == AfterAdvance(old(store.db), claim, taken, now)
  {
    var tx := store.db;
    if !taken {
      var a := Appointment(claim.serviceId, claim.staffMemberId, tx.series[claim.seriesId].customerId, claim.startsAt,
                           claim.startsAt + claim.durationMinutes * 60_000, Confirmed, Some(claim.seriesId));
      var id := |tx.appointments|;
      tx := tx.(appointments := tx.appointments + [a]);
      tx := tx.(outbox := tx.outbox + [EventOf(AppointmentBooked, id, a, now)]);
    } else {
      tx := tx.(outbox := tx.outbox + [Event(RecurringSeriesConflict, claim.seriesId, claim.serviceId, claim.startsAt, now)]);
    }
    store.db := tx;
  }

  predicate Claimable(db: Db, claims: seq<Claim>) {
    forall k | 0 <= k < |claims| :: claims[k].seriesId < |db.series|
  }

  /**
   The claimed series one after another, each after its own check; one whose check, token or transaction fails is
   skipped and leaves no trace.
   */
  function AfterAdvances(db: Db, claims: seq<Claim>, fails: seq<bool>, now: int): (result: Db)
    requires Claimable(db, claims) && |fails| == |claims|
    ensures result.series == db.series
  {
    if claims == [] then db
    else
      var last := |claims| - 1;
      var before := AfterAdvances(db, claims[..last], fails[..last], now);
      if fails[last] then before
      else
        AfterAdvance(before, claims[last],
                     IsSlotTaken(before.appointments, claims[last].staffMemberId, claims[last].startsAt, claims[last].EndsAt()),
                     now)
  }

  /** The states between the claims: a failed one leaves no trace, and each other one is advanced after a check of its interval. */
  ghost predicate JobSteps(states: seq<Db>, claims: seq<Claim>, fails: seq<bool>, now: int) {
    && |states| == |claims| + 1 == |fails| + 1
    && forall k :: 0 <= k < |claims| ==> JobStep(states[k], claims[k], fails[k], now, states[k + 1])
  }

  ghost predicate JobStep(db: Db, claim: Claim, fails: bool, now: int, db': Db) {
    && claim.seriesId < |db.series|
    && if fails then db' == db
       else
         var taken := exists i :: 0 <= i < |db.appointments|
                        && Holds(db.appointments[i], claim.staffMemberId, claim.startsAt, claim.startsAt + 60_000 * claim.durationMinutes);
         AdvanceStored(db, claim, taken, now, db')
  }

  lemma {:induction false} JobIsSteps(db: Db, claims: seq<Claim>, fails: seq<bool>, now: int) returns (states: seq<Db>)
    requires Claimable(db, claims) && |fails| == |claims|
    ensures JobSteps(states, claims, fails, now) && states[0] == db && states[|claims|] == AfterAdvances(db, claims, fails, now)
  {
    if claims == [] {
      states := [db];
    } else {
      var last := |claims| - 1;
      states := JobIsSteps(db, claims[..last], fails[..last], now);
      LastJobStep(db, claims, fails, now);
      states := states + [AfterAdvances(db, claims, fails, now)];
      forall k | 0 <= k < |claims|
        ensures JobStep(states[k], claims[k], fails[k], now, states[k + 1])
      {
        if k < last {
          assert JobStep(states[k], claims[..last][k], fails[..last][k], now, states[k + 1]);
        }
      }
    }
  }

  lemma LastJobStep(db: Db, claims: seq<Claim>, fails: seq<bool>, now: int)
    requires Claimable(db, claims) && |fails| == |claims| && claims != []
    ensures var last := |claims| - 1;
            JobStep(AfterAdvances(db, claims[..last], fails[..last], now), claims[last], fails[last], now,
                    AfterAdvances(db, claims, fails, now))
  {
    var last := |claims| - 1;
    var before, claim := AfterAdvances(db, claims[..last], fails[..last], now), claims[last];
    SlotIsTakenIffHeld(before.appointments, claim.staffMemberId, claim.startsAt, claim.EndsAt());
  }

  /** The whole job when nothing commits between a check and its insert; fails says which claims meet an error. */
  method CreateRecurringAppointments(store: Database, claims: seq<Claim>, fails: seq<bool>, now: int)
    requires Claimable(store.db, claims) && |fails| == |claims|
    modifies store
    ensures exists states :: JobSteps(states, claims, fails, now) && states[0] == old(store.db) && states[|claims|] == store.db
    ensures store.db == AfterAdvances(old(store.db), claims, fails, now)
  {
    ghost var states := JobIsSteps(store.db, claims, fails, now);
    for k := 0 to |claims|
      invariant store.db == AfterAdvances(old(store.db), claims[..k], fails[..k], now)
    {
      assert claims[..k + 1][..k] == claims[..k] && fails[..k + 1][..k] == fails[..k];
      if fails[k] {
        continue;
      }
      var claim := claims[k];
      var endsAt := claim.startsAt + claim.durationMinutes * 60_000;
      var taken := IsSlotTaken(store.db.appointments, claim.staffMemberId, claim.startsAt, endsAt);
      AdvanceRecurringSeries(store, claim, taken, now);
    }
    assert claims[..|claims|] == claims && fails[..|fails|] == fails;
  }
}
