/** Entries and their offers agree in every reachable state, and what is settled stays settled. */
module WaitlistCoherence {
  import opened Outcomes
  import opened Tables
  import opened Loading
  import opened Appointments
  import opened Waitlist
  import opened SeriesAdvance
  import opened Runs
  import opened Tallies

  predicate Live(o: Offer) {
    o.status.Open? || o.status.Accepted?
  }

  /** No two live offers of one entry. */
  ghost predicate OneLiveOffer(db: Db) {
    forall i, j :: 0 <= i < j < |db.offers| ==>
      !(db.offers[i].entryId == db.offers[j].entryId && Live(db.offers[i]) && Live(db.offers[j]))
  }

  /** A live offer shows in its entry's status. */
  ghost predicate OffersShow(db: Db)
    requires db.Linked()
  {
    forall i :: 0 <= i < |db.offers| ==>
      var e := db.entries[db.offers[i].entryId].status;
      && (db.offers[i].status.Open? ==> e.Offered? || e.Withdrawn?)
      && (db.offers[i].status.Accepted? ==> e.Booked?)
  }

  /** An entry's status is backed by an offer. */
  ghost predicate Backed(db: Db, e: nat)
    requires e < |db.entries|
  {
    && (db.entries[e].status.Offered? ==> exists i :: 0 <= i < |db.offers| && db.offers[i].entryId == e && db.offers[i].status.Open?)
    && (db.entries[e].status.Booked? ==> exists i :: 0 <= i < |db.offers| && db.offers[i].entryId == e && db.offers[i].status.Accepted?)
  }

  ghost predicate EntriesBacked(db: Db) {
    forall e: nat :: e < |db.entries| ==> Backed(db, e)
  }

  ghost predicate Coherent(db: Db)
    requires db.Linked()
  {
    OneLiveOffer(db) && OffersShow(db) && EntriesBacked(db)
  }

  function OfferFlags(offers: seq<Offer>, e: nat, status: OfferStatus): seq<bool> {
    seq(|offers|, i requires 0 <= i < |offers| => offers[i].entryId == e && offers[i].status == status)
  }

  function OfferCount(offers: seq<Offer>, e: nat, status: OfferStatus): nat {
    Tally(OfferFlags(offers, e, status))
  }

  /** Coherence, read as the table of how many pending and accepted offers each entry status has. */
  lemma CoherentCounts(db: Db, e: nat)
    requires db.Linked() && Coherent(db) && e < |db.entries|
    ensures var open, accepted := OfferCount(db.offers, e, Open), OfferCount(db.offers, e, Accepted);
            match db.entries[e].status
            case Waiting => open == 0 && accepted == 0
            case Offered => open == 1 && accepted == 0
            case Booked => open == 0 && accepted == 1
            case Withdrawn => open <= 1 && accepted == 0
  {
    var open, accepted := OfferFlags(db.offers, e, Open), OfferFlags(db.offers, e, Accepted);
    TallyAtMostOne(open);
    TallyZero(open);
    TallyAtMostOne(accepted);
    TallyZero(accepted);
    assert Backed(db, e);
    if db.entries[e].status.Offered? {
      var i :| 0 <= i < |db.offers| && db.offers[i].entryId == e && db.offers[i].status.Open?;
      assert open[i];
    } else if db.entries[e].status.Booked? {
      var i :| 0 <= i < |db.offers| && db.offers[i].entryId == e && db.offers[i].status.Accepted?;
      assert accepted[i];
    }
  }

  // ---------------------------------------------------------------- steps

  lemma AcceptKeepsCoherence(db: Db, cfg: Config, b: Booking, staff: int)
    requires db.Linked() && CreateFits(db, cfg, b) && Coherent(db)
    requires AfterCreate(db, cfg, b, staff).Linked()
    ensures Coherent(AfterCreate(db, cfg, b, staff))
  {
    var after := AfterCreate(db, cfg, b, staff);
    if b.offer.Some? {
      var o := b.offer.value;
      SettleKeepsCoherence(db, after, o, Booked);
    } else {
      UnchangedKeepsCoherence(db, after);
    }
  }

  lemma UnchangedKeepsCoherence(db: Db, db': Db)
    requires db.Linked() && db'.Linked() && Coherent(db)
    requires db'.entries == db.entries && db'.offers == db.offers
    ensures Coherent(db')
  {
    forall e: nat | e < |db.entries|
      ensures Backed(db', e)
    {
      assert Backed(db, e);
    }
  }

  /** One open offer is accepted and its entry booked, or rejected and its entry reopened. */
  lemma SettleKeepsCoherence(db: Db, db': Db, o: nat, entryStatus: EntryStatus)
    requires db.Linked() && db'.Linked() && Coherent(db)
    requires o < |db.offers| && db.offers[o].status.Open?
    requires var e := db.offers[o].entryId;
             && db'.entries == db.entries[e := db.entries[e].(status := entryStatus)]
             && (|| (entryStatus == Booked && db'.offers == db.offers[o := db.offers[o].(status := Accepted)])
                 || (entryStatus == Reopened(db.entries[e]).status && db'.offers == db.offers[o := db.offers[o].(status := Rejected)]))
    ensures Coherent(db')
  {
    var e := db.offers[o].entryId;
    forall i | 0 <= i < |db.offers| && i != o
      ensures db.offers[i].entryId == e ==> !Live(db.offers[i])
    {
      var lo, hi := if i < o then i else o, if i < o then o else i;
      assert !(db.offers[lo].entryId == db.offers[hi].entryId && Live(db.offers[lo]) && Live(db.offers[hi]));
    }
    forall f: nat | f < |db.entries|
      ensures Backed(db', f)
    {
      assert Backed(db, f);
      if f == e {
        assert db'.offers[o].entryId == f;
      } else {
        OtherEntryStaysBacked(db, db', o, f);
      }
    }
  }

  lemma OtherEntryStaysBacked(db: Db, db': Db, o: nat, f: nat)
    requires o < |db.offers| == |db'.offers| && f < |db.entries| == |db'.entries|
    requires Backed(db, f) && db'.entries[f].status == db.entries[f].status
    requires db.offers[o].entryId != f
    requires forall i :: 0 <= i < |db.offers| && i != o ==> db'.offers[i] == db.offers[i]
    ensures Backed(db', f)
  {
    if db.entries[f].status.Offered? {
      var i :| 0 <= i < |db.offers| && db.offers[i].entryId == f && db.offers[i].status.Open?;
      assert db'.offers[i] == db.offers[i];
    } else if db.entries[f].status.Booked? {
      var i :| 0 <= i < |db.offers| && db.offers[i].entryId == f && db.offers[i].status.Accepted?;
      assert db'.offers[i] == db.offers[i];
    }
  }

  lemma WithdrawKeepsCoherence(db: Db, id: nat)
    requires db.Linked() && Coherent(db) && EntryOpen(db, id) && AfterCancelEntry(db, id).Linked()
    ensures Coherent(AfterCancelEntry(db, id))
  {
    forall e: nat | e < |db.entries|
      ensures Backed(AfterCancelEntry(db, id), e)
    {
      assert Backed(db, e);
    }
  }

  lemma AddEntryKeepsCoherence(db: Db, q: EntryRequest)
    requires db.Linked() && Coherent(db) && (q.customer.Some? ==> q.customer.value < |db.customers|)
    requires AfterCreateEntry(db, q).Linked()
    ensures Coherent(AfterCreateEntry(db, q))
  {
    forall e: nat | e < |db.entries|
      ensures Backed(AfterCreateEntry(db, q), e)
    {
      assert Backed(db, e);
    }
  }

  lemma ExpireKeepsCoherence(db: Db, now: int)
    requires db.Linked() && Coherent(db) && AfterExpire(db, now).Linked()
    ensures Coherent(AfterExpire(db, now))
  {
    var after := AfterExpire(db, now);
    forall i, j | 0 <= i < j < |after.offers|
      ensures !(after.offers[i].entryId == after.offers[j].entryId && Live(after.offers[i]) && Live(after.offers[j]))
    {
      assert !(db.offers[i].entryId == db.offers[j].entryId && Live(db.offers[i]) && Live(db.offers[j]));
    }
    forall i | 0 <= i < |after.offers| && Live(after.offers[i])
      ensures !EntryDue(db.offers, db.offers[i].entryId, now)
    {
      forall k | 0 <= k < |db.offers| && k != i
        ensures db.offers[k].entryId == db.offers[i].entryId ==> !Live(db.offers[k])
      {
        var lo, hi := if i < k then i else k, if i < k then k else i;
        assert !(db.offers[lo].entryId == db.offers[hi].entryId && Live(db.offers[lo]) && Live(db.offers[hi]));
      }
    }
    forall e: nat | e < |db.entries|
      ensures Backed(after, e)
    {
      ExpireKeepsBacked(db, now, e);
    }
  }

  lemma ExpireKeepsBacked(db: Db, now: int, e: nat)
    requires db.Linked() && e < |db.entries| && Backed(db, e)
    ensures Backed(AfterExpire(db, now), e)
  {
    var after := AfterExpire(db, now);
    if after.entries[e].status.Offered? {
      var i :| 0 <= i < |db.offers| && db.offers[i].entryId == e && db.offers[i].status.Open?;
      assert after.offers[i] == db.offers[i];
    } else if after.entries[e].status.Booked? {
      var i :| 0 <= i < |db.offers| && db.offers[i].entryId == e && db.offers[i].status.Accepted?;
      assert after.offers[i] == db.offers[i];
    }
  }

  lemma MatchKeepsCoherence(db: Db, i: nat, e: nat)
    requires db.Linked() && Coherent(db) && i < |db.outbox| && Eligible(db, db.outbox[i], e)
    requires AfterOpportunity(db, i, Some(e)).Linked()
    ensures Coherent(AfterOpportunity(db, i, Some(e)))
  {
    OfferingKeepsCoherence(db, AfterOpportunity(db, i, Some(e)), e);
  }

  /** A new pending offer for an entry that waited. */
  lemma OfferingKeepsCoherence(db: Db, after: Db, e: nat)
    requires db.Linked() && after.Linked() && Coherent(db) && e < |db.entries| && db.entries[e].status.Waiting?
    requires |after.offers| == |db.offers| + 1 && db.offers <= after.offers
    requires after.offers[|db.offers|].entryId == e && after.offers[|db.offers|].status.Open?
    requires after.entries == db.entries[e := db.entries[e].(status := Offered)]
    ensures Coherent(after)
  {
    forall k | 0 <= k < |db.offers|
      ensures after.offers[k] == db.offers[k]
      ensures db.offers[k].entryId == e ==> !Live(db.offers[k])
    {
    }
    forall f: nat | f < |db.entries|
      ensures Backed(after, f)
    {
      assert Backed(db, f);
      if f == e {
        assert after.offers[|db.offers|].entryId == e && after.offers[|db.offers|].status.Open?;
      } else if db.entries[f].status.Offered? {
        var k :| 0 <= k < |db.offers| && db.offers[k].entryId == f && db.offers[k].status.Open?;
        assert after.offers[k] == db.offers[k];
      } else if db.entries[f].status.Booked? {
        var k :| 0 <= k < |db.offers| && db.offers[k].entryId == f && db.offers[k].status.Accepted?;
        assert after.offers[k] == db.offers[k];
      }
    }
  }

  lemma DeliveryKeepsCoherence(db: Db, i: nat, derived: seq<Event>, db': Db)
    requires db.Linked() && Next(db, Deliver(i, derived), db') && db'.Linked() && Coherent(db)
    ensures Coherent(db')
  {
    var c := DeliveryEffect(db, i, derived, db');
    if c.Some? {
      OfferingKeepsCoherence(db, db', c.value);
    } else {
      UnchangedKeepsCoherence(db, db');
    }
  }

  lemma StepKeepsCoherence(db: Db, t: Action, db': Db)
    requires db.Linked() && Next(db, t, db') && db'.Linked() && Coherent(db)
    ensures Coherent(db')
  {
    match t
    case Create(cfg, b, staff) => AcceptKeepsCoherence(db, cfg, b, staff);
    case AddEntry(q) => AddEntryKeepsCoherence(db, q);
    case WithdrawEntry(id) => WithdrawKeepsCoherence(db, id);
    case Reject(o, _, now) => SettleKeepsCoherence(db, db', o, Reopened(db.entries[db.offers[o].entryId]).status);
    case Expire(now) => ExpireKeepsCoherence(db, now);
    case Deliver(i, derived) => DeliveryKeepsCoherence(db, i, derived, db');
    case _ =>
      OtherStepsKeepWaitlist(db, t, db');
      UnchangedKeepsCoherence(db, db');
  }

  /** In every reachable state. */
  lemma {:induction false} AlwaysCoherent(run: Run)
    requires run.Valid() && Coherent(run.states[0])
    ensures run.Last().Linked() && Coherent(run.Last())
    decreases |run.actions|
  {
    if |run.actions| > 0 {
      FrontIsValid(run);
      AlwaysCoherent(run.Front());
      StepKeepsLinks(run.Front().Last(), run.actions[|run.actions| - 1], run.Last());
      StepKeepsCoherence(run.Front().Last(), run.actions[|run.actions| - 1], run.Last());
    }
  }

  // ---------------------------------------------------------------- what is settled stays settled

  /** Offers keep their entry and slot, leave Open once, and a booked entry stays booked. */
  ghost predicate Settles(db: Db, db': Db) {
    && |db.offers| <= |db'.offers| && |db.entries| <= |db'.entries|
    && (forall i :: 0 <= i < |db.offers| ==>
          && db'.offers[i].entryId == db.offers[i].entryId
          && db'.offers[i].appointmentId == db.offers[i].appointmentId
          && (!db.offers[i].status.Open? ==> db'.offers[i] == db.offers[i]))
    && (forall e :: 0 <= e < |db.entries| && db.entries[e].status.Booked? ==> db'.entries[e].status.Booked?)
  }

  lemma AcceptSettles(db: Db, cfg: Config, b: Booking, staff: int)
    requires db.Linked() && CreateFits(db, cfg, b)
    ensures Settles(db, AfterCreate(db, cfg, b, staff))
  {
  }

  lemma WaitlistStepSettles(db: Db, t: Action, db': Db)
    requires db.Linked() && Next(db, t, db') && Coherent(db)
    requires t.AddEntry? || t.WithdrawEntry? || t.Reject? || t.Expire? || t.Deliver?
    ensures Settles(db, db')
  {
    if t.Deliver? {
      var c := DeliveryEffect(db, t.event, t.derived, db');
    }
  }

  lemma StepSettles(db: Db, t: Action, db': Db)
    requires db.Linked() && Next(db, t, db') && Coherent(db)
    ensures Settles(db, db')
  {
    if t.Create? {
      AcceptSettles(db, t.cfg, t.booking, t.staff);
    } else if t.AddEntry? || t.WithdrawEntry? || t.Reject? || t.Expire? || t.Deliver? {
      WaitlistStepSettles(db, t, db');
    } else {
      OtherStepsKeepWaitlist(db, t, db');
    }
  }

  /** Between any state of a run and its end. */
  lemma {:induction false} SettledForever(run: Run, k: nat)
    requires run.Valid() && Coherent(run.states[0]) && k < |run.states|
    ensures Settles(run.states[k], run.Last())
    decreases |run.actions|
  {
    if k < |run.actions| {
      FrontIsValid(run);
      SettledForever(run.Front(), k);
      AlwaysCoherent(run.Front());
      var mid, last := run.Front().Last(), run.Last();
      assert run.Front().states[k] == run.states[k];
      StepSettles(mid, run.actions[|run.actions| - 1], last);
      SettlesTransitively(run.states[k], mid, last);
    }
  }

  lemma SettlesTransitively(a: Db, b: Db, c: Db)
    requires Settles(a, b) && Settles(b, c)
    ensures Settles(a, c)
  {
  }

  predicate AcceptsFor(db: Db, t: Action, e: nat) {
    && t.Create? && t.booking.offer.Some? && t.booking.offer.value < |db.offers|
    && db.offers[t.booking.offer.value].entryId == e
  }

  function Acceptances(run: Run, e: nat): nat
    requires |run.states| == |run.actions| + 1
    decreases |run.actions|
  {
    if run.actions == [] then 0
    else
      var last := |run.actions| - 1;
      Acceptances(run.Front(), e) + (if AcceptsFor(run.states[last], run.actions[last], e) then 1 else 0)
  }

  lemma AcceptingAddsOne(offers: seq<Offer>, o: nat, e: nat)
    requires o < |offers| && offers[o].status.Open?
    ensures OfferCount(offers[o := offers[o].(status := Accepted)], e, Accepted)
         == OfferCount(offers, e, Accepted) + (if offers[o].entryId == e then 1 else 0)
  {
    var flags := OfferFlags(offers, e, Accepted);
    assert OfferFlags(offers[o := offers[o].(status := Accepted)], e, Accepted) == flags[o := offers[o].entryId == e];
    TallyUpdate(flags, o, offers[o].entryId == e);
  }

  lemma OneMoreOffer(offers: seq<Offer>, offer: Offer, e: nat)
    requires offer.status.Open?
    ensures OfferCount(offers + [offer], e, Accepted) == OfferCount(offers, e, Accepted)
  {
    var flags := OfferFlags(offers, e, Accepted);
    assert OfferFlags(offers + [offer], e, Accepted) == flags + [false];
    TallySplit(flags, [false]);
  }

  lemma SettlingAcceptsNone(offers: seq<Offer>, offers': seq<Offer>, e: nat)
    requires |offers'| == |offers|
    requires forall i :: 0 <= i < |offers| ==>
               offers'[i].entryId == offers[i].entryId && (offers'[i].status.Accepted? <==> offers[i].status.Accepted?)
    ensures OfferCount(offers', e, Accepted) == OfferCount(offers, e, Accepted)
  {
    assert OfferFlags(offers', e, Accepted) == OfferFlags(offers, e, Accepted);
  }

  lemma AcceptedGrowsOnlyByAccepting(db: Db, t: Action, db': Db, e: nat)
    requires db.Linked() && Next(db, t, db')
    ensures OfferCount(db'.offers, e, Accepted)
         == OfferCount(db.offers, e, Accepted) + (if AcceptsFor(db, t, e) then 1 else 0)
  {
    match t
    case Create(cfg, b, staff) =>
      if b.offer.Some? {
        AcceptingAddsOne(db.offers, b.offer.value, e);
      }
    case Reject(o, _, now) => SettlingAcceptsNone(db.offers, db'.offers, e);
    case Expire(now) => SettlingAcceptsNone(db.offers, db'.offers, e);
    case Deliver(i, derived) => DeliveryAcceptsNone(db, i, derived, db', e);
    case AddEntry(q) =>
    case WithdrawEntry(id) =>
    case _ => OtherStepsKeepWaitlist(db, t, db');
  }

  lemma DeliveryAcceptsNone(db: Db, i: nat, derived: seq<Event>, db': Db, e: nat)
    requires db.Linked() && Next(db, Deliver(i, derived), db')
    ensures OfferCount(db'.offers, e, Accepted) == OfferCount(db.offers, e, Accepted)
  {
    var c := DeliveryEffect(db, i, derived, db');
    if c.Some? {
      assert db'.offers == db.offers + [db'.offers[|db.offers|]];
      OneMoreOffer(db.offers, db'.offers[|db.offers|], e);
    }
  }

  lemma {:induction false} AcceptancesAreAccepted(run: Run, e: nat)
    requires run.Valid() && run.states[0].offers == []
    ensures Acceptances(run, e) == OfferCount(run.Last().offers, e, Accepted)
    decreases |run.actions|
  {
    if |run.actions| > 0 {
      FrontIsValid(run);
      AcceptancesAreAccepted(run.Front(), e);
      LastActionAccepts(run, e);
    }
  }

  /** An entry is booked through at most one acceptance in any run from the empty database. */
  lemma BooksAtMostOnce(run: Run, e: nat)
    requires run.Valid() && Coherent(run.states[0]) && run.states[0].offers == []
    ensures Acceptances(run, e) == OfferCount(run.Last().offers, e, Accepted)
    ensures Acceptances(run, e) <= 1
  {
    AcceptancesAreAccepted(run, e);
    AlwaysCoherent(run);
    AtMostOneAccepted(run.Last(), e);
  }

  lemma LastActionAccepts(run: Run, e: nat)
    requires run.Valid() && |run.actions| > 0
    ensures var last := |run.actions| - 1;
            OfferCount(run.Last().offers, e, Accepted)
            == OfferCount(run.Front().Last().offers, e, Accepted)
               + (if AcceptsFor(run.states[last], run.actions[last], e) then 1 else 0)
  {
    var last := |run.actions| - 1;
    assert run.Front().Last() == run.states[last];
    AcceptedGrowsOnlyByAccepting(run.states[last], run.actions[last], run.Last(), e);
  }

  lemma AtMostOneAccepted(db: Db, e: nat)
    requires OneLiveOffer(db)
    ensures OfferCount(db.offers, e, Accepted) <= 1
  {
    var accepted := OfferFlags(db.offers, e, Accepted);
    TallyAtMostOne(accepted);
    assert forall i :: 0 <= i < |accepted| && accepted[i] ==> db.offers[i].entryId == e && Live(db.offers[i]);
  }

  // ---------------------------------------------------------------- withdrawn entries

  /**
   Accepting does not look at the entry. So a withdrawn entry stays withdrawn through exactly those steps that do not
   accept an offer of it, and an acceptance books it.
   */
  lemma WithdrawnStaysIffNotAccepted(db: Db, t: Action, db': Db, e: nat)
    requires db.Linked() && Next(db, t, db') && Coherent(db)
    requires e < |db.entries| && db.entries[e].status.Withdrawn?
    ensures e < |db'.entries|
    ensures db'.entries[e].status.Withdrawn? <==> !AcceptsFor(db, t, e)
    ensures AcceptsFor(db, t, e) ==> db'.entries[e].status.Booked?
  {
    if t.Deliver? {
      var c := DeliveryEffect(db, t.event, t.derived, db');
    } else if !t.Create? && !t.AddEntry? && !t.WithdrawEntry? && !t.Reject? && !t.Expire? {
      OtherStepsKeepWaitlist(db, t, db');
    }
  }

  /** Over whole runs: it is still withdrawn at the end if and only if nothing in between accepted an offer of it. */
  lemma {:induction false} WithdrawnForeverIffNeverAccepted(run: Run, e: nat)
    requires run.Valid() && Coherent(run.states[0])
    requires e < |run.states[0].entries| && run.states[0].entries[e].status.Withdrawn?
    ensures e < |run.Last().entries|
    ensures run.Last().entries[e].status.Withdrawn? <==> Acceptances(run, e) == 0
    ensures run.Last().entries[e].status.Withdrawn? || run.Last().entries[e].status.Booked?
    decreases |run.actions|
  {
    if |run.actions| > 0 {
      var last := |run.actions| - 1;
      FrontIsValid(run);
      WithdrawnForeverIffNeverAccepted(run.Front(), e);
      AlwaysCoherent(run.Front());
      LastActionSettles(run, e);
    }
  }

  lemma LastActionSettles(run: Run, e: nat)
    requires run.Valid() && |run.actions| > 0 && Coherent(run.Front().Last())
    requires e < |run.Front().Last().entries|
    requires run.Front().Last().entries[e].status.Withdrawn? || run.Front().Last().entries[e].status.Booked?
    ensures e < |run.Last().entries|
    ensures run.Last().entries[e].status.Withdrawn? <==>
              run.Front().Last().entries[e].status.Withdrawn? && Acceptances(run, e) == Acceptances(run.Front(), e)
    ensures run.Last().entries[e].status.Withdrawn? || run.Last().entries[e].status.Booked?
  {
    var last := |run.actions| - 1;
    FrontIsValid(run);
    assert run.Front().Last() == run.states[last];
    if run.states[last].entries[e].status.Withdrawn? {
      WithdrawnStaysIffNotAccepted(run.states[last], run.actions[last], run.Last(), e);
    } else {
      StepSettles(run.states[last], run.actions[last], run.Last());
    }
  }

  /** What a caller can read when withdrawing: the entry has no pending offer. */
  predicate SafelyWithdrawn(db: Db, e: nat) {
    e < |db.entries| && db.entries[e].status.Withdrawn? && !HasOpenOffer(db.offers, e)
  }

  lemma StepKeepsSafelyWithdrawn(db: Db, t: Action, db': Db, e: nat)
    requires db.Linked() && Next(db, t, db') && Coherent(db) && SafelyWithdrawn(db, e)
    ensures SafelyWithdrawn(db', e)
  {
    assert !AcceptsFor(db, t, e);
    WithdrawnStaysIffNotAccepted(db, t, db', e);
    NoNewOffer(db, t, db', e);
  }

  lemma NoNewOffer(db: Db, t: Action, db': Db, e: nat)
    requires db.Linked() && Next(db, t, db') && SafelyWithdrawn(db, e)
    ensures !HasOpenOffer(db'.offers, e)
  {
    if t.Deliver? {
      var c := DeliveryEffect(db, t.event, t.derived, db');
    } else if !t.Create? && !t.AddEntry? && !t.WithdrawEntry? && !t.Reject? && !t.Expire? {
      OtherStepsKeepWaitlist(db, t, db');
    }
  }

  /** Then it stays withdrawn in every run. */
  lemma {:induction false} SafelyWithdrawnForever(run: Run, e: nat)
    requires run.Valid() && Coherent(run.states[0]) && SafelyWithdrawn(run.states[0], e)
    ensures SafelyWithdrawn(run.Last(), e)
    decreases |run.actions|
  {
    if |run.actions| > 0 {
      FrontIsValid(run);
      SafelyWithdrawnForever(run.Front(), e);
      AlwaysCoherent(run.Front());
      StepKeepsSafelyWithdrawn(run.Front().Last(), run.actions[|run.actions| - 1], run.Last(), e);
    }
  }

  /** One that has a pending offer is booked as soon as the offer can be accepted. */
  lemma PendingOfferBooksWithdrawn(db: Db, e: nat, cfg: Config, o: nat, now: int) returns (run: Run)
    requires db.Linked() && e < |db.entries| && db.entries[e].status.Withdrawn?
    requires o < |db.offers| && db.offers[o].entryId == e && CanAccept(db, cfg, o, now)
    ensures run.Valid() && run.states[0] == db && |run.actions| == 1
    ensures run.Last().Linked() && e < |run.Last().entries| && run.Last().entries[e].status.Booked?
  {
    var staff := db.appointments[db.offers[o].appointmentId].staffMemberId;
    var b := OfferedBooking(db, o, now);
    run := Extended(Run([db], []), Create(cfg, b, staff), AfterCreate(db, cfg, b, staff));
  }

  /** A pending offer of the entry can be accepted until it expires, as far as the guard is concerned. */
  ghost predicate Acceptable(db: Db, e: nat, cfg: Config)
    requires db.Linked()
  {
    forall o: nat :: o < |db.offers| && db.offers[o].entryId == e && db.offers[o].status.Open? ==>
      CanAccept(db, cfg, o, db.offers[o].expiresAt - 1)
  }

  ghost predicate EndsWithdrawn(run: Run, e: nat) {
    |run.states| > 0 && e < |run.Last().entries| && run.Last().entries[e].status.Withdrawn?
  }

  /** Withdrawal is final in every run if and only if no offer is pending, given a guard that lets a pending one through. */
  lemma WithdrawalIsFinalIff(db: Db, e: nat, cfg: Config)
    requires db.Linked() && Coherent(db) && e < |db.entries| && db.entries[e].status.Withdrawn?
    requires Acceptable(db, e, cfg)
    ensures (forall run: Run :: run.Valid() && run.states[0] == db ==> EndsWithdrawn(run, e)) <==> !HasOpenOffer(db.offers, e)
  {
    if HasOpenOffer(db.offers, e) {
      var o: nat :| o < |db.offers| && db.offers[o].entryId == e && db.offers[o].status.Open?;
      var run := PendingOfferBooksWithdrawn(db, e, cfg, o, db.offers[o].expiresAt - 1);
      assert !EndsWithdrawn(run, e);
    } else {
      forall run: Run | run.Valid() && run.states[0] == db
        ensures EndsWithdrawn(run, e)
      {
        SafelyWithdrawnForever(run, e);
      }
    }
  }
}
