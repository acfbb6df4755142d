/**
 Keeping an external calendar in step with the appointments (service.go:783-864, 886-915;
 repository.go:646-684; google_calendar.go:49-213).

 The calendar is a map of events that only remote calls reach; a call may fail before or after it took
 effect. An event carries the appointment it was made for.
 */
module CalendarSync {
  import opened Outcomes

  datatype Event = Event(appointment: nat, content: string)

  /** How a remote call goes: Broken may have been applied all the same, and may report 404. */
  datatype Wire = Fine | Broken(notFound: bool, applied: bool)
  {
    predicate Applies() {
      Fine? || applied
    }
  }

  datatype CallError = NotFound | OtherError

  function Failure(w: Wire): CallError
    requires w.Broken?
  {
    if w.notFound then NotFound else OtherError
  }

  datatype SyncStatus = Synced | Failed | Deleted

  /** A row of calendar_event_syncs; eventId is the google_event_id, NULL being None. */
  datatype Sync = Sync(eventId: Option<nat>, status: SyncStatus)

  /** nextId is the id the calendar gives next; ids are never given twice. */
  datatype State = State(events: map<nat, Event>, nextId: nat, syncs: map<nat, Sync>)

  /** The wire during one handler call, and whether the handler's transaction commits afterwards. */
  datatype Weather = Weather(token: bool, list: Wire, update: Wire, create: Wire, delete: nat -> Wire, committed: bool)

  ghost predicate Fair(w: Weather) {
    w.token && w.list.Fine? && w.update.Fine? && w.create.Fine? && w.committed && forall id :: w.delete(id).Fine?
  }

  // ---------------------------------------------------------------- the remote calls

  function Created(s: State, event: Event, w: Wire): State {
    if w.Applies() then s.(events := s.events[s.nextId := event], nextId := s.nextId + 1) else s
  }

  function CreateResult(s: State, w: Wire): Result<nat, CallError> {
    if w.Fine? then Ok(s.nextId) else Err(Failure(w))
  }

  function Updated(s: State, id: nat, event: Event, w: Wire): State {
    if id in s.events && w.Applies() then s.(events := s.events[id := event]) else s
  }

  function UpdateResult(s: State, id: nat, w: Wire): Result<(), CallError> {
    if w.Broken? then Err(Failure(w)) else if id in s.events then Ok(()) else Err(NotFound)
  }

  function Without(events: map<nat, Event>, ids: seq<nat>, delete: nat -> Wire): map<nat, Event> {
    map id | id in events && !(id in ids && delete(id).Applies()) :: events[id]
  }

  function Own(s: State, a: nat): set<nat> {
    set id | id in s.events && s.events[id].appointment == a
  }

  /** The answer to a list call: the appointment's events, each once, in any order. */
  ghost predicate IsListing(s: State, a: nat, listing: seq<nat>) {
    && (forall id :: id in listing <==> id in Own(s, a))
    && (forall j, k :: 0 <= j < k < |listing| ==> listing[j] != listing[k])
  }

  // ---------------------------------------------------------------- upsert and delete

  function EventOf(s: State, a: nat): Option<nat> {
    if a in s.syncs then s.syncs[a].eventId else None
  }

  /** INSERT ... ON CONFLICT: a NULL event id keeps the one recorded. */
  function Recorded(s: State, a: nat, eventId: Option<nat>, status: SyncStatus, committed: bool): State {
    if committed then
      s.(syncs := s.syncs[a := Sync(if eventId.Some? then eventId else EventOf(s, a), status)])
    else s
  }

  function Others(listing: seq<nat>, id: nat): seq<nat> {
    if listing == [] then []
    else if listing[|listing| - 1] == id then Others(listing[..|listing| - 1], id)
    else Others(listing[..|listing| - 1], id) + [listing[|listing| - 1]]
  }

  function AfterCreate(s: State, a: nat, event: Event, w: Weather): State {
    var result := CreateResult(s, w.create);
    if result.Ok? then Recorded(Created(s, event, w.create), a, Some(result.value), Synced, w.committed)
    else Recorded(Created(s, event, w.create), a, None, Failed, w.committed)
  }

  function AfterAdopt(s: State, a: nat, event: Event, w: Weather, listing: seq<nat>): State
    requires listing != []
  {
    var s1 := Updated(s, listing[0], event, w.update);
    if UpdateResult(s, listing[0], w.update).Err? then Recorded(s1, a, None, Failed, w.committed)
    else Recorded(s1.(events := Without(s1.events, listing[1..], w.delete)), a, Some(listing[0]), Synced, w.committed)
  }

  function AfterKnown(s: State, a: nat, id: nat, event: Event, w: Weather, listing: seq<nat>): State {
    var s1 := Updated(s, id, event, w.update);
    var result := UpdateResult(s, id, w.update);
    if result.Ok? then
      var s2 := if w.list.Fine? then s1.(events := Without(s1.events, Others(listing, id), w.delete)) else s1;
      Recorded(s2, a, Some(id), Synced, w.committed)
    else if result.error.NotFound? then AfterCreate(s1, a, event, w)
    else Recorded(s1, a, Some(id), Failed, w.committed)
  }

  function AfterUpsert(s: State, a: nat, content: string, w: Weather, listing: seq<nat>): State {
    var event := Event(a, content);
    var known := EventOf(s, a);
    if !w.token then Recorded(s, a, known, Failed, w.committed)
    else if known.Some? then AfterKnown(s, a, known.value, event, w, listing)
    else if !w.list.Fine? then Recorded(s, a, None, Failed, w.committed)
    else if listing == [] then AfterCreate(s, a, event, w)
    else AfterAdopt(s, a, event, w, listing)
  }

  /** Deleting a missing event succeeds. */
  function AfterDelete(s: State, a: nat, w: Weather): State {
    var known := EventOf(s, a);
    if !w.token then Recorded(s, a, known, Failed, w.committed)
    else if known.None? then Recorded(s, a, None, Deleted, w.committed)
    else
      var s1 := s.(events := Without(s.events, [known.value], w.delete));
      Recorded(s1, a, known, if w.delete(known.value).Fine? then Deleted else Failed, w.committed)
  }

  class CalendarService {
    var events: map<nat, Event>
    var nextId: nat
    var syncs: map<nat, Sync>

    ghost function Value(): State
      reads this
    {
      State(events, nextId, syncs)
    }

    constructor ()
      ensures Value() == State(map[], 0, map[])
    {
      events, nextId, syncs := map[], 0, map[];
    }

    method CreateEvent(event: Event, w: Wire) returns (result: Result<nat, CallError>)
      modifies this`events, this`nextId
      ensures Value() == Created(old(Value()), event, w) && result == CreateResult(old(Value()), w)
    {
      result := if w.Fine? then Ok(nextId) else Err(Failure(w));
      if w.Applies() {
        events, nextId := events[nextId := event], nextId + 1;
      }
    }

    method UpdateEvent(id: nat, event: Event, w: Wire) returns (result: Result<(), CallError>)
      modifies this`events
      ensures Value() == Updated(old(Value()), id, event, w) && result == UpdateResult(old(Value()), id, w)
    {
      result := if w.Broken? then Err(Failure(w)) else if id in events then Ok(()) else Err(NotFound);
      if id in events && w.Applies() {
        events := events[id := event];
      }
    }

    method DeleteEvent(id: nat, w: Wire) returns (ok: bool)
      modifies this`events
      ensures events == Without(old(events), [id], _ => w) && ok == w.Fine?
    {
      ok := w.Fine?;
      if w.Applies() {
        events := events - {id};
      }
    }

    method DeleteDuplicateCalendarEvents(ids: seq<nat>, delete: nat -> Wire)
      modifies this`events
      ensures events == Without(old(events), ids, delete)
    {
      var k := 0;
      while k < |ids|
        invariant 0 <= k <= |ids|
        invariant events == Without(old(events), ids[..k], delete)
      {
        var _ := DeleteEvent(ids[k], delete(ids[k]));
        assert ids[..k + 1] == ids[..k] + [ids[k]];
        k := k + 1;
      }
      assert ids[..|ids|] == ids;
    }

    method RecordSync(a: nat, eventId: Option<nat>, status: SyncStatus, committed: bool)
      modifies this`syncs
      ensures Value() == Recorded(old(Value()), a, eventId, status, committed)
    {
      if committed {
        var kept := if a in syncs then syncs[a].eventId else None;
        syncs := syncs[a := Sync(if eventId.Some? then eventId else kept, status)];
      }
    }

    method CreateAndRecord(a: nat, event: Event, w: Weather)
      modifies this
      ensures Value() == AfterCreate(old(Value()), a, event, w)
    {
      var created := CreateEvent(event, w.create);
      if created.Ok? {
        RecordSync(a, Some(created.value), Synced, w.committed);
      } else {
        RecordSync(a, None, Failed, w.committed);
      }
    }

    /** listing is what the calendar answers to the list call. */
    method UpsertCalendarEvent(a: nat, content: string, w: Weather, listing: seq<nat>)
      modifies this
      ensures Value() == AfterUpsert(old(Value()), a, content, w, listing)
    {
      var known := if a in syncs then syncs[a].eventId else None;
      if !w.token {
        RecordSync(a, known, Failed, w.committed);
        return;
      }
      if known.None? {
        if !w.list.Fine? {
          RecordSync(a, None, Failed, w.committed);
          return;
        }
        if |listing| > 0 {
          var updated := UpdateEvent(listing[0], Event(a, content), w.update);
          if updated.Err? {
            RecordSync(a, None, Failed, w.committed);
            return;
          }
          DeleteDuplicateCalendarEvents(listing[1..], w.delete);
          RecordSync(a, Some(listing[0]), Synced, w.committed);
          return;
        }
        CreateAndRecord(a, Event(a, content), w);
        return;
      }
      var updated := UpdateEvent(known.value, Event(a, content), w.update);
      if updated.Err? {
        if updated.error.NotFound? {
          CreateAndRecord(a, Event(a, content), w);
        } else {
          RecordSync(a, known, Failed, w.committed);
        }
        return;
      }
      if w.list.Fine? {
        var duplicates: seq<nat> := [];
        var k := 0;
        while k < |listing|
          invariant 0 <= k <= |listing|
          invariant duplicates == Others(listing[..k], known.value)
        {
          assert listing[..k + 1][..k] == listing[..k];
          if listing[k] != known.value {
            duplicates := duplicates + [listing[k]];
          }
          k := k + 1;
        }
        assert listing[..|listing|] == listing;
        DeleteDuplicateCalendarEvents(duplicates, w.delete);
      }
      RecordSync(a, known, Synced, w.committed);
    }

    method DeleteCalendarEvent(a: nat, w: Weather)
      modifies this
      ensures Value() == AfterDelete(old(Value()), a, w)
    {
      var known := if a in syncs then syncs[a].eventId else None;
      if !w.token {
        RecordSync(a, known, Failed, w.committed);
        return;
      }
      if known.Some? {
        var deleted := DeleteEvent(known.value, w.delete(known.value));
        assert events == Without(old(events), [known.value], w.delete);
        if !deleted {
          RecordSync(a, known, Failed, w.committed);
          return;
        }
      }
      RecordSync(a, known, Deleted, w.committed);
    }
  }

  // ---------------------------------------------------------------- what every history keeps

  /** Ids below nextId only, and a recorded event is the appointment's own or gone. */
  ghost predicate Valid(s: State) {
    && (forall id :: id in s.events ==> id < s.nextId)
    && (forall a :: a in s.syncs && s.syncs[a].eventId.Some? ==>
          && s.syncs[a].eventId.value < s.nextId
          && (s.syncs[a].eventId.value in s.events ==> s.events[s.syncs[a].eventId.value].appointment == a))
  }

  /** Events of other appointments are the same, and so is everything recorded about them. */
  ghost predicate LeavesOthers(s: State, a: nat, s': State) {
    && (forall id :: id in s.events && s.events[id].appointment != a ==> id in s'.events && s'.events[id] == s.events[id])
    && (forall id :: id in s'.events && s'.events[id].appointment != a ==> id in s.events && s.events[id] == s'.events[id])
    && (forall b :: b != a ==> (b in s'.syncs <==> b in s.syncs))
    && (forall b :: b != a && b in s.syncs ==> s'.syncs[b] == s.syncs[b])
  }

  ghost predicate Keeps(s: State, a: nat, s': State) {
    Valid(s') && s.nextId <= s'.nextId && LeavesOthers(s, a, s')
  }

  lemma CreateKeeps(s: State, a: nat, content: string, w: Weather)
    requires Valid(s)
    ensures Keeps(s, a, AfterCreate(s, a, Event(a, content), w))
  {
  }

  lemma UpdateKeeps(s: State, a: nat, id: nat, content: string, w: Wire)
    requires Valid(s) && (id in s.events ==> s.events[id].appointment == a)
    ensures Keeps(s, a, Updated(s, id, Event(a, content), w))
  {
  }

  lemma RemovalKeeps(s: State, a: nat, ids: seq<nat>, delete: nat -> Wire)
    requires Valid(s) && forall id :: id in ids && id in s.events ==> s.events[id].appointment == a
    ensures Keeps(s, a, s.(events := Without(s.events, ids, delete)))
  {
  }

  lemma RecordKeeps(s: State, a: nat, eventId: Option<nat>, status: SyncStatus, committed: bool)
    requires Valid(s)
    requires eventId.Some? ==> eventId.value < s.nextId
                               && (eventId.value in s.events ==> s.events[eventId.value].appointment == a)
    ensures Keeps(s, a, Recorded(s, a, eventId, status, committed))
  {
  }

  lemma {:induction false} OthersIsFilter(listing: seq<nat>, id: nat)
    ensures forall other :: other in Others(listing, id) <==> other in listing && other != id
  {
    if listing != [] {
      OthersIsFilter(listing[..|listing| - 1], id);
      assert listing == listing[..|listing| - 1] + [listing[|listing| - 1]];
    }
  }

  lemma KnownKeeps(s: State, a: nat, id: nat, content: string, w: Weather, listing: seq<nat>)
    requires Valid(s) && IsListing(s, a, listing) && EventOf(s, a) == Some(id)
    ensures Keeps(s, a, AfterKnown(s, a, id, Event(a, content), w, listing))
  {
    var event := Event(a, content);
    var s1 := Updated(s, id, event, w.update);
    UpdateKeeps(s, a, id, content, w.update);
    if UpdateResult(s, id, w.update).Ok? {
      OthersIsFilter(listing, id);
      RemovalKeeps(s1, a, Others(listing, id), w.delete);
      var s2 := if w.list.Fine? then s1.(events := Without(s1.events, Others(listing, id), w.delete)) else s1;
      RecordKeeps(s2, a, Some(id), Synced, w.committed);
    } else if UpdateResult(s, id, w.update).error.NotFound? {
      CreateKeeps(s1, a, content, w);
    } else {
      RecordKeeps(s1, a, Some(id), Failed, w.committed);
    }
  }

  lemma AdoptKeeps(s: State, a: nat, content: string, w: Weather, listing: seq<nat>)
    requires Valid(s) && IsListing(s, a, listing) && listing != []
    ensures Keeps(s, a, AfterAdopt(s, a, Event(a, content), w, listing))
  {
    var s1 := Updated(s, listing[0], Event(a, content), w.update);
    assert listing[0] in Own(s, a);
    UpdateKeeps(s, a, listing[0], content, w.update);
    if UpdateResult(s, listing[0], w.update).Ok? {
      assert forall id :: id in listing[1..] ==> id in Own(s, a);
      RemovalKeeps(s1, a, listing[1..], w.delete);
      RecordKeeps(s1.(events := Without(s1.events, listing[1..], w.delete)), a, Some(listing[0]), Synced, w.committed);
    } else {
      RecordKeeps(s1, a, None, Failed, w.committed);
    }
  }

  /** Whatever calls fail and whether or not the transaction commits, an upsert touches its own appointment only. */
  lemma UpsertLeavesOthers(s: State, a: nat, content: string, w: Weather, listing: seq<nat>)
    requires Valid(s) && IsListing(s, a, listing)
    ensures Valid(AfterUpsert(s, a, content, w, listing))
    ensures LeavesOthers(s, a, AfterUpsert(s, a, content, w, listing))
  {
    var known := EventOf(s, a);
    if !w.token {
      RecordKeeps(s, a, known, Failed, w.committed);
    } else if known.Some? {
      KnownKeeps(s, a, known.value, content, w, listing);
    } else if !w.list.Fine? {
      RecordKeeps(s, a, None, Failed, w.committed);
    } else if listing == [] {
      CreateKeeps(s, a, content, w);
    } else {
      AdoptKeeps(s, a, content, w, listing);
    }
  }

  lemma DeleteLeavesOthers(s: State, a: nat, w: Weather)
    requires Valid(s)
    ensures Valid(AfterDelete(s, a, w)) && LeavesOthers(s, a, AfterDelete(s, a, w))
  {
    var known := EventOf(s, a);
    if w.token && known.Some? {
      RemovalKeeps(s, a, [known.value], w.delete);
    }
  }

  /** A history of handler calls, and of people deleting events in the calendar itself. */
  datatype Op =
    | Upsert(a: nat, content: string, w: Weather, listing: seq<nat>)
    | Delete(a: nat, w: Weather)
    | UserDeletes(id: nat)

  ghost predicate Possible(s: State, op: Op) {
    op.Upsert? ==> IsListing(s, op.a, op.listing)
  }

  function After(s: State, op: Op): State {
    match op
    case Upsert(a, content, w, listing) => AfterUpsert(s, a, content, w, listing)
    case Delete(a, w) => AfterDelete(s, a, w)
    case UserDeletes(id) => s.(events := s.events - {id})
  }

  ghost predicate History(states: seq<State>, ops: seq<Op>) {
    && |states| == |ops| + 1 && states[0] == State(map[], 0, map[])
    && forall k :: 0 <= k < |ops| ==> Possible(states[k], ops[k]) && states[k + 1] == After(states[k], ops[k])
  }

  lemma {:induction false} HistoriesAreValid(states: seq<State>, ops: seq<Op>)
    requires History(states, ops)
    ensures Valid(states[|ops|])
    decreases |ops|
  {
    if |ops| > 0 {
      var last := |ops| - 1;
      HistoriesAreValid(states[..|ops|], ops[..last]);
      match ops[last]
      case Upsert(a, content, w, listing) => UpsertLeavesOthers(states[last], a, content, w, listing);
      case Delete(a, w) => DeleteLeavesOthers(states[last], a, w);
      case UserDeletes(id) =>
    }
  }

  /** An update answered with 404 creates the event anew; any other failure creates nothing and records the failure. */
  lemma OnlyANotFoundCreatesAnew(s: State, a: nat, content: string, w: Weather, listing: seq<nat>)
    requires EventOf(s, a).Some? && w.token && w.update.Broken? && w.create.Fine? && w.committed
    ensures var s' := AfterUpsert(s, a, content, w, listing);
            if w.update.notFound then
              && s'.nextId == s.nextId + 1 && s.nextId in s'.events && s'.events[s.nextId] == Event(a, content)
              && s'.syncs[a] == Sync(Some(s.nextId), Synced)
            else s'.nextId == s.nextId && s'.syncs[a] == Sync(EventOf(s, a), Failed)
  {
  }

  // ---------------------------------------------------------------- convergence

  /** The appointment's event was deleted behind our back while a duplicate of it survives. */
  ghost predicate LostItsEventButNotItsDuplicates(s: State, a: nat) {
    EventOf(s, a).Some? && EventOf(s, a).value !in s.events && Own(s, a) != {}
  }

  ghost predicate Converged(s: State, a: nat, content: string) {
    && EventOf(s, a).Some? && s.syncs[a].status.Synced?
    && Own(s, a) == {EventOf(s, a).value}
    && s.events[EventOf(s, a).value] == Event(a, content)
  }

  /** A successful upsert records an event with the appointment's present content. */
  lemma UpsertRecordsTheEvent(s: State, a: nat, content: string, w: Weather, listing: seq<nat>)
    requires Valid(s) && IsListing(s, a, listing) && Fair(w)
    ensures var s' := AfterUpsert(s, a, content, w, listing);
            EventOf(s', a).Some? && EventOf(s', a).value in s'.events && s'.events[EventOf(s', a).value] == Event(a, content)
            && s'.syncs[a].status.Synced?
  {
    var known := EventOf(s, a);
    if known.Some? {
      OthersIsFilter(listing, known.value);
    } else if listing != [] {
      assert listing[0] in Own(s, a);
      assert listing[0] !in listing[1..];
    }
  }

  /** It also leaves no other event of the appointment, unless the recorded event was gone and another was not. */
  lemma OneUpsertConvergesIff(s: State, a: nat, content: string, w: Weather, listing: seq<nat>)
    requires Valid(s) && IsListing(s, a, listing) && Fair(w)
    ensures Converged(AfterUpsert(s, a, content, w, listing), a, content) <==> !LostItsEventButNotItsDuplicates(s, a)
  {
    var s' := AfterUpsert(s, a, content, w, listing);
    var known := EventOf(s, a);
    UpsertRecordsTheEvent(s, a, content, w, listing);
    var id := EventOf(s', a).value;
    if known.Some? && known.value in s.events {
      OthersIsFilter(listing, known.value);
      assert forall other :: other in Own(s, a) && other != id ==> other in Others(listing, id);
      assert Own(s', a) == {id};
    } else if known.Some? || listing == [] {
      assert listing == [] ==> forall other :: other !in Own(s, a);
      assert Own(s', a) == Own(s, a) + {s.nextId};
      assert s.nextId !in Own(s, a);
      if Own(s, a) != {} {
        var other :| other in Own(s, a);
        assert other in Own(s', a) && other != id;
      }
    } else {
      assert listing == [id] + listing[1..];
      assert forall other :: other in Own(s, a) && other != id ==> other in listing[1..];
      assert Own(s', a) == {id};
    }
  }

  /**
   A history that gets there: an upsert succeeds, somebody deletes the event in the calendar, and the next upsert's
   create takes effect but reports an error. The successful upsert after it leaves two events.
   */
  lemma AnEventCanBeLostAndDuplicated(a: nat, content: string, fair: Weather)
    returns (states: seq<State>, ops: seq<Op>)
    requires Fair(fair)
    ensures History(states, ops) && LostItsEventButNotItsDuplicates(states[|ops|], a)
    ensures IsListing(states[|ops|], a, [1]) && Own(AfterUpsert(states[|ops|], a, content, fair, [1]), a) == {1, 2}
  {
    var broken := fair.(create := Broken(false, true));
    ops := [Upsert(a, content, fair, []), UserDeletes(0), Upsert(a, content, broken, [])];
    var s0 := State(map[], 0, map[]);
    var s1 := After(s0, ops[0]);
    var s2 := After(s1, ops[1]);
    var s3 := After(s2, ops[2]);
    states := [s0, s1, s2, s3];
    assert s1 == State(map[0 := Event(a, content)], 1, map[a := Sync(Some(0), Synced)]);
    assert s2 == State(map[], 1, map[a := Sync(Some(0), Synced)]);
    assert s3 == State(map[1 := Event(a, content)], 2, map[a := Sync(Some(0), Failed)]);
    assert 1 in Own(s3, a);
    assert AfterUpsert(s3, a, content, fair, [1]).events == map[1 := Event(a, content), 2 := Event(a, content)];
  }

  /** Two successful upserts in a row leave exactly one event, with the second's content. */
  lemma TwoUpsertsConverge(
    s: State, a: nat, first: string, w1: Weather, l1: seq<nat>, second: string, w2: Weather, l2: seq<nat>)
    requires Valid(s) && IsListing(s, a, l1) && Fair(w1) && Fair(w2)
    requires IsListing(AfterUpsert(s, a, first, w1, l1), a, l2)
    ensures Converged(AfterUpsert(AfterUpsert(s, a, first, w1, l1), a, second, w2, l2), a, second)
  {
    UpsertLeavesOthers(s, a, first, w1, l1);
    UpsertRecordsTheEvent(s, a, first, w1, l1);
    OneUpsertConvergesIff(AfterUpsert(s, a, first, w1, l1), a, second, w2, l2);
  }

  /** From then on an upsert of the same content changes nothing at all. */
  lemma ConvergedIsAFixpoint(s: State, a: nat, content: string, w: Weather, listing: seq<nat>)
    requires Converged(s, a, content) && IsListing(s, a, listing) && Fair(w)
    ensures AfterUpsert(s, a, content, w, listing) == s
  {
    var id := EventOf(s, a).value;
    OthersIsFilter(listing, id);
    assert id in Own(s, a);
    assert forall other :: other in listing ==> other in Own(s, a);
    assert forall other :: other !in Others(listing, id);
    assert s.events[id := Event(a, content)] == s.events;
    assert Without(s.events, Others(listing, id), w.delete) == s.events;
    assert s.syncs[a := Sync(Some(id), Synced)] == s.syncs;
  }

  /** From any history at all, two successful upserts and then any number of the same converge and stay. */
  lemma AnyHistoryThenTwoUpserts(
    states: seq<State>, ops: seq<Op>, a: nat, content: string, w: Weather, l1: seq<nat>, l2: seq<nat>, l3: seq<nat>)
    requires History(states, ops) && Fair(w)
    requires IsListing(states[|ops|], a, l1)
    requires IsListing(AfterUpsert(states[|ops|], a, content, w, l1), a, l2)
    requires IsListing(AfterUpsert(AfterUpsert(states[|ops|], a, content, w, l1), a, content, w, l2), a, l3)
    ensures var end := AfterUpsert(AfterUpsert(states[|ops|], a, content, w, l1), a, content, w, l2);
            && Converged(end, a, content) && LeavesOthers(states[|ops|], a, end)
            && AfterUpsert(end, a, content, w, l3) == end
  {
    var s := states[|ops|];
    var s1 := AfterUpsert(s, a, content, w, l1);
    HistoriesAreValid(states, ops);
    UpsertLeavesOthers(s, a, content, w, l1);
    UpsertLeavesOthers(s1, a, content, w, l2);
    TwoUpsertsConverge(s, a, content, w, l1, content, w, l2);
    ConvergedIsAFixpoint(AfterUpsert(s1, a, content, w, l2), a, content, w, l3);
  }

  /** A successful delete removes the recorded event only: it leaves none exactly if there was no other. */
  lemma DeleteLeavesNothingIff(s: State, a: nat, w: Weather)
    requires Valid(s) && Fair(w)
    ensures Own(AfterDelete(s, a, w), a) == {} <==>
            forall id :: id in Own(s, a) ==> EventOf(s, a) == Some(id)
  {
    var s' := AfterDelete(s, a, w);
    forall id
      ensures id in Own(s', a) <==> id in Own(s, a) && EventOf(s, a) != Some(id)
    {
    }
  }
}
