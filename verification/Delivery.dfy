/**
 The transactional outbox, the polling publisher, the broker and the idempotent consumer
 (event-publisher.service.ts, runner.go, RunOnce in repository.go).

 Every database transaction and every broker call is one step; publishers overlap, crash and retry,
 and the broker may redeliver. The handlers are any function of the event and the data.
 */
module Delivery {
  import opened Outcomes
  import opened Traces

  const MAX_ATTEMPTS: nat := 5

  datatype RowStatus = Pending | Failed | Published

  /** An event as its transaction writes it. */
  datatype Draft<E> = Draft(event: E, routingKey: string, createdAt: int)

  datatype Row<E> = Row(event: E, routingKey: string, createdAt: int, status: RowStatus, attempts: nat)

  /** A message body; a missing event id is None, a missing type is false. */
  datatype Body = NotJson | Json(eventId: Option<nat>, hasType: bool)

  function Envelope(i: nat): Body {
    Json(Some(i), true)
  }

  /** decodeEvent: the event id, or an error. */
  function Decode(body: Body): Option<nat> {
    if body.NotJson? || body.eventId.None? || !body.hasType then None else body.eventId
  }

  /** A handler's new data and the events it emits, or None for an error, which rolls back. */
  datatype Effect<D, E> = Effect(data: D, emitted: seq<Draft<E>>)

  type Handler<!D, !E> = (E, D) -> Option<Effect<D, E>>

  datatype System<D, E> = System(
    rows: seq<Row<E>>,
    data: D,
    processed: set<nat>,
    bound: bool,
    queue: multiset<Body>,
    inFlight: multiset<Body>,
    dead: multiset<Body>,
    polled: multiset<nat>,
    confirmed: multiset<nat>,
    failing: multiset<nat>,
    routed: set<nat>
  )

  datatype Label<D, E> =
    | Commit(data: D, emitted: seq<Draft<E>>)
    | Poll(i: nat)
    | PublishConfirmed(i: nat)
    | PublishFailed(i: nat, arrived: bool)
    | MarkPublished(i: nat)
    | MarkPublishedFails(i: nat)
    | MarkFailed(i: nat)
    | PublisherCrash
    | Bind
    | Foreign(body: Body)
    | Deliver(body: Body)
    | Redeliver(body: Body)
    | DeadLetter(body: Body)
    | Process(i: nat)
    | Ack(i: nat)

  function NewRows<E>(emitted: seq<Draft<E>>): seq<Row<E>> {
    seq(|emitted|, k requires 0 <= k < |emitted| => Row(emitted[k].event, emitted[k].routingKey, emitted[k].createdAt, Pending, 0))
  }

  predicate Selectable<E>(row: Row<E>) {
    !row.status.Published? && row.attempts < MAX_ATTEMPTS
  }

  function MarkRowPublished<E>(rows: seq<Row<E>>, i: nat): seq<Row<E>>
    requires i < |rows|
  {
    rows[i := rows[i].(status := Published)]
  }

  function MarkRowFailed<E>(rows: seq<Row<E>>, i: nat): seq<Row<E>>
    requires i < |rows|
  {
    rows[i := rows[i].(status := Failed, attempts := rows[i].attempts + 1)]
  }

  /** The exchange drops a message no binding matches, and still confirms it. */
  function Route<D, E>(s: System<D, E>, i: nat, keys: set<string>): System<D, E>
    requires i < |s.rows|
  {
    if s.bound && s.rows[i].routingKey in keys then
      s.(queue := s.queue + multiset{Envelope(i)}, routed := s.routed + {i})
    else s
  }

  /** One step; keys are the binding keys of the worker queue. */
  ghost predicate Step<D(!new), E(!new)>(
    handler: Handler<D, E>, keys: set<string>, s: System<D, E>, l: Label<D, E>, s': System<D, E>)
  {
    match l
    case Commit(data, emitted) => s' == s.(data := data, rows := s.rows + NewRows(emitted))
    case Poll(i) => i < |s.rows| && Selectable(s.rows[i]) && s' == s.(polled := s.polled + multiset{i})
    case PublishConfirmed(i) =>
      i < |s.rows| && i in s.polled
      && s' == Route(s, i, keys).(polled := s.polled - multiset{i}, confirmed := s.confirmed + multiset{i})
    case PublishFailed(i, arrived) =>
      i < |s.rows| && i in s.polled
      && s' == (if arrived then Route(s, i, keys) else s)
               .(polled := s.polled - multiset{i}, failing := s.failing + multiset{i})
    case MarkPublished(i) =>
      i < |s.rows| && i in s.confirmed
      && s' == s.(confirmed := s.confirmed - multiset{i}, rows := MarkRowPublished(s.rows, i))
    case MarkPublishedFails(i) =>
      i in s.confirmed && s' == s.(confirmed := s.confirmed - multiset{i}, failing := s.failing + multiset{i})
    case MarkFailed(i) =>
      i < |s.rows| && i in s.failing
      && s' == s.(failing := s.failing - multiset{i}, rows := MarkRowFailed(s.rows, i))
    case PublisherCrash => s' == s.(polled := multiset{}, confirmed := multiset{}, failing := multiset{})
    case Bind => s' == s.(bound := true)
    case Foreign(body) => Decode(body).None? && s' == s.(queue := s.queue + multiset{body})
    case Deliver(body) =>
      body in s.queue && s' == s.(queue := s.queue - multiset{body}, inFlight := s.inFlight + multiset{body})
    case Redeliver(body) =>
      body in s.inFlight && s' == s.(queue := s.queue + multiset{body}, inFlight := s.inFlight - multiset{body})
    case DeadLetter(body) =>
      body in s.inFlight && Decode(body).None?
      && s' == s.(dead := s.dead + multiset{body}, inFlight := s.inFlight - multiset{body})
    case Process(i) =>
      Envelope(i) in s.inFlight && i < |s.rows| && i !in s.processed
      && var effect := handler(s.rows[i].event, s.data);
         && effect.Some?
         && s' == s.(data := effect.value.data, processed := s.processed + {i},
                     rows := s.rows + NewRows(effect.value.emitted))
    case Ack(i) =>
      Envelope(i) in s.inFlight && i in s.processed && s' == s.(inFlight := s.inFlight - multiset{Envelope(i)})
  }

  type Run<!D, !E> = Trace<System<D, E>, Label<D, E>>

  ghost predicate Valid<D(!new), E(!new)>(handler: Handler<D, E>, keys: set<string>, run: Run<D, E>) {
    && |run.states| == |run.labels| + 1
    && forall k :: 0 <= k < |run.labels| ==> Step(handler, keys, run.states[k], run.labels[k], run.states[k + 1])
  }

  lemma FrontIsValid<D(!new), E(!new)>(handler: Handler<D, E>, keys: set<string>, run: Run<D, E>)
    requires Valid(handler, keys, run) && |run.labels| > 0
    ensures Valid(handler, keys, Front(run)) && Front(run).states[0] == run.states[0]
    ensures Step(handler, keys, Last(Front(run)), run.labels[|run.labels| - 1], Last(run))
  {
    var last := |run.labels| - 1;
    assert Step(handler, keys, run.states[last], run.labels[last], run.states[last + 1]);
  }

  // ---------------------------------------------------------------- the once-only system

  /** No broker, no publisher: events, data, and which events were handled. */
  datatype Once<D, E> = Once(events: seq<E>, data: D, handled: set<nat>)

  datatype OnceLabel<D, E> = ApiCommit(data: D, events: seq<E>) | Handle(i: nat)

  /** Handling is possible once per event, and only for an event that was emitted. */
  function OnceNext<D, E>(handler: Handler<D, E>, o: Once<D, E>, l: OnceLabel<D, E>): Option<Once<D, E>> {
    match l
    case ApiCommit(data, events) => Some(o.(data := data, events := o.events + events))
    case Handle(i) =>
      if i in o.handled || |o.events| <= i then None
      else
        var effect := handler(o.events[i], o.data);
        if effect.None? then None
        else Some(Once(o.events + Payloads(NewRows(effect.value.emitted)), effect.value.data, o.handled + {i}))
  }

  function Replay<D, E>(handler: Handler<D, E>, o: Once<D, E>, trace: seq<OnceLabel<D, E>>): Option<Once<D, E>> {
    if trace == [] then Some(o)
    else
      var before := Replay(handler, o, trace[..|trace| - 1]);
      if before.None? then None else OnceNext(handler, before.value, trace[|trace| - 1])
  }

  function Payloads<E>(rows: seq<Row<E>>): seq<E> {
    seq(|rows|, k requires 0 <= k < |rows| => rows[k].event)
  }

  function Abstract<D, E>(s: System<D, E>): Once<D, E> {
    Once(Payloads(s.rows), s.data, s.processed)
  }

  /** The once-only step a step performs, if it touches the data. */
  function Shadow<D, E>(l: Label<D, E>): seq<OnceLabel<D, E>> {
    match l
    case Commit(data, emitted) => [ApiCommit(data, Payloads(NewRows(emitted)))]
    case Process(i) => [Handle(i)]
    case _ => []
  }

  /** The steps that touch the database's data, in commit order. */
  function CommitOrder<D, E>(labels: seq<Label<D, E>>): seq<OnceLabel<D, E>> {
    if labels == [] then [] else CommitOrder(labels[..|labels| - 1]) + Shadow(labels[|labels| - 1])
  }

  lemma PayloadsAppend<E>(rows: seq<Row<E>>, more: seq<Row<E>>)
    ensures Payloads(rows + more) == Payloads(rows) + Payloads(more)
  {
  }

  lemma MarkingKeepsPayloads<E>(rows: seq<Row<E>>, i: nat)
    requires i < |rows|
    ensures Payloads(MarkRowPublished(rows, i)) == Payloads(rows)
    ensures Payloads(MarkRowFailed(rows, i)) == Payloads(rows)
  {
  }

  lemma DataStepRefines<D(!new), E(!new)>(
    handler: Handler<D, E>, keys: set<string>, s: System<D, E>, l: Label<D, E>, s': System<D, E>)
    requires Step(handler, keys, s, l, s') && (l.Commit? || l.Process?)
    ensures |Shadow(l)| == 1 && OnceNext(handler, Abstract(s), Shadow(l)[0]) == Some(Abstract(s'))
  {
    match l
    case Commit(data, emitted) => PayloadsAppend(s.rows, NewRows(emitted));
    case Process(i) =>
      assert Payloads(s.rows)[i] == s.rows[i].event;
      PayloadsAppend(s.rows, NewRows(handler(s.rows[i].event, s.data).value.emitted));
  }

  lemma OtherStepsStutter<D(!new), E(!new)>(
    handler: Handler<D, E>, keys: set<string>, s: System<D, E>, l: Label<D, E>, s': System<D, E>)
    requires Step(handler, keys, s, l, s') && !l.Commit? && !l.Process?
    ensures Abstract(s') == Abstract(s)
  {
    match l
    case MarkPublished(i) => MarkingKeepsPayloads(s.rows, i);
    case MarkFailed(i) => MarkingKeepsPayloads(s.rows, i);
    case _ =>
  }

  lemma ReplayOneMore<D, E>(
    handler: Handler<D, E>, o: Once<D, E>, trace: seq<OnceLabel<D, E>>, l: OnceLabel<D, E>)
    requires Replay(handler, o, trace).Some?
    ensures Replay(handler, o, trace + [l]) == OnceNext(handler, Replay(handler, o, trace).value, l)
  {
    assert (trace + [l])[..|trace|] == trace;
  }

  /**
   The at-least-once system refines the once-only one: after every run the database holds what the
   handlers produce when applied once each, in commit order, to the processed events.
   */
  lemma {:induction false} AtLeastOnceRefinesOnce<D(!new), E(!new)>(
    handler: Handler<D, E>, keys: set<string>, run: Run<D, E>)
    requires Valid(handler, keys, run)
    ensures Replay(handler, Abstract(run.states[0]), CommitOrder(run.labels)) == Some(Abstract(Last(run)))
    decreases |run.labels|
  {
    if |run.labels| > 0 {
      var l := run.labels[|run.labels| - 1];
      var before := Front(run);
      FrontIsValid(handler, keys, run);
      AtLeastOnceRefinesOnce(handler, keys, before);
      if l.Commit? || l.Process? {
        DataStepRefines(handler, keys, Last(before), l, Last(run));
        ReplayOneMore(handler, Abstract(run.states[0]), CommitOrder(before.labels), Shadow(l)[0]);
        assert Shadow(l) == [Shadow(l)[0]];
      } else {
        OtherStepsStutter(handler, keys, Last(before), l, Last(run));
        assert CommitOrder(run.labels) == CommitOrder(before.labels);
      }
    }
  }

  /** In a replayable trace every handled event occurs once, and the handled set is what occurs. */
  lemma {:induction false} EachEventIsHandledOnce<D, E>(handler: Handler<D, E>, o: Once<D, E>, trace: seq<OnceLabel<D, E>>)
    requires Replay(handler, o, trace).Some? && o.handled == {}
    ensures forall j, k :: 0 <= j < k < |trace| && trace[j].Handle? && trace[k].Handle? ==> trace[j].i != trace[k].i
    ensures forall i: nat :: i in Replay(handler, o, trace).value.handled <==> exists k :: 0 <= k < |trace| && trace[k] == Handle(i)
  {
    if trace != [] {
      var last := |trace| - 1;
      EachEventIsHandledOnce(handler, o, trace[..last]);
      forall i: nat
        ensures i in Replay(handler, o, trace).value.handled <==> exists k :: 0 <= k < |trace| && trace[k] == Handle(i)
      {
        if i in Replay(handler, o, trace).value.handled && trace[last] != Handle(i) {
          var k :| 0 <= k < last && trace[..last][k] == Handle(i);
          assert trace[k] == Handle(i);
        }
        if k :| 0 <= k < |trace| && trace[k] == Handle(i) {
          assert k == last || trace[..last][k] == Handle(i);
        }
      }
      forall j, k | 0 <= j < k < |trace| && trace[j].Handle? && trace[k].Handle?
        ensures trace[j].i != trace[k].i
      {
        assert trace[..last][j] == trace[j];
        if k < last {
          assert trace[..last][k] == trace[k];
        }
      }
    }
  }

  // ---------------------------------------------------------------- nothing routed is lost

  /** The message of event i is waiting, being handled, or has been handled. */
  predicate Accounted<D, E>(s: System<D, E>, i: nat) {
    Envelope(i) in s.queue || Envelope(i) in s.inFlight || i in s.processed
  }

  ghost predicate RoutedIsAccounted<D, E>(s: System<D, E>) {
    && (forall i: nat :: i in s.routed <==> Accounted(s, i))
    && (forall b :: b in s.dead ==> Decode(b).None?)
  }

  lemma RoutingKeepsRouted<D, E>(s: System<D, E>, i: nat, keys: set<string>)
    requires RoutedIsAccounted(s) && i < |s.rows|
    ensures RoutedIsAccounted(Route(s, i, keys))
  {
    var s' := Route(s, i, keys);
    forall k: nat
      ensures k in s'.routed <==> Accounted(s', k)
    {
      assert k in s.routed <==> Accounted(s, k);
      assert k != i ==> Envelope(k) != Envelope(i);
    }
  }

  lemma SameMessagesKeepRouted<D, E>(s: System<D, E>, s': System<D, E>)
    requires RoutedIsAccounted(s)
    requires s'.queue == s.queue && s'.inFlight == s.inFlight && s'.dead == s.dead
    requires s'.processed == s.processed && s'.routed == s.routed
    ensures RoutedIsAccounted(s')
  {
    assert forall k: nat :: Accounted(s', k) <==> Accounted(s, k);
  }

  /** Moving messages about, or dropping and adding undecodable ones, loses no event. */
  lemma MovedMessagesKeepRouted<D, E>(s: System<D, E>, s': System<D, E>)
    requires RoutedIsAccounted(s)
    requires s'.processed == s.processed && s'.routed == s.routed
    requires forall b :: Decode(b).Some? ==> s'.queue[b] + s'.inFlight[b] == s.queue[b] + s.inFlight[b] && s'.dead[b] == s.dead[b]
    ensures RoutedIsAccounted(s')
  {
    forall k: nat
      ensures Accounted(s, k) <==> Accounted(s', k)
    {
      assert Decode(Envelope(k)) == Some(k);
    }
  }

  lemma HandlingKeepsRouted<D, E>(s: System<D, E>, s': System<D, E>, i: nat)
    requires RoutedIsAccounted(s) && Envelope(i) in s.inFlight
    requires s'.queue == s.queue && s'.dead == s.dead && s'.routed == s.routed
    requires s'.inFlight == s.inFlight || s'.inFlight == s.inFlight - multiset{Envelope(i)}
    requires s'.processed == s.processed + {i}
    ensures RoutedIsAccounted(s')
  {
    forall k: nat
      ensures k in s'.routed <==> Accounted(s', k)
    {
      assert k in s.routed <==> Accounted(s, k);
      assert k != i ==> Envelope(k) != Envelope(i);
    }
  }

  lemma StepKeepsRouted<D(!new), E(!new)>(
    handler: Handler<D, E>, keys: set<string>, s: System<D, E>, l: Label<D, E>, s': System<D, E>)
    requires Step(handler, keys, s, l, s') && RoutedIsAccounted(s)
    ensures RoutedIsAccounted(s')
  {
    if l.PublishConfirmed? || l.PublishFailed? {
      PublishKeepsRouted(handler, keys, s, l, s');
    } else if l.Process? || l.Ack? {
      HandlingKeepsRouted(s, s', l.i);
    } else if l.Foreign? || l.Deliver? || l.Redeliver? || l.DeadLetter? {
      MessageStepKeepsRouted(handler, keys, s, l, s');
    } else {
      OtherStepKeepsRouted(handler, keys, s, l, s');
    }
  }

  lemma PublishKeepsRouted<D(!new), E(!new)>(
    handler: Handler<D, E>, keys: set<string>, s: System<D, E>, l: Label<D, E>, s': System<D, E>)
    requires Step(handler, keys, s, l, s') && (l.PublishConfirmed? || l.PublishFailed?) && RoutedIsAccounted(s)
    ensures RoutedIsAccounted(s')
  {
    RoutingKeepsRouted(s, l.i, keys);
    SameMessagesKeepRouted(if l.PublishConfirmed? || l.arrived then Route(s, l.i, keys) else s, s');
  }

  lemma MessageStepKeepsRouted<D(!new), E(!new)>(
    handler: Handler<D, E>, keys: set<string>, s: System<D, E>, l: Label<D, E>, s': System<D, E>)
    requires Step(handler, keys, s, l, s') && (l.Foreign? || l.Deliver? || l.Redeliver? || l.DeadLetter?)
    requires RoutedIsAccounted(s)
    ensures RoutedIsAccounted(s')
  {
    MovedMessagesKeepRouted(s, s');
  }

  lemma OtherStepKeepsRouted<D(!new), E(!new)>(
    handler: Handler<D, E>, keys: set<string>, s: System<D, E>, l: Label<D, E>, s': System<D, E>)
    requires Step(handler, keys, s, l, s') && RoutedIsAccounted(s)
    requires l.Commit? || l.Poll? || l.MarkPublished? || l.MarkPublishedFails? || l.MarkFailed? || l.PublisherCrash? || l.Bind?
    ensures RoutedIsAccounted(s')
  {
    SameMessagesKeepRouted(s, s');
  }

  /** At every reachable state an event is accounted for exactly if a publish of it was ever routed. */
  lemma {:induction false} RoutedEventsAreNotLost<D(!new), E(!new)>(
    handler: Handler<D, E>, keys: set<string>, run: Run<D, E>)
    requires Valid(handler, keys, run) && RoutedIsAccounted(run.states[0])
    ensures RoutedIsAccounted(Last(run))
    decreases |run.labels|
  {
    if |run.labels| > 0 {
      FrontIsValid(handler, keys, run);
      RoutedEventsAreNotLost(handler, keys, Front(run));
      StepKeepsRouted(handler, keys, Last(Front(run)), run.labels[|run.labels| - 1], Last(run));
    }
  }

  /** Every publish so far reached a bound queue. */
  ghost predicate PublishesRouted<D, E>(s: System<D, E>, keys: set<string>) {
    && s.bound
    && (forall i: nat :: i in s.confirmed ==> i < |s.rows|)
    && (forall i: nat :: i < |s.rows| && s.rows[i].routingKey in keys && (s.rows[i].status.Published? || i in s.confirmed)
          ==> i in s.routed)
  }

  lemma NewRowsKeepPublishesRouted<D(!new), E(!new)>(
    s: System<D, E>, s': System<D, E>, keys: set<string>, emitted: seq<Draft<E>>)
    requires PublishesRouted(s, keys)
    requires s'.rows == s.rows + NewRows(emitted)
    requires s'.bound == s.bound && s'.confirmed == s.confirmed && s'.routed == s.routed
    ensures PublishesRouted(s', keys)
  {
    forall i: nat | |s.rows| <= i < |s'.rows|
      ensures i !in s'.confirmed && s'.rows[i].status.Pending?
    {
      assert s'.rows[i] == NewRows(emitted)[i - |s.rows|];
    }
  }

  lemma StepKeepsPublishesRouted<D(!new), E(!new)>(
    handler: Handler<D, E>, keys: set<string>, s: System<D, E>, l: Label<D, E>, s': System<D, E>)
    requires Step(handler, keys, s, l, s') && PublishesRouted(s, keys)
    ensures PublishesRouted(s', keys)
  {
    match l
    case Commit(_, emitted) => NewRowsKeepPublishesRouted(s, s', keys, emitted);
    case Process(i) => NewRowsKeepPublishesRouted(s, s', keys, handler(s.rows[i].event, s.data).value.emitted);
    case PublishConfirmed(_) => PublishStaysRouted(handler, keys, s, l, s');
    case PublishFailed(_, _) => PublishStaysRouted(handler, keys, s, l, s');
    case MarkPublished(_) => MarkStaysRouted(handler, keys, s, l, s');
    case MarkFailed(_) => MarkStaysRouted(handler, keys, s, l, s');
    case _ => OtherStepStaysRouted(handler, keys, s, l, s');
  }

  lemma MarkStaysRouted<D(!new), E(!new)>(
    handler: Handler<D, E>, keys: set<string>, s: System<D, E>, l: Label<D, E>, s': System<D, E>)
    requires Step(handler, keys, s, l, s') && PublishesRouted(s, keys) && (l.MarkPublished? || l.MarkFailed?)
    ensures PublishesRouted(s', keys)
  {
    assert forall i :: i in s'.confirmed ==> i in s.confirmed;
  }

  lemma PublishStaysRouted<D(!new), E(!new)>(
    handler: Handler<D, E>, keys: set<string>, s: System<D, E>, l: Label<D, E>, s': System<D, E>)
    requires Step(handler, keys, s, l, s') && PublishesRouted(s, keys) && (l.PublishConfirmed? || l.PublishFailed?)
    ensures PublishesRouted(s', keys)
  {
  }

  lemma OtherStepStaysRouted<D(!new), E(!new)>(
    handler: Handler<D, E>, keys: set<string>, s: System<D, E>, l: Label<D, E>, s': System<D, E>)
    requires Step(handler, keys, s, l, s') && PublishesRouted(s, keys)
    requires !l.Commit? && !l.Process? && !l.PublishConfirmed? && !l.PublishFailed? && !l.MarkPublished? && !l.MarkFailed?
    ensures PublishesRouted(s', keys)
  {
    assert s'.rows == s.rows && s'.routed == s.routed;
    assert forall i :: i in s'.confirmed ==> i in s.confirmed;
  }

  lemma {:induction false} PublishesStayRouted<D(!new), E(!new)>(
    handler: Handler<D, E>, keys: set<string>, run: Run<D, E>)
    requires Valid(handler, keys, run) && PublishesRouted(run.states[0], keys)
    ensures PublishesRouted(Last(run), keys)
    decreases |run.labels|
  {
    if |run.labels| > 0 {
      FrontIsValid(handler, keys, run);
      PublishesStayRouted(handler, keys, Front(run));
      StepKeepsPublishesRouted(handler, keys, Last(Front(run)), run.labels[|run.labels| - 1], Last(run));
    }
  }

  /** When the queue was bound before anything was published, no published event with a bound key is lost. */
  lemma PublishedEventsAreNotLost<D(!new), E(!new)>(handler: Handler<D, E>, keys: set<string>, run: Run<D, E>, i: nat)
    requires Valid(handler, keys, run)
    requires RoutedIsAccounted(run.states[0]) && PublishesRouted(run.states[0], keys)
    requires i < |Last(run).rows| && Last(run).rows[i].status.Published? && Last(run).rows[i].routingKey in keys
    ensures Accounted(Last(run), i)
  {
    RoutedEventsAreNotLost(handler, keys, run);
    PublishesStayRouted(handler, keys, run);
  }

  function Fresh<D, E>(data: D, bound: bool): System<D, E> {
    System([], data, {}, bound, multiset{}, multiset{}, multiset{}, multiset{}, multiset{}, multiset{}, {})
  }

  lemma FreshIsSound<D, E>(data: D, keys: set<string>)
    ensures RoutedIsAccounted(Fresh<D, E>(data, false)) && RoutedIsAccounted(Fresh<D, E>(data, true))
    ensures PublishesRouted(Fresh<D, E>(data, true), keys)
  {
  }

  /** An event published before the worker first binds its queue is marked published and is nowhere. */
  lemma PublishedBeforeBindingIsLost<D(!new), E(!new)>(handler: Handler<D, E>, data: D, draft: Draft<E>)
    returns (run: Run<D, E>)
    ensures Valid(handler, {draft.routingKey}, run) && run.states[0] == Fresh(data, false)
    ensures Last(run).bound && |Last(run).rows| == 1 && Last(run).rows[0].event == draft.event
    ensures Last(run).rows[0].status.Published? && !Accounted(Last(run), 0)
  {
    var keys := {draft.routingKey};
    var s0: System<D, E> := Fresh(data, false);
    var s1 := s0.(rows := s0.rows + NewRows([draft]));
    var s2 := s1.(polled := multiset{0});
    var s3 := s2.(polled := multiset{}, confirmed := multiset{0});
    var s4 := s3.(bound := true);
    var s5 := s4.(confirmed := multiset{}, rows := MarkRowPublished(s4.rows, 0));
    run := Trace([s0, s1, s2, s3, s4, s5],
               [Commit(data, [draft]), Poll(0), PublishConfirmed(0), Bind, MarkPublished(0)]);
    assert s1.rows == [Row(draft.event, draft.routingKey, draft.createdAt, Pending, 0)];
    assert Step(handler, keys, s0, run.labels[0], s1);
    assert Step(handler, keys, s1, run.labels[1], s2);
    assert Step(handler, keys, s2, run.labels[2], s3);
    assert Step(handler, keys, s3, run.labels[3], s4);
    assert Step(handler, keys, s4, run.labels[4], s5);
  }

  /** Nor does it help to have bound the queue if no binding has the event's key. */
  lemma PublishedWithoutItsKeyIsLost<D(!new), E(!new)>(
    handler: Handler<D, E>, keys: set<string>, data: D, draft: Draft<E>) returns (run: Run<D, E>)
    requires draft.routingKey !in keys
    ensures Valid(handler, keys, run) && run.states[0] == Fresh(data, true)
    ensures |Last(run).rows| == 1 && Last(run).rows[0].event == draft.event
    ensures Last(run).rows[0].status.Published? && !Accounted(Last(run), 0)
  {
    var s0: System<D, E> := Fresh(data, true);
    var s1 := s0.(rows := s0.rows + NewRows([draft]));
    var s2 := s1.(polled := multiset{0});
    var s3 := s2.(polled := multiset{}, confirmed := multiset{0});
    var s4 := s3.(confirmed := multiset{}, rows := MarkRowPublished(s3.rows, 0));
    run := Trace([s0, s1, s2, s3, s4], [Commit(data, [draft]), Poll(0), PublishConfirmed(0), MarkPublished(0)]);
    assert s1.rows == [Row(draft.event, draft.routingKey, draft.createdAt, Pending, 0)];
    assert Step(handler, keys, s0, run.labels[0], s1);
    assert Step(handler, keys, s1, run.labels[1], s2);
    assert Step(handler, keys, s2, run.labels[2], s3);
    assert Step(handler, keys, s3, run.labels[3], s4);
  }

  // ---------------------------------------------------------------- attempts

  function Outstanding<D, E>(s: System<D, E>, i: nat): nat {
    s.polled[i] + s.confirmed[i] + s.failing[i]
  }

  /** With at most overlap publishers on one row, its attempts and unfinished tries stay within the limit plus overlap - 1. */
  ghost predicate AttemptsBounded<D, E>(s: System<D, E>, overlap: nat) {
    && (forall i: nat :: i < |s.rows| ==> s.rows[i].attempts + Outstanding(s, i) < MAX_ATTEMPTS + overlap)
    && (forall i: nat :: Outstanding(s, i) > 0 ==> i < |s.rows|)
  }

  lemma StepKeepsAttemptsBounded<D(!new), E(!new)>(
    handler: Handler<D, E>, keys: set<string>, s: System<D, E>, l: Label<D, E>, s': System<D, E>, overlap: nat)
    requires Step(handler, keys, s, l, s') && AttemptsBounded(s, overlap) && overlap > 0
    requires l.Poll? ==> Outstanding(s, l.i) < overlap
    ensures AttemptsBounded(s', overlap)
  {
    match l
    case Commit(_, emitted) => NewRowsKeepAttemptsBounded(s, s', emitted, overlap);
    case Process(i) => NewRowsKeepAttemptsBounded(s, s', handler(s.rows[i].event, s.data).value.emitted, overlap);
    case MarkPublished(i) => MarksKeepAttemptsBounded(handler, keys, s, l, s', overlap);
    case MarkFailed(i) => MarksKeepAttemptsBounded(handler, keys, s, l, s', overlap);
    case _ => SameRowsKeepAttemptsBounded(handler, keys, s, l, s', overlap);
  }

  lemma MarksKeepAttemptsBounded<D(!new), E(!new)>(
    handler: Handler<D, E>, keys: set<string>, s: System<D, E>, l: Label<D, E>, s': System<D, E>, overlap: nat)
    requires Step(handler, keys, s, l, s') && AttemptsBounded(s, overlap) && (l.MarkPublished? || l.MarkFailed?)
    ensures AttemptsBounded(s', overlap)
  {
    OneRowKeepsAttemptsBounded(s, s', l.i, overlap);
  }

  lemma SameRowsKeepAttemptsBounded<D(!new), E(!new)>(
    handler: Handler<D, E>, keys: set<string>, s: System<D, E>, l: Label<D, E>, s': System<D, E>, overlap: nat)
    requires Step(handler, keys, s, l, s') && AttemptsBounded(s, overlap) && overlap > 0
    requires l.Poll? ==> Outstanding(s, l.i) < overlap
    requires !l.Commit? && !l.Process? && !l.MarkPublished? && !l.MarkFailed?
    ensures AttemptsBounded(s', overlap)
  {
    if l.Poll? {
      OneRowKeepsAttemptsBounded(s, s', l.i, overlap);
    } else {
      OutstandingNeverRises(handler, keys, s, l, s');
    }
  }

  lemma OutstandingNeverRises<D(!new), E(!new)>(
    handler: Handler<D, E>, keys: set<string>, s: System<D, E>, l: Label<D, E>, s': System<D, E>)
    requires Step(handler, keys, s, l, s')
    requires !l.Commit? && !l.Process? && !l.MarkPublished? && !l.MarkFailed? && !l.Poll?
    ensures s'.rows == s.rows && forall k: nat :: Outstanding(s', k) <= Outstanding(s, k)
  {
  }

  lemma NewRowsKeepAttemptsBounded<D, E>(s: System<D, E>, s': System<D, E>, emitted: seq<Draft<E>>, overlap: nat)
    requires AttemptsBounded(s, overlap) && overlap > 0 && s'.rows == s.rows + NewRows(emitted)
    requires s'.polled == s.polled && s'.confirmed == s.confirmed && s'.failing == s.failing
    ensures AttemptsBounded(s', overlap)
  {
    forall i: nat | i < |s'.rows|
      ensures s'.rows[i].attempts + Outstanding(s', i) < MAX_ATTEMPTS + overlap
    {
      assert Outstanding(s', i) == Outstanding(s, i);
      if i >= |s.rows| {
        assert s'.rows[i] == NewRows(emitted)[i - |s.rows|];
      }
    }
    assert forall i: nat :: Outstanding(s', i) == Outstanding(s, i);
  }

  /** A step on one row's unfinished tries leaves the other rows' alone. */
  lemma OneRowKeepsAttemptsBounded<D, E>(s: System<D, E>, s': System<D, E>, i: nat, overlap: nat)
    requires AttemptsBounded(s, overlap) && |s'.rows| == |s.rows|
    requires forall k: nat :: k < |s.rows| && k != i ==> s'.rows[k] == s.rows[k]
    requires forall k: nat :: k != i ==> Outstanding(s', k) == Outstanding(s, k)
    requires Outstanding(s', i) > 0 ==> i < |s.rows|
    requires i < |s.rows| ==> s'.rows[i].attempts + Outstanding(s', i) < MAX_ATTEMPTS + overlap
    ensures AttemptsBounded(s', overlap)
  {
  }

  /** No row is picked up while that many tries of it are unfinished. */
  ghost predicate PollsBelow<D(!new), E(!new)>(run: Run<D, E>, overlap: nat)
    requires |run.states| == |run.labels| + 1
  {
    forall k :: 0 <= k < |run.labels| && run.labels[k].Poll? ==> Outstanding(run.states[k], run.labels[k].i) < overlap
  }

  lemma FrontPollsBelow<D(!new), E(!new)>(run: Run<D, E>, overlap: nat)
    requires |run.states| == |run.labels| + 1 && |run.labels| > 0 && PollsBelow(run, overlap)
    ensures PollsBelow(Front(run), overlap)
    ensures run.labels[|run.labels| - 1].Poll? ==> Outstanding(Last(Front(run)), run.labels[|run.labels| - 1].i) < overlap
  {
  }

  /** Publishing gives up: no row is tried more than five times by one publisher, 4 + n times by n at once. */
  lemma {:induction false} AttemptsStayBounded<D(!new), E(!new)>(
    handler: Handler<D, E>, keys: set<string>, run: Run<D, E>, overlap: nat)
    requires Valid(handler, keys, run) && AttemptsBounded(run.states[0], overlap) && overlap > 0
    requires PollsBelow(run, overlap)
    ensures AttemptsBounded(Last(run), overlap)
    ensures forall i: nat :: i < |Last(run).rows| ==> Last(run).rows[i].attempts <= 4 + overlap
    decreases |run.labels|
  {
    if |run.labels| > 0 {
      FrontIsValid(handler, keys, run);
      FrontPollsBelow(run, overlap);
      AttemptsStayBounded(handler, keys, Front(run), overlap);
      StepKeepsAttemptsBounded(handler, keys, Last(Front(run)), run.labels[|run.labels| - 1], Last(run), overlap);
    }
  }
}
