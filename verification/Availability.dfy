/**
 The slot generator (apps/api/src/appointments/availability.ts).

 Staff ids are integers; their order stands for the order localeCompare puts on the source's ids.
 */
module Availability {
  import opened Outcomes
  import opened ZonedTime

  const SLOT_STEP_MINUTES: int := 30

  datatype Rule = Rule(staffMemberId: int, startTime: string, endTime: string)

  datatype ExceptionKind = Blocked | ExtraOpening

  /** No staff member means the exception is for the whole business. */
  datatype Exception =
    Exception(staffMemberId: Option<int>, startTime: string, endTime: string, kind: ExceptionKind)

  datatype BusySlot = BusySlot(staffMemberId: int, startsAt: int, endsAt: int)

  datatype Slot = Slot(staffMemberId: int, startsAt: int, endsAt: int)

  datatype Input = Input(
    date: Date,
    durationMinutes: int,
    bufferMinutes: int,
    rules: seq<Rule>,
    exceptions: seq<Exception>,
    busySlots: seq<BusySlot>,
    activeStaffMemberIds: seq<int>,
    zone: Zone,
    now: int
  ) {
    function RequiredMinutes(): int {
      durationMinutes + bufferMinutes
    }

    function SlotAt(staffMemberId: int, start: int): Slot {
      Slot(staffMemberId,
           DateAtZonedMinutes(date, start, zone),
           DateAtZonedMinutes(date, start + RequiredMinutes(), zone))
    }

    function CurrentDate(): Date {
      DateInTimeZone(zone, now)
    }
  }

  predicate Overlap(s0: int, e0: int, s1: int, e1: int) {
    s0 < e1 && e0 > s1
  }

  // ---------------------------------------------------------------- windows

  function OpeningWindows(exceptions: seq<Exception>, active: seq<int>): seq<Rule> {
    if exceptions == [] then []
    else
      var e := exceptions[0];
      var staff := if e.staffMemberId.Some? then [e.staffMemberId.value] else active;
      (if e.kind.ExtraOpening? then seq(|staff|, i requires 0 <= i < |staff| => Rule(staff[i], e.startTime, e.endTime))
       else [])
      + OpeningWindows(exceptions[1..], active)
  }

  /** Every rule, then one window per staff member of every extra opening. */
  function Windows(input: Input): seq<Rule> {
    input.rules + OpeningWindows(input.exceptions, input.activeStaffMemberIds)
  }

  predicate Opens(e: Exception, active: seq<int>, w: Rule) {
    && e.kind.ExtraOpening?
    && w.startTime == e.startTime && w.endTime == e.endTime
    && if e.staffMemberId.Some? then w.staffMemberId == e.staffMemberId.value else w.staffMemberId in active
  }

  lemma {:induction false} OpeningWindowsMembers(exceptions: seq<Exception>, active: seq<int>, w: Rule)
    ensures w in OpeningWindows(exceptions, active) <==> exists e :: e in exceptions && Opens(e, active, w)
  {
    if exceptions != [] {
      var e := exceptions[0];
      var staff := if e.staffMemberId.Some? then [e.staffMemberId.value] else active;
      var opening := seq(|staff|, i requires 0 <= i < |staff| => Rule(staff[i], e.startTime, e.endTime));
      if e.kind.ExtraOpening? && Opens(e, active, w) {
        var i :| 0 <= i < |staff| && staff[i] == w.staffMemberId;
        assert opening[i] == w;
      }
      OpeningWindowsMembers(exceptions[1..], active, w);
      assert exceptions == [e] + exceptions[1..];
    }
  }

  // ---------------------------------------------------------------- what is offered

  predicate WellFormed(startTime: string, endTime: string) {
    MinutesSinceMidnight(startTime).Ok? && MinutesSinceMidnight(endTime).Ok?
  }

  predicate OnGrid(required: int, w: Rule, start: int) {
    && WellFormed(w.startTime, w.endTime)
    && var first, last := MinutesSinceMidnight(w.startTime).value, MinutesSinceMidnight(w.endTime).value;
       && first <= start
       && (start - first) % SLOT_STEP_MINUTES == 0
       && start + required <= last
  }

  predicate Past(input: Input, s: Slot) {
    input.date == input.CurrentDate() && s.startsAt <= input.now
  }

  predicate MeetsBusy(busySlots: seq<BusySlot>, s: Slot) {
    exists i | 0 <= i < |busySlots| ::
      && busySlots[i].staffMemberId == s.staffMemberId
      && Overlap(s.startsAt, s.endsAt, busySlots[i].startsAt, busySlots[i].endsAt)
  }

  predicate Applies(e: Exception, staffMemberId: int) {
    e.kind.Blocked? && (e.staffMemberId.Some? ==> e.staffMemberId.value == staffMemberId)
  }

  predicate MeetsBlock(date: Date, zone: Zone, s: Slot, e: Exception)
    requires WellFormed(e.startTime, e.endTime)
  {
    Overlap(s.startsAt, s.endsAt,
            DateAtZonedMinutes(date, MinutesSinceMidnight(e.startTime).value, zone),
            DateAtZonedMinutes(date, MinutesSinceMidnight(e.endTime).value, zone))
  }

  /** The search over blocked windows: it stops at the first hit and throws on a malformed time before it. */
  function BlockVerdict(date: Date, zone: Zone, exceptions: seq<Exception>, s: Slot): Result<bool, ClockError> {
    if exceptions == [] then Ok(false)
    else if !Applies(exceptions[0], s.staffMemberId) then BlockVerdict(date, zone, exceptions[1..], s)
    else if !WellFormed(exceptions[0].startTime, exceptions[0].endTime) then Err(NotHHmm)
    else if MeetsBlock(date, zone, s, exceptions[0]) then Ok(true)
    else BlockVerdict(date, zone, exceptions[1..], s)
  }

  lemma {:induction false} BlockVerdictMeaning(date: Date, zone: Zone, exceptions: seq<Exception>, s: Slot)
    ensures BlockVerdict(date, zone, exceptions, s) == Ok(false)
       <==> forall e :: e in exceptions && Applies(e, s.staffMemberId) ==>
              WellFormed(e.startTime, e.endTime) && !MeetsBlock(date, zone, s, e)
  {
    if exceptions != [] {
      BlockVerdictMeaning(date, zone, exceptions[1..], s);
      assert exceptions == [exceptions[0]] + exceptions[1..];
    }
  }

  predicate Bookable(input: Input, s: Slot) {
    && !Past(input, s)
    && !MeetsBusy(input.busySlots, s)
    && BlockVerdict(input.date, input.zone, input.exceptions, s) == Ok(false)
  }

  /** The slots of one window. */
  ghost predicate OfferedIn(input: Input, w: Rule, s: Slot) {
    exists start ::
      OnGrid(input.RequiredMinutes(), w, start) && s == input.SlotAt(w.staffMemberId, start) && Bookable(input, s)
  }

  ghost predicate Offered(input: Input, s: Slot) {
    input.date >= input.CurrentDate() && exists w :: w in Windows(input) && OfferedIn(input, w, s)
  }

  /** The computation throws on this candidate. */
  ghost predicate ThrowsAt(input: Input, w: Rule, start: int) {
    && OnGrid(input.RequiredMinutes(), w, start)
    && !Past(input, input.SlotAt(w.staffMemberId, start))
    && BlockVerdict(input.date, input.zone, input.exceptions, input.SlotAt(w.staffMemberId, start)).Err?
  }

  ghost predicate ThrowsIn(input: Input, w: Rule) {
    !WellFormed(w.startTime, w.endTime) || exists start :: ThrowsAt(input, w, start)
  }

  ghost predicate Throws(input: Input) {
    input.date >= input.CurrentDate() && exists w :: w in Windows(input) && ThrowsIn(input, w)
  }

  // ---------------------------------------------------------------- the declared set

  /** The business is open from startTime to endTime for this staff member: by rule, by named or by general opening. */
  ghost predicate Opened(input: Input, staff: int, startTime: string, endTime: string) {
    || Rule(staff, startTime, endTime) in input.rules
    || exists e :: e in input.exceptions && OpenedBy(e, input.activeStaffMemberIds, staff, startTime, endTime)
  }

  ghost predicate OpenedBy(e: Exception, active: seq<int>, staff: int, startTime: string, endTime: string) {
    && e.kind == ExtraOpening && e.startTime == startTime && e.endTime == endTime
    && (e.staffMemberId == Some(staff) || (e.staffMemberId == None && staff in active))
  }

  /** The slot lies between those times and starts a whole number of half hours after the first. */
  ghost predicate FitsAfter(input: Input, startTime: string, endTime: string, halfHours: nat, s: Slot) {
    && MinutesSinceMidnight(startTime).Ok? && MinutesSinceMidnight(endTime).Ok?
    && var at := MinutesSinceMidnight(startTime).value + 30 * halfHours;
       var until := at + input.durationMinutes + input.bufferMinutes;
       && until <= MinutesSinceMidnight(endTime).value
       && s.startsAt == DateAtZonedMinutes(input.date, at, input.zone)
       && s.endsAt == DateAtZonedMinutes(input.date, until, input.zone)
  }

  ghost predicate Fits(input: Input, s: Slot) {
    exists startTime, endTime, halfHours ::
      Opened(input, s.staffMemberId, startTime, endTime) && FitsAfter(input, startTime, endTime, halfHours, s)
  }

  ghost predicate NotPast(input: Input, s: Slot) {
    DateInTimeZone(input.zone, input.now) < input.date
    || (DateInTimeZone(input.zone, input.now) == input.date && input.now < s.startsAt)
  }

  /** A block that names this staff member, or nobody. */
  ghost predicate Concerns(e: Exception, staff: int) {
    e.kind == Blocked && (e.staffMemberId == None || e.staffMemberId == Some(staff))
  }

  /** Its times are well formed and the slot ends before it or starts after it. */
  ghost predicate ClearOf(input: Input, e: Exception, s: Slot) {
    && MinutesSinceMidnight(e.startTime).Ok? && MinutesSinceMidnight(e.endTime).Ok?
    && (|| s.endsAt <= DateAtZonedMinutes(input.date, MinutesSinceMidnight(e.startTime).value, input.zone)
        || DateAtZonedMinutes(input.date, MinutesSinceMidnight(e.endTime).value, input.zone) <= s.startsAt)
  }

  /** The declared set, without any of the functions the generator is built from. */
  ghost predicate Declared(input: Input, s: Slot) {
    && Fits(input, s)
    && NotPast(input, s)
    && (forall b :: b in input.busySlots && b.staffMemberId == s.staffMemberId ==>
          b.endsAt <= s.startsAt || s.endsAt <= b.startsAt)
    && (forall e :: e in input.exceptions && Concerns(e, s.staffMemberId) ==> ClearOf(input, e, s))
  }

  lemma OfferedIsTheDeclaredSet(input: Input, s: Slot)
    ensures Offered(input, s) <==> Declared(input, s)
  {
    BlockVerdictMeaning(input.date, input.zone, input.exceptions, s);
    BusyMeaning(input.busySlots, s);
    forall e: Exception
      ensures Applies(e, s.staffMemberId) <==> Concerns(e, s.staffMemberId)
      ensures WellFormed(e.startTime, e.endTime) && !MeetsBlock(input.date, input.zone, s, e) <==> ClearOf(input, e, s)
    {
    }
    FitsIsCandidate(input, s);
    assert Offered(input, s) <==> input.CurrentDate() <= input.date && Bookable(input, s) && Candidate(input, s);
  }

  /** A grid point of some window. */
  ghost predicate Candidate(input: Input, s: Slot) {
    exists w, start :: w in Windows(input) && OnGrid(input.RequiredMinutes(), w, start) && s == input.SlotAt(w.staffMemberId, start)
  }

  lemma WholeHalfHours(n: int)
    ensures 30 * n % 30 == 0
  {
  }

  lemma FitIsAGridPoint(input: Input, w: Rule, halfHours: nat, s: Slot)
    requires FitsAfter(input, w.startTime, w.endTime, halfHours, s) && s.staffMemberId == w.staffMemberId
    ensures var start := MinutesSinceMidnight(w.startTime).value + 30 * halfHours;
            OnGrid(input.RequiredMinutes(), w, start) && s == input.SlotAt(w.staffMemberId, start)
  {
    WholeHalfHours(halfHours);
    var first := MinutesSinceMidnight(w.startTime).value;
    assert first + 30 * halfHours - first == 30 * halfHours;
  }

  lemma GridPointFits(input: Input, w: Rule, start: int)
    requires OnGrid(input.RequiredMinutes(), w, start)
    ensures exists halfHours :: FitsAfter(input, w.startTime, w.endTime, halfHours, input.SlotAt(w.staffMemberId, start))
  {
    var first := MinutesSinceMidnight(w.startTime).value;
    var halfHours: nat := (start - first) / 30;
    assert start == first + 30 * halfHours;
    assert FitsAfter(input, w.startTime, w.endTime, halfHours, input.SlotAt(w.staffMemberId, start));
  }

  lemma FitsIsCandidate(input: Input, s: Slot)
    ensures Fits(input, s) <==> Candidate(input, s)
  {
    if startTime, endTime, halfHours: nat :|
         Opened(input, s.staffMemberId, startTime, endTime) && FitsAfter(input, startTime, endTime, halfHours, s)
    {
      var w := Rule(s.staffMemberId, startTime, endTime);
      OpenedIsWindow(input, w);
      FitIsAGridPoint(input, w, halfHours, s);
    }
    if w, start :| w in Windows(input) && OnGrid(input.RequiredMinutes(), w, start) && s == input.SlotAt(w.staffMemberId, start) {
      OpenedIsWindow(input, w);
      GridPointFits(input, w, start);
      var halfHours :| FitsAfter(input, w.startTime, w.endTime, halfHours, s);
      assert Opened(input, s.staffMemberId, w.startTime, w.endTime);
    }
  }

  lemma OpenedIsWindow(input: Input, w: Rule)
    ensures w in Windows(input) <==> Opened(input, w.staffMemberId, w.startTime, w.endTime)
  {
    OpeningWindowsMembers(input.exceptions, input.activeStaffMemberIds, w);
    forall e: Exception
      ensures Opens(e, input.activeStaffMemberIds, w)
         <==> OpenedBy(e, input.activeStaffMemberIds, w.staffMemberId, w.startTime, w.endTime)
    {
    }
  }

  /** The block the search stops at is malformed, and it cleared every block before. */
  ghost predicate StopsAtMalformed(input: Input, s: Slot, i: nat) {
    && i < |input.exceptions| && Concerns(input.exceptions[i], s.staffMemberId)
    && (MinutesSinceMidnight(input.exceptions[i].startTime).Err? || MinutesSinceMidnight(input.exceptions[i].endTime).Err?)
    && forall j :: 0 <= j < i && Concerns(input.exceptions[j], s.staffMemberId) ==> ClearOf(input, input.exceptions[j], s)
  }

  lemma {:induction false} SearchThrows(input: Input, s: Slot, exceptions: seq<Exception>)
    requires exceptions == input.exceptions
    ensures BlockVerdict(input.date, input.zone, exceptions, s).Err? <==> exists i :: StopsAtMalformed(input, s, i)
    decreases |exceptions|
  {
    if exceptions != [] {
      var rest := input.(exceptions := exceptions[1..]);
      SearchThrows(rest, s, exceptions[1..]);
      FirstBlock(input, rest, s);
    }
  }

  lemma FirstBlock(input: Input, rest: Input, s: Slot)
    requires input.exceptions != [] && rest == input.(exceptions := input.exceptions[1..])
    requires BlockVerdict(rest.date, rest.zone, rest.exceptions, s).Err? <==> exists i :: StopsAtMalformed(rest, s, i)
    ensures BlockVerdict(input.date, input.zone, input.exceptions, s).Err? <==> exists i :: StopsAtMalformed(input, s, i)
  {
    var first := input.exceptions[0];
    if i: nat :| StopsAtMalformed(rest, s, i) && (Concerns(first, s.staffMemberId) ==> ClearOf(input, first, s)) {
      forall j | 0 <= j < i + 1 && Concerns(input.exceptions[j], s.staffMemberId)
        ensures ClearOf(input, input.exceptions[j], s)
      {
        assert j > 0 ==> ClearOf(rest, rest.exceptions[j - 1], s);
      }
      assert StopsAtMalformed(input, s, i + 1);
    }
    if i: nat :| StopsAtMalformed(input, s, i) {
      assert i > 0 ==> Concerns(first, s.staffMemberId) ==> ClearOf(input, first, s);
      if i > 0 {
        forall j | 0 <= j < i - 1 && Concerns(rest.exceptions[j], s.staffMemberId)
          ensures ClearOf(rest, rest.exceptions[j], s)
        {
          assert rest.exceptions[j] == input.exceptions[j + 1];
        }
        assert StopsAtMalformed(rest, s, i - 1);
      }
    }
    if Concerns(first, s.staffMemberId) && BlockVerdict(input.date, input.zone, input.exceptions, s).Err? {
      if !WellFormed(first.startTime, first.endTime) {
        assert StopsAtMalformed(input, s, 0);
      }
    }
  }

  /** Some opening is malformed, or the search of a candidate that is not past meets a malformed block. */
  ghost predicate DeclaredToThrow(input: Input) {
    && DateInTimeZone(input.zone, input.now) <= input.date
    && exists staff, startTime, endTime :: Opened(input, staff, startTime, endTime) && Malformed(input, staff, startTime, endTime)
  }

  lemma ThrowsIsDeclared(input: Input)
    ensures Throws(input) <==> DeclaredToThrow(input)
  {
    forall w: Rule
      ensures w in Windows(input) <==> Opened(input, w.staffMemberId, w.startTime, w.endTime)
      ensures input.CurrentDate() <= input.date ==>
                (ThrowsIn(input, w) <==> Malformed(input, w.staffMemberId, w.startTime, w.endTime))
    {
      OpenedIsWindow(input, w);
      if input.CurrentDate() <= input.date {
        ThrowsInIsMalformed(input, w);
      }
    }
    if Throws(input) {
      var w :| w in Windows(input) && ThrowsIn(input, w);
      assert Opened(input, w.staffMemberId, w.startTime, w.endTime);
    }
    if staff, startTime, endTime :| Opened(input, staff, startTime, endTime) && Malformed(input, staff, startTime, endTime) {
      var w := Rule(staff, startTime, endTime);
      assert Opened(input, w.staffMemberId, w.startTime, w.endTime);
    }
  }

  ghost predicate Malformed(input: Input, staff: int, startTime: string, endTime: string) {
    || MinutesSinceMidnight(startTime).Err? || MinutesSinceMidnight(endTime).Err?
    || exists s: Slot, halfHours, i :: StopsThere(input, staff, startTime, endTime, s, halfHours, i)
  }

  ghost predicate StopsThere(
    input: Input, staff: int, startTime: string, endTime: string, s: Slot, halfHours: nat, i: nat)
  {
    && s.staffMemberId == staff && FitsAfter(input, startTime, endTime, halfHours, s)
    && NotPast(input, s) && StopsAtMalformed(input, s, i)
  }

  lemma ThrowsInIsMalformed(input: Input, w: Rule)
    requires input.CurrentDate() <= input.date
    ensures ThrowsIn(input, w) <==> Malformed(input, w.staffMemberId, w.startTime, w.endTime)
  {
    if start :| WellFormed(w.startTime, w.endTime) && ThrowsAt(input, w, start) {
      ThrowingCandidate(input, w, start);
    }
    if s: Slot, halfHours: nat, i: nat :| StopsThere(input, w.staffMemberId, w.startTime, w.endTime, s, halfHours, i) {
      MalformedCandidate(input, w, s, halfHours, i);
    }
  }

  lemma ThrowingCandidate(input: Input, w: Rule, start: int)
    requires input.CurrentDate() <= input.date && ThrowsAt(input, w, start)
    ensures exists s: Slot, halfHours, i :: StopsThere(input, w.staffMemberId, w.startTime, w.endTime, s, halfHours, i)
  {
    var s := input.SlotAt(w.staffMemberId, start);
    SearchThrows(input, s, input.exceptions);
    var i :| StopsAtMalformed(input, s, i);
    GridPointFits(input, w, start);
    var halfHours :| FitsAfter(input, w.startTime, w.endTime, halfHours, s);
    assert StopsThere(input, w.staffMemberId, w.startTime, w.endTime, s, halfHours, i);
  }

  lemma MalformedCandidate(input: Input, w: Rule, s: Slot, halfHours: nat, i: nat)
    requires StopsThere(input, w.staffMemberId, w.startTime, w.endTime, s, halfHours, i)
    ensures exists start :: ThrowsAt(input, w, start)
  {
    SearchThrows(input, s, input.exceptions);
    FitIsAGridPoint(input, w, halfHours, s);
    assert ThrowsAt(input, w, MinutesSinceMidnight(w.startTime).value + 30 * halfHours);
  }

  lemma BusyMeaning(busySlots: seq<BusySlot>, s: Slot)
    ensures !MeetsBusy(busySlots, s) <==>
            forall b :: b in busySlots && b.staffMemberId == s.staffMemberId ==> b.endsAt <= s.startsAt || s.endsAt <= b.startsAt
  {
  }

  // ---------------------------------------------------------------- sorting

  predicate Precedes(x: Slot, y: Slot) {
    x.startsAt < y.startsAt || (x.startsAt == y.startsAt && x.staffMemberId <= y.staffMemberId)
  }

  ghost predicate Sorted(slots: seq<Slot>) {
    forall i, j :: 0 <= i < j < |slots| ==> Precedes(slots[i], slots[j])
  }

  ghost predicate NoDuplicates<T>(s: seq<T>) {
    forall i, j :: 0 <= i < j < |s| ==> s[i] != s[j]
  }

  function InsertSlot(slots: seq<Slot>, x: Slot): (r: seq<Slot>)
    ensures forall y :: y in r <==> y == x || y in slots
    ensures |r| == |slots| + 1
  {
    if slots == [] then [x]
    else if Precedes(slots[|slots| - 1], x) then slots + [x]
    else
      var last := slots[|slots| - 1];
      assert slots == slots[..|slots| - 1] + [last];
      InsertSlot(slots[..|slots| - 1], x) + [last]
  }

  lemma {:induction false} InsertSlotKeepsOrder(slots: seq<Slot>, x: Slot)
    requires Sorted(slots)
    ensures Sorted(InsertSlot(slots, x))
    ensures NoDuplicates(slots) && x !in slots ==> NoDuplicates(InsertSlot(slots, x))
  {
    if slots == [] {
    } else if Precedes(slots[|slots| - 1], x) {
      assert NoDuplicates(slots) && x !in slots ==> NoDuplicates(slots + [x]);
    } else {
      var front, last := slots[..|slots| - 1], slots[|slots| - 1];
      InsertSlotKeepsOrder(front, x);
      assert forall y :: y in InsertSlot(front, x) ==> Precedes(y, last);
      if NoDuplicates(slots) && x !in slots {
        assert last !in front && last != x;
        assert NoDuplicates(InsertSlot(front, x) + [last]);
      }
    }
  }

  /** The stable sort of the runtime. */
  function SortSlots(slots: seq<Slot>): (r: seq<Slot>)
    ensures forall y :: y in r <==> y in slots
  {
    if slots == [] then []
    else
      assert slots == slots[..|slots| - 1] + [slots[|slots| - 1]];
      InsertSlot(SortSlots(slots[..|slots| - 1]), slots[|slots| - 1])
  }

  lemma {:induction false} SortSlotsSorts(slots: seq<Slot>)
    ensures Sorted(SortSlots(slots))
    ensures NoDuplicates(slots) ==> NoDuplicates(SortSlots(slots))
  {
    if slots != [] {
      var front, last := slots[..|slots| - 1], slots[|slots| - 1];
      SortSlotsSorts(front);
      InsertSlotKeepsOrder(SortSlots(front), last);
      if NoDuplicates(slots) {
        assert forall i :: 0 <= i < |front| ==> front[i] == slots[i] != last;
      }
    }
  }

  // ---------------------------------------------------------------- the generator

  /**
   Returns exactly the declared slots, sorted and free of duplicates, or throws exactly when some
   time it has to read is malformed.
   */
  method CalculateAvailability(input: Input) returns (r: Result<seq<Slot>, ClockError>)
    ensures r.Ok? ==> forall s :: s in r.value <==> Declared(input, s)
    ensures r.Ok? ==> NoDuplicates(r.value)
    ensures r.Ok? ==> forall i, j :: 0 <= i < j < |r.value| ==>
              r.value[i].startsAt < r.value[j].startsAt
              || (r.value[i].startsAt == r.value[j].startsAt && r.value[i].staffMemberId <= r.value[j].staffMemberId)
    ensures r.Err? <==> DeclaredToThrow(input)
    ensures r.Ok? ==> Sorted(r.value) && forall s :: s in r.value <==> Offered(input, s)
    ensures r.Err? <==> Throws(input)
  {
    r := Generate(input);
    forall s
      ensures Offered(input, s) <==> Declared(input, s)
    {
      OfferedIsTheDeclaredSet(input, s);
    }
    ThrowsIsDeclared(input);
  }

  /** The loops. */
  method Generate(input: Input) returns (r: Result<seq<Slot>, ClockError>)
    ensures r.Ok? ==> forall s :: s in r.value <==> Offered(input, s)
    ensures r.Ok? ==> Sorted(r.value) && NoDuplicates(r.value)
    ensures r.Err? <==> Throws(input)
  {
    if input.date < input.CurrentDate() {
      return Ok([]);
    }
    var slots: seq<Slot> := [];
    var windows := Windows(input);
    for i := 0 to |windows|
      invariant forall s :: s in slots <==> exists j :: 0 <= j < i && OfferedIn(input, windows[j], s)
      invariant forall j :: 0 <= j < i ==> !ThrowsIn(input, windows[j])
      invariant NoDuplicates(slots)
    {
      var w := windows[i];
      if !WellFormed(w.startTime, w.endTime) {
        assert ThrowsIn(input, w) && w in Windows(input);
        return Err(NotHHmm);
      }
      ghost var before := slots;
      var fits := WindowSlots(input, w, slots);
      if fits.Err? {
        assert ThrowsIn(input, w) && w in Windows(input);
        return Err(NotHHmm);
      }
      slots := fits.value;
      forall s
        ensures s in slots <==> exists j :: 0 <= j < i + 1 && OfferedIn(input, windows[j], s)
      {
        if j :| 0 <= j < i + 1 && OfferedIn(input, windows[j], s) {
          assert j < i || windows[j] == w;
        }
        if OfferedIn(input, w, s) {
          assert OfferedIn(input, windows[i], s);
        }
        if s in before {
          var j :| 0 <= j < i && OfferedIn(input, windows[j], s);
          assert 0 <= j < i + 1;
        }
      }
    }
    SortSlotsSorts(slots);
    r := Ok(SortSlots(slots));
    forall s
      ensures s in slots <==> Offered(input, s)
    {
      if w :| w in windows && OfferedIn(input, w, s) {
        var j :| 0 <= j < |windows| && windows[j] == w;
        assert OfferedIn(input, windows[j], s);
      }
    }
    forall w | w in windows
      ensures !ThrowsIn(input, w)
    {
      var j :| 0 <= j < |windows| && windows[j] == w;
    }
  }

  /** The inner loop: adds the offered slots of one window to those already found. */
  method WindowSlots(input: Input, w: Rule, found: seq<Slot>) returns (r: Result<seq<Slot>, ClockError>)
    requires WellFormed(w.startTime, w.endTime)
    requires NoDuplicates(found)
    ensures r.Ok? ==> forall s :: s in r.value <==> s in found || OfferedIn(input, w, s)
    ensures r.Ok? ==> NoDuplicates(r.value)
    ensures r.Err? <==> exists start :: ThrowsAt(input, w, start)
  {
    var slots, required := found, input.RequiredMinutes();
    var windowStart, windowEnd := MinutesSinceMidnight(w.startTime).value, MinutesSinceMidnight(w.endTime).value;
    var start := windowStart;
    while start + required <= windowEnd
      invariant windowStart <= start && (start - windowStart) % SLOT_STEP_MINUTES == 0
      invariant NoDuplicates(slots)
      invariant FoundSoFar(input, w, found, start, slots)
      decreases windowEnd - required - start
    {
      var added := TryStart(input, w, start, slots);
      if added.Err? {
        return added;
      }
      NextFound(input, w, found, start, slots, added.value);
      slots := added.value;
      start := start + SLOT_STEP_MINUTES;
    }
    GridEnds(input, w, start);
    r := Ok(slots);
  }

  /** The loop has added the slots of the grid points before start, none of which threw. */
  ghost predicate FoundSoFar(input: Input, w: Rule, found: seq<Slot>, start: int, slots: seq<Slot>) {
    && (forall s :: s in slots <==> s in found || OfferedBefore(input, w, start, s))
    && (forall t :: t < start ==> !ThrowsAt(input, w, t))
  }

  lemma NextFound(input: Input, w: Rule, found: seq<Slot>, start: int, slots: seq<Slot>, next: seq<Slot>)
    requires OnGrid(input.RequiredMinutes(), w, start) && FoundSoFar(input, w, found, start, slots)
    requires !ThrowsAt(input, w, start)
    requires forall s :: s in next <==> s in slots || (s == input.SlotAt(w.staffMemberId, start) && Bookable(input, s))
    ensures FoundSoFar(input, w, found, start + SLOT_STEP_MINUTES, next)
  {
    NextGridPoint(input, w, start);
  }

  /** The body of the inner loop; it skips past candidates, blocked ones and busy ones. */
  method TryStart(input: Input, w: Rule, start: int, slots: seq<Slot>) returns (r: Result<seq<Slot>, ClockError>)
    requires OnGrid(input.RequiredMinutes(), w, start) && NoDuplicates(slots)
    ensures r.Err? <==> ThrowsAt(input, w, start)
    ensures r.Ok? ==> NoDuplicates(r.value)
    ensures r.Ok? ==> forall s :: s in r.value <==>
                        s in slots || (s == input.SlotAt(w.staffMemberId, start) && Bookable(input, s))
  {
    var slot := input.SlotAt(w.staffMemberId, start);
    if Past(input, slot) {
      return Ok(slots);
    }
    var verdict := BlockVerdict(input.date, input.zone, input.exceptions, slot);
    if verdict.Err? {
      return Err(NotHHmm);
    }
    if !MeetsBusy(input.busySlots, slot) && !verdict.value {
      return Ok(AddToMap(slots, slot));
    }
    return Ok(slots);
  }

  /** Setting a key of the map: its value is its key, so a second set changes nothing. */
  function AddToMap(slots: seq<Slot>, slot: Slot): (r: seq<Slot>)
    ensures forall s :: s in r <==> s in slots || s == slot
    ensures NoDuplicates(slots) ==> NoDuplicates(r)
  {
    if slot in slots then slots else slots + [slot]
  }

  ghost predicate OfferedBefore(input: Input, w: Rule, limit: int, s: Slot) {
    exists start ::
      OnGrid(input.RequiredMinutes(), w, start) && start < limit && s == input.SlotAt(w.staffMemberId, start) && Bookable(input, s)
  }

  lemma GridEnds(input: Input, w: Rule, start: int)
    requires WellFormed(w.startTime, w.endTime)
    requires start + input.RequiredMinutes() > MinutesSinceMidnight(w.endTime).value
    ensures forall s :: OfferedIn(input, w, s) <==> OfferedBefore(input, w, start, s)
    ensures (forall t :: t < start ==> !ThrowsAt(input, w, t)) ==> forall t :: !ThrowsAt(input, w, t)
  {
    assert forall t :: OnGrid(input.RequiredMinutes(), w, t) ==> t < start;
  }

  /** One step of the grid adds the candidate at start and no other. */
  lemma NextGridPoint(input: Input, w: Rule, start: int)
    requires OnGrid(input.RequiredMinutes(), w, start)
    ensures forall s :: OfferedBefore(input, w, start + SLOT_STEP_MINUTES, s) <==>
              || OfferedBefore(input, w, start, s)
              || (s == input.SlotAt(w.staffMemberId, start) && Bookable(input, s))
    ensures (forall t :: t < start ==> !ThrowsAt(input, w, t)) && !ThrowsAt(input, w, start)
        ==> forall t :: t < start + SLOT_STEP_MINUTES ==> !ThrowsAt(input, w, t)
  {
    var first := MinutesSinceMidnight(w.startTime).value;
    forall t | OnGrid(input.RequiredMinutes(), w, t) && t < start + SLOT_STEP_MINUTES
      ensures t <= start
    {
      var a, b := (t - first) / 30, (start - first) / 30;
      assert t - first == 30 * a && start - first == 30 * b;
    }
  }

  // ---------------------------------------------------------------- days with one offset

  lemma OfferedWithinTheDay(input: Input, s: Slot, o: int)
    requires Offered(input, s) && SteadyDay(input.zone, input.date, o) && 0 <= input.RequiredMinutes()
    ensures DayStart(input.date, input.zone) <= s.startsAt
    ensures s.endsAt == s.startsAt + input.RequiredMinutes() * MINUTE
    ensures s.endsAt <= DayEnd(input.date, input.zone)
  {
    var w :| w in Windows(input) && OfferedIn(input, w, s);
    var start :| OnGrid(input.RequiredMinutes(), w, start) && s == input.SlotAt(w.staffMemberId, start);
    ClockRoundTrip(w.startTime, MinutesSinceMidnight(w.startTime).value);
    ClockRoundTrip(w.endTime, MinutesSinceMidnight(w.endTime).value);
    var stop := start + input.RequiredMinutes();
    assert 0 <= start < 1440 && 0 <= stop < 1440;
    assert DateAtZonedMinutes(input.date, 0, input.zone) == input.date * DAY - o;
  }

  /** Then the answer is strictly sorted by start and staff member, whatever windows overlap. */
  lemma StrictlySorted(input: Input, slots: seq<Slot>, o: int)
    requires SteadyDay(input.zone, input.date, o) && 0 <= input.RequiredMinutes()
    requires forall s :: s in slots ==> Offered(input, s)
    requires Sorted(slots) && NoDuplicates(slots)
    ensures forall i, j :: 0 <= i < j < |slots| ==>
              slots[i].startsAt < slots[j].startsAt
              || (slots[i].startsAt == slots[j].startsAt && slots[i].staffMemberId < slots[j].staffMemberId)
  {
    forall i, j | 0 <= i < j < |slots|
      ensures slots[i].startsAt < slots[j].startsAt
              || (slots[i].startsAt == slots[j].startsAt && slots[i].staffMemberId < slots[j].staffMemberId)
    {
      assert Precedes(slots[i], slots[j]) && slots[i] != slots[j];
      OfferedWithinTheDay(input, slots[i], o);
      OfferedWithinTheDay(input, slots[j], o);
    }
  }

  predicate MeetsDay(b: BusySlot, date: Date, zone: Zone) {
    b.startsAt < DayEnd(date, zone) && b.endsAt > DayStart(date, zone)
  }

  lemma WindowFrame(from: Input, to: Input, w: Rule, s: Slot)
    requires to == from.(busySlots := to.busySlots)
    requires OfferedIn(from, w, s) && !MeetsBusy(to.busySlots, s)
    ensures OfferedIn(to, w, s)
  {
    BookableFrame(from, to, s);
    var start :| OnGrid(from.RequiredMinutes(), w, start) && s == from.SlotAt(w.staffMemberId, start) && Bookable(from, s);
    CandidateFrame(from, to, w, start);
  }

  lemma CandidateFrame(from: Input, to: Input, w: Rule, start: int)
    requires to == from.(busySlots := to.busySlots)
    ensures to.SlotAt(w.staffMemberId, start) == from.SlotAt(w.staffMemberId, start)
    ensures OnGrid(from.RequiredMinutes(), w, start) ==> OnGrid(to.RequiredMinutes(), w, start)
  {
  }

  lemma BookableFrame(from: Input, to: Input, s: Slot)
    requires to == from.(busySlots := to.busySlots)
    ensures Bookable(from, s) && !MeetsBusy(to.busySlots, s) ==> Bookable(to, s)
  {
  }

  lemma OfferedFrame(from: Input, to: Input, s: Slot)
    requires to == from.(busySlots := to.busySlots)
    requires Offered(from, s) && !MeetsBusy(to.busySlots, s)
    ensures Offered(to, s)
  {
    var w :| w in Windows(from) && OfferedIn(from, w, s);
    WindowFrame(from, to, w, s);
    assert w in Windows(to);
  }

  /** Busy intervals only ever remove the slots they meet. */
  lemma OfferedSplits(input: Input, s: Slot)
    ensures Offered(input, s) <==> Offered(input.(busySlots := []), s) && !MeetsBusy(input.busySlots, s)
  {
    if Offered(input, s) {
      OfferedFrame(input, input.(busySlots := []), s);
    }
    if Offered(input.(busySlots := []), s) && !MeetsBusy(input.busySlots, s) {
      OfferedFrame(input.(busySlots := []), input, s);
    }
  }

  /** Loading only the busy intervals that meet the day's bounds offers the same slots as loading all. */
  lemma DayBoundsLoadEnough(all: Input, loaded: Input, s: Slot, o: int)
    requires loaded == all.(busySlots := loaded.busySlots)
    requires forall b :: b in loaded.busySlots <==> b in all.busySlots && MeetsDay(b, all.date, all.zone)
    requires SteadyDay(all.zone, all.date, o) && 0 <= all.RequiredMinutes()
    ensures Offered(all, s) <==> Offered(loaded, s)
  {
    var empty := all.(busySlots := []);
    OfferedSplits(all, s);
    OfferedSplits(loaded, s);
    assert empty == loaded.(busySlots := []);
    if Offered(empty, s) {
      OfferedWithinTheDay(empty, s, o);
      if i :| 0 <= i < |all.busySlots| && all.busySlots[i].staffMemberId == s.staffMemberId
              && Overlap(s.startsAt, s.endsAt, all.busySlots[i].startsAt, all.busySlots[i].endsAt)
      {
        assert all.busySlots[i] in loaded.busySlots;
      }
      if j :| 0 <= j < |loaded.busySlots| && loaded.busySlots[j].staffMemberId == s.staffMemberId
              && Overlap(s.startsAt, s.endsAt, loaded.busySlots[j].startsAt, loaded.busySlots[j].endsAt)
      {
        assert loaded.busySlots[j] in all.busySlots;
      }
    }
  }
}
