/**
 Cached daily totals and the sums the dashboard makes of them
 (repository.go:686-761; dashboard.service.ts:65-66, 213-267, 368-438, 567-587).

 Days are day numbers in UTC; price and duration are those of the service an appointment names.
 */
module Metrics {
  import opened Tables

  datatype Summary = Summary(
    total: int, active: int, completed: int, cancelled: int, noShow: int, revenue: int, lost: int)

  const ZERO := Summary(0, 0, 0, 0, 0, 0, 0)

  /** The columns of a summary. */
  datatype Part = AllCount | ActiveCount | CompletedCount | CancelledCount | NoShowCount | Revenue | LostRevenue

  function Get(s: Summary, p: Part): int {
    match p
    case AllCount => s.total
    case ActiveCount => s.active
    case CompletedCount => s.completed
    case CancelledCount => s.cancelled
    case NoShowCount => s.noShow
    case Revenue => s.revenue
    case LostRevenue => s.lost
  }

  lemma SameParts(a: Summary, b: Summary)
    requires forall p: Part :: Get(a, p) == Get(b, p)
    ensures a == b
  {
    assert Get(a, AllCount) == Get(b, AllCount) && Get(a, ActiveCount) == Get(b, ActiveCount);
    assert Get(a, CompletedCount) == Get(b, CompletedCount);
    assert Get(a, CancelledCount) == Get(b, CancelledCount) && Get(a, NoShowCount) == Get(b, NoShowCount);
    assert Get(a, Revenue) == Get(b, Revenue) && Get(a, LostRevenue) == Get(b, LostRevenue);
  }

  predicate IsCancelled(a: Appointment) {
    a.status.CancelledByCustomer? || a.status.CancelledByBusiness?
  }

  function Indicator(b: bool): int {
    if b then 1 else 0
  }

  /** The term each column of the recalculation query counts or sums. */
  function Term(price: int -> int, p: Part, a: Appointment): int {
    match p
    case AllCount => 1
    case ActiveCount => Indicator(a.status.Pending? || a.status.Confirmed?)
    case CompletedCount => Indicator(a.status.Completed?)
    case CancelledCount => Indicator(IsCancelled(a))
    case NoShowCount => Indicator(a.status.NoShow?)
    case Revenue => if IsCancelled(a) then 0 else price(a.serviceId)
    case LostRevenue => if a.status.NoShow? then price(a.serviceId) else 0
  }

  function Column(price: int -> int, p: Part, appointments: seq<Appointment>): int {
    if appointments == [] then 0
    else Column(price, p, appointments[..|appointments| - 1]) + Term(price, p, appointments[|appointments| - 1])
  }

  /** What the query selects for a set of appointments. */
  function Aggregate(price: int -> int, appointments: seq<Appointment>): (s: Summary)
    ensures forall p: Part :: Get(s, p) == Column(price, p, appointments)
  {
    Summary(Column(price, AllCount, appointments), Column(price, ActiveCount, appointments),
            Column(price, CompletedCount, appointments), Column(price, CancelledCount, appointments),
            Column(price, NoShowCount, appointments),
            Column(price, Revenue, appointments), Column(price, LostRevenue, appointments))
  }

  /** WHERE starts_at >= from AND starts_at < to. */
  function InRange(appointments: seq<Appointment>, from: int, to: int): seq<Appointment> {
    if appointments == [] then []
    else
      var last := |appointments| - 1;
      InRange(appointments[..last], from, to) + if from <= appointments[last].startsAt < to then [appointments[last]] else []
  }

  function InDays(appointments: seq<Appointment>, first: int, end: int): seq<Appointment> {
    InRange(appointments, first * 86_400_000, end * 86_400_000)
  }

  function OnDay(appointments: seq<Appointment>, day: int): seq<Appointment> {
    InDays(appointments, day, day + 1)
  }

  /** The month's rows in date order. */
  function RowsBetween(rows: map<int, Summary>, first: int, end: int): seq<Summary>
    decreases end - first
  {
    if end <= first then []
    else RowsBetween(rows, first, end - 1) + if end - 1 in rows then [rows[end - 1]] else []
  }

  function RowsColumn(p: Part, rows: seq<Summary>): int {
    if rows == [] then 0 else RowsColumn(p, rows[..|rows| - 1]) + Get(rows[|rows| - 1], p)
  }

  function AfterRecalculation(
    price: int -> int, appointments: seq<Appointment>, rows: map<int, Summary>, day: int): map<int, Summary>
  {
    if OnDay(appointments, day) == [] then rows else rows[day := Aggregate(price, OnDay(appointments, day))]
  }

  /** A day's row is what a recalculation now would find, and an empty day has none. */
  predicate Fresh(price: int -> int, appointments: seq<Appointment>, rows: map<int, Summary>, day: int) {
    if day in rows then rows[day] == Aggregate(price, OnDay(appointments, day)) else OnDay(appointments, day) == []
  }

  // ---------------------------------------------------------------- the loops

  method SumDailyMetrics(rows: seq<Summary>) returns (sum: Summary)
    ensures forall p: Part :: Get(sum, p) == RowsColumn(p, rows)
  {
    sum := ZERO;
    var k := 0;
    while k < |rows|
      invariant 0 <= k <= |rows|
      invariant forall p: Part :: Get(sum, p) == RowsColumn(p, rows[..k])
    {
      assert rows[..k + 1][..k] == rows[..k];
      var day := rows[k];
      sum := Summary(sum.total + day.total, sum.active + day.active, sum.completed + day.completed,
                     sum.cancelled + day.cancelled, sum.noShow + day.noShow, sum.revenue + day.revenue, sum.lost + day.lost);
      k := k + 1;
    }
    assert rows[..|rows|] == rows;
  }

  method SumMetricsFromAppointments(price: int -> int, appointments: seq<Appointment>) returns (sum: Summary)
    ensures sum == Aggregate(price, appointments)
  {
    sum := ZERO;
    var k := 0;
    while k < |appointments|
      invariant 0 <= k <= |appointments|
      invariant forall p: Part :: Get(sum, p) == Column(price, p, appointments[..k])
    {
      assert appointments[..k + 1][..k] == appointments[..k];
      var a := appointments[k];
      var isCancelled := a.status.CancelledByBusiness? || a.status.CancelledByCustomer?;
      var isActive := a.status.Confirmed? || a.status.Pending?;
      var isCompleted := a.status.Completed?;
      var isNoShow := a.status.NoShow?;
      sum := Summary(sum.total + 1,
                     sum.active + (if isActive then 1 else 0),
                     sum.completed + (if isCompleted then 1 else 0),
                     sum.cancelled + (if isCancelled then 1 else 0),
                     sum.noShow + (if isNoShow then 1 else 0),
                     sum.revenue + (if !isCancelled then price(a.serviceId) else 0),
                     sum.lost + (if isNoShow then price(a.serviceId) else 0));
      k := k + 1;
    }
    assert appointments[..|appointments|] == appointments;
    SameParts(sum, Aggregate(price, appointments));
  }

  /** The dashboard's month: the cached rows if there is any, the appointments themselves if not. */
  method MonthlySummary(
    price: int -> int, appointments: seq<Appointment>, rows: map<int, Summary>, first: int, end: int)
    returns (sum: Summary)
    ensures if RowsBetween(rows, first, end) != [] then IsSum(sum, RowsBetween(rows, first, end))
            else sum == Aggregate(price, InDays(appointments, first, end))
    ensures first <= end && (forall d :: first <= d < end ==> Fresh(price, appointments, rows, d)) ==>
              sum == Aggregate(price, InDays(appointments, first, end))
  {
    if |RowsBetween(rows, first, end)| > 0 {
      sum := SumDailyMetrics(RowsBetween(rows, first, end));
      FreshRowsGiveTheMonth(price, appointments, rows, first, end, sum);
    } else {
      sum := SumMetricsFromAppointments(price, InDays(appointments, first, end));
    }
  }

  ghost predicate IsSum(sum: Summary, rows: seq<Summary>) {
    forall p: Part :: Get(sum, p) == RowsColumn(p, rows)
  }

  class DailyMetrics {
    var rows: map<int, Summary>

    constructor ()
      ensures rows == map[]
    {
      rows := map[];
    }

    /** The query groups by business, so a day without appointments yields no row to write. */
    method Recalculate(price: int -> int, appointments: seq<Appointment>, day: int) returns (snapshot: Summary)
      modifies this
      ensures rows == AfterRecalculation(price, appointments, old(rows), day)
      ensures snapshot == Aggregate(price, OnDay(appointments, day))
    {
      var source := OnDay(appointments, day);
      if |source| == 0 {
        return ZERO;
      }
      snapshot := Aggregate(price, source);
      rows := rows[day := snapshot];
    }
  }

  // ---------------------------------------------------------------- the month from its days

  lemma AddOne(price: int -> int, p: Part, before: seq<Appointment>, a: Appointment)
    ensures Column(price, p, before + [a]) == Column(price, p, before) + Term(price, p, a)
  {
    assert (before + [a])[..|before|] == before;
  }

  lemma {:induction false} SplitRange(
    price: int -> int, p: Part, appointments: seq<Appointment>, from: int, middle: int, to: int)
    requires from <= middle <= to
    ensures Column(price, p, InRange(appointments, from, to))
         == Column(price, p, InRange(appointments, from, middle)) + Column(price, p, InRange(appointments, middle, to))
  {
    if appointments != [] {
      SplitRange(price, p, appointments[..|appointments| - 1], from, middle, to);
      OneMoreInRange(price, p, appointments, from, to);
      OneMoreInRange(price, p, appointments, from, middle);
      OneMoreInRange(price, p, appointments, middle, to);
    }
  }

  lemma OneMoreInRange(price: int -> int, p: Part, appointments: seq<Appointment>, from: int, to: int)
    requires appointments != []
    ensures var last := |appointments| - 1;
      Column(price, p, InRange(appointments, from, to))
      == Column(price, p, InRange(appointments[..last], from, to))
         + (if from <= appointments[last].startsAt < to then Term(price, p, appointments[last]) else 0)
  {
    var front, a := appointments[..|appointments| - 1], appointments[|appointments| - 1];
    var before := InRange(front, from, to);
    if from <= a.startsAt < to {
      assert InRange(appointments, from, to) == before + [a];
      AddOne(price, p, before, a);
    } else {
      assert InRange(appointments, from, to) == before;
    }
  }

  lemma {:induction false} EmptyRange(appointments: seq<Appointment>, at: int)
    ensures InRange(appointments, at, at) == []
  {
    if appointments != [] {
      EmptyRange(appointments[..|appointments| - 1], at);
    }
  }

  function RowPart(rows: map<int, Summary>, day: int, p: Part): int {
    if day in rows then Get(rows[day], p) else 0
  }

  lemma SumOneMore(p: Part, rows: map<int, Summary>, first: int, end: int)
    requires first < end
    ensures RowsColumn(p, RowsBetween(rows, first, end)) == RowsColumn(p, RowsBetween(rows, first, end - 1)) + RowPart(rows, end - 1, p)
  {
    var before := RowsBetween(rows, first, end - 1);
    if end - 1 in rows {
      assert RowsBetween(rows, first, end) == before + [rows[end - 1]];
      assert (before + [rows[end - 1]])[..|before|] == before;
    } else {
      assert RowsBetween(rows, first, end) == before;
    }
  }

  /** With every day but one fresh, the rows are off by what that day is off. */
  lemma {:induction false} OneStaleDay(
    price: int -> int, p: Part, appointments: seq<Appointment>, rows: map<int, Summary>, first: int, end: int, day: int)
    requires first <= end && forall d :: first <= d < end && d != day ==> Fresh(price, appointments, rows, d)
    ensures RowsColumn(p, RowsBetween(rows, first, end)) - Column(price, p, InDays(appointments, first, end))
         == if first <= day < end then RowPart(rows, day, p) - Column(price, p, OnDay(appointments, day)) else 0
    decreases end - first
  {
    if first == end {
      EmptyRange(appointments, first * 86_400_000);
    } else {
      OneStaleDay(price, p, appointments, rows, first, end - 1, day);
      SumOneMore(p, rows, first, end);
      SplitRange(price, p, appointments, first * 86_400_000, (end - 1) * 86_400_000, end * 86_400_000);
      if end - 1 != day {
        assert Fresh(price, appointments, rows, end - 1);
        assert RowPart(rows, end - 1, p) == Column(price, p, OnDay(appointments, end - 1));
      }
    }
  }

  /** With every day fresh, the sum of the month's rows is the sum over the month's appointments. */
  lemma RowsSumToTheMonth(
    price: int -> int, appointments: seq<Appointment>, rows: map<int, Summary>, first: int, end: int, sum: Summary)
    requires first <= end && forall d :: first <= d < end ==> Fresh(price, appointments, rows, d)
    requires IsSum(sum, RowsBetween(rows, first, end))
    ensures sum == Aggregate(price, InDays(appointments, first, end))
  {
    forall p: Part
      ensures Get(sum, p) == Get(Aggregate(price, InDays(appointments, first, end)), p)
    {
      OneStaleDay(price, p, appointments, rows, first, end, end);
    }
    SameParts(sum, Aggregate(price, InDays(appointments, first, end)));
  }

  lemma FreshRowsGiveTheMonth(
    price: int -> int, appointments: seq<Appointment>, rows: map<int, Summary>, first: int, end: int, sum: Summary)
    requires IsSum(sum, RowsBetween(rows, first, end))
    ensures first <= end && (forall d :: first <= d < end ==> Fresh(price, appointments, rows, d)) ==>
              sum == Aggregate(price, InDays(appointments, first, end))
  {
    if first <= end && forall d :: first <= d < end ==> Fresh(price, appointments, rows, d) {
      RowsSumToTheMonth(price, appointments, rows, first, end, sum);
    }
  }

  /** A single stale day always shows: the sum of otherwise fresh rows is right only if that day's row is too. */
  lemma AStaleDayShows(
    price: int -> int, appointments: seq<Appointment>, rows: map<int, Summary>, first: int, end: int, day: int, sum: Summary)
    requires first <= day < end && forall d :: first <= d < end && d != day ==> Fresh(price, appointments, rows, d)
    requires IsSum(sum, RowsBetween(rows, first, end)) && (day in rows ==> rows[day].total > 0)
    ensures sum == Aggregate(price, InDays(appointments, first, end)) <==> Fresh(price, appointments, rows, day)
  {
    var month, today := Aggregate(price, InDays(appointments, first, end)), Aggregate(price, OnDay(appointments, day));
    forall p: Part
      ensures Get(sum, p) - Get(month, p) == RowPart(rows, day, p) - Get(today, p)
    {
      OneStaleDay(price, p, appointments, rows, first, end, day);
    }
    if sum == month {
      assert Get(sum, AllCount) - Get(month, AllCount) == RowPart(rows, day, AllCount) - Get(today, AllCount);
      ColumnAll(price, OnDay(appointments, day));
      if day in rows {
        forall p: Part
          ensures Get(rows[day], p) == Get(today, p)
        {
          assert Get(sum, p) - Get(month, p) == RowPart(rows, day, p) - Get(today, p);
        }
        SameParts(rows[day], today);
      }
    } else if Fresh(price, appointments, rows, day) {
      forall p: Part
        ensures Get(sum, p) == Get(month, p)
      {
        assert Get(sum, p) - Get(month, p) == RowPart(rows, day, p) - Get(today, p);
      }
      SameParts(sum, month);
    }
  }

  lemma {:induction false} ColumnAll(price: int -> int, appointments: seq<Appointment>)
    ensures Column(price, AllCount, appointments) == |appointments|
  {
    if appointments != [] {
      ColumnAll(price, appointments[..|appointments| - 1]);
    }
  }

  lemma {:induction false} EveryStatusIsCounted(price: int -> int, appointments: seq<Appointment>)
    ensures var s := Aggregate(price, appointments); s.total == s.active + s.completed + s.cancelled + s.noShow
  {
    if appointments != [] {
      EveryStatusIsCounted(price, appointments[..|appointments| - 1]);
    }
  }

  // ---------------------------------------------------------------- keeping rows fresh

  /** A recalculation refreshes its day unless the day has become empty and still has a row. */
  lemma RecalculationRefreshesIff(price: int -> int, appointments: seq<Appointment>, rows: map<int, Summary>, day: int)
    requires day in rows ==> rows[day].total > 0
    ensures Fresh(price, appointments, AfterRecalculation(price, appointments, rows, day), day)
       <==> OnDay(appointments, day) != [] || day !in rows
  {
  }

  lemma {:induction false} UpdateOneSize(appointments: seq<Appointment>, k: nat, a: Appointment, day: int)
    requires k < |appointments|
    ensures |OnDay(appointments[k := a], day)| - |OnDay(appointments, day)|
         == (if StartsOn(a, day) then 1 else 0) - (if StartsOn(appointments[k], day) then 1 else 0)
    ensures !StartsOn(a, day) && !StartsOn(appointments[k], day) ==> OnDay(appointments[k := a], day) == OnDay(appointments, day)
  {
    var last := |appointments| - 1;
    if k < last {
      UpdateOneSize(appointments[..last], k, a, day);
      assert appointments[k := a][..last] == appointments[..last][k := a];
    } else {
      assert appointments[k := a][..last] == appointments[..last];
    }
  }

  predicate StartsOn(a: Appointment, day: int) {
    day * 86_400_000 <= a.startsAt < (day + 1) * 86_400_000
  }

  ghost predicate AllFresh(price: int -> int, appointments: seq<Appointment>, rows: map<int, Summary>) {
    forall d :: Fresh(price, appointments, rows, d)
  }

  /** A change of one appointment that stays on its day is followed by a recalculation that refreshes everything. */
  lemma ChangeThenRecalculate(
    price: int -> int, appointments: seq<Appointment>, rows: map<int, Summary>, k: nat, a: Appointment, day: int)
    requires AllFresh(price, appointments, rows) && k < |appointments|
    requires StartsOn(appointments[k], day) && StartsOn(a, day)
    ensures AllFresh(price, appointments[k := a], AfterRecalculation(price, appointments[k := a], rows, day))
  {
    var now := appointments[k := a];
    UpdateOneSize(appointments, k, a, day);
    forall d | d != day
      ensures OnDay(now, d) == OnDay(appointments, d)
    {
      UpdateOneSize(appointments, k, a, d);
    }
    OnDayHas(appointments, k, day);
    forall d
      ensures Fresh(price, now, AfterRecalculation(price, now, rows, day), d)
    {
      assert Fresh(price, appointments, rows, d);
    }
  }

  lemma {:induction false} OnDayHas(appointments: seq<Appointment>, k: nat, day: int)
    requires k < |appointments| && StartsOn(appointments[k], day)
    ensures OnDay(appointments, day) != []
  {
    var last := |appointments| - 1;
    if k < last {
      OnDayHas(appointments[..last], k, day);
    }
  }

  /**
   Rescheduling recalculates the new day only. Everything is fresh afterwards if and only if the appointment
   stayed on its day; otherwise the old day keeps counting it.
   */
  lemma RescheduleKeepsFreshIffSameDay(
    price: int -> int, appointments: seq<Appointment>, rows: map<int, Summary>, k: nat, a: Appointment, oldDay: int, newDay: int)
    requires AllFresh(price, appointments, rows) && k < |appointments|
    requires StartsOn(appointments[k], oldDay) && StartsOn(a, newDay)
    ensures AllFresh(price, appointments[k := a], AfterRecalculation(price, appointments[k := a], rows, newDay))
       <==> oldDay == newDay
  {
    var now := appointments[k := a];
    if oldDay == newDay {
      ChangeThenRecalculate(price, appointments, rows, k, a, newDay);
    } else {
      UpdateOneSize(appointments, k, a, oldDay);
      OnDayHas(appointments, k, oldDay);
      ColumnAll(price, OnDay(appointments, oldDay));
      ColumnAll(price, OnDay(now, oldDay));
      assert Fresh(price, appointments, rows, oldDay);
      assert rows[oldDay].total == |OnDay(now, oldDay)| + 1;
      assert !Fresh(price, now, AfterRecalculation(price, now, rows, newDay), oldDay);
    }
  }

  // ---------------------------------------------------------------- per staff member

  datatype StaffSummary = StaffSummary(cancelled: int, completed: int, revenue: int, noShow: int, occupancy: int, total: int)

  const NOTHING := StaffSummary(0, 0, 0, 0, 0, 0)

  function Occupied(duration: int -> int, appointments: seq<Appointment>): int {
    if appointments == [] then 0
    else
      var last := |appointments| - 1;
      Occupied(duration, appointments[..last])
      + if appointments[last].status.Completed? then duration(appointments[last].serviceId) else 0
  }

  function StaffAggregate(price: int -> int, duration: int -> int, appointments: seq<Appointment>): StaffSummary {
    StaffSummary(Column(price, CancelledCount, appointments), Column(price, CompletedCount, appointments),
                 Column(price, Revenue, appointments), Column(price, NoShowCount, appointments),
                 Occupied(duration, appointments), |appointments|)
  }

  function Of(appointments: seq<Appointment>, staff: int): seq<Appointment> {
    if appointments == [] then []
    else
      var last := |appointments| - 1;
      Of(appointments[..last], staff) + if appointments[last].staffMemberId == staff then [appointments[last]] else []
  }

  function WithAppointment(price: int -> int, duration: int -> int, current: StaffSummary, a: Appointment): StaffSummary {
    var isCancelled := a.status.CancelledByBusiness? || a.status.CancelledByCustomer?;
    StaffSummary(current.cancelled + (if isCancelled then 1 else 0),
                 current.completed + (if a.status.Completed? then 1 else 0),
                 current.revenue + (if isCancelled then 0 else price(a.serviceId)),
                 current.noShow + (if a.status.NoShow? then 1 else 0),
                 current.occupancy + (if a.status.Completed? then duration(a.serviceId) else 0),
                 current.total + 1)
  }

  lemma OfOneMore(appointments: seq<Appointment>, k: nat, staff: int)
    requires k < |appointments|
    ensures Of(appointments[..k + 1], staff)
         == Of(appointments[..k], staff) + if appointments[k].staffMemberId == staff then [appointments[k]] else []
  {
    assert appointments[..k + 1][..k] == appointments[..k];
  }

  lemma OneMoreIsAggregate(price: int -> int, duration: int -> int, appointments: seq<Appointment>, a: Appointment)
    ensures StaffAggregate(price, duration, appointments + [a])
         == WithAppointment(price, duration, StaffAggregate(price, duration, appointments), a)
  {
    assert (appointments + [a])[..|appointments|] == appointments;
  }

  ghost predicate HoldsTotals(
    price: int -> int, duration: int -> int, totals: map<int, StaffSummary>, appointments: seq<Appointment>)
  {
    && (forall staff :: staff in totals <==> Of(appointments, staff) != [])
    && (forall staff :: staff in totals ==> totals[staff] == StaffAggregate(price, duration, Of(appointments, staff)))
  }

  lemma OneMoreTotal(
    price: int -> int, duration: int -> int, totals: map<int, StaffSummary>, appointments: seq<Appointment>, k: nat,
    current: StaffSummary)
    requires k < |appointments| && HoldsTotals(price, duration, totals, appointments[..k])
    requires var staff := appointments[k].staffMemberId;
             current == if staff in totals then totals[staff] else NOTHING
    ensures var a := appointments[k];
            HoldsTotals(price, duration, totals[a.staffMemberId := WithAppointment(price, duration, current, a)], appointments[..k + 1])
  {
    var a := appointments[k];
    var before, after := appointments[..k], appointments[..k + 1];
    CurrentIsAggregate(price, duration, totals, before, a.staffMemberId, current);
    OneMoreIsAggregate(price, duration, Of(before, a.staffMemberId), a);
    forall staff
      ensures a.staffMemberId == staff ==> Of(after, staff) == Of(before, staff) + [a]
      ensures a.staffMemberId != staff ==> Of(after, staff) == Of(before, staff)
    {
      OfOneMore(appointments, k, staff);
    }
    assert WithAppointment(price, duration, current, a) == StaffAggregate(price, duration, Of(after, a.staffMemberId));
  }

  lemma CurrentIsAggregate(
    price: int -> int, duration: int -> int, totals: map<int, StaffSummary>, appointments: seq<Appointment>, staff: int,
    current: StaffSummary)
    requires HoldsTotals(price, duration, totals, appointments)
    requires current == if staff in totals then totals[staff] else NOTHING
    ensures current == StaffAggregate(price, duration, Of(appointments, staff))
  {
  }

  /** The map filled in one pass holds, for each staff member seen, the totals of that member's appointments. */
  method StaffMetrics(price: int -> int, duration: int -> int, appointments: seq<Appointment>)
    returns (aggregated: map<int, StaffSummary>)
    ensures HoldsTotals(price, duration, aggregated, appointments)
  {
    aggregated := map[];
    var k := 0;
    while k < |appointments|
      invariant 0 <= k <= |appointments|
      invariant HoldsTotals(price, duration, aggregated, appointments[..k])
    {
      var a := appointments[k];
      var current := if a.staffMemberId in aggregated then aggregated[a.staffMemberId] else NOTHING;
      OneMoreTotal(price, duration, aggregated, appointments, k, current);
      aggregated := aggregated[a.staffMemberId := WithAppointment(price, duration, current, a)];
      k := k + 1;
    }
    assert appointments[..|appointments|] == appointments;
  }

  // ---------------------------------------------------------------- the table of daily staff totals

  datatype StaffRow = StaffRow(staffMemberId: int, totals: StaffSummary)

  function StaffPlus(a: StaffSummary, b: StaffSummary): StaffSummary {
    StaffSummary(a.cancelled + b.cancelled, a.completed + b.completed, a.revenue + b.revenue, a.noShow + b.noShow,
                 a.occupancy + b.occupancy, a.total + b.total)
  }

  function RowsOf(daily: seq<StaffRow>, staff: int): seq<StaffSummary> {
    if daily == [] then []
    else
      var last := daily[|daily| - 1];
      RowsOf(daily[..|daily| - 1], staff) + if last.staffMemberId == staff then [last.totals] else []
  }

  function StaffSum(rows: seq<StaffSummary>): StaffSummary {
    if rows == [] then NOTHING else StaffPlus(StaffSum(rows[..|rows| - 1]), rows[|rows| - 1])
  }

  /** One column of the rows of a staff member. */
  function StaffColumn(rows: seq<StaffSummary>, column: StaffSummary -> int): int {
    if rows == [] then 0 else StaffColumn(rows[..|rows| - 1], column) + column(rows[|rows| - 1])
  }

  lemma {:induction false} StaffSumSumsColumns(rows: seq<StaffSummary>)
    ensures StaffSum(rows)
         == StaffSummary(StaffColumn(rows, (r: StaffSummary) => r.cancelled), StaffColumn(rows, (r: StaffSummary) => r.completed),
                         StaffColumn(rows, (r: StaffSummary) => r.revenue), StaffColumn(rows, (r: StaffSummary) => r.noShow),
                         StaffColumn(rows, (r: StaffSummary) => r.occupancy), StaffColumn(rows, (r: StaffSummary) => r.total))
  {
    if rows != [] {
      StaffSumSumsColumns(rows[..|rows| - 1]);
    }
  }

  ghost predicate HoldsSums(totals: map<int, StaffSummary>, daily: seq<StaffRow>) {
    && (forall staff :: staff in totals <==> RowsOf(daily, staff) != [])
    && (forall staff :: staff in totals ==> totals[staff] == StaffSum(RowsOf(daily, staff)))
  }

  lemma SumOneMoreRow(rows: seq<StaffSummary>, row: StaffSummary)
    ensures StaffSum(rows + [row]) == StaffPlus(StaffSum(rows), row)
  {
    assert (rows + [row])[..|rows|] == rows;
  }

  lemma OneMoreStaffRow(totals: map<int, StaffSummary>, daily: seq<StaffRow>, row: StaffRow, current: StaffSummary)
    requires HoldsSums(totals, daily)
    requires current == if row.staffMemberId in totals then totals[row.staffMemberId] else NOTHING
    ensures HoldsSums(totals[row.staffMemberId := StaffPlus(current, row.totals)], daily + [row])
  {
    assert (daily + [row])[..|daily|] == daily;
    SumOneMoreRow(RowsOf(daily, row.staffMemberId), row.totals);
    assert current == StaffSum(RowsOf(daily, row.staffMemberId));
    forall staff | staff != row.staffMemberId
      ensures RowsOf(daily + [row], staff) == RowsOf(daily, staff)
    {
    }
  }

  /** The team page: the sums of the daily rows if there is any, of the appointments otherwise. */
  method GetStaffMetricsList(
    price: int -> int, duration: int -> int, daily: seq<StaffRow>, appointments: seq<Appointment>)
    returns (aggregated: map<int, StaffSummary>)
    ensures daily != [] ==> HoldsSums(aggregated, daily)
    ensures daily == [] ==> HoldsTotals(price, duration, aggregated, appointments)
  {
    aggregated := map[];
    for k := 0 to |daily|
      invariant HoldsSums(aggregated, daily[..k])
    {
      var row := daily[k];
      var current := if row.staffMemberId in aggregated then aggregated[row.staffMemberId] else NOTHING;
      assert daily[..k + 1] == daily[..k] + [row];
      OneMoreStaffRow(aggregated, daily[..k], row, current);
      aggregated := aggregated[row.staffMemberId := StaffPlus(current, row.totals)];
    }
    assert daily[..|daily|] == daily;
    if |daily| == 0 {
      aggregated := StaffMetrics(price, duration, appointments);
    }
  }

  /** One member's page sums the same appointments directly. */
  method SumStaffMetricsFromAppointments(price: int -> int, duration: int -> int, appointments: seq<Appointment>)
    returns (sum: StaffSummary)
    ensures sum == StaffAggregate(price, duration, appointments)
  {
    sum := NOTHING;
    var k := 0;
    while k < |appointments|
      invariant 0 <= k <= |appointments| && sum == StaffAggregate(price, duration, appointments[..k])
    {
      assert appointments[..k + 1] == appointments[..k] + [appointments[k]];
      OneMoreIsAggregate(price, duration, appointments[..k], appointments[k]);
      sum := WithAppointment(price, duration, sum, appointments[k]);
      k := k + 1;
    }
    assert appointments[..|appointments|] == appointments;
  }
}
