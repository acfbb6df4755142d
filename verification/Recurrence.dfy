/**
 Occurrence times of a recurring series (addInterval in
 apps/api/src/appointments/recurring-series.service.ts). A month step is the runtime's
 setUTCMonth, that is MakeDay of section 21.4.1 of ECMA-262: the day of the month is kept as a
 number of days after the first, so it overflows into the next month when the month is short.
 */
module Recurrence {
  datatype Unit = Day | Week | Month

  function IsLeap(year: int): bool {
    year % 4 == 0 && (year % 100 != 0 || year % 400 == 0)
  }

  /** Months are numbered from January 1970. */
  function MonthLength(month: int): int {
    var m := month % 12;
    if m == 1 then (if IsLeap(1970 + month / 12) then 29 else 28)
    else if m == 3 || m == 5 || m == 8 || m == 10 then 30
    else 31
  }

  /** The day number of the first of a month. */
  function MonthStart(month: int): int
    decreases if month < 0 then -month else month
  {
    if month == 0 then 0
    else if month > 0 then MonthStart(month - 1) + MonthLength(month - 1)
    else MonthStart(month + 1) - MonthLength(month)
  }

  lemma {:induction false} MonthsAreApart(earlier: int, later: int)
    requires earlier <= later
    ensures MonthStart(later) - MonthStart(earlier) >= 28 * (later - earlier)
    decreases later - earlier
  {
    if earlier < later {
      MonthsAreApart(earlier, later - 1);
      NextMonthStart(later - 1);
    }
  }

  lemma NextMonthStart(month: int)
    ensures MonthStart(month + 1) == MonthStart(month) + MonthLength(month)
  {
  }

  /** Day number of the first of January, as ECMA-262 writes it. */
  function DayFromYear(year: int): int {
    365 * (year - 1970) + (year - 1969) / 4 - (year - 1901) / 100 + (year - 1601) / 400
  }

  function DaysBefore(m: int, leap: int): int {
    if m <= 0 then 0 else if m == 1 then 31 else if m == 2 then 59 + leap else if m == 3 then 90 + leap
    else if m == 4 then 120 + leap else if m == 5 then 151 + leap else if m == 6 then 181 + leap
    else if m == 7 then 212 + leap else if m == 8 then 243 + leap else if m == 9 then 273 + leap
    else if m == 10 then 304 + leap else if m == 11 then 334 + leap else 365 + leap
  }

  lemma {:induction false} DaysOfAYear(n: int, m: int)
    requires 0 <= m <= 12
    ensures MonthStart(12 * n + m) == MonthStart(12 * n) + DaysBefore(m, if IsLeap(1970 + n) then 1 else 0)
  {
    if m > 0 {
      var k := 12 * n + (m - 1);
      DaysOfAYear(n, m - 1);
      NextMonthStart(k);
      MonthWithinYear(n, m - 1);
      assert MonthLength(k) == DaysBefore(m, if IsLeap(1970 + n) then 1 else 0) - DaysBefore(m - 1, if IsLeap(1970 + n) then 1 else 0);
    }
  }

  lemma MonthWithinYear(n: int, m: int)
    requires 0 <= m < 12
    ensures (12 * n + m) / 12 == n && (12 * n + m) % 12 == m
  {
  }

  lemma YearLength(n: int)
    ensures MonthStart(12 * (n + 1)) - MonthStart(12 * n) == if IsLeap(1970 + n) then 366 else 365
  {
    DaysOfAYear(n, 12);
    assert 12 * (n + 1) == 12 * n + 12;
  }

  lemma DayFromYearStep(year: int)
    ensures DayFromYear(year + 1) - DayFromYear(year) == if IsLeap(year) then 366 else 365
  {
    EveryFour(year);
    EveryHundred(year);
    EveryFourHundred(year);
    Centuries(year);
    var fours, hundreds, fourHundreds := (year - 1969) / 4, (year - 1901) / 100, (year - 1601) / 400;
    LeapDays(365 * (year - 1970), fours, hundreds, fourHundreds,
             year % 4 == 0, year % 100 == 0, year % 400 == 0);
  }

  lemma Centuries(year: int)
    ensures (year % 400 == 0 ==> year % 100 == 0) && (year % 100 == 0 ==> year % 4 == 0)
  {
  }

  lemma LeapDays(days: int, fours: int, hundreds: int, fourHundreds: int, four: bool, hundred: bool, fourHundred: bool)
    requires (fourHundred ==> hundred) && (hundred ==> four)
    ensures (days + 365) + (fours + if four then 1 else 0) - (hundreds + if hundred then 1 else 0)
            + (fourHundreds + if fourHundred then 1 else 0) - (days + fours - hundreds + fourHundreds)
         == if four && (!hundred || fourHundred) then 366 else 365
  {
  }

  lemma EveryFour(year: int)
    ensures (year - 1968) / 4 - (year - 1969) / 4 == if year % 4 == 0 then 1 else 0
  {
  }

  lemma EveryHundred(year: int)
    ensures (year - 1900) / 100 - (year - 1901) / 100 == if year % 100 == 0 then 1 else 0
  {
  }

  lemma EveryFourHundred(year: int)
    ensures (year - 1600) / 400 - (year - 1601) / 400 == if year % 400 == 0 then 1 else 0
  {
  }

  /** The month table agrees with the closed form of the standard for every year. */
  lemma {:induction false} MonthTableAgreesWithTheStandard(n: int)
    ensures MonthStart(12 * n) == DayFromYear(1970 + n)
    decreases if n < 0 then -n else n
  {
    if n > 0 {
      MonthTableAgreesWithTheStandard(n - 1);
      YearLength(n - 1);
      DayFromYearStep(1969 + n);
    } else if n < 0 {
      MonthTableAgreesWithTheStandard(n + 1);
      YearLength(n);
      DayFromYearStep(1970 + n);
    }
  }

  function MonthFrom(day: int, month: int): (r: int)
    requires MonthStart(month) <= day
    ensures MonthStart(r) <= day < MonthStart(r + 1)
    decreases day - MonthStart(month)
  {
    NextMonthStart(month);
    if day < MonthStart(month + 1) then month else MonthFrom(day, month + 1)
  }

  /** The month a day number falls in. */
  function MonthOf(day: int): (r: int)
    ensures MonthStart(r) <= day < MonthStart(r + 1)
  {
    if day >= 0 then MonthFrom(day, 0)
    else
      MonthsAreApart(day, 0);
      MonthFrom(day, day)
  }

  function AddMonths(day: int, months: int): int {
    MonthStart(MonthOf(day) + months) + (day - MonthStart(MonthOf(day)))
  }

  function AddUnits(date: int, unit: Unit, total: int): int {
    match unit
    case Day => date + total * 86_400_000
    case Week => date + total * 604_800_000
    case Month => AddMonths(date / 86_400_000, total) * 86_400_000 + date % 86_400_000
  }

  function AddInterval(date: int, unit: Unit, value: int, count: int): int {
    AddUnits(date, unit, value * count)
  }

  lemma MonthIsUnique(day: int, m: int)
    requires MonthStart(m) <= day < MonthStart(m + 1)
    ensures MonthOf(day) == m
  {
    if MonthOf(day) < m {
      MonthsAreApart(MonthOf(day) + 1, m);
    } else if m < MonthOf(day) {
      MonthsAreApart(m + 1, MonthOf(day));
    }
  }

  /** The day of the month survives exactly when the target month is long enough; else it spills over. */
  lemma MonthOverflow(day: int, months: int)
    ensures var k, d := MonthOf(day), day - MonthStart(MonthOf(day));
            MonthOf(AddMonths(day, months)) == if d < MonthLength(k + months) then k + months else k + months + 1
  {
    var k, d := MonthOf(day), day - MonthStart(MonthOf(day));
    NextMonthStart(k);
    NextMonthStart(k + months);
    NextMonthStart(k + months + 1);
    MonthIsUnique(AddMonths(day, months), if d < MonthLength(k + months) then k + months else k + months + 1);
  }

  /**
   Occurrence i, counted from 0: value days or value weeks further each time, or at the same time of day, as many days
   into the month value * i later as the first one is into its own.
   */
  ghost predicate IsOccurrence(first: int, unit: Unit, value: int, i: int, at: int) {
    match unit
    case Day => at == first + value * i * 86_400_000
    case Week => at == first + 7 * (value * i) * 86_400_000
    case Month => at % 86_400_000 == first % 86_400_000 && SameDayInMonth(first / 86_400_000, value * i, at / 86_400_000)
  }

  /** The later day is as far from the start of the month that many months on as the day is from the start of its own. */
  ghost predicate SameDayInMonth(day: int, months: int, later: int) {
    exists m :: SameDayFrom(day, m, months, later)
  }

  predicate SameDayFrom(day: int, m: int, months: int, later: int) {
    InMonth(day, m) && later - MonthStart(m + months) == day - MonthStart(m)
  }

  predicate InMonth(day: int, m: int) {
    MonthStart(m) <= day < MonthStart(m + 1)
  }

  lemma AddIntervalIsOccurrence(first: int, unit: Unit, value: int, i: int)
    ensures IsOccurrence(first, unit, value, i, AddInterval(first, unit, value, i))
  {
    if unit == Month {
      SameDayOfItself(first / 86_400_000, value * i);
      DayAndTime(AddMonths(first / 86_400_000, value * i), first % 86_400_000);
    }
  }

  lemma SameDayOfItself(day: int, months: int)
    ensures SameDayInMonth(day, months, AddMonths(day, months))
  {
    assert SameDayFrom(day, MonthOf(day), months, AddMonths(day, months));
  }

  lemma DayAndTime(day: int, rest: int)
    requires 0 <= rest < 86_400_000
    ensures (day * 86_400_000 + rest) / 86_400_000 == day && (day * 86_400_000 + rest) % 86_400_000 == rest
  {
  }

  /** There is one such time for each occurrence. */
  lemma OccurrenceIsUnique(first: int, unit: Unit, value: int, i: int, at: int)
    requires IsOccurrence(first, unit, value, i, at)
    ensures at == AddInterval(first, unit, value, i)
  {
    if unit == Month {
      SameDayIsUnique(first / 86_400_000, value * i, at / 86_400_000);
      DayPlusTime(at);
    }
  }

  lemma SameDayIsUnique(day: int, months: int, later: int)
    requires SameDayInMonth(day, months, later)
    ensures later == AddMonths(day, months)
  {
    var m :| SameDayFrom(day, m, months, later);
    AddMonthsFrom(day, m, months, later);
  }

  lemma AddMonthsFrom(day: int, m: int, months: int, later: int)
    requires SameDayFrom(day, m, months, later)
    ensures later == AddMonths(day, months)
  {
    MonthIsUnique(day, m);
  }

  lemma DayPlusTime(at: int)
    ensures at == at / 86_400_000 * 86_400_000 + at % 86_400_000
  {
  }

  function LeastGap(unit: Unit): int {
    match unit
    case Day => 86_400_000
    case Week => 604_800_000
    case Month => 28 * 86_400_000
  }

  lemma UnitsIncrease(date: int, unit: Unit, t0: int, t1: int)
    requires t0 < t1
    ensures AddUnits(date, unit, t1) - AddUnits(date, unit, t0) >= LeastGap(unit)
    ensures AddUnits(date, unit, 0) == date
  {
    var day := date / 86_400_000;
    if unit == Month {
      MonthsAreApart(MonthOf(day) + t0, MonthOf(day) + t1);
      assert AddMonths(day, t1) - AddMonths(day, t0) >= 28;
    }
  }

  /** Occurrences of a series start at the given time and strictly increase; monthly ones are 28 days apart. */
  lemma OccurrencesIncrease(date: int, unit: Unit, value: int, i: int, j: int)
    requires 1 <= value && i < j
    ensures AddInterval(date, unit, value, j) - AddInterval(date, unit, value, i)
         >= match unit case Day => 86_400_000 case Week => 604_800_000 case Month => 2_419_200_000
    ensures AddInterval(date, unit, value, 0) == date
  {
    assert value * i < value * j;
    UnitsIncrease(date, unit, value * i, value * j);
    assert value * 0 == 0;
  }
}
