/**
 Local times, instants and dates (apps/api/src/common/time.ts).

 An instant is a number of milliseconds since the epoch, a date is a number of days since
 1970-01-01, and a time zone is the function from an instant to its offset from UTC.
 */
module ZonedTime {
  import opened Outcomes

  type Zone = int -> int
  type Date = int

  const MINUTE: int := 60_000
  const HOUR: int := 3_600_000
  const DAY: int := 86_400_000

  /** What a wall clock in the zone shows at instant t, written as if it were UTC. */
  function LocalTime(zone: Zone, t: int): int {
    t + zone(t)
  }

  /** The formatter yields whole seconds, so milliseconds of the local time are dropped. */
  function TimeZoneOffsetMs(zone: Zone, t: int): int {
    LocalTime(zone, t) / 1_000 * 1_000 - t
  }

  function DateInTimeZone(zone: Zone, t: int): Date {
    LocalTime(zone, t) / 86_400_000
  }

  function LocalAsUtc(date: Date, minutes: int): int {
    date * 86_400_000 + minutes / 60 * 3_600_000 + minutes % 60 * 60_000
  }

  /** The instant of a local time, by two passes over the offset. */
  function DateAtZonedMinutes(date: Date, minutes: int, zone: Zone): int {
    var localAsUtc := LocalAsUtc(date, minutes);
    var firstUtc := localAsUtc - TimeZoneOffsetMs(zone, localAsUtc);
    localAsUtc - TimeZoneOffsetMs(zone, firstUtc)
  }

  function DayStart(date: Date, zone: Zone): int {
    DateAtZonedMinutes(date, 0, zone)
  }

  function DayEnd(date: Date, zone: Zone): int {
    DateAtZonedMinutes(date, 24 * 60, zone)
  }

  /** Offsets are whole seconds and never larger than the bound. */
  ghost predicate SaneZone(zone: Zone, bound: int) {
    forall t :: zone(t) % 1_000 == 0 && -bound <= zone(t) <= bound
  }

  /** Around the local time, the zone has offset a before instant c and offset b from c on. */
  ghost predicate AtMostOneChange(zone: Zone, local: int, bound: int, c: int, a: int, b: int) {
    && -bound <= a <= bound
    && -bound <= b <= bound
    && forall t :: local - bound <= t <= local + bound ==> zone(t) == if t < c then a else b
  }

  lemma OffsetIsExact(zone: Zone, bound: int, t: int)
    requires SaneZone(zone, bound) && t % 1_000 == 0
    ensures TimeZoneOffsetMs(zone, t) == zone(t)
  {
    assert (t + zone(t)) % 1_000 == 0;
  }

  lemma LocalAsUtcIsLinear(date: Date, minutes: int)
    ensures LocalAsUtc(date, minutes) == date * DAY + minutes * MINUTE
    ensures LocalAsUtc(date, minutes) % 1_000 == 0
  {
    var h, m := minutes / 60, minutes % 60;
    assert minutes == 60 * h + m;
    assert h * 3_600_000 + m * 60_000 == minutes * MINUTE;
    assert LocalAsUtc(date, minutes) == 1_000 * (date * 86_400 + minutes * 60);
  }

  /** The conversion without its rounding. */
  lemma TwoPasses(date: Date, minutes: int, zone: Zone, bound: int)
    requires SaneZone(zone, bound)
    ensures var local := LocalAsUtc(date, minutes);
            DateAtZonedMinutes(date, minutes, zone) == local - zone(local - zone(local))
  {
    LocalAsUtcIsLinear(date, minutes);
    TwoExactOffsets(zone, bound, LocalAsUtc(date, minutes));
  }

  lemma TwoExactOffsets(zone: Zone, bound: int, local: int)
    requires SaneZone(zone, bound) && local % 1_000 == 0
    ensures TimeZoneOffsetMs(zone, local) == zone(local)
    ensures TimeZoneOffsetMs(zone, local - zone(local)) == zone(local - zone(local))
  {
    OffsetIsExact(zone, bound, local);
    assert zone(local) % 1_000 == 0;
    OffsetIsExact(zone, bound, local - zone(local));
  }

  /**
   With one offset change near the requested local time, the returned instant reads back as that
   local time exactly when some instant does; when two do, the side of the change on which the
   local digits fall decides; in a skipped interval the result misses by the size of the gap.
   */
  lemma ConversionReadsBack(date: Date, minutes: int, zone: Zone, bound: int, c: int, a: int, b: int)
    requires SaneZone(zone, bound)
    requires AtMostOneChange(zone, LocalAsUtc(date, minutes), bound, c, a, b)
    ensures var local, r := LocalAsUtc(date, minutes), DateAtZonedMinutes(date, minutes, zone);
            && (LocalTime(zone, r) == local <==> exists t :: LocalTime(zone, t) == local)
            && (LocalTime(zone, r) != local ==>
                  && local - b < c <= local - a
                  && LocalTime(zone, r) == if local < c then local - (b - a) else local + (b - a))
            && (LocalTime(zone, local - a) == local == LocalTime(zone, local - b) ==>
                  r == if local < c then local - a else local - b)
  {
    var local, r := LocalAsUtc(date, minutes), DateAtZonedMinutes(date, minutes, zone);
    TwoPasses(date, minutes, zone, bound);
    if t :| LocalTime(zone, t) == local {
      assert local - bound <= t <= local + bound;
      assert t == local - a || t == local - b;
      assert zone(local - a) == if local - a < c then a else b;
      assert zone(local - b) == if local - b < c then a else b;
    }
  }

  /** Two changes within two hours: two hours ahead, then level, then one hour ahead. */
  function RestlessZone(t: int): int {
    if t <= 0 then 7_200_000 else if t < 7_200_000 then 0 else 3_600_000
  }

  /** Without that condition a local time that exists can be missed. */
  lemma TwoChangesDefeatTheConversion()
    ensures SaneZone(RestlessZone, 2 * HOUR)
    ensures LocalTime(RestlessZone, 0) == LocalAsUtc(0, 120)
    ensures LocalTime(RestlessZone, DateAtZonedMinutes(0, 120, RestlessZone)) == LocalAsUtc(0, 180)
  {
    LocalAsUtcIsLinear(0, 120);
    LocalAsUtcIsLinear(0, 180);
    TwoPasses(0, 120, RestlessZone, 2 * HOUR);
  }

  /**
   Every time of the day maps to an instant with the same offset o, and the end of the day
   comes no earlier than 23:59.
   */
  ghost predicate SteadyDay(zone: Zone, date: Date, o: int) {
    && (forall m :: 0 <= m < 1440 ==> DateAtZonedMinutes(date, m, zone) == date * DAY + m * MINUTE - o)
    && DayEnd(date, zone) >= date * DAY + 1439 * MINUTE - o
  }

  lemma ConstantOffsetIsSteady(zone: Zone, bound: int, date: Date, o: int)
    requires SaneZone(zone, bound)
    requires forall t :: date * DAY - bound <= t <= (date + 1) * DAY + bound ==> zone(t) == o
    ensures SteadyDay(zone, date, o)
  {
    forall m | 0 <= m <= 1440
      ensures DateAtZonedMinutes(date, m, zone) == date * DAY + m * MINUTE - o
    {
      LocalAsUtcIsLinear(date, m);
      TwoPasses(date, m, zone, bound);
      assert zone(date * DAY) == o;
    }
  }

  function Weekday(date: Date): int {
    (date + 4) % 7
  }

  /** Sunday is 0, days follow each other, and 1970-01-01 is a Thursday. */
  lemma WeekdayFollowsTheCalendar(date: Date)
    ensures Weekday(0) == 4 && 0 <= Weekday(date) < 7
    ensures Weekday(date + 1) == if Weekday(date) == 6 then 0 else Weekday(date) + 1
  {
  }

  /** The weekday of the local date at noon UTC. */
  function WeekdayInTimeZone(date: Date, zone: Zone): int {
    Weekday(DateInTimeZone(zone, date * DAY + 12 * HOUR))
  }

  /** It is the weekday of the date itself exactly for offsets from -12:00 to before +12:00. */
  lemma WeekdayIsExact(date: Date, zone: Zone)
    requires -72 * HOUR <= zone(date * DAY + 12 * HOUR) <= 72 * HOUR
    ensures WeekdayInTimeZone(date, zone) == Weekday(date)
       <==> -12 * HOUR <= zone(date * DAY + 12 * HOUR) < 12 * HOUR
  {
    var off := zone(date * DAY + 12 * HOUR);
    var shift := (43_200_000 + off) / 86_400_000;
    assert DateInTimeZone(zone, date * DAY + 12 * HOUR) == date + shift;
    assert -3 <= shift <= 3;
    SameWeekday(date, shift);
  }

  lemma SameWeekday(date: Date, shift: int)
    requires -3 <= shift <= 3
    ensures Weekday(date + shift) == Weekday(date) <==> shift == 0
  {
  }

  datatype ClockError = NotHHmm

  predicate IsDigit(c: char) {
    '0' <= c <= '9'
  }

  function Digit(c: char): int
    requires IsDigit(c)
  {
    c as int - '0' as int
  }

  /** Parses HH:mm on a 24-hour clock; anything else is the source's thrown error. */
  function MinutesSinceMidnight(value: string): Result<int, ClockError> {
    if && |value| == 5
       && IsDigit(value[0]) && IsDigit(value[1]) && value[2] == ':' && IsDigit(value[3]) && IsDigit(value[4])
       && (value[0] <= '1' || (value[0] == '2' && value[1] <= '3'))
       && value[3] <= '5'
    then
      var hours := Digit(value[0]) * 10 + Digit(value[1]);
      var minutes := Digit(value[3]) * 10 + Digit(value[4]);
      Ok(hours * 60 + minutes)
    else
      Err(NotHHmm)
  }

  function DigitChar(d: int): char
    requires 0 <= d <= 9
  {
    '0' + d as char
  }

  function ClockText(minutes: int): string
    requires 0 <= minutes < 1440
  {
    var h, m := minutes / 60, minutes % 60;
    [DigitChar(h / 10), DigitChar(h % 10), ':', DigitChar(m / 10), DigitChar(m % 10)]
  }

  /** Parsing accepts exactly the printed clock times, and inverts printing. */
  lemma ClockRoundTrip(value: string, minutes: int)
    ensures 0 <= minutes < 1440 ==> MinutesSinceMidnight(ClockText(minutes)) == Ok(minutes)
    ensures MinutesSinceMidnight(value) == Ok(minutes)
        ==> 0 <= minutes < 1440 && ClockText(minutes) == value
  {
    if MinutesSinceMidnight(value) == Ok(minutes) {
      var hours := Digit(value[0]) * 10 + Digit(value[1]);
      var rest := Digit(value[3]) * 10 + Digit(value[4]);
      assert minutes == hours * 60 + rest && 0 <= hours < 24 && 0 <= rest < 60;
      assert minutes / 60 == hours && minutes % 60 == rest;
    }
  }
}
