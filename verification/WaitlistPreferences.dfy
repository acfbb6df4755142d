/**
 What an entry's preferences are compared with. They are dates and times of the business, and the candidate query
 compares them with the UTC date and time of the slot (repository.go:818-821, 837).
 */
module WaitlistPreferences {
  import opened Outcomes
  import opened Tables
  import opened ZonedTime
  import opened Waitlist

  function LocalMinute(zone: Zone, t: int): int {
    LocalTime(zone, t) % 86_400_000 / 60_000
  }

  /** The date read is the local date exactly if the offset does not carry the time of day across midnight. */
  lemma UtcDateIsLocalIff(zone: Zone, t: int)
    ensures UtcDate(t) == DateInTimeZone(zone, t) <==> 0 <= t % 86_400_000 + zone(t) < 86_400_000
  {
    var day, rest := t / 86_400_000, t % 86_400_000;
    assert t + zone(t) == day * 86_400_000 + (rest + zone(t));
    DayOf(day, rest + zone(t));
  }

  lemma DayOf(day: int, rest: int)
    ensures (day * 86_400_000 + rest) / 86_400_000 == day <==> 0 <= rest < 86_400_000
  {
  }

  /** The minute read is the local minute exactly if the offset is a whole number of days. */
  lemma UtcMinuteIsLocalIff(zone: Zone, t: int)
    requires zone(t) % 60_000 == 0
    ensures UtcMinute(t) == LocalMinute(zone, t) <==> zone(t) % 86_400_000 == 0
  {
    var minutes, shift, rest := t / 60_000, zone(t) / 60_000, t % 60_000;
    assert t == 60_000 * minutes + rest && zone(t) == 60_000 * shift;
    MinuteOfDay(minutes, rest);
    MinuteOfDay(minutes + shift, rest);
    MinuteOfDay(shift, 0);
    SameMinute(minutes, shift);
  }

  lemma MinuteOfDay(minutes: int, rest: int)
    requires 0 <= rest < 60_000
    ensures (60_000 * minutes + rest) % 86_400_000 == 60_000 * (minutes % 1_440) + rest
    ensures (60_000 * minutes + rest) % 86_400_000 / 60_000 == minutes % 1_440
  {
    var days := minutes / 1_440;
    assert 60_000 * minutes + rest == 86_400_000 * days + (60_000 * (minutes % 1_440) + rest);
  }

  lemma SameMinute(minutes: int, shift: int)
    ensures minutes % 1_440 == (minutes + shift) % 1_440 <==> shift % 1_440 == 0
  {
  }

  /**
   So the query respects every entry's preferences exactly in zones that are on UTC at that moment: with any other
   offset of less than a day some entry is wrongly matched or wrongly passed over.
   */
  lemma PreferencesAreRespectedIffOnUtc(zone: Zone, t: int)
    requires zone(t) % 60_000 == 0 && -86_400_000 < zone(t) < 86_400_000
    ensures (forall e: Entry ::
               Prefers(e, UtcDate(t), UtcMinute(t)) <==> Prefers(e, DateInTimeZone(zone, t), LocalMinute(zone, t)))
       <==> zone(t) == 0
  {
    UtcMinuteIsLocalIff(zone, t);
    if zone(t) != 0 {
      var minute := UtcMinute(t);
      var e := Entry(0, 0, UtcDate(t), UtcDate(t), Some(minute), Some(minute), 0, Waiting);
      assert Prefers(e, UtcDate(t), UtcMinute(t)) && !Prefers(e, DateInTimeZone(zone, t), LocalMinute(zone, t));
    }
  }

  /** Three hours behind UTC, the offset of the default zone. */
  function BuenosAires(t: int): int {
    -10_800_000
  }

  /** There a slot at ten in the evening of day 0 is offered to an entry that only wants day 1. */
  lemma AnEveningSlotIsOfferedForTheNextDay(ev: Event, e: Entry, db: Db)
    requires ev == Event(AppointmentCancelled, 0, 0, 90_000_000, 0)
    requires e == Entry(0, 0, 1, 1, None, None, 10, Waiting)
    requires db == EMPTY_DB.(customers := [Customer(0, 0, 0, 0)], entries := [e])
    ensures Eligible(db, ev, 0)
    ensures DateInTimeZone(BuenosAires, ev.startsAt) == 0 && LocalMinute(BuenosAires, ev.startsAt) == 22 * 60
    ensures !Prefers(e, DateInTimeZone(BuenosAires, ev.startsAt), LocalMinute(BuenosAires, ev.startsAt))
  {
  }
}
