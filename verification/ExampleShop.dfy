/** A shop small enough to follow by hand, for the runs that show an input: UTC, one service, one staff member. */
module ExampleShop {
  import opened Outcomes
  import opened Tables
  import opened ZonedTime
  import opened Availability
  import opened Loading
  import opened Appointments

  function Utc(t: int): int {
    0
  }

  const RULE: Rule := Rule(1, "09:00", "10:00")

  /** One service of half an hour, and an opening hour on the weekdays of days 1 and 2. */
  const SHOP: Config :=
    Config(Utc, map[0 := Service(30, 0, true)], [1], map[], [WeeklyRule(5, true, RULE), WeeklyRule(6, true, RULE)], [])

  function Nine(day: int): int {
    day * 86_400_000 + 32_400_000
  }

  function Morning(day: int): Input {
    Input(day, 30, 0, [RULE], [], [], [1], Utc, 0)
  }

  lemma MorningSlotIsOffered(day: int)
    requires day > 0
    ensures Availability.Offered(Morning(day), Slot(1, Nine(day), Nine(day) + 1_800_000)) && !Throws(Morning(day))
  {
    var slot := Slot(1, Nine(day), Nine(day) + 1_800_000);
    NineIsTheSlot(day);
    RuleIsRead();
    assert Windows(Morning(day)) == [RULE];
    assert OfferedIn(Morning(day), RULE, slot);
    assert RULE in Windows(Morning(day));
  }

  lemma NineIsTheSlot(day: int)
    ensures Morning(day).SlotAt(1, 540) == Slot(1, Nine(day), Nine(day) + 1_800_000)
  {
    assert SaneZone(Utc, 0);
    TwoPasses(day, 540, Utc, 0);
    TwoPasses(day, 570, Utc, 0);
    assert LocalAsUtc(day, 540) == Nine(day) && LocalAsUtc(day, 570) == Nine(day) + 1_800_000;
  }

  lemma RuleIsRead()
    ensures MinutesSinceMidnight("09:00") == Ok(540) && MinutesSinceMidnight("10:00") == Ok(600)
    ensures OnGrid(30, RULE, 540)
  {
    assert MinutesSinceMidnight("09:00") == Ok(540) && MinutesSinceMidnight("10:00") == Ok(600);
  }

  predicate NobodyElse(appointments: seq<Appointment>, exclude: Option<nat>) {
    forall i | 0 <= i < |appointments| :: exclude != Some(i) ==> !appointments[i].status.Active()
  }

  lemma {:induction false} NothingBusy(appointments: seq<Appointment>, day: int, exclude: Option<nat>)
    requires NobodyElse(appointments, exclude)
    ensures LoadBusy(appointments, day, Utc, exclude) == []
  {
    if appointments != [] {
      NothingBusy(appointments[..|appointments| - 1], day, exclude);
    }
  }

  /** The guard passes at nine while no other active appointment is there. */
  lemma NineIsFree(appointments: seq<Appointment>, day: int, exclude: Option<nat>)
    requires (day == 1 || day == 2) && NobodyElse(appointments, exclude)
    ensures CanTakeSlot(appointments, SHOP, 0, 1, Nine(day), exclude, 0)
  {
    MorningSlotIsOffered(day);
    NothingBusy(appointments, day, exclude);
    assert DateInTimeZone(Utc, Nine(day)) == day;
    OpenAtNine(day);
    assert ExceptionsOn([], day, [1]) == [];
    assert GuardInput(appointments, SHOP, 0, Nine(day), exclude, 0) == Morning(day);
    assert SlotOpen(Morning(day), 1, Nine(day));
  }

  lemma OpenAtNine(day: int)
    requires day == 1 || day == 2
    ensures RulesOn(SHOP.rules, WeekdayInTimeZone(day, Utc), [1]) == [RULE]
  {
    assert WeekdayInTimeZone(1, Utc) == 5 && WeekdayInTimeZone(2, Utc) == 6;
    var second := WeeklyRule(6, true, RULE);
    assert SHOP.rules[1..] == [second] && [second][1..] == [];
    assert RulesOn([], WeekdayInTimeZone(day, Utc), [1]) == [];
    assert RulesOn([second], WeekdayInTimeZone(day, Utc), [1]) == if day == 2 then [RULE] else [];
  }
}
