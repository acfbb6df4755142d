# TurnoFlow in Dafny

TurnoFlow is a booking system. A TypeScript API and a Go worker share one Postgres database; the API
writes events into an outbox table in the same transaction as each change, a publisher moves them to
RabbitMQ, and the worker handles each of them in one transaction that also records the event's id.

This project models the parts of it that decide something, and proves what they keep:

- `ZonedTime`, `Availability`, `Recurrence`: local times and instants, the slot generator, series dates.
- `Tables`, `Loading`, `Appointments`, `Waitlist`, `SeriesAdvance`: the shared rows, what is loaded to compute
  availability, and the transactions of the API and the worker as methods that work on a copy of the database and
  store it at commit.
- `Runs`: the system as a state machine whose actions are those transactions, in any interleaving, with
  stale reads where the code reads before its transaction begins. On top of it:
  `StaffCalendar` (no double booking), `AttendanceCounters` (cached counters), `WaitlistCoherence` (the
  coupled states of entries and offers) and `Reassignment` (conservation and termination of the
  reassignment chain of a released slot) and `FreshDays` (which days' metrics rows are fresh). `Tallies` counts
  flags; `WithdrawnEntry` and `MovedUnread` are two runs, in the shop of `ExampleShop`, in which something goes wrong.
- `TableSteps`: each transaction is told twice, as the function that the runs use and row by row in the tables
  (the predicates that end in `Stored`, and what each needs beforehand); every method promises both, and a step of
  `Runs` is exactly its telling.
- `WaitlistPreferences`: what the preferences of an entry are compared with.
- `RescheduleSlots`: the times listed for moving an appointment against the guard the move meets.
- `Delivery`, `EventPublisher`: outbox, publisher, broker and idempotent consumer as a step system, and the
  publisher's loop as runs of it. `EndToEnd` runs it with the worker's waitlist handler and recalculation and shows
  that it refines `Runs`, so the results on the waitlist and the metrics rows hold under redelivery and crashes.
- `Reminders`, `RefreshTokens`, `CalendarSync`, `Metrics`, `Slug`: retry and back-off, token rotation,
  convergence of the external calendar, cached daily totals, public names. `Batches` and `Traces` hold what
  several of them share.

A transaction, or a single SQL statement, is one atomic step. Time is an integer, mostly milliseconds; a
time zone is a function from instants to offsets. Ids and tokens are row numbers, so a new one is fresh.
What the database, the broker, the calendar or the clock answers is a parameter: a query without a full
ORDER BY takes its rows as an argument that must satisfy the query, and a remote call takes how it fails.

## Where the code falls short of the obvious claim

Each of these is a lemma: a concrete case, the exact condition under which the claim holds, or both.

- The day bounds used by the booking guard end an hour early when clocks go forward at midnight, so the guard
  alone accepts an interval already taken in that evening (`StaffCalendar.MidnightChangeDoubleBooks`,
  `StaffCalendar.GuardIsAdequateIffCovered`). The exclusion constraint of
  apps/api/prisma/migrations/20260616000000_init/migration.sql:202-208 then rejects the insert; it is not
  assumed here, so these results say when it has nothing left to do.
- A status update has no guard on the previous status and can revive a closed appointment into a taken
  interval (`StaffCalendar.StatusKeepsNoClashIff`).
- The worker's series step relies on a check made outside its transaction, so two of them can book one interval
  (`StaffCalendar.AdvanceKeepsNoClashIff`, `StaffCalendar.ConcurrentAdvancesDoubleBook`).
- Status updates compute counters from a read before their transaction, so concurrent ones lose or add visits
  (`AttendanceCounters.StatusKeepsCountersIff`, `AttendanceCounters.ConcurrentCompletionsLoseAVisit`,
  `AttendanceCounters.TwoRequestsOnOneAppointment`).
- Accepting an offer books its entry even if the entry was withdrawn meanwhile
  (`WithdrawnEntry.AWithdrawnEntryCanBeBooked`). Coherence survives this; withdrawal is final exactly when no offer
  is pending (`WaitlistCoherence.SafelyWithdrawnForever`, `WaitlistCoherence.WithdrawalIsFinalIff`).
- The publisher marks an event published once the exchange confirms it, bound queue or not
  (`Delivery.PublishedBeforeBindingIsLost`).
- A reminder re-armed while a send of it is unrecorded loses the re-arm
  (`Reminders.ReArmIsKeptIffNothingInFlight`).
- Token rotation does not check that its row is still unrevoked when it commits
  (`RefreshTokens.RotationIsSafeIffNotOvertaken`).
- A calendar event re-created after a 404 leaves surviving duplicates until the next upsert
  (`CalendarSync.OneUpsertConvergesIff`, `CalendarSync.AnEventCanBeLostAndDuplicated`), and a delete leaves them
  altogether (`CalendarSync.DeleteLeavesNothingIff`).
- A day that loses its last appointment keeps its metrics row, and rescheduling to another day never refreshes
  the day left (`Metrics.RescheduleKeepsFreshIffSameDay`). Nor does reviving a closed appointment, since a
  confirmation has no handler (`FreshDays.ARevivalStalesItsDay`).
- A series cancellation builds its events from rows read before its transaction. If one of them is moved to another
  day in between, the events name the old day and the new day's row stays wrong
  (`FreshDays.CancelSeriesKeepsUpIff`, `MovedUnread.AMoveUnreadStalesItsNewDay`).
- The weekday of a date is read at noon UTC, which is another day for offsets of +12:00 and above
  (`ZonedTime.WeekdayIsExact`).
- The candidate query compares an entry's preferred dates and times, which are local, with the UTC date and
  time of the slot (`WaitlistPreferences.PreferencesAreRespectedIffOnUtc`,
  `WaitlistPreferences.AnEveningSlotIsOfferedForTheNextDay`). The default zone is three hours behind UTC.

## Model

| member | source | states |
|---|---|---|
| ZonedTime.ConversionReadsBack | apps/api/src/common/time.ts:58-99 | With at most one offset change within the offset bound of the requested local time, the returned instant reads back as that local time if and only if some instant does; when two do, the side of the change decides which; in a skipped interval the result misses by exactly the gap |
| ZonedTime.TwoChangesDefeatTheConversion | apps/api/src/common/time.ts:58-78 | That condition is needed: with two changes close together an existing local time is missed by an hour |
| ZonedTime.TwoPasses | apps/api/src/common/time.ts:69-77 | The conversion subtracts the offset found at the first guess, and no rounding remains for whole-second offsets |
| ZonedTime.OffsetIsExact | apps/api/src/common/time.ts:87-99 | The offset computed from formatted parts equals the true offset on whole seconds |
| ZonedTime.ConstantOffsetIsSteady | apps/api/src/common/time.ts:80-85 | A constant offset around a day makes every time of that day, and its end, map with that one offset |
| ZonedTime.WeekdayIsExact | apps/api/src/common/time.ts:33-40 | The weekday read at noon UTC is the weekday of the date if and only if the offset then is at least -12:00 and below +12:00 |
| ZonedTime.WeekdayFollowsTheCalendar | apps/api/src/common/time.ts:33-40 | Weekdays count from Sunday, follow each other from day to day, and 1970-01-01 is a Thursday |
| ZonedTime.ClockRoundTrip | apps/api/src/common/time.ts:42-52 | HH:mm texts and the minutes 0 to 1439 correspond one to one: parsing a written time gives it back, and a parsed text is the writing of its value |
| Availability.CalculateAvailability | apps/api/src/appointments/availability.ts:30-119 | The generator returns exactly the declared slots, in order of start and staff member and free of duplicates, and throws exactly when the declared throwing condition holds |
| Availability.OfferedIsTheDeclaredSet | apps/api/src/appointments/availability.ts:30-119 | The loops offer a slot if and only if it starts a whole number of half hours after an opening of its staff member, fits with its buffer, is ahead, meets no busy interval of that staff member, and clears every block that names that staff member or nobody, all of them well formed |
| Availability.ThrowsIsDeclared | apps/api/src/appointments/availability.ts:71-98 | The computation throws if and only if some opening is malformed, or some candidate that is ahead meets a malformed block before any that it does not clear |
| Availability.OpeningWindowsMembers | apps/api/src/appointments/availability.ts:57-67 | Windows of extra openings: the named staff member, or every active one |
| Availability.BlockVerdictMeaning | apps/api/src/appointments/availability.ts:90-100 | The search over blocks clears a candidate if and only if every applicable block is well formed and does not meet it, although it stops at the first hit |
| Availability.WindowSlots | apps/api/src/appointments/availability.ts:71-110 | The inner loop adds exactly the offered slots of one window, or throws when a candidate of it does |
| Availability.TryStart | apps/api/src/appointments/availability.ts:76-108 | The loop body: past candidates are skipped before a block is read, and only bookable ones are added |
| Availability.SortSlotsSorts | apps/api/src/appointments/availability.ts:112-118 | Sorting orders by start, then staff, and creates no duplicates |
| Availability.OfferedWithinTheDay | apps/api/src/appointments/availability.ts:75-77 | On a day with one offset an offered slot lies within the day bounds and lasts exactly the required minutes |
| Availability.StrictlySorted | apps/api/src/appointments/availability.ts:112-118 | On such a day the answer is strictly sorted by (start, staff), so overlapping windows never offer a slot twice |
| Availability.OfferedSplits | apps/api/src/appointments/availability.ts:83-89 | Busy intervals only remove the slots they meet |
| Availability.DayBoundsLoadEnough | apps/api/src/appointments/appointments.service.ts:1368-1435 | Loading only the appointments that meet the day bounds offers the same slots as loading all of them, on a day with one offset |
| Recurrence.MonthTableAgreesWithTheStandard | apps/api/src/appointments/recurring-series.service.ts:31 | The calendar used for setUTCMonth agrees for every year with DayFromYear of ECMA-262, section 21.4.1 |
| Recurrence.MonthOverflow | apps/api/src/appointments/recurring-series.service.ts:31 | Adding months stays in the target month if and only if that month has the day, and otherwise falls in the following one |
| Recurrence.AddIntervalIsOccurrence | apps/api/src/appointments/recurring-series.service.ts:23-34 | Occurrence i comes value times i days or weeks after the first; for months it keeps the time of day and the number of days into the month |
| Recurrence.OccurrenceIsUnique | apps/api/src/appointments/recurring-series.service.ts:23-34 | That condition names one time |
| Recurrence.OccurrencesIncrease | apps/api/src/appointments/recurring-series.service.ts:23-34 | Occurrences start at the given time and strictly increase by at least a day, a week or 28 days for every interval |
| Loading.LoadBusyMembers | apps/api/src/appointments/appointments.service.ts:1405-1418 | The busy intervals loaded are exactly those of pending and confirmed appointments, other than the excluded one, that begin before the end of the day and end after its start |
| Loading.RulesOnMembers | apps/api/src/appointments/appointments.service.ts:1380-1391 | The rules loaded are exactly those that are switched on, of that weekday and of an active staff member |
| Loading.ExceptionsOnMembers | apps/api/src/appointments/appointments.service.ts:1392-1404 | The exceptions loaded are exactly those of that date that name nobody or an active staff member |
| Loading.EligibleStaffMembers | apps/api/src/appointments/appointments.service.ts:1421-1424 | Eligible staff are the active ones, and if anybody is assigned to the service only those assigned |
| Loading.OfferedIsOpenInTables | apps/api/src/appointments/appointments.service.ts:1362-1436 | A slot is offered if and only if some row opens the business for its staff member then and no row takes or blocks it, told in the tables alone |
| Loading.ThrowsIsInTables | apps/api/src/appointments/appointments.service.ts:1362-1436 | The computation throws if and only if the tables hold a malformed time that it reads |
| Loading.CanTakeSlotIsFreeInTables | apps/api/src/appointments/appointments.service.ts:1207-1236 | The guard is exactly that: active staff member, no malformed time read, an open slot at that instant |
| Loading.OtherRowsDoNotMatter | apps/api/src/appointments/appointments.service.ts:1380-1404 | Exceptions of other dates, and rules that are off, of other weekdays or of inactive staff, change no answer of the guard wherever they stand in the tables |
| Loading.OfferedStaffAreActive | apps/api/src/appointments/appointments.service.ts:1379-1424 | Whoever is offered, by rule, by named or by general opening, is an active staff member |
| Appointments.AssertStaffMemberCanTakeSlot | apps/api/src/appointments/appointments.service.ts:1207-1236 | The guard passes if and only if the tables say that the staff member is active, no malformed time is read, and a slot of theirs at the requested instant is open and free |
| Appointments.SelectAvailableStaffMember | apps/api/src/appointments/appointments.service.ts:1184-1205 | Fails on a malformed time exactly if one is read, finds nobody exactly if no slot starts then, and otherwise picks the first staff member in order, whose slot must last as long as the service |
| Appointments.SelectionIsExact | apps/api/src/appointments/appointments.service.ts:1193-1204 | A malformed time and no slot are answered exactly when they occur, and a first member whose slots all last as long as the service is always selected |
| Appointments.ChooseStaffMember | apps/api/src/appointments/appointments.service.ts:1042-1044 | The given staff member if the guard lets them; otherwise the first available one, who always passes the guard |
| Appointments.SlotsMatchOnASteadyDay | apps/api/src/appointments/appointments.service.ts:1199-1202 | On a day with one offset every slot lasts as long as its service, so the selection never fails for that reason |
| Appointments.CreateAppointmentInTransaction | apps/api/src/appointments/appointments.service.ts:990-1182 | Stores a booking row by row or nothing at all; with a given staff member it succeeds if and only if the tables allow it, and without one it books the first member in order who is open then, and succeeds whenever that member has a slot of the right length |
| Appointments.AfterCreateIsStored | apps/api/src/appointments/appointments.service.ts:1042-1170 | The booking: a confirmed appointment of the service, staff member and start asked for, of the given or a new customer, ending duration and buffer later; one more in that customer's total; offer accepted and entry booked; one or three events; nothing else |
| Appointments.CreateAllowedIsMayBook | apps/api/src/appointments/appointments.service.ts:1009-1044 | What a booking needs: a pending offer in time if it accepts one, an active service, and a slot free in the tables |
| Appointments.FirstIsLeast | apps/api/src/appointments/appointments.service.ts:1184-1205 | Without a given staff member: the one who is open then and comes before all others who are |
| Appointments.InsertBooking | apps/api/src/appointments/appointments.service.ts:1046-1166 | The writes after the guard: appointment, total, entry booked, and one or three events in order |
| Appointments.CheckReschedule | apps/api/src/appointments/appointments.service.ts:873-988 | Rescheduling is allowed if and only if the time is new and ahead, the appointment active, the guard passes without it, and no other active appointment of the business meets the new interval |
| Appointments.AssertBusinessSlotIsFree | apps/api/src/appointments/appointments.service.ts:1303-1324 | The interval is free if and only if no other active appointment overlaps it |
| Appointments.RescheduleAppointment | apps/api/src/appointments/appointments.service.ts:873-988 | Moves exactly one appointment and emits one event if the rules let it, or changes nothing |
| Appointments.AfterRescheduleIsStored | apps/api/src/appointments/appointments.service.ts:914-975 | The move: the new time, the end duration and buffer later, the staff member asked for or the present one, and one event; every other row and field as it was |
| Appointments.RescheduleAllowedIsMayMove | apps/api/src/appointments/appointments.service.ts:886-925 | The rules of a move, told in rows: ahead, active, another time, free in the tables without itself, and no other active appointment of the business in the new interval |
| Appointments.CancelByCustomer | apps/api/src/appointments/appointments.service.ts:205-265 | Cancels an active appointment and emits the cancellation and release, or changes nothing |
| Appointments.AfterCancelIsStored | apps/api/src/appointments/appointments.service.ts:219-257 | One row closed, its cancellation and the release of its slot in that order, nothing else |
| Appointments.UpdatePrivateAppointmentStatus | apps/api/src/appointments/appointments.service.ts:769-871 | Sets any settable status with no guard on the previous one, and writes the counters from what was read |
| Appointments.AfterStatusIsStored | apps/api/src/appointments/appointments.service.ts:786-860 | One row with the status, its customer's two counters one up or down from what was read and never below zero, and the events of that status |
| Appointments.CreateSeries | apps/api/src/appointments/recurring-series.service.ts:44-153 | All or nothing: every occurrence is free in the tables beside those before it, and then row by row the series is stored; otherwise nothing changes |
| Appointments.AfterSeriesIsStored | apps/api/src/appointments/recurring-series.service.ts:64-147 | Row i is occurrence i for the requested customer, staff member and service, with one booked event each, one series row and event, and the total up by their number |
| Appointments.SeriesAllowedIsMayRepeat | apps/api/src/appointments/recurring-series.service.ts:44-100 | What a series needs, told in rows: an active service and staff member, and each occurrence free beside the ones before it |
| Appointments.InsertOccurrence | apps/api/src/appointments/recurring-series.service.ts:83-129 | One pass of the loop extends the partial series by its next occurrence |
| Appointments.CancelSeries | apps/api/src/appointments/recurring-series.service.ts:216-317 | When nothing commits in between: cancels exactly the active future appointments of the series, adjusts the customer by their number, and emits two events for each |
| Appointments.ReadFutureAppointments | apps/api/src/appointments/recurring-series.service.ts:234-242 | Reads exactly the active future appointments of the series, before the transaction begins |
| Appointments.CommitSeriesCancellation | apps/api/src/appointments/recurring-series.service.ts:292-314 | Cancels the rows that were read, whatever they have become since, and emits the payloads built from the rows as read |
| Appointments.AfterCancelSeriesIsStored | apps/api/src/appointments/recurring-series.service.ts:252-314 | Exactly the listed rows cancelled, the customer's cancelled count up and total down by their number, the series closed, and the events in order |
| Appointments.CancelEventsKinds | apps/api/src/appointments/recurring-series.service.ts:257-282 | The events of a series cancellation alternate cancellation and release, in the order of the rows, with what was read before the transaction |
| RescheduleSlots.GetRescheduleSlots | apps/api/src/appointments/appointments.service.ts:1238-1289 | Lists exactly the start times of slots that are offered, ahead and free for the whole business, each once and in order, with the first staff member who has it; fails if and only if the appointment is closed or a time it reads is malformed |
| RescheduleSlots.ListableIsInTables | apps/api/src/appointments/appointments.service.ts:1249-1286 | What is listed, told in rows: open and ahead, and clear of every other active appointment of the day, whoever has it |
| RescheduleSlots.UniqueSlotsByStartTime | apps/api/src/appointments/appointments.service.ts:1291-1301 | Fills the map by start time without replacing, for any list of slots |
| RescheduleSlots.UniqueKeepsTheFirst | apps/api/src/appointments/appointments.service.ts:1291-1301 | What it keeps is exactly the first slot of each start time: none twice and none lost |
| RescheduleSlots.UniqueOfSorted | apps/api/src/appointments/appointments.service.ts:1291-1301 | In a sorted list the kept times are in order, each with the first staff member who has it |
| RescheduleSlots.ListingAgreesWithTheGuard | apps/api/src/appointments/appointments.service.ts:1238-1289 | On a day with one offset the list and the reschedule guard agree: a move is allowed if and only if its slot is listable and is not the present time |
| Waitlist.CreateWaitlistEntry | apps/api/src/appointments/appointments.service.ts:676-729 | Creates a waiting entry, or changes nothing |
| Waitlist.AfterCreateEntryIsStored | apps/api/src/appointments/appointments.service.ts:690-727 | The entry keeps the dates and times asked for, with priority ten less two for each missed visit and never below zero, and one event |
| Waitlist.AcceptWaitlistOffer | apps/api/src/appointments/appointments.service.ts:439-466 | Accepting a pending offer in time books the released slot, same service, staff member and start, for the customer of the entry if the tables allow it, and otherwise changes nothing |
| Waitlist.CanAcceptIsMayBook | apps/api/src/appointments/appointments.service.ts:439-466 | Its condition and its effect, told in rows |
| Waitlist.CancelPrivateWaitlistEntry | apps/api/src/appointments/appointments.service.ts:598-614 | Withdraws a waiting or offered entry and leaves its pending offer alone |
| Waitlist.RejectWaitlistOffer | apps/api/src/appointments/appointments.service.ts:468-491 | When nothing commits in between: the rejection with the released appointment as it is |
| Waitlist.RejectWaitlistOfferRecord | apps/api/src/appointments/appointments.service.ts:731-767 | Rejects a live offer, reopens its entry only if still on offer, and emits one event built from the appointment as read before the transaction |
| Waitlist.AfterRejectIsStored | apps/api/src/appointments/appointments.service.ts:731-767 | One offer rejected, its entry waiting again if it was on offer, one event, nothing else |
| Waitlist.ExpireWaitlistOffers | apps/worker/internal/postgres/repository.go:153-225 | Expires every due offer, reopens entries still on offer, and emits one event for each appointment however many of its offers expire |
| Waitlist.AfterExpireIsStored | apps/worker/internal/postgres/repository.go:153-225 | Row by row: pending offers whose time has run out expire, their entries wait again if on offer, and each slot among them has exactly one event, in order |
| Waitlist.FindWaitlistCandidate | apps/worker/internal/postgres/repository.go:805-851 | Returns an entry that wants the slot and comes before every other that does, or none if none does |
| Waitlist.CandidateComesFirst | apps/worker/internal/postgres/repository.go:816-836 | It waits for that service, date and time, has no pending offer and was never offered the slot; no other such entry has higher priority, or as high and fewer missed visits, or both equal and is older |
| Waitlist.RunOnce | apps/worker/internal/postgres/repository.go:44-81 | A repeated delivery changes nothing, a handler error rolls everything back, and otherwise the event is recorded and its handler run in the same step |
| Waitlist.HandledIsStored | apps/worker/internal/worker/service.go:942-1036 | The three opportunity events make an offer of fifteen minutes to the entry that comes first, or none, with their events in order; every other event only its own |
| WaitlistPreferences.UtcDateIsLocalIff | apps/worker/internal/postgres/repository.go:818-819 | The date the candidate query compares is the local date of the slot if and only if the offset does not carry the time of day across midnight |
| WaitlistPreferences.UtcMinuteIsLocalIff | apps/worker/internal/postgres/repository.go:820-821 | The minute it compares is the local minute if and only if the offset is a whole number of days |
| WaitlistPreferences.PreferencesAreRespectedIffOnUtc | apps/worker/internal/postgres/repository.go:818-837 | For every offset of less than a day, the query respects all preferences if and only if the offset is zero |
| WaitlistPreferences.AnEveningSlotIsOfferedForTheNextDay | apps/worker/internal/postgres/repository.go:837 | Three hours behind UTC an evening slot is matched with an entry that only wants the next day |
| SeriesAdvance.AdvanceRecurringSeries | apps/worker/internal/postgres/repository.go:1108-1241 | Inserts the occurrence with its booked event, or emits a conflict, as the earlier check said; no guard and no buffer is consulted |
| SeriesAdvance.SlotIsTakenIffHeld | apps/worker/internal/postgres/repository.go:1091-1106 | The check finds the interval taken if and only if a pending, confirmed, completed or missed visit to that staff member meets it |
| SeriesAdvance.CreateRecurringAppointments | apps/worker/internal/worker/service.go:146-194 | The job advances each claimed series after its own check, and skips those whose check, token or transaction fails |
| SeriesAdvance.JobIsSteps | apps/worker/internal/worker/service.go:146-194 | Its states one by one: each step checks the state it finds and adds the occurrence as claimed or the event of a conflict |
| Runs.StepKeepsLinks | apps/api/prisma/schema.prisma:558-568 | Every transaction of the system keeps every foreign key pointing at a row and removes no row |
| Runs.ExpiryEventsKinds | apps/worker/internal/postgres/repository.go:167-218 | Every event the expiry emits is an expiry of an existing appointment with a due offer |
| TableSteps.EveryStepIsTold | apps/api/src/appointments/appointments.service.ts:205-1182 | Every step of the state machine, of the API or of the worker, is exactly what is told in the rows of the tables: its needs and all it leaves |
| TableSteps.ExpiryEventsAreUnique | apps/worker/internal/postgres/repository.go:171-218 | The events of an expiry are determined: in the order of the appointments, one for each that has a pending offer whose time ran out |
| StaffCalendar.NeverDoubleBooked | apps/api/src/appointments/appointments.service.ts:873-1236 | Over every run of booking, acceptance, series, rescheduling, cancelling and status updates whose guarded slots cover what they store and whose status updates revive nothing, no staff member has two overlapping active appointments |
| StaffCalendar.NeverDoubleBookedInSteadyZones | apps/api/src/appointments/appointments.service.ts:873-1236 | With one offset on each day of the zone, no revival and the worker's slot still free when it inserts, no run of bookings, acceptances, series, moves, cancellations, status updates and worker jobs ever books a staff member twice at the same time |
| StaffCalendar.AdvanceKeepsNoClashIff | apps/worker/internal/postgres/repository.go:1091-1136 | The worker's series step keeps the calendar free of overlaps if and only if it read a conflict or its slot is free at commit |
| StaffCalendar.JobKeepsNoClash | apps/worker/internal/worker/service.go:146-194 | A job of the worker that runs alone keeps the calendar free of overlaps, whichever of its steps fail |
| StaffCalendar.ConcurrentAdvancesDoubleBook | apps/worker/internal/worker/service.go:153-171 | Two workers that both check before either inserts book one interval twice |
| StaffCalendar.SteadyDayCovers | apps/api/src/appointments/appointments.service.ts:1207-1236 | On a day with one offset, passing the guard is enough: the slot always covers the booking |
| StaffCalendar.GuardKeepsClear | apps/api/src/appointments/appointments.service.ts:1207-1236 | A booking within a covering offered slot overlaps no active appointment of its staff member |
| StaffCalendar.GuardIsAdequateIffCovered | apps/api/src/appointments/appointments.service.ts:1368-1418 | An offered slot is safe against every possible calendar if and only if it covers the stored interval and the loaded day bounds contain it |
| StaffCalendar.RescheduleKeepsNoClash | apps/api/src/appointments/appointments.service.ts:873-988 | Rescheduling keeps the calendar free of overlaps in every time zone |
| StaffCalendar.SeriesKeepsNoClash | apps/api/src/appointments/recurring-series.service.ts:82-130 | So does every prefix of a series whose occurrences are covered |
| StaffCalendar.StatusKeepsNoClashIff | apps/api/src/appointments/appointments.service.ts:786-798 | A status update keeps the calendar free of overlaps if and only if it does not revive a closed appointment into a taken interval |
| StaffCalendar.MidnightChangeDoubleBooks | apps/api/src/appointments/appointments.service.ts:1368-1418 | When clocks go forward at midnight the day ends an hour early for the guard, which accepts an evening interval already taken |
| StaffCalendar.StepKeepsNoClash | apps/api/src/appointments/appointments.service.ts:873-1236 | One step of such a run |
| AttendanceCounters.CountersAlwaysAgree | apps/api/src/appointments/appointments.service.ts:1664-1691 | Over every run without stale reads, the completed and no-show counters of each customer equal the number of that customer's appointments in those states |
| AttendanceCounters.StatusKeepsCountersIff | apps/api/src/appointments/appointments.service.ts:786-798 | Whatever it read, a status update keeps the counters right if and only if what it writes is what the present status and counters call for |
| AttendanceCounters.SameStatusKeepsCountersIff | apps/api/src/appointments/appointments.service.ts:786-798 | If the status is still what it read: if and only if it moves no counter or the counters are unchanged as well |
| AttendanceCounters.TwoRequestsOnOneAppointment | apps/api/src/appointments/appointments.service.ts:769-798 | Two requests on one appointment that both read first: confirming after completing leaves the counters wrong, marking missed after completing leaves them right |
| AttendanceCounters.ClampNeverActs | apps/api/src/appointments/appointments.service.ts:1664-1680 | With agreeing counters the clamp at zero never acts |
| AttendanceCounters.CancelKeepsCountersIff | apps/api/src/appointments/appointments.service.ts:219-257 | A cancellation keeps the counters right if and only if the appointment had not meanwhile been completed or marked absent |
| AttendanceCounters.CancelManyKeepsCountersIff | apps/api/src/appointments/recurring-series.service.ts:292-304 | A series cancellation keeps them right if and only if no listed appointment was meanwhile completed or marked absent |
| AttendanceCounters.ConcurrentCompletionsLoseAVisit | apps/api/src/appointments/appointments.service.ts:769-798 | Two completions that both read before either commits count one visit for two |
| AttendanceCounters.StepKeepsCounters | apps/api/src/appointments/appointments.service.ts:1682-1691 | One step of such a run |
| WaitlistCoherence.AlwaysCoherent | apps/api/src/appointments/appointments.service.ts:1013-1026 | Waitlist coherence in every reachable state, over all interleavings of create, accept, reject, withdraw, match and expire |
| WaitlistCoherence.CoherentCounts | apps/worker/internal/postgres/repository.go:805-864 | Coherence as a table: waiting has no pending or accepted offer, offered exactly one pending, booked exactly one accepted, withdrawn at most one pending |
| WaitlistCoherence.StepKeepsCoherence | apps/api/src/appointments/appointments.service.ts:598-614 | Every transaction keeps it |
| WaitlistCoherence.AcceptKeepsCoherence | apps/api/src/appointments/appointments.service.ts:1117-1122 | Accepting keeps it although it does not look at the entry |
| WaitlistCoherence.ExpireKeepsCoherence | apps/worker/internal/postgres/repository.go:153-170 | Expiry keeps it |
| WaitlistCoherence.MatchKeepsCoherence | apps/worker/internal/postgres/repository.go:805-864 | Matching keeps it |
| WaitlistCoherence.SettledForever | apps/api/src/appointments/appointments.service.ts:1013-1026 | Over every run an offer leaves pending at most once, keeps its entry and slot, and a booked entry stays booked |
| WaitlistCoherence.BooksAtMostOnce | apps/api/src/appointments/appointments.service.ts:1117-1122 | An entry is booked by at most one acceptance in any run |
| WaitlistCoherence.WithdrawnStaysIffNotAccepted | apps/api/src/appointments/appointments.service.ts:1117-1122 | From every coherent state, a withdrawn entry stays withdrawn through a step if and only if the step does not accept an offer of it, and an acceptance books it |
| WaitlistCoherence.WithdrawnForeverIffNeverAccepted | apps/api/src/appointments/appointments.service.ts:1117-1122 | Over whole runs it is still withdrawn at the end if and only if no action accepted an offer of it |
| WaitlistCoherence.SafelyWithdrawnForever | apps/api/src/appointments/appointments.service.ts:598-614 | An entry withdrawn with no pending offer stays withdrawn in every run |
| WaitlistCoherence.PendingOfferBooksWithdrawn | apps/api/src/appointments/appointments.service.ts:439-466 | A withdrawn entry with a pending offer is booked by a run of one action whenever the offer can be accepted |
| WaitlistCoherence.WithdrawalIsFinalIff | apps/api/src/appointments/appointments.service.ts:598-614 | In a coherent state whose pending offer of the entry the guard lets through, a withdrawn entry stays withdrawn in every run if and only if it has no pending offer |
| WithdrawnEntry.AWithdrawnEntryCanBeBooked | apps/api/src/appointments/appointments.service.ts:598-614 | A run from the empty database in which an entry is offered a slot, withdrawn, and then booked by the offer that stayed pending |
| Reassignment.OpportunitiesAreConserved | apps/worker/internal/worker/service.go:942-1036 | In every reachable state the pending offers of a slot and its unprocessed opportunity events number no more than its cancellations |
| Reassignment.ReassignmentTerminates | apps/worker/internal/postgres/repository.go:828-833 | In a run of any length the match, accept, reject and expire steps of one slot are bounded by the potential at the start, the cancellations emitted and three times the entries added |
| Reassignment.NoSlotIsOfferedTwice | apps/worker/internal/postgres/repository.go:828-833 | No entry is offered the same slot twice in any run |
| Reassignment.StepAccounts | apps/worker/internal/worker/service.go:252-269 | The account of one step: offers and opportunities rise by no more than the cancellations it emits, and a reassigning step lowers the potential |
| Reassignment.ExpireAccounts | apps/worker/internal/postgres/repository.go:153-225 | Expiry turns pending offers into one opportunity and no more |
| Reassignment.MatchAccounts | apps/worker/internal/worker/service.go:942-1036 | Matching turns one opportunity into one offer, or into none |
| Delivery.AtLeastOnceRefinesOnce | apps/worker/internal/postgres/repository.go:44-81 | For every interleaving of commits, overlapping polls, crashes, lost confirmations, redelivery and requeue, the database equals the handlers applied once each, in commit order, to the processed events |
| Delivery.EachEventIsHandledOnce | apps/worker/internal/postgres/repository.go:58-67 | In such a trace no event occurs twice and the handled set is exactly what occurs |
| Delivery.DataStepRefines | apps/worker/internal/worker/service.go:95-106 | A first delivery is one step of the once-only system |
| Delivery.OtherStepsStutter | apps/api/src/events/event-publisher.service.ts:52-100 | Publishing, marking, crashing and moving messages change nothing the once-only system sees |
| Delivery.RoutedEventsAreNotLost | apps/worker/cmd/worker/runner.go:177-202 | At every reachable state an event waits, is in flight or is processed if and only if a publish of it was routed, and only undecodable messages are dead-lettered |
| Delivery.PublishedEventsAreNotLost | apps/worker/cmd/worker/main.go:29-54 | Once the queue is bound, every event marked published under a bound key is waiting, in flight or processed |
| Delivery.PublishedBeforeBindingIsLost | apps/worker/cmd/worker/runner.go:142-175 | An event confirmed before the queue is first bound is marked published and is nowhere |
| Delivery.PublishedWithoutItsKeyIsLost | apps/worker/cmd/worker/runner.go:142-175 | So is an event whose key no binding has, although the queue was bound from the start |
| Delivery.AttemptsStayBounded | apps/api/src/events/event-publisher.service.ts:144-153 | With at most n publishers on a row at once, it is never tried more than 4 + n times |
| EventPublisher.Publisher.PublishPending | apps/api/src/events/event-publisher.service.ts:52-100 | One poll gives each reached row of the oldest batch its answer and touches no other row; without a channel it marks every row of the batch failed |
| EventPublisher.Publisher.PublishBatch | apps/api/src/events/event-publisher.service.ts:77-94 | The loop sends in order and stops at the first event whose failure cannot be recorded |
| EventPublisher.Publisher.MarkAllFailed | apps/api/src/events/event-publisher.service.ts:69-75 | A failed channel set-up uses one try of each row whose update succeeds |
| EventPublisher.PollingEnds | apps/api/src/events/event-publisher.service.ts:52-61 | Over any series of polls whose updates reach the database, the rows selected number at most five for each row, whatever the broker answers |
| EventPublisher.NothingLeftToPublish | apps/api/src/events/event-publisher.service.ts:53-64 | The query is empty if and only if every row is published or given up after five attempts |
| EventPublisher.ABatchExists | apps/api/src/events/event-publisher.service.ts:53-60 | Some set of at most 25 oldest selectable rows always answers the query |
| EventPublisher.BatchIsTheOldest | apps/api/src/events/event-publisher.service.ts:53-61 | What it holds: unpublished rows with fewer than five attempts, at most 25, and every such row left out is no older and finds the batch full |
| EventPublisher.PollUsesTries | apps/api/src/events/event-publisher.service.ts:77-94 | A poll whose updates reach the database uses up a try of every row it selected |
| EventPublisher.PollIsARun | apps/api/src/events/event-publisher.service.ts:77-94 | A whole poll is a run of the delivery step system that ends with the table the publisher leaves |
| EndToEnd.DeliveryRefinesRuns | apps/worker/internal/postgres/repository.go:44-81 | Run with the real waitlist handler and recalculation, and any other handlers that fail or emit events of their own, the delivery system with all its crashes and redeliveries reaches only databases and metrics rows that the state machine of transactions reaches |
| EndToEnd.WaitlistSurvivesRedelivery | apps/worker/internal/worker/service.go:942-1036 | So in every such run the waitlist is coherent and one cancellation never yields two live offers |
| EndToEnd.RowsSurviveRedelivery | apps/worker/internal/worker/service.go:1177-1180 | And in every such run whose commits do not disturb a day, its metrics row is fresh once the events that recalculate it are processed |
| EndToEnd.HandlingIsADelivery | apps/worker/internal/worker/service.go:95-106 | Handling an event once is the delivery step of that state machine, with the events its handler emits and the metrics row it writes |
| Reminders.Scheduler.SendDueReminders | apps/worker/internal/worker/service.go:108-135 | One pass claims the batch, records each result until a recording fails, and leaves the rest claimed and every other row untouched |
| Reminders.Scheduler.Claim | apps/worker/internal/postgres/repository.go:236-254 | Claiming counts an attempt and defers the row by five minutes |
| Reminders.ARoomyClaimTakesAllDue | apps/worker/internal/postgres/repository.go:236-247 | A claim below its limit took exactly the reminders that are not sent, have attempts left and whose time has come |
| Reminders.AFullClaimTakesTheEarliest | apps/worker/internal/postgres/repository.go:243-245 | What a claim left behind is due no earlier than what it took, and no older among equals |
| Reminders.AClaimExists | apps/worker/internal/postgres/repository.go:236-254 | Some set of earliest due reminders always answers the claim |
| Reminders.RetriesAreBoundedAndSpaced | apps/worker/internal/worker/service.go:584-592 | Between re-arms a reminder is attempted at most the maximum number of times, attempt k + 1 at least min(5, k squared) minutes after attempt k, and attempt n at least (n-1)n(2n-1)/6 minutes after the first if every result is recorded |
| Reminders.NothingAfterTheEnd | apps/worker/internal/postgres/repository.go:351-362 | After a recorded success, or a recorded last failure, nothing happens until the reminder is armed again |
| Reminders.ReArmIsKeptIffNothingInFlight | apps/worker/internal/postgres/repository.go:445-458 | A re-arm is kept until the next attempt if and only if no attempt was waiting to be recorded; otherwise a late success cancels it for good |
| Reminders.FirstAttemptIsDue | apps/worker/internal/postgres/repository.go:240-245 | The first attempt after a clean re-arm is not early |
| Reminders.APassIsAnAttempt | apps/worker/internal/worker/service.go:119-132 | What a pass does to a row is an attempt followed by its recording, or by nothing |
| RefreshTokens.AuthService.Refresh | apps/api/src/auth/auth.service.ts:82-120 | A usable token is exchanged for one of its family that lives thirty days, and revoked; an unexpired revoked one revokes its family and no other; anything else changes nothing |
| RefreshTokens.AuthService.RevokeFamily | apps/api/src/auth/auth.service.ts:95-102 | Revokes every token of the family and no other |
| RefreshTokens.AuthService.Logout | apps/api/src/auth/auth.service.ts:172-182 | Revokes the presented token only |
| RefreshTokens.AtMostOneUsable | apps/api/src/auth/auth.service.ts:82-120 | In every run in which no refresh is overtaken, all tokens of a family but the newest are revoked, so at most one is usable |
| RefreshTokens.DeadFamiliesStayDead | apps/api/src/auth/auth.service.ts:93-102 | A family without a live token never has one again in such a run |
| RefreshTokens.KilledForEver | apps/api/src/auth/auth.service.ts:93-102 | After a reuse, or a logout of the newest token, no token of the family is usable ever again |
| RefreshTokens.RotationIsSafeIffNotOvertaken | apps/api/src/auth/auth.service.ts:106-112 | The rotation keeps one live token per family and revives no dead family if and only if its row is still unrevoked at commit, which the code does not check |
| RefreshTokens.OneAtATimeIsNeverOvertaken | apps/api/src/auth/auth.service.ts:82-120 | In every run in which each rotation directly follows the look of its own token, no rotation is overtaken |
| RefreshTokens.SequentialRotationIsSafe | apps/api/src/auth/auth.service.ts:82-120 | So in every such run at most one token of a family is usable, and none is after a reuse or a logout of the newest |
| RefreshTokens.LookAndRotateIsARefresh | apps/api/src/auth/auth.service.ts:82-120 | A look and the rotation after it are one call of refresh |
| RefreshTokens.ReuseIsARefresh | apps/api/src/auth/auth.service.ts:93-102 | Presenting a revoked token that has not expired is one call of refresh, and leaves its family dead |
| RefreshTokens.ARotationFollowsALook | apps/api/src/auth/auth.service.ts:84-91 | In every run a rotation is of a token that some request found usable before |
| RefreshTokens.ConcurrentRefreshesForkTheFamily | apps/api/src/auth/auth.service.ts:84-112 | Two concurrent uses of one token leave the family with two usable tokens |
| CalendarSync.CalendarService.UpsertCalendarEvent | apps/worker/internal/worker/service.go:783-833 | The handler, call by call, for every combination of failing calls |
| CalendarSync.CalendarService.DeleteCalendarEvent | apps/worker/internal/worker/service.go:841-849 | The deletion, for every outcome of its call |
| CalendarSync.CalendarService.DeleteDuplicateCalendarEvents | apps/worker/internal/worker/service.go:835-839 | Deletes each listed event whose call takes effect, and no other |
| CalendarSync.UpsertLeavesOthers | apps/worker/internal/worker/service.go:783-833 | Whatever calls fail and whether or not the transaction commits, events and records of other appointments are untouched |
| CalendarSync.HistoriesAreValid | apps/worker/internal/postgres/repository.go:646-684 | After any history a recorded event id is the appointment's own event or no longer exists |
| CalendarSync.UpsertRecordsTheEvent | apps/worker/internal/worker/service.go:783-833 | When all calls succeed the recorded event exists with the current content |
| CalendarSync.OnlyANotFoundCreatesAnew | apps/worker/internal/worker/service.go:806-820 | An update answered with 404 creates the event anew; any other failure creates nothing and records the failure |
| CalendarSync.OneUpsertConvergesIff | apps/worker/internal/worker/service.go:806-831 | One successful upsert leaves a single event if and only if the recorded event had not vanished while a duplicate survived |
| CalendarSync.AnEventCanBeLostAndDuplicated | apps/worker/internal/worker/service.go:808-815 | A history that reaches that state: an upsert, the event deleted in the calendar, and a create that takes effect but reports an error; a successful upsert then leaves two events |
| CalendarSync.TwoUpsertsConverge | apps/worker/internal/worker/service.go:783-833 | Two successful upserts in a row, also through the 404 branch, leave exactly one event with the latest content |
| CalendarSync.ConvergedIsAFixpoint | apps/worker/internal/worker/service.go:822-832 | A further upsert of the same content changes nothing |
| CalendarSync.AnyHistoryThenTwoUpserts | apps/worker/internal/worker/service.go:783-849 | All of this after any history of failing handlers, rollbacks and events deleted in the calendar |
| CalendarSync.DeleteLeavesNothingIff | apps/worker/internal/worker/service.go:841-849 | A successful delete leaves no event of the appointment if and only if the recorded one was the only one |
| Metrics.RowsSumToTheMonth | apps/api/src/dashboard/dashboard.service.ts:368-397 | If every day has the row a recalculation would find, and empty days none, the sum of the rows is the aggregate of the month's appointments |
| Metrics.AStaleDayShows | apps/api/src/dashboard/dashboard.service.ts:65-66 | Among otherwise fresh rows the sum is right if and only if the remaining day is fresh as well |
| Metrics.EveryStatusIsCounted | apps/worker/internal/postgres/repository.go:696-703 | Total is active plus completed plus cancelled plus no-show |
| Metrics.SumDailyMetrics | apps/api/src/dashboard/dashboard.service.ts:368-397 | The fold over rows sums every column |
| Metrics.SumMetricsFromAppointments | apps/api/src/dashboard/dashboard.service.ts:399-438 | The fold over appointments computes what the worker's query selects |
| Metrics.MonthlySummary | apps/api/src/dashboard/dashboard.service.ts:65-66 | The dashboard uses the rows if there is any and the appointments otherwise, and shows the month's aggregate either way when every day is fresh |
| Metrics.DailyMetrics.Recalculate | apps/worker/internal/postgres/repository.go:686-761 | Writes the day's aggregate, or nothing when the day is empty, and returns the aggregate either way |
| Metrics.RecalculationRefreshesIff | apps/worker/internal/postgres/repository.go:740-761 | A recalculation refreshes its day if and only if the day has an appointment or has no row |
| Metrics.ChangeThenRecalculate | apps/worker/internal/worker/service.go:1177-1180 | A change that stays on its day is made good everywhere by the recalculation that follows |
| Metrics.RescheduleKeepsFreshIffSameDay | apps/worker/internal/worker/service.go:324-342 | After a reschedule and its recalculation all days are fresh if and only if the appointment stayed on its day |
| Metrics.GetStaffMetricsList | apps/api/src/dashboard/dashboard.service.ts:206-267 | The team page holds for each staff member the sum of that member's daily rows if there is any row, and of that member's appointments otherwise |
| Metrics.StaffSumSumsColumns | apps/api/src/dashboard/dashboard.service.ts:213-230 | The sum of a staff member's daily rows sums each column |
| Metrics.StaffMetrics | apps/api/src/dashboard/dashboard.service.ts:232-267 | The map filled in one pass over the appointments holds for each staff member the totals of that member's appointments |
| Metrics.SumStaffMetricsFromAppointments | apps/api/src/dashboard/dashboard.service.ts:567-587 | Summing one member's appointments directly gives the same totals |
| FreshDays.HandledDaysAreFresh | apps/worker/internal/worker/service.go:252-269 | Over every run from the empty database, once the events that recalculate a day are handled its row is fresh, if since the last recalculation that found an appointment on the day, or ever, nothing was moved away from it, revived on it, or moved to it and then cancelled by a series cancellation that had read it elsewhere |
| FreshDays.HandledMonthsAddUp | apps/api/src/dashboard/dashboard.service.ts:65-66 | So the sum of a month's rows is the aggregate of its appointments once its events are handled |
| FreshDays.StepKeepsUp | apps/worker/internal/worker/service.go:1177-1180 | Every transaction that changes a day emits an event that recalculates it, with those three exceptions |
| FreshDays.StepKeepsUpIff | apps/worker/internal/worker/service.go:1177-1180 | The exceptions are exact: a fresh day with no event to be handled is fresh or has such an event after a transaction if and only if the transaction is none of the three |
| FreshDays.CancelSeriesKeepsUpIff | apps/api/src/appointments/recurring-series.service.ts:232-314 | In particular, with no event of the day to be handled, a series cancellation leaves its fresh row wrong and no event to correct it if and only if it cancels a row of the day that was not cancelled and had read no row on it |
| FreshDays.HandlingRepairs | apps/worker/internal/worker/service.go:1177-1180 | Whatever happened before, handling an event of a day that has appointments brings its row up to date |
| FreshDays.DeliveriesDoNotRepair | apps/worker/internal/worker/service.go:252-269 | A wrong row of a day with no event to be handled is corrected by no delivery |
| FreshDays.ARevivalStalesItsDay | apps/worker/internal/worker/service.go:252-269 | A status update that revives a closed appointment makes a fresh day stale and emits nothing that would refresh it, because a confirmation has no handler |
| MovedUnread.AMoveUnreadStalesItsNewDay | apps/api/src/appointments/recurring-series.service.ts:232-314 | A run from the empty database in which a series cancellation reads its row, the customer moves the appointment to another day, and the cancellation commits: the new day was fresh, counts a cancelled appointment as active afterwards, and no event is left that would correct it |
| FreshDays.TheOtherKindsDoNot | apps/worker/internal/worker/service.go:252-269 | Which kinds recalculate nothing: a confirmation, the release and reassignment of a slot, and what concerns entries, offers made or accepted, series and the worker itself |
| Slug.SlugMatchesPattern | apps/api/src/common/slug.ts:1-9 | A normalised name is empty or matches the public slug pattern, and keeps the name's letters and digits in order |
| Slug.SlugIsSqueezed | apps/api/src/common/slug.ts:1-9 | The chain of replacements and trims is one pass: letters lowered and digits kept in order, with one hyphen for whatever stood between two of them |
| Slug.SlugIsAFixpoint | apps/api/src/common/slug.ts:1-9 | Normalising leaves every string that matches the pattern unchanged, so it is idempotent |
| Slug.MatchHasForm | apps/api/src/businesses/dto/business.dto.ts:8 | Every string the pattern accepts starts and ends with a letter or digit and has no two hyphens together |
| Slug.FormMatches | apps/api/src/businesses/dto/business.dto.ts:8 | Every such string is accepted by the pattern |
| Slug.PatternIsNeighbours | apps/api/src/businesses/dto/business.dto.ts:8 | The pattern, told in characters: letters, digits and hyphens, no hyphen at an end and no two together |
| Slug.CreateAvailableSlug | apps/api/src/businesses/businesses.service.ts:1105-1124 | Returns the first of a hundred candidates that is not in use, which matches the pattern; fails if and only if the name is empty or all hundred are in use |
| Slug.GivingUpNeedsAHundred | apps/api/src/businesses/businesses.service.ts:1112-1123 | The candidates are distinct, so giving up means that a hundred slugs are in use |

## Left out

- Isolation anomalies inside one transaction, such as two overlapping recalculations of one day, and the exclusion constraint on appointments; transactions are atomic and run one after another.
- Skipping of locked rows (SKIP LOCKED): the model's claim and candidate queries see every row.
- Other businesses: the tables hold one business, whose rows no other business's requests touch.
- Delivery: messages that decode to an id with no outbox row are not produced; undecodable foreign messages are.
- Delivery.PublishedEventsAreNotLost: says nothing of when a waiting message is delivered, because the broker's scheduling is not part of this model.
- EventPublisher.Publisher.PublishPending: runs without interleaved transactions, because the step system of Delivery carries the interleavings.
- Reminders: one scheduler; two of them could hold two unrecorded attempts of a row.
- Waitlist.RunOnce: models the handler that looks for a candidate; whether a handler fails and what the others emit are parameters, because what they emit concerns reminders, risk and metrics.
- Appointments.CreateAppointmentInTransaction: deposits and payments are not modelled, because they are decided by a single guard and change no other table.
- Appointments.CancelByCustomer: how the caller proves to own the appointment (token, portal session) is not modelled.
- Public listings and other read-only queries.
- Appointments.SelectAvailableStaffMember: does not say which of several slots of one staff member and one start comes first, because that arises only on days with more than one offset.
- The order of staff members is that of integers, where the code compares ids as text; any fixed order gives the same results.
- AvailabilityException and rule times are strings as in the code; dates are day numbers, so malformed dates are not modelled.
- Metrics: 32-bit overflow of the casts to int; changing prices. Nothing writes the table of daily staff totals, so its rows are a parameter.
- Slug: names are ASCII; Unicode decomposition and case folding beyond ASCII. The race between the search and the insert, which the unique index on slug decides.
- CalendarSync: paging of the calendar's list call, token encryption and connection status; the calendar answers 404 for an update exactly if the event does not exist or the call breaks.
- RefreshTokens: hashing, access tokens and invitations.
- SeriesAdvance.AdvanceRecurringSeries: the schedule and status of a series (next occurrence, count, completion event) are not modelled, so any claim may be advanced at any time. The claim query itself returns nothing while a series' advance notice is zero, as it is when created, and a series update can raise it.
- E-mail, audit rows, customer risk scores, onboarding, reviews, notes, controllers, rate limits and the web application.
