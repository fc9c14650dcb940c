# Barbershop booking: slot availability and the booking wizard

This project models the booking core of a barbershop web app in Dafny. It has three parts.

- **The availability slot computer** (`src/lib/timeUtils.ts`). It converts `"HH:MM"` to minutes and back. For a date, a service duration and the times already booked, it lists that day's candidate start times, one every `slotMinutes` minutes from opening time while the whole service still fits before closing. It gives each candidate exactly one status, checked in a fixed order: busy, then break, then past, otherwise available.
- **The business calendar** (`src/types/barbershop.ts`). The shop's opening hours, breaks and slot step are the constant `ShopConfig`. The records `Service`, `Barber` and `BookingData` and the appointment status enum are datatypes.
- **The booking wizard** (`src/components/BookingModal.tsx`). It is a five-step state machine over a `BookingData` record. The component's `step` and `bookingData` state cells are fields of the class `BookingWizard.Wizard`, and so is the insert under way while the store has not answered. Each named handler is a method, and so are the `onChange` handlers of the name and phone inputs.

Modelling choices:

- **Dates.** A date is a local day number: days since 1970-01-01, which was a Thursday. `getDay()` is `(date + 4) % 7`.
- **The clock.** The clock is the parameter `now`, in local milliseconds since the same epoch. `setHours(h, m, 0, 0)` on a date becomes `date * 86400000 + h * 3600000 + m * 60000`, which rolls hours past 23 into later days just as `setHours` does.
- **The calendar.** The evaluator takes the calendar as a parameter `cfg`. Its precondition `Evaluable(cfg)` asks only that every time string be readable and that the step be positive. `CalendarFacts` proves that `ShopConfig` meets this and every further invariant: clock times, open days that open before they close, breaks inside the opening hours, and breaks that do not overlap.
- **The slot loop.** `BuildTimeSlots` keeps the source's loop. It is proved equal to the closed-form `TimeSlots`, whose k-th slot starts at `startMin + k * slotMinutes`. Every property of the result is proved about `TimeSlots`.
- **JavaScript built-ins.** `String(n)`, `Number(s)` on digit strings, `padStart(2, '0')`, `trim()` and `replace(':', 'h')` are written out in `JsText`. `trim()` uses the whitespace and line-terminator set of ECMAScript (section 12.2 and 12.3 of ECMA-262).
- **The wizard's inputs.** These are parameters:
  - the booked times fetched for the chosen date and barber;
  - whether a user is signed in;
  - whether the store accepts the insert.

## Model

| member | source | states |
|---|---|---|
| JsText.NatToStringValue | src/lib/timeUtils.ts:11 | `Number(String(n)) == n` for every non-negative `n` |
| JsText.PaddedBelow100 | src/lib/timeUtils.ts:11 | below 100, `String(n).padStart(2, '0')` is two digits that read back as `n` |
| JsText.TwoDigitsCanonical | src/lib/timeUtils.ts:4-11 | a two-digit numeral is the zero-padded rendering of its own value |
| JsText.TrimStart | src/components/BookingModal.tsx:112 | leading whitespace is dropped: the result is a suffix, the dropped part is all whitespace, and the result starts with a non-blank |
| JsText.TrimEnd | src/components/BookingModal.tsx:112 | trailing whitespace is dropped: the result is a prefix, the dropped part is all whitespace, and the result ends with a non-blank |
| JsText.TrimEmptyIffBlank | src/components/BookingModal.tsx:112 | `s.trim()` is empty exactly when every character of `s` is whitespace |
| JsText.FirstIndexOf | src/lib/timeUtils.ts:89 | the index of the first occurrence, or the length when there is none |
| JsText.ReplaceFirst | src/lib/timeUtils.ts:89 | a one-character string pattern replaces only its first occurrence, and the length is kept |
| Barbershop.ParseStatus | src/types/barbershop.ts:29 | a stored status is exactly one of `pendente`, `confirmado`, `concluido`, `cancelado` |
| Barbershop.StatusTextRoundTrip | src/types/barbershop.ts:29 | each status reads back as itself, and distinct statuses have distinct texts |
| TimeUtils.TimeToMinutes | src/lib/timeUtils.ts:3-6 | minutes since midnight: hour and minute are its quotient and remainder by 60, and it is below 1440 for a clock time |
| TimeUtils.MinutesToTime | src/lib/timeUtils.ts:8-12 | hour and minute fields read as `m / 60` and `m % 60`; five characters below 6000 minutes; a clock time below 1440 |
| TimeUtils.MinutesToTimeRoundTrip | src/lib/timeUtils.ts:3-12 | `timeToMinutes(minutesToTime(m)) == m` for every non-negative `m` |
| TimeUtils.TimeToMinutesRoundTrip | src/lib/timeUtils.ts:3-12 | `minutesToTime(timeToMinutes(s)) == s` for every `"HH:MM"` clock time |
| TimeUtils.TimeToMinutesInjective | src/lib/timeUtils.ts:3-6 | two clock times have the same minute count exactly when they are the same string |
| TimeUtils.FormatTime | src/lib/timeUtils.ts:88-90 | only the first `:` becomes `h`; for a time string that colon is the one before the minutes |
| TimeUtils.GetLocalDateStringFields | src/lib/timeUtils.ts:92-97 | the result is `year-MM-DD`: the year as `String(year)`, then two digits reading as the one-based month, then two digits reading as the day; ten characters for a four-digit year |
| TimeUtils.Weekday | src/lib/timeUtils.ts:15 | `getDay()` is a weekday from 0 to 6 |
| TimeUtils.WeekdayCycle | src/lib/timeUtils.ts:15 | day 0 (1970-01-01) is a Thursday, each next day is the next weekday with Saturday followed by Sunday, and the weekdays repeat every seven days |
| TimeUtils.GetOpenRangeForDate | src/lib/timeUtils.ts:14-25 | null exactly on a weekday without opening hours; otherwise the opening and closing minutes of that weekday and its key |
| TimeUtils.AnyBreakCoversIff | src/lib/timeUtils.ts:31-35 | `breaks.some(...)` holds exactly when some break has `start <= t < end` |
| TimeUtils.IsInBreak | src/lib/timeUtils.ts:27-36 | a time is in a break exactly when it lies in some break of that weekday, start included and end excluded; a weekday without breaks has none |
| TimeUtils.IsPastTime | src/lib/timeUtils.ts:38-44 | true exactly when the date at `time:00.000` is strictly before `now` |
| TimeUtils.SlotCountFits | src/lib/timeUtils.ts:62 | each of the counted starts leaves room for the service before closing |
| TimeUtils.OnGrid | src/lib/timeUtils.ts:62 | a start reached after `k` steps is no earlier than opening and lies on the step grid |
| TimeUtils.BuildTimeSlots | src/lib/timeUtils.ts:51-78 | the loop yields exactly `TimeSlots`: slot k starts at `startMin + k * slotMinutes`, for every start that fits |
| SlotFacts.ClosedDayHasNoSlots | src/lib/timeUtils.ts:56-57 | a weekday without opening hours has no slots, whatever the duration and the bookings |
| SlotFacts.SlotCountOnOpenDay | src/lib/timeUtils.ts:59-62 | the number of slots is `(endMin - durationMin - startMin) / slotMinutes + 1` when the service fits, and 0 when it is longer than the day |
| SlotFacts.SlotMinute | src/lib/timeUtils.ts:62-63 | slot k's time reads back as `startMin + k * slotMinutes` |
| SlotFacts.SlotsFitOpeningHours | src/lib/timeUtils.ts:62 | every slot starts no earlier than opening, ends by closing, and lies on the grid |
| SlotFacts.GridStart | src/lib/timeUtils.ts:62 | a counted start `k` steps after opening lies on the grid, no earlier than opening, and ends by closing |
| SlotFacts.EveryFittingStartIsOffered | src/lib/timeUtils.ts:62 | every grid start that fits before closing is offered, at its own index |
| SlotFacts.SlotsAscending | src/lib/timeUtils.ts:59-77 | slots come out in strictly ascending time order |
| SlotFacts.StatusPrecedence | src/lib/timeUtils.ts:63-73 | a booked time is busy even in a break or in the past; a break beats the past; available means none of the three |
| SlotFacts.AvailableSlotIsFree | src/lib/timeUtils.ts:66-67 | an available slot is never a booked time |
| CalendarFacts.CalendarTimes | src/types/barbershop.ts:76-93 | the calendar's times are clock times at minutes 540, 720, 780, 1080 and 1200 |
| CalendarFacts.ShopEntries | src/types/barbershop.ts:76-93 | the calendar's entries, weekday by weekday |
| CalendarFacts.ShopClockTimes | src/types/barbershop.ts:76-93 | every time in the calendar is an `"HH:MM"` clock time |
| CalendarFacts.ShopDaysOrdered | src/types/barbershop.ts:78-83 | every open day opens before it closes |
| CalendarFacts.ShopBreaksInside | src/types/barbershop.ts:85-93 | breaks fall only on open days, each inside that day's opening hours and starting before it ends |
| CalendarFacts.ShopBreaksDisjoint | src/types/barbershop.ts:85-93 | no two breaks of a day overlap |
| CalendarFacts.ShopConfigIsValid | src/types/barbershop.ts:70-95 | the shop's calendar has every invariant the evaluator relies on |
| CalendarFacts.ShopConfigIsEvaluable | src/types/barbershop.ts:94 | the calendar's times are readable and its step is positive, so the slot loop ends |
| CalendarFacts.SundayIsClosed | src/types/barbershop.ts:77-86 | Sunday has no opening hours and no breaks, so no Sunday has slots |
| CalendarFacts.ShopOpeningHours | src/types/barbershop.ts:76-93 | Monday to Friday open from minute 540 to 1200, Saturday to 1080, Sunday closed; every open day has the 12:00-13:00 break |
| CalendarFacts.ShopSlotCount | src/types/barbershop.ts:78-94 | on an open day, the number of half-hour slots that fit for a given duration |
| CalendarFacts.ShopSlotMinute | src/types/barbershop.ts:78-94 | on an open day, slot k starts at minute `540 + 30 * k` |
| CalendarFacts.ShopBreak | src/types/barbershop.ts:86-93 | on an open day, a time is in the break exactly when it is from minute 720 up to, but not including, minute 780 |
| CalendarFacts.BreakOnlyAtNoon | src/lib/timeUtils.ts:62-73 | on an open day, only slots 6 and 7 (12:00 and 12:30) are breaks, and only when they are not booked |
| CalendarFacts.SlotTimesAreClockTimes | src/lib/timeUtils.ts:62-63 | on a valid calendar every slot time is an `"HH:MM"` clock time |
| CalendarFacts.NothingPastBeforeTheDay | src/lib/timeUtils.ts:38-44 | before a day begins, none of its times is in the past |
| CalendarFacts.MondayExample | src/lib/timeUtils.ts:62-73 | a Monday with a 60-minute service has 21 slots, 09:00 to 19:00 every half hour, and only 12:00 and 12:30 are breaks, unless booked |
| CalendarFacts.SaturdayExample | src/lib/timeUtils.ts:62 | a Saturday with a 60-minute service has 17 slots, the last at 17:00 |
| CalendarFacts.MondayWithOneBooking | src/lib/timeUtils.ts:62-73 | a Monday with 14:00 booked, seen before the day starts: 14:00 is busy, 12:00 and 12:30 are breaks, the rest are available |
| CalendarFacts.OneBookingSlot | src/lib/timeUtils.ts:63-73 | the status of each single slot of that Monday |
| CalendarFacts.OnlyTenthSlotIsTwoPm | src/lib/timeUtils.ts:62-63 | on a Monday, slot k is 14:00 exactly when k is 10 |
| CalendarFacts.TenthSlotIsTwoPm | src/lib/timeUtils.ts:62-63 | slot 10 of a Monday is 14:00 |
| CalendarFacts.RenderClockTime | src/lib/timeUtils.ts:8-12 | minute `60 * h + m` is rendered as the zero-padded `"HH:MM"` |
| BookingWizard.ConfirmResult | src/components/BookingModal.tsx:111-134 | a blank name is refused first; then no user, a missing choice or an empty time fails before inserting; then the store's answer decides; each outcome holds exactly under its condition |
| BookingWizard.Wizard.constructor | src/components/BookingModal.tsx:21-30 | the wizard starts on step 1 with nothing chosen, every text empty and no insert under way |
| BookingWizard.Wizard.HandleClose | src/components/BookingModal.tsx:74-86 | back to step 1, with service, barber, date and time cleared and name, phone and notes empty; an insert under way is not cancelled |
| BookingWizard.Wizard.SelectService | src/components/BookingModal.tsx:88-91 | sets the service, clears the time, goes to step 2; nothing else changes |
| BookingWizard.Wizard.SelectBarber | src/components/BookingModal.tsx:93-96 | sets the barber, clears the time, goes to step 3; nothing else changes |
| BookingWizard.Wizard.SelectDate | src/components/BookingModal.tsx:98-100 | sets the date and clears the time; the step is unchanged |
| BookingWizard.Wizard.SelectTime | src/components/BookingModal.tsx:102-109 | a booked time is refused and leaves the state unchanged; any other time is recorded and moves to step 4 |
| BookingWizard.Wizard.SetClientName | src/components/BookingModal.tsx:305 | the name becomes the typed text; the step and every other field are unchanged |
| BookingWizard.Wizard.SetClientPhone | src/components/BookingModal.tsx:314 | the phone becomes the typed text; the step and every other field are unchanged |
| BookingWizard.Wizard.HandleConfirm | src/components/BookingModal.tsx:111-124 | up to the `await`: a blank name, no signed-in user, a missing choice or an empty time is refused with nothing changed; otherwise the unchanged record is handed to the store and awaits its answer |
| BookingWizard.Wizard.FinishConfirm | src/components/BookingModal.tsx:124-133 | after the `await`: acceptance moves to step 5 from whatever step the wizard is on by then, a refusal keeps the step; the record is untouched and nothing is pending any more |
| BookingWizard.Wizard.ConfirmUninterrupted | src/components/BookingModal.tsx:111-134 | a confirm with nothing in between ends in `ConfirmResult`; only a stored appointment moves to step 5, and the record is never changed |
| BookingWizard.Wizard.CloseWhileSaving | src/components/BookingModal.tsx:74-86 | closing while the insert is under way, then acceptance, ends on step 5 over an empty record |
| BookingWizard.Wizard.BackWhileSaving | src/components/BookingModal.tsx:136 | going back from step 4 while the insert is under way, then acceptance, jumps from step 3 to step 5 |
| BookingWizard.Wizard.PrevStep | src/components/BookingModal.tsx:136 | `max(1, step - 1)`: one step back, never below 1, and the booking is unchanged |
| BookingWizard.Wizard.ClickSlot | src/components/BookingModal.tsx:273-274 | only an available slot reaches `selectTime`, and an available slot is always accepted there |

## Left out

- `formatDate` (src/lib/timeUtils.ts:80-86) is not modelled. It depends on the pt-BR locale formatting of `toLocaleDateString`.
- Time zones and daylight-saving changes are not modelled. Dates and `now` are local wall-clock values on one epoch, so `IsPastTime` assumes every day has 24 hours.
- `GetLocalDateString` takes the year, the zero-based month and the day as integers, which is what `getFullYear`, `getMonth` and `getDate` give. The day number of a date is not converted to a year, month and day.
- `TimeToMinutes` is defined only on digit strings of the form `H…H:MM`. Other input is outside the model. On such input JavaScript returns NaN for some strings and a number for others: `"9:5"` gives 545, `"09:00:00"` gives 540 and `":30"` gives 30. The calendar's times and the slot times are all proved to be of the modelled form.
- `VisibleSlots` stands for the rendered slot list. `ClickSlot` requires the clicked index to be one of its slots, because only rendered buttons can be clicked.
- `SlotTimesAreClockTimes` requires a duration of zero or more. With a negative duration a slot could start after closing, past 23:59, and render with an hour of 24 or more.
- The wizard's effects at src/components/BookingModal.tsx:44-71 are not modelled. These are the initial-service pre-selection, the pre-fill of name and phone, and the sign-in prompt. They are driven by props and an external session.
- The date input's parse of `YYYY-MM-DD` into a `Date` (src/components/BookingModal.tsx:254-257) is not modelled. `SelectDate` takes the day number directly.
- Service durations are whole minutes (`int`). JavaScript allows a fractional `duration_min`, which the model does not cover.
- The `onClose()` callback of `handleClose` (src/components/BookingModal.tsx:85) belongs to the parent page and is not modelled.
- Only one insert is under way at a time. The confirm button is disabled while one is pending (src/components/BookingModal.tsx:363, 430), so `HandleConfirm` requires that nothing is pending. Back, Close and the other handlers stay usable while it waits.
- Saving the name and phone to `localStorage` (src/components/BookingModal.tsx:53-63, 118-121) is browser I/O and is not modelled.
- The toasts are user notices and are not modelled. Their text is implied by the `ConfirmOutcome` and by the `accepted` result.
- Three parts of the store are not modelled:
  - the query that fetches the booked times (`useUnavailableSlots`), which is a parameter;
  - the insert payload;
  - its UTC date through `toISOString` (src/hooks/useAppointments.tsx:66-80).

  The signed-in flag is a parameter of `HandleConfirm`, and whether the store accepts the insert is a parameter of `FinishConfirm`. The store's completeness guard (src/hooks/useAppointments.tsx:62) is the `IncompleteBooking` outcome.
- The double-booking race between two clients happens against the external store and is not modelled.
- The JSX rendering is not modelled, apart from the slot button's click guard.
- Fields that nothing here reads are not modelled: `description`, `price`, `category`, `image_url`, `created_at` and the other `Appointment` and `Profile` columns.

## Notes

- The store's answer is awaited while the modal stays usable, and the modal stays mounted when closed. Closing the modal while the insert is under way, then acceptance, leaves the wizard on the success step over an empty record (`CloseWhileSaving`). Going back while it is under way, then acceptance, jumps from step 3 to step 5 (`BackWhileSaving`). The model keeps this behaviour, as the source does.
- Breaks are checked at a slot's start time only. So on the shop's calendar an 11:30 start for a 60-minute service, which runs into the 12:00 break, is offered as available. The model keeps this behaviour, as the source does.
