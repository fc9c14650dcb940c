/**
 * The availability slot computer: conversions between `"HH:MM"` and
 * minutes since midnight, the calendar lookups, and `BuildTimeSlots`,
 * which lists a day's candidate start times with their status.
 *
 * The clock is a parameter: `now` is the local time in milliseconds since
 * 1970-01-01 00:00, and a date is a local day number on the same epoch.
 */
module TimeUtils {
  import opened JsText
  import opened Barbershop

  const MsPerMinute := 60000
  const MsPerHour := 3600000
  const MsPerDay := 86400000

  // ---------------------------------------------------------------------
  // Time arithmetic

  /**
   * The strings `time.split(':').map(Number)` reads as an hour and a
   * minute: a run of digits, a colon, and two digits.
   */
  predicate IsTimeString(s: string) {
    && |s| >= 4
    && s[|s| - 3] == ':'
    && AllDigits(s[..|s| - 3])
    && AllDigits(s[|s| - 2..])
  }

  function HourOf(s: string): nat
    requires IsTimeString(s)
  {
    DigitsValue(s[..|s| - 3])
  }

  function MinuteOf(s: string): nat
    requires IsTimeString(s)
  {
    DigitsValue(s[|s| - 2..])
  }

  /** A time of the day on a 24-hour clock, written `"HH:MM"`. */
  predicate IsClockTime(s: string) {
    IsTimeString(s) && |s| == 5 && HourOf(s) < 24 && MinuteOf(s) < 60
  }

  /** `timeToMinutes`: minutes since midnight. */
  function TimeToMinutes(s: string): (r: nat)
    requires IsTimeString(s)
    ensures MinuteOf(s) < 60 ==> r / 60 == HourOf(s) && r % 60 == MinuteOf(s)
    ensures IsClockTime(s) ==> r < 1440
  {
    HourOf(s) * 60 + MinuteOf(s)
  }

  /** `minutesToTime`: hours and minutes, each zero-padded to two digits. */
  function MinutesToTime(m: nat): (r: string)
    ensures IsTimeString(r)
    ensures HourOf(r) == m / 60 && MinuteOf(r) == m % 60
    ensures m < 6000 ==> |r| == 5
    ensures m < 1440 ==> IsClockTime(r)
  {
    var hh := PadStart2(NatToString(m / 60));
    var mm := PadStart2(NatToString(m % 60));
    NatToStringBelow100(m % 60);
    PadStart2Value(NatToString(m / 60));
    PadStart2Value(NatToString(m % 60));
    NatToStringValue(m / 60);
    NatToStringValue(m % 60);
    if m < 6000 then
      HourFieldWidth(m);
      Join(hh, mm)
    else
      Join(hh, mm)
  }

  /** Below 100 hours the padded hour field takes two characters. */
  lemma HourFieldWidth(m: nat)
    requires m < 6000
    ensures |PadStart2(NatToString(m / 60))| == 2
  {
    NatToStringBelow100(m / 60);
  }

  function Join(hh: string, mm: string): (r: string)
    requires |hh| >= 1 && AllDigits(hh) && |mm| == 2 && AllDigits(mm)
    ensures IsTimeString(r) && |r| == |hh| + 3
    ensures r[..|r| - 3] == hh && r[|r| - 2..] == mm
  {
    hh + ":" + mm
  }

  /** Reading back a rendered minute count gives that count, for every minute count. */
  lemma MinutesToTimeRoundTrip(m: nat)
    ensures TimeToMinutes(MinutesToTime(m)) == m
  {
  }

  /** Rendering the minutes of a clock time gives back the same string. */
  lemma TimeToMinutesRoundTrip(s: string)
    requires IsClockTime(s)
    ensures MinutesToTime(TimeToMinutes(s)) == s
  {
    var hh, mm := s[..2], s[3..];
    assert s == hh + ":" + mm;
    var t := TimeToMinutes(s);
    assert PadStart2(NatToString(t / 60)) == hh by {
      assert s[..|s| - 3] == hh;
      TwoDigitsCanonical(hh);
    }
    assert PadStart2(NatToString(t % 60)) == mm by {
      assert s[|s| - 2..] == mm;
      TwoDigitsCanonical(mm);
    }
    MinutesToTimeFields(t);
  }

  /** The rendering of `m` is its padded hour, a colon and its padded minute. */
  lemma MinutesToTimeFields(m: nat)
    ensures MinutesToTime(m) == PadStart2(NatToString(m / 60)) + ":" + PadStart2(NatToString(m % 60))
  {
  }

  /** Two clock times have the same minute count only when they are the same string. */
  lemma TimeToMinutesInjective(s: string, u: string)
    requires IsClockTime(s) && IsClockTime(u)
    ensures TimeToMinutes(s) == TimeToMinutes(u) <==> s == u
  {
    if TimeToMinutes(s) == TimeToMinutes(u) {
      TimeToMinutesRoundTrip(s);
      TimeToMinutesRoundTrip(u);
    }
  }

  /** `formatTime`: `"HH:MM"` is shown as `"HHhMM"`; only the first colon is replaced. */
  function FormatTime(time: string): (r: string)
    ensures |r| == |time|
    ensures forall j :: 0 <= j < |time| ==> r[j] == if j == FirstIndexOf(time, ':') then 'h' else time[j]
    ensures IsTimeString(time) ==> r == time[..|time| - 3] + "h" + time[|time| - 2..]
  {
    var r := ReplaceFirst(time, ':', 'h');
    if IsTimeString(time) then
      assert FirstIndexOf(time, ':') == |time| - 3 by {
        forall j | 0 <= j < |time| - 3
          ensures time[j] != ':'
        {
          assert time[..|time| - 3][j] == time[j];
        }
        FirstColon(time, |time| - 3);
      }
      assert r == time[..|time| - 3] + "h" + time[|time| - 2..];
      r
    else
      r
  }

  /** A colon preceded only by other characters is the first colon. */
  lemma FirstColon(s: string, i: nat)
    requires i < |s| && s[i] == ':' && forall j :: 0 <= j < i ==> s[j] != ':'
    ensures FirstIndexOf(s, ':') == i
  {
  }

  /**
   * `getLocalDateString`: `YYYY-MM-DD` from the local year, the zero-based
   * month (`getMonth()`) and the day of the month (`getDate()`); the month
   * is written one-based and month and day are zero-padded to two digits.
   */
  function GetLocalDateString(year: int, month0: int, day: int): string
    requires 0 <= month0 < 12 && 1 <= day <= 31
  {
    DateJoin(IntToString(year), PadStart2(NatToString(month0 + 1)), PadStart2(NatToString(day)))
  }

  /**
   * The fields of `getLocalDateString`: the year as `String(year)`, a dash,
   * two digits reading as the one-based month, a dash, two digits reading
   * as the day; ten characters for a four-digit year.
   */
  lemma GetLocalDateStringFields(year: int, month0: int, day: int)
    requires 0 <= month0 < 12 && 1 <= day <= 31
    ensures var r := GetLocalDateString(year, month0, day);
            && |r| == |IntToString(year)| + 6 && r[..|r| - 6] == IntToString(year)
            && r[|r| - 6] == '-' && r[|r| - 3] == '-'
            && AllDigits(r[|r| - 5..|r| - 3]) && DigitsValue(r[|r| - 5..|r| - 3]) == month0 + 1
            && AllDigits(r[|r| - 2..]) && DigitsValue(r[|r| - 2..]) == day
            && (year >= 0 ==> AllDigits(r[..|r| - 6]) && DigitsValue(r[..|r| - 6]) == year)
            && (1000 <= year < 10000 ==> |r| == 10)
  {
    var y := IntToString(year);
    var mm := PadStart2(NatToString(month0 + 1));
    var dd := PadStart2(NatToString(day));
    PaddedBelow100(month0 + 1);
    PaddedBelow100(day);
    YearDigits(year);
    var r := DateJoin(y, mm, dd);
    assert r == GetLocalDateString(year, month0, day);
    assert r[|r| - 5..|r| - 3] == mm && r[|r| - 2..] == dd && r[..|r| - 6] == y;
  }

  /** The year is written with its own digits; four-digit years take four characters. */
  lemma YearDigits(year: int)
    ensures year >= 0 ==> AllDigits(IntToString(year)) && DigitsValue(IntToString(year)) == year
    ensures 1000 <= year < 10000 ==> |IntToString(year)| == 4
  {
    if year >= 0 {
      NatToStringValue(year);
    }
    if 1000 <= year < 10000 {
      NatToStringFourDigits(year);
    }
  }

  function DateJoin(y: string, mm: string, dd: string): (r: string)
    requires |mm| == 2 && |dd| == 2
    ensures |r| == |y| + 6 && r[..|r| - 6] == y && r[|r| - 6] == '-' && r[|r| - 3] == '-'
    ensures r[|r| - 5..|r| - 3] == mm && r[|r| - 2..] == dd
  {
    y + "-" + mm + "-" + dd
  }

  // ---------------------------------------------------------------------
  // Calendar lookups

  /** `date.getDay()`: 1970-01-01 was a Thursday (day 4). */
  function Weekday(date: int): (d: int)
    ensures 0 <= d < 7
  {
    (date + 4) % 7
  }

  /**
   * The weekdays run in order: day 0 (1970-01-01) is a Thursday, each
   * next day is the next weekday, Saturday (6) is followed by Sunday (0),
   * and the cycle repeats every seven days.
   */
  lemma WeekdayCycle(date: int)
    ensures Weekday(0) == 4
    ensures Weekday(date + 1) == (Weekday(date) + 1) % 7
    ensures Weekday(date) == 6 <==> Weekday(date + 1) == 0
    ensures Weekday(date + 7) == Weekday(date)
  {
  }

  /** Every `"HH:MM"` string of the calendar can be read by `TimeToMinutes`. */
  predicate TimesWellFormed(cfg: BusinessConfig) {
    && (forall d :: d in cfg.openingHours && cfg.openingHours[d].Some? ==>
          IsTimeString(cfg.openingHours[d].value.start) && IsTimeString(cfg.openingHours[d].value.end))
    && (forall d, i :: d in cfg.breaks && 0 <= i < |cfg.breaks[d]| ==>
          IsTimeString(cfg.breaks[d][i].start) && IsTimeString(cfg.breaks[d][i].end))
  }

  /** What the evaluator needs of its calendar: readable times and a positive step. */
  predicate Evaluable(cfg: BusinessConfig) {
    TimesWellFormed(cfg) && cfg.slotMinutes > 0
  }

  datatype OpenRange = OpenRange(startMin: nat, endMin: nat, dayKey: int)

  /** `getOpenRangeForDate`: the opening hours of the date's weekday, in minutes. */
  function GetOpenRangeForDate(cfg: BusinessConfig, date: int): (r: Option<OpenRange>)
    requires TimesWellFormed(cfg)
    ensures r.None? <==> OpeningHoursOn(cfg, Weekday(date)).None?
    ensures r.Some? ==> r.value.dayKey == Weekday(date)
    ensures r.Some? ==> r.value.startMin == TimeToMinutes(OpeningHoursOn(cfg, Weekday(date)).value.start)
    ensures r.Some? ==> r.value.endMin == TimeToMinutes(OpeningHoursOn(cfg, Weekday(date)).value.end)
  {
    var day := Weekday(date);
    match OpeningHoursOn(cfg, day)
    case None => None
    case Some(hours) => Some(OpenRange(TimeToMinutes(hours.start), TimeToMinutes(hours.end), day))
  }

  /** `breaks.some(...)`: some break of `breaks` covers minute `t`, tried in order. */
  function AnyBreakCovers(breaks: seq<Hours>, t: int): bool
    requires forall i :: 0 <= i < |breaks| ==> IsTimeString(breaks[i].start) && IsTimeString(breaks[i].end)
  {
    if breaks == [] then false
    else
      (TimeToMinutes(breaks[0].start) <= t && t < TimeToMinutes(breaks[0].end))
      || AnyBreakCovers(breaks[1..], t)
  }

  /** A break covers `t` when `t` lies in the half-open interval from its start to its end. */
  lemma {:induction false} AnyBreakCoversIff(breaks: seq<Hours>, t: int)
    requires forall i :: 0 <= i < |breaks| ==> IsTimeString(breaks[i].start) && IsTimeString(breaks[i].end)
    ensures AnyBreakCovers(breaks, t) <==>
              exists i :: 0 <= i < |breaks| && TimeToMinutes(breaks[i].start) <= t < TimeToMinutes(breaks[i].end)
  {
    if breaks != [] {
      var rest := breaks[1..];
      AnyBreakCoversIff(rest, t);
      if AnyBreakCovers(rest, t) {
        var i :| 0 <= i < |rest| && TimeToMinutes(rest[i].start) <= t < TimeToMinutes(rest[i].end);
        assert rest[i] == breaks[i + 1];
      }
      if exists i :: 0 <= i < |breaks| && TimeToMinutes(breaks[i].start) <= t < TimeToMinutes(breaks[i].end) {
        var i :| 0 <= i < |breaks| && TimeToMinutes(breaks[i].start) <= t < TimeToMinutes(breaks[i].end);
        if i > 0 {
          assert rest[i - 1] == breaks[i];
        }
      }
    }
  }

  /** `isInBreak`: the time lies in a break of that weekday; each break is half-open. */
  function IsInBreak(cfg: BusinessConfig, dayKey: int, time: string): (r: bool)
    requires TimesWellFormed(cfg) && IsTimeString(time)
    ensures r <==> exists i :: 0 <= i < |BreaksOn(cfg, dayKey)|
                     && TimeToMinutes(BreaksOn(cfg, dayKey)[i].start) <= TimeToMinutes(time)
                     && TimeToMinutes(time) < TimeToMinutes(BreaksOn(cfg, dayKey)[i].end)
  {
    AnyBreakCoversIff(BreaksOn(cfg, dayKey), TimeToMinutes(time));
    AnyBreakCovers(BreaksOn(cfg, dayKey), TimeToMinutes(time))
  }

  /**
   * `isPastTime`: the date with its clock set to `time` (seconds and
   * milliseconds zero) is strictly before `now`. `setHours` rolls an hour
   * past 23 into the next days, as the sum below does.
   */
  function IsPastTime(date: int, time: string, now: int): (r: bool)
    requires IsTimeString(time)
    ensures r <==> (date * 1440 + TimeToMinutes(time)) * MsPerMinute < now
  {
    var h := HourOf(time);
    var m := MinuteOf(time);
    date * MsPerDay + h * MsPerHour + m * MsPerMinute < now
  }

  // ---------------------------------------------------------------------
  // The evaluator

  datatype SlotStatus = Available | Busy | Past | Break

  datatype TimeSlot = TimeSlot(time: string, status: SlotStatus)

  /** The status checks, in the order the evaluator applies them. */
  function Classify(cfg: BusinessConfig, date: int, dayKey: int, time: string,
                    unavailableSlots: seq<string>, now: int): SlotStatus
    requires TimesWellFormed(cfg) && IsTimeString(time)
  {
    if time in unavailableSlots then Busy
    else if IsInBreak(cfg, dayKey, time) then Break
    else if IsPastTime(date, time, now) then Past
    else Available
  }

  /** How many start times fit: `startMin + k * step + duration <= endMin`. */
  function SlotCount(startMin: int, endMin: int, durationMin: int, step: int): nat
    requires step > 0
  {
    if startMin + durationMin <= endMin then (endMin - durationMin - startMin) / step + 1 else 0
  }

  /** Each of the first `SlotCount` starts leaves room for the service before closing. */
  lemma SlotCountFits(startMin: int, endMin: int, durationMin: int, step: int, k: nat)
    requires step > 0 && k < SlotCount(startMin, endMin, durationMin, step)
    ensures startMin + k * step + durationMin <= endMin
  {
    var room := endMin - durationMin - startMin;
    MulLeq(k, room / step, step);
    DivMod(room, step);
  }

  /** A start `k` steps after opening lies on the grid, no earlier than opening. */
  lemma OnGrid(t: int, startMin: int, step: int, k: nat)
    requires step > 0 && t == startMin + k * step
    ensures startMin <= t && (t - startMin) % step == 0
  {
    ModMultiple(k, step);
    assert t - startMin == k * step;
  }

  /** The start minute of the k-th slot of a day that opens at `startMin`. */
  function SlotStart(startMin: nat, step: nat, k: nat): nat {
    startMin + k * step
  }

  /** The slot that starts `minute` minutes after midnight. */
  function SlotAt(cfg: BusinessConfig, date: int, dayKey: int, minute: nat,
                  unavailableSlots: seq<string>, now: int): TimeSlot
    requires TimesWellFormed(cfg)
  {
    var time := MinutesToTime(minute);
    TimeSlot(time, Classify(cfg, date, dayKey, time, unavailableSlots, now))
  }

  /**
   * The day's slots in closed form: the k-th one starts at
   * `startMin + k * slotMinutes`, for as many k as `SlotCount` allows.
   */
  function TimeSlots(cfg: BusinessConfig, date: int, durationMin: int,
                     unavailableSlots: seq<string>, now: int): seq<TimeSlot>
    requires Evaluable(cfg)
  {
    match GetOpenRangeForDate(cfg, date)
    case None => []
    case Some(range) =>
      seq(SlotCount(range.startMin, range.endMin, durationMin, cfg.slotMinutes),
          k requires 0 <= k =>
            SlotAt(cfg, date, range.dayKey, SlotStart(range.startMin, cfg.slotMinutes, k), unavailableSlots, now))
  }

  /** `slots` holds the first `|slots|` slots of a day opening at `startMin`. */
  ghost predicate SlotsPrefix(cfg: BusinessConfig, date: int, dayKey: int, startMin: nat, step: nat,
                              unavailableSlots: seq<string>, now: int, slots: seq<TimeSlot>)
    requires TimesWellFormed(cfg)
  {
    forall k :: 0 <= k < |slots| ==>
      slots[k] == SlotAt(cfg, date, dayKey, SlotStart(startMin, step, k), unavailableSlots, now)
  }

  /** `buildTimeSlots`: walks the day in steps of `slotMinutes` while the service still fits. */
  method BuildTimeSlots(cfg: BusinessConfig, date: int, durationMin: int,
                        unavailableSlots: seq<string>, now: int) returns (slots: seq<TimeSlot>)
    requires Evaluable(cfg)
    ensures slots == TimeSlots(cfg, date, durationMin, unavailableSlots, now)
  {
    var range := GetOpenRangeForDate(cfg, date);
    if range.None? {
      return [];
    }
    slots := [];
    var startMin, endMin, dayKey := range.value.startMin, range.value.endMin, range.value.dayKey;
    var step: nat := cfg.slotMinutes;
    var min := startMin;
    while min + durationMin <= endMin
      invariant min == SlotStart(startMin, step, |slots|)
      invariant |slots| > 0 ==> min - step + durationMin <= endMin
      invariant SlotsPrefix(cfg, date, dayKey, startMin, step, unavailableSlots, now, slots)
      decreases endMin - durationMin - min
    {
      var time := MinutesToTime(min);
      var status := Available;
      if time in unavailableSlots {
        status := Busy;
      } else if IsInBreak(cfg, dayKey, time) {
        status := Break;
      } else if IsPastTime(date, time, now) {
        status := Past;
      }
      assert TimeSlot(time, status) == SlotAt(cfg, date, dayKey, min, unavailableSlots, now);
      SlotsPrefixExtend(cfg, date, dayKey, startMin, step, unavailableSlots, now, slots, TimeSlot(time, status));
      SlotStartSucc(startMin, step, |slots|);
      slots := slots + [TimeSlot(time, status)];
      min := min + step;
    }
    SlotsPrefixComplete(cfg, date, durationMin, unavailableSlots, now, slots);
  }

  lemma SlotsPrefixExtend(cfg: BusinessConfig, date: int, dayKey: int, startMin: nat, step: nat,
                          unavailableSlots: seq<string>, now: int, slots: seq<TimeSlot>, next: TimeSlot)
    requires TimesWellFormed(cfg)
    requires SlotsPrefix(cfg, date, dayKey, startMin, step, unavailableSlots, now, slots)
    requires next == SlotAt(cfg, date, dayKey, SlotStart(startMin, step, |slots|), unavailableSlots, now)
    ensures SlotsPrefix(cfg, date, dayKey, startMin, step, unavailableSlots, now, slots + [next])
  {
    var longer := slots + [next];
    forall k | 0 <= k < |longer|
      ensures longer[k] == SlotAt(cfg, date, dayKey, SlotStart(startMin, step, k), unavailableSlots, now)
    {
      if k < |slots| {
        assert longer[k] == slots[k];
      } else {
        assert k == |slots| && longer[k] == next;
      }
    }
  }

  /** Consecutive slots are one step apart. */
  lemma SlotStartSucc(startMin: nat, step: nat, k: nat)
    ensures SlotStart(startMin, step, k + 1) == SlotStart(startMin, step, k) + step
  {
    MulSucc(k, step);
  }

  /** A prefix that stops where the loop stops is the whole day. */
  lemma SlotsPrefixComplete(cfg: BusinessConfig, date: int, durationMin: int,
                            unavailableSlots: seq<string>, now: int, slots: seq<TimeSlot>)
    requires Evaluable(cfg) && GetOpenRangeForDate(cfg, date).Some?
    requires var r := GetOpenRangeForDate(cfg, date).value;
      && SlotsPrefix(cfg, date, r.dayKey, r.startMin, cfg.slotMinutes, unavailableSlots, now, slots)
      && SlotStart(r.startMin, cfg.slotMinutes, |slots|) + durationMin > r.endMin
      && (|slots| > 0 ==> SlotStart(r.startMin, cfg.slotMinutes, |slots|) - cfg.slotMinutes + durationMin <= r.endMin)
    ensures slots == TimeSlots(cfg, date, durationMin, unavailableSlots, now)
  {
    var r := GetOpenRangeForDate(cfg, date).value;
    var n, step := |slots|, cfg.slotMinutes;
    if n > 0 {
      MulSucc(n - 1, step);
      DivideExactly(r.endMin - durationMin - r.startMin, step, n - 1);
    }
    assert n == SlotCount(r.startMin, r.endMin, durationMin, step);
  }

  lemma MulSucc(n: nat, step: int)
    ensures (n + 1) * step == n * step + step
  {
  }

  lemma MulLeq(a: int, b: int, step: int)
    requires a <= b && step > 0
    ensures a * step <= b * step
  {
    var k := b - a;
    assert b * step == a * step + k * step;
  }

  lemma DivMod(x: int, step: int)
    requires step > 0
    ensures x == (x / step) * step + x % step && 0 <= x % step < step
  {
  }

  /** `q` is the quotient of `x` by `step` when `q * step <= x < (q + 1) * step`. */
  lemma DivideExactly(x: int, step: int, q: int)
    requires step > 0 && q * step <= x < q * step + step
    ensures x / step == q
  {
    var d := x / step;
    DivMod(x, step);
    if d < q {
      MulLeq(d + 1, q, step);
    } else if d > q {
      MulLeq(q + 1, d, step);
    }
  }

  /** Integer division is monotone. */
  lemma DivLeq(a: int, b: int, step: int)
    requires a <= b && step > 0
    ensures a / step <= b / step
  {
    DivMod(a, step);
    DivMod(b, step);
    if a / step > b / step {
      MulLeq(b / step + 1, a / step, step);
    }
  }

  /** A multiple of `step` leaves no remainder. */
  lemma ModMultiple(k: nat, step: int)
    requires step > 0
    ensures (k * step) / step == k && (k * step) % step == 0 && k * step >= 0
  {
    MulLeq(0, k, step);
    DivideExactly(k * step, step, k);
    DivMod(k * step, step);
  }
}
