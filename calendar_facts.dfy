/**
 * The invariants the evaluator relies on in a business calendar, the
 * proof that the shop's own calendar has them, and the slots it yields on
 * a weekday and on a Saturday.
 */
module CalendarFacts {
  import opened Barbershop
  import opened TimeUtils
  import opened SlotFacts

  /** Every time in the calendar is a `"HH:MM"` time of day. */
  predicate AllClockTimes(cfg: BusinessConfig) {
    && (forall d :: d in cfg.openingHours && cfg.openingHours[d].Some? ==>
          IsClockTime(cfg.openingHours[d].value.start) && IsClockTime(cfg.openingHours[d].value.end))
    && (forall d, i :: d in cfg.breaks && 0 <= i < |cfg.breaks[d]| ==>
          IsClockTime(cfg.breaks[d][i].start) && IsClockTime(cfg.breaks[d][i].end))
  }

  /** An open day opens before it closes. */
  predicate OpenDaysOrdered(cfg: BusinessConfig)
    requires TimesWellFormed(cfg)
  {
    forall d :: d in cfg.openingHours && cfg.openingHours[d].Some? ==>
      TimeToMinutes(cfg.openingHours[d].value.start) < TimeToMinutes(cfg.openingHours[d].value.end)
  }

  /** Breaks only fall on open days, and each lies inside that day's opening hours. */
  predicate BreaksInsideHours(cfg: BusinessConfig)
    requires TimesWellFormed(cfg)
  {
    forall d, i :: d in cfg.breaks && 0 <= i < |cfg.breaks[d]| ==>
      && OpeningHoursOn(cfg, d).Some?
      && TimeToMinutes(OpeningHoursOn(cfg, d).value.start) <= TimeToMinutes(cfg.breaks[d][i].start)
      && TimeToMinutes(cfg.breaks[d][i].start) < TimeToMinutes(cfg.breaks[d][i].end)
      && TimeToMinutes(cfg.breaks[d][i].end) <= TimeToMinutes(OpeningHoursOn(cfg, d).value.end)
  }

  /** No two breaks of a day overlap. */
  predicate BreaksDisjoint(cfg: BusinessConfig)
    requires TimesWellFormed(cfg)
  {
    forall d, i, j :: d in cfg.breaks && 0 <= i < j < |cfg.breaks[d]| ==>
      || TimeToMinutes(cfg.breaks[d][i].end) <= TimeToMinutes(cfg.breaks[d][j].start)
      || TimeToMinutes(cfg.breaks[d][j].end) <= TimeToMinutes(cfg.breaks[d][i].start)
  }

  predicate ValidCalendar(cfg: BusinessConfig) {
    && Evaluable(cfg)
    && AllClockTimes(cfg)
    && OpenDaysOrdered(cfg)
    && BreaksInsideHours(cfg)
    && BreaksDisjoint(cfg)
  }

  /** The times the shop's calendar uses, read as minutes since midnight. */
  lemma CalendarTimes()
    ensures IsClockTime("09:00") && TimeToMinutes("09:00") == 540
    ensures IsClockTime("12:00") && TimeToMinutes("12:00") == 720
    ensures IsClockTime("13:00") && TimeToMinutes("13:00") == 780
    ensures IsClockTime("18:00") && TimeToMinutes("18:00") == 1080
    ensures IsClockTime("20:00") && TimeToMinutes("20:00") == 1200
  {
    ClockTime("09:00", 9, 0);
    ClockTime("12:00", 12, 0);
    ClockTime("13:00", 13, 0);
    ClockTime("18:00", 18, 0);
    ClockTime("20:00", 20, 0);
  }

  /** The string `"HH:MM"` written digit by digit names minute `60 * h + m` of the day. */
  lemma ClockTime(s: string, h: nat, m: nat)
    requires h < 24 && m < 60
    requires s == [JsText.DigitChar(h / 10), JsText.DigitChar(h % 10), ':',
                   JsText.DigitChar(m / 10), JsText.DigitChar(m % 10)]
    ensures IsClockTime(s) && TimeToMinutes(s) == h * 60 + m
  {
    assert s[..|s| - 3] == s[..2];
    JsText.TwoDigitsValue(s[..2]);
    JsText.TwoDigitsValue(s[3..]);
  }

  /** Every entry of the shop's calendar, by weekday. */
  lemma ShopEntries(d: int)
    ensures d in ShopConfig.openingHours && ShopConfig.openingHours[d].Some? ==>
              1 <= d <= 6 && ShopConfig.openingHours[d].value.start == "09:00"
              && ShopConfig.openingHours[d].value.end == (if d == 6 then "18:00" else "20:00")
    ensures d in ShopConfig.breaks ==>
              0 <= d <= 6 && ShopConfig.breaks[d] == (if d == 0 then [] else [Hours("12:00", "13:00")])
    ensures OpeningHoursOn(ShopConfig, d).Some? <==> 1 <= d <= 6
  {
  }

  lemma ShopClockTimes()
    ensures TimesWellFormed(ShopConfig) && AllClockTimes(ShopConfig)
  {
    forall d | d in ShopConfig.openingHours && ShopConfig.openingHours[d].Some?
      ensures IsClockTime(ShopConfig.openingHours[d].value.start)
      ensures IsClockTime(ShopConfig.openingHours[d].value.end)
    {
      ShopEntries(d);
      CalendarTimes();
    }
    forall d, i | d in ShopConfig.breaks && 0 <= i < |ShopConfig.breaks[d]|
      ensures IsClockTime(ShopConfig.breaks[d][i].start) && IsClockTime(ShopConfig.breaks[d][i].end)
    {
      ShopEntries(d);
      CalendarTimes();
    }
  }

  lemma ShopDaysOrdered()
    ensures TimesWellFormed(ShopConfig) && OpenDaysOrdered(ShopConfig)
  {
    ShopClockTimes();
    forall d | d in ShopConfig.openingHours && ShopConfig.openingHours[d].Some?
      ensures TimeToMinutes(ShopConfig.openingHours[d].value.start)
              < TimeToMinutes(ShopConfig.openingHours[d].value.end)
    {
      ShopEntries(d);
      CalendarTimes();
    }
  }

  lemma ShopBreaksInside()
    ensures TimesWellFormed(ShopConfig) && BreaksInsideHours(ShopConfig)
  {
    ShopClockTimes();
    forall d, i | d in ShopConfig.breaks && 0 <= i < |ShopConfig.breaks[d]|
      ensures OpeningHoursOn(ShopConfig, d).Some?
      ensures TimeToMinutes(OpeningHoursOn(ShopConfig, d).value.start) <= TimeToMinutes(ShopConfig.breaks[d][i].start)
      ensures TimeToMinutes(ShopConfig.breaks[d][i].start) < TimeToMinutes(ShopConfig.breaks[d][i].end)
      ensures TimeToMinutes(ShopConfig.breaks[d][i].end) <= TimeToMinutes(OpeningHoursOn(ShopConfig, d).value.end)
    {
      ShopEntries(d);
      CalendarTimes();
      assert ShopConfig.breaks[d][i] == Hours("12:00", "13:00");
    }
  }

  lemma ShopBreaksDisjoint()
    ensures TimesWellFormed(ShopConfig) && BreaksDisjoint(ShopConfig)
  {
    ShopClockTimes();
    forall d | d in ShopConfig.breaks
      ensures |ShopConfig.breaks[d]| <= 1
    {
      ShopEntries(d);
    }
  }

  /** The shop's calendar has every invariant the evaluator relies on. */
  lemma ShopConfigIsValid()
    ensures ValidCalendar(ShopConfig)
  {
    ShopClockTimes();
    ShopDaysOrdered();
    ShopBreaksInside();
    ShopBreaksDisjoint();
  }

  /** Sunday is closed and has no breaks, so no Sunday has slots. */
  lemma SundayIsClosed(date: int, durationMin: int, unavailableSlots: seq<string>, now: int)
    requires Weekday(date) == 0
    ensures OpeningHoursOn(ShopConfig, 0).None? && BreaksOn(ShopConfig, 0) == []
    ensures Evaluable(ShopConfig) && TimeSlots(ShopConfig, date, durationMin, unavailableSlots, now) == []
  {
    ShopConfigIsEvaluable();
    ClosedDayHasNoSlots(ShopConfig, date, durationMin, unavailableSlots, now);
  }

  lemma ShopConfigIsEvaluable()
    ensures Evaluable(ShopConfig)
  {
    ShopConfigIsValid();
  }

  /** Monday to Friday open 09:00-20:00, Saturday 09:00-18:00, each with a 12:00-13:00 break. */
  lemma ShopOpeningHours(date: int)
    ensures Evaluable(ShopConfig)
    ensures Evaluable(ShopConfig) && var r := GetOpenRangeForDate(ShopConfig, date);
            && (1 <= Weekday(date) <= 5 ==> r == Some(OpenRange(540, 1200, Weekday(date))))
            && (Weekday(date) == 6 ==> r == Some(OpenRange(540, 1080, 6)))
            && (Weekday(date) == 0 ==> r == None)
    ensures 1 <= Weekday(date) ==> BreaksOn(ShopConfig, Weekday(date)) == [Hours("12:00", "13:00")]
  {
    ShopClockTimes();
    var d := Weekday(date);
    ShopEntries(d);
    assert d in ShopConfig.openingHours && d in ShopConfig.breaks;
    CalendarTimes();
  }

  /** On a valid calendar every slot of a service of non-negative length is an `"HH:MM"` time of day. */
  lemma SlotTimesAreClockTimes(cfg: BusinessConfig, date: int, durationMin: int,
                               unavailableSlots: seq<string>, now: int, k: int)
    requires ValidCalendar(cfg) && durationMin >= 0
    requires 0 <= k < |TimeSlots(cfg, date, durationMin, unavailableSlots, now)|
    ensures IsClockTime(TimeSlots(cfg, date, durationMin, unavailableSlots, now)[k].time)
  {
    SlotsFitOpeningHours(cfg, date, durationMin, unavailableSlots, now, k);
    var r := GetOpenRangeForDate(cfg, date).value;
    assert r.endMin < 1440;
    var m := SlotStart(r.startMin, cfg.slotMinutes, k);
    SlotMinute(cfg, date, durationMin, unavailableSlots, now, k);
    MinutesToTimeRoundTrip(m);
  }

  /** Before the day begins, none of its slots is in the past. */
  lemma NothingPastBeforeTheDay(date: int, time: string, now: int)
    requires IsTimeString(time) && now <= date * MsPerDay
    ensures !IsPastTime(date, time, now)
  {
  }

  /**
   * Any Monday with a 60-minute service: 21 slots, one every half hour
   * from 09:00 (minute 540) to 19:00; slots 6 and 7 (12:00 and 12:30) are
   * breaks unless they are booked, and no other slot is a break.
   */
  lemma MondayExample(date: int, unavailableSlots: seq<string>, now: int)
    requires Weekday(date) == 1
    ensures Evaluable(ShopConfig)
    ensures Evaluable(ShopConfig) && var slots := TimeSlots(ShopConfig, date, 60, unavailableSlots, now);
            && |slots| == 21
            && forall k :: 0 <= k < 21 ==>
                 && IsTimeString(slots[k].time) && TimeToMinutes(slots[k].time) == 540 + 30 * k
                 && (slots[k].status == Break <==> (k == 6 || k == 7) && slots[k].time !in unavailableSlots)
  {
    ShopSlotCount(date, 60, unavailableSlots, now);
    var slots := TimeSlots(ShopConfig, date, 60, unavailableSlots, now);
    forall k | 0 <= k < 21
      ensures IsTimeString(slots[k].time) && TimeToMinutes(slots[k].time) == 540 + 30 * k
      ensures slots[k].status == Break <==> (k == 6 || k == 7) && slots[k].time !in unavailableSlots
    {
      BreakOnlyAtNoon(date, 60, unavailableSlots, now, k);
    }
  }

  /** Any Saturday with a 60-minute service: 17 slots, the last at 17:00 (minute 1020). */
  lemma SaturdayExample(date: int, unavailableSlots: seq<string>, now: int)
    requires Weekday(date) == 6
    ensures Evaluable(ShopConfig)
    ensures Evaluable(ShopConfig) && var slots := TimeSlots(ShopConfig, date, 60, unavailableSlots, now);
            && |slots| == 17
            && IsTimeString(slots[16].time) && TimeToMinutes(slots[16].time) == 1020
  {
    ShopSlotCount(date, 60, unavailableSlots, now);
    ShopSlotMinute(date, 60, unavailableSlots, now, 16);
  }

  /**
   * A Monday with 14:00 booked, seen before the day starts: 14:00 is busy,
   * 12:00 and 12:30 are breaks and every other slot is available.
   */
  lemma MondayWithOneBooking(date: int, now: int)
    requires Weekday(date) == 1 && now <= date * MsPerDay
    ensures Evaluable(ShopConfig)
    ensures Evaluable(ShopConfig) && var slots := TimeSlots(ShopConfig, date, 60, ["14:00"], now);
            && |slots| == 21
            && slots[10].time == "14:00"
            && forall k :: 0 <= k < 21 ==>
                 slots[k].status == if k == 10 then Busy else if k == 6 || k == 7 then Break else Available
  {
    TenthSlotIsTwoPm(date, ["14:00"], now);
    var slots := TimeSlots(ShopConfig, date, 60, ["14:00"], now);
    forall k | 0 <= k < 21
      ensures slots[k].status == if k == 10 then Busy else if k == 6 || k == 7 then Break else Available
    {
      OneBookingSlot(date, now, k);
    }
  }

  /** Slot `k` of that Monday: 14:00 is the tenth slot and the only busy one. */
  lemma OneBookingSlot(date: int, now: int, k: int)
    requires Weekday(date) == 1 && now <= date * MsPerDay && 0 <= k < 21
    ensures Evaluable(ShopConfig) && var slots := TimeSlots(ShopConfig, date, 60, ["14:00"], now);
            && |slots| == 21
            && slots[k].status == if k == 10 then Busy else if k == 6 || k == 7 then Break else Available
  {
    OnlyTenthSlotIsTwoPm(date, ["14:00"], now, k);
    BreakOnlyAtNoon(date, 60, ["14:00"], now, k);
    StatusPrecedence(ShopConfig, date, 60, ["14:00"], now, k);
    var slot := TimeSlots(ShopConfig, date, 60, ["14:00"], now)[k];
    NothingPastBeforeTheDay(date, slot.time, now);
    assert slot.time in ["14:00"] <==> k == 10;
  }

  /** On a Monday, slot `k` is 14:00 exactly when `k` is 10. */
  lemma OnlyTenthSlotIsTwoPm(date: int, unavailableSlots: seq<string>, now: int, k: int)
    requires Weekday(date) == 1 && 0 <= k < 21
    ensures Evaluable(ShopConfig) && var slots := TimeSlots(ShopConfig, date, 60, unavailableSlots, now);
            |slots| == 21 && (slots[k].time == "14:00" <==> k == 10)
  {
    TenthSlotIsTwoPm(date, unavailableSlots, now);
    ShopSlotMinute(date, 60, unavailableSlots, now, k);
    TwoPm();
  }

  /** The tenth slot of a Monday is 14:00. */
  lemma TenthSlotIsTwoPm(date: int, unavailableSlots: seq<string>, now: int)
    requires Weekday(date) == 1
    ensures Evaluable(ShopConfig) && var slots := TimeSlots(ShopConfig, date, 60, unavailableSlots, now);
            |slots| == 21 && slots[10].time == "14:00"
  {
    ShopConfigIsValid();
    ShopSlotCount(date, 60, unavailableSlots, now);
    ShopSlotMinute(date, 60, unavailableSlots, now, 10);
    var slot := TimeSlots(ShopConfig, date, 60, unavailableSlots, now)[10];
    SlotTimesAreClockTimes(ShopConfig, date, 60, unavailableSlots, now, 10);
    TwoPm();
    TimeToMinutesInjective(slot.time, "14:00");
  }

  /** 14:00 is minute 840 of the day. */
  lemma TwoPm()
    ensures IsClockTime("14:00") && TimeToMinutes("14:00") == 840
  {
    JsText.DigitChars();
    ClockTime("14:00", 14, 0);
  }

  /** On an open day of the shop a service of `durationMin` minutes gets one slot per half hour that fits. */
  lemma ShopSlotCount(date: int, durationMin: int, unavailableSlots: seq<string>, now: int)
    requires 1 <= Weekday(date) <= 6
    ensures Evaluable(ShopConfig)
    ensures Evaluable(ShopConfig) && var close := if Weekday(date) == 6 then 1080 else 1200;
            |TimeSlots(ShopConfig, date, durationMin, unavailableSlots, now)|
              == if durationMin <= close - 540 then (close - durationMin - 540) / 30 + 1 else 0
  {
    ShopOpeningHours(date);
    SlotCountOnOpenDay(ShopConfig, date, durationMin, unavailableSlots, now);
  }

  /** On an open day of the shop, slot `k` starts at minute `540 + 30 * k`. */
  lemma ShopSlotMinute(date: int, durationMin: int, unavailableSlots: seq<string>, now: int, k: int)
    requires 1 <= Weekday(date) <= 6 && 0 <= k
    requires Evaluable(ShopConfig) && k < |TimeSlots(ShopConfig, date, durationMin, unavailableSlots, now)|
    ensures Evaluable(ShopConfig) && var slot := TimeSlots(ShopConfig, date, durationMin, unavailableSlots, now)[k];
            IsTimeString(slot.time) && TimeToMinutes(slot.time) == 540 + 30 * k
  {
    ShopOpeningHours(date);
    SlotMinute(ShopConfig, date, durationMin, unavailableSlots, now, k);
  }

  /** The digit-by-digit string `"HH:MM"` is how minute `60 * h + m` is rendered. */
  lemma RenderClockTime(s: string, h: nat, m: nat)
    requires h < 24 && m < 60
    requires s == [JsText.DigitChar(h / 10), JsText.DigitChar(h % 10), ':',
                   JsText.DigitChar(m / 10), JsText.DigitChar(m % 10)]
    ensures MinutesToTime(h * 60 + m) == s
  {
    ClockTime(s, h, m);
    TimeToMinutesRoundTrip(s);
  }

  /** On an open day of the shop, only slots 6 and 7 (12:00 and 12:30) fall in the break. */
  lemma BreakOnlyAtNoon(date: int, durationMin: int, unavailableSlots: seq<string>, now: int, k: int)
    requires 1 <= Weekday(date) <= 6 && 0 <= k
    requires Evaluable(ShopConfig) && k < |TimeSlots(ShopConfig, date, durationMin, unavailableSlots, now)|
    ensures Evaluable(ShopConfig)
    ensures Evaluable(ShopConfig) && var slot := TimeSlots(ShopConfig, date, durationMin, unavailableSlots, now)[k];
            && IsTimeString(slot.time) && TimeToMinutes(slot.time) == 540 + 30 * k
            && (slot.status == Break <==> (k == 6 || k == 7) && slot.time !in unavailableSlots)
  {
    ShopSlotMinute(date, durationMin, unavailableSlots, now, k);
    StatusPrecedence(ShopConfig, date, durationMin, unavailableSlots, now, k);
    var slot := TimeSlots(ShopConfig, date, durationMin, unavailableSlots, now)[k];
    ShopBreak(date, slot.time);
  }

  /** On an open day of the shop a time is in the break exactly when it is from 12:00 up to, not including, 13:00. */
  lemma ShopBreak(date: int, time: string)
    requires 1 <= Weekday(date) <= 6 && IsTimeString(time)
    ensures Evaluable(ShopConfig)
            && (IsInBreak(ShopConfig, Weekday(date), time) <==> 720 <= TimeToMinutes(time) < 780)
  {
    ShopOpeningHours(date);
    CalendarTimes();
    var breaks := BreaksOn(ShopConfig, Weekday(date));
    assert TimeToMinutes(breaks[0].start) == 720 && TimeToMinutes(breaks[0].end) == 780;
  }
}
