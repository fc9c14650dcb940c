/**
 * What the availability evaluator promises about the slots it lists:
 * closed days and over-long services give none, every slot fits before
 * closing time on the slot grid and every start that fits is offered,
 * slots come in ascending order, and each status follows the fixed
 * precedence busy, break, past, available.
 */
module SlotFacts {
  import opened Barbershop
  import opened TimeUtils

  /** A weekday without opening hours has no slots, whatever the duration and bookings. */
  lemma ClosedDayHasNoSlots(cfg: BusinessConfig, date: int, durationMin: int,
                            unavailableSlots: seq<string>, now: int)
    requires Evaluable(cfg)
    requires OpeningHoursOn(cfg, Weekday(date)).None?
    ensures TimeSlots(cfg, date, durationMin, unavailableSlots, now) == []
  {
  }

  /**
   * On an open day the number of slots is `(endMin - durationMin - startMin) / slotMinutes + 1`
   * when the service fits at all, and none when it is longer than the opening hours.
   */
  lemma SlotCountOnOpenDay(cfg: BusinessConfig, date: int, durationMin: int,
                           unavailableSlots: seq<string>, now: int)
    requires Evaluable(cfg) && GetOpenRangeForDate(cfg, date).Some?
    ensures var r := GetOpenRangeForDate(cfg, date).value;
            var n := |TimeSlots(cfg, date, durationMin, unavailableSlots, now)|;
            && (durationMin > r.endMin - r.startMin ==> n == 0)
            && (durationMin <= r.endMin - r.startMin ==>
                  n == (r.endMin - durationMin - r.startMin) / cfg.slotMinutes + 1)
  {
  }

  /** The k-th slot starts `k * slotMinutes` minutes after opening. */
  lemma SlotMinute(cfg: BusinessConfig, date: int, durationMin: int,
                   unavailableSlots: seq<string>, now: int, k: int)
    requires Evaluable(cfg) && GetOpenRangeForDate(cfg, date).Some?
    requires 0 <= k < |TimeSlots(cfg, date, durationMin, unavailableSlots, now)|
    ensures var r := GetOpenRangeForDate(cfg, date).value;
            var slots := TimeSlots(cfg, date, durationMin, unavailableSlots, now);
            IsTimeString(slots[k].time) && TimeToMinutes(slots[k].time) == r.startMin + k * cfg.slotMinutes
  {
    var r := GetOpenRangeForDate(cfg, date).value;
    MinutesToTimeRoundTrip(SlotStart(r.startMin, cfg.slotMinutes, k));
  }

  /**
   * Every slot lies on the grid that starts at opening time, starts no
   * earlier than opening, and leaves room for the whole service before closing.
   */
  lemma SlotsFitOpeningHours(cfg: BusinessConfig, date: int, durationMin: int,
                             unavailableSlots: seq<string>, now: int, k: int)
    requires Evaluable(cfg) && GetOpenRangeForDate(cfg, date).Some?
    requires 0 <= k < |TimeSlots(cfg, date, durationMin, unavailableSlots, now)|
    ensures var r := GetOpenRangeForDate(cfg, date).value;
            var slots := TimeSlots(cfg, date, durationMin, unavailableSlots, now);
            && IsTimeString(slots[k].time)
            && r.startMin <= TimeToMinutes(slots[k].time)
            && TimeToMinutes(slots[k].time) + durationMin <= r.endMin
            && (TimeToMinutes(slots[k].time) - r.startMin) % cfg.slotMinutes == 0
  {
    var r := GetOpenRangeForDate(cfg, date).value;
    SlotsLength(cfg, date, durationMin, unavailableSlots, now);
    SlotMinute(cfg, date, durationMin, unavailableSlots, now, k);
    var time := TimeSlots(cfg, date, durationMin, unavailableSlots, now)[k].time;
    GridStart(TimeToMinutes(time), r.startMin, r.endMin, durationMin, cfg.slotMinutes, k);
  }

  /** An open day has `SlotCount` slots. */
  lemma SlotsLength(cfg: BusinessConfig, date: int, durationMin: int, unavailableSlots: seq<string>, now: int)
    requires Evaluable(cfg) && GetOpenRangeForDate(cfg, date).Some?
    ensures var r := GetOpenRangeForDate(cfg, date).value;
            |TimeSlots(cfg, date, durationMin, unavailableSlots, now)|
              == SlotCount(r.startMin, r.endMin, durationMin, cfg.slotMinutes)
  {
  }

  /** A start `k` steps after opening, for a counted `k`, lies on the grid inside the opening hours. */
  lemma GridStart(t: int, startMin: int, endMin: int, durationMin: int, step: int, k: nat)
    requires step > 0 && k < SlotCount(startMin, endMin, durationMin, step) && t == startMin + k * step
    ensures startMin <= t && t + durationMin <= endMin && (t - startMin) % step == 0
  {
    SlotCountFits(startMin, endMin, durationMin, step, k);
    OnGrid(t, startMin, step, k);
  }

  /**
   * Conversely, every start on the grid (`startMin + k * slotMinutes`) that
   * leaves room for the service before closing is offered, as the k-th slot.
   */
  lemma EveryFittingStartIsOffered(cfg: BusinessConfig, date: int, durationMin: int,
                                   unavailableSlots: seq<string>, now: int, k: int)
    requires Evaluable(cfg) && GetOpenRangeForDate(cfg, date).Some?
    requires var r := GetOpenRangeForDate(cfg, date).value;
      0 <= k && r.startMin + k * cfg.slotMinutes + durationMin <= r.endMin
    ensures var r := GetOpenRangeForDate(cfg, date).value;
            var slots := TimeSlots(cfg, date, durationMin, unavailableSlots, now);
            && k < |slots|
            && IsTimeString(slots[k].time)
            && TimeToMinutes(slots[k].time) == r.startMin + k * cfg.slotMinutes
  {
    var r := GetOpenRangeForDate(cfg, date).value;
    var step := cfg.slotMinutes;
    var room := r.endMin - durationMin - r.startMin;
    ModMultiple(k, step);
    DivLeq(k * step, room, step);
    SlotMinute(cfg, date, durationMin, unavailableSlots, now, k);
  }

  /** Slots come out in strictly ascending time order. */
  lemma SlotsAscending(cfg: BusinessConfig, date: int, durationMin: int,
                       unavailableSlots: seq<string>, now: int, i: int, j: int)
    requires Evaluable(cfg) && GetOpenRangeForDate(cfg, date).Some?
    requires 0 <= i < j < |TimeSlots(cfg, date, durationMin, unavailableSlots, now)|
    ensures var slots := TimeSlots(cfg, date, durationMin, unavailableSlots, now);
            && IsTimeString(slots[i].time) && IsTimeString(slots[j].time)
            && TimeToMinutes(slots[i].time) < TimeToMinutes(slots[j].time)
  {
    SlotMinute(cfg, date, durationMin, unavailableSlots, now, i);
    SlotMinute(cfg, date, durationMin, unavailableSlots, now, j);
    MulLeq(i + 1, j, cfg.slotMinutes);
    MulSucc(i, cfg.slotMinutes);
  }

  /**
   * The status of a slot follows the fixed precedence: a booked time is
   * busy even in a break or in the past, a break beats the past, and
   * available means none of the three.
   */
  lemma StatusPrecedence(cfg: BusinessConfig, date: int, durationMin: int,
                         unavailableSlots: seq<string>, now: int, k: int)
    requires Evaluable(cfg) && GetOpenRangeForDate(cfg, date).Some?
    requires 0 <= k < |TimeSlots(cfg, date, durationMin, unavailableSlots, now)|
    ensures var slot := TimeSlots(cfg, date, durationMin, unavailableSlots, now)[k];
            var day := Weekday(date);
            && IsTimeString(slot.time)
            && (slot.status == Busy <==> slot.time in unavailableSlots)
            && (slot.status == Break <==> slot.time !in unavailableSlots && IsInBreak(cfg, day, slot.time))
            && (slot.status == Past <==>
                  slot.time !in unavailableSlots && !IsInBreak(cfg, day, slot.time)
                  && IsPastTime(date, slot.time, now))
            && (slot.status == Available <==>
                  slot.time !in unavailableSlots && !IsInBreak(cfg, day, slot.time)
                  && !IsPastTime(date, slot.time, now))
  {
  }

  /** A slot offered as available is never one of the booked times. */
  lemma AvailableSlotIsFree(cfg: BusinessConfig, date: int, durationMin: int,
                            unavailableSlots: seq<string>, now: int, slot: TimeSlot)
    requires Evaluable(cfg)
    requires slot in TimeSlots(cfg, date, durationMin, unavailableSlots, now)
    requires slot.status == Available
    ensures slot.time !in unavailableSlots
  {
    var slots := TimeSlots(cfg, date, durationMin, unavailableSlots, now);
    var k :| 0 <= k < |slots| && slots[k] == slot;
    StatusPrecedence(cfg, date, durationMin, unavailableSlots, now, k);
  }
}
