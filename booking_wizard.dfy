/**
 * The booking wizard's transitions: a five-step state machine over a
 * `BookingData` record (1 service, 2 barber, 3 date and time,
 * 4 confirmation, 5 done).
 *
 * The component's `step` and `bookingData` state cells are the fields of
 * `Wizard`, and so is the insert under way (the mutation's pending state).
 * Each named handler is a method, and so are the `onChange` handlers of
 * the name and phone inputs. The booked times fetched for the chosen date
 * and barber, whether a user is signed in, and whether the store accepts
 * the insert are passed in as parameters.
 */
module BookingWizard {
  import opened JsText
  import opened Barbershop
  import opened TimeUtils
  import opened SlotFacts

  /** The record a fresh or closed wizard holds: nothing chosen, every text empty. */
  function EmptyBooking(): BookingData {
    BookingData(None, None, None, None, "", "", "")
  }

  /**
   * Service, barber, date and time are all chosen. The store's guard tests
   * the time for truthiness, so an empty time string counts as missing.
   */
  predicate Complete(b: BookingData) {
    b.service.Some? && b.barber.Some? && b.date.Some? && b.time.Some? && b.time.value != ""
  }

  /** How a press of "confirm" ends when nothing else happens while the store answers. */
  datatype ConfirmOutcome =
    | NameMissing        // the name is blank: nothing is sent
    | IncompleteBooking  // no user, or a choice is missing: the store call throws before inserting
    | SubmissionFailed   // the store refused the insert
    | Confirmed          // the appointment was stored

  /**
   * The outcome of confirming `b`: the blank-name guard first, then the
   * completeness guard of the store call, then the store's answer.
   */
  function ConfirmResult(b: BookingData, signedIn: bool, storeAccepts: bool): (r: ConfirmOutcome)
    ensures r == NameMissing <==> AllWhitespace(b.clientName)
    ensures r == IncompleteBooking <==> !AllWhitespace(b.clientName) && !(signedIn && Complete(b))
    ensures r == SubmissionFailed <==>
              !AllWhitespace(b.clientName) && signedIn && Complete(b) && !storeAccepts
    ensures r == Confirmed <==> !AllWhitespace(b.clientName) && signedIn && Complete(b) && storeAccepts
  {
    TrimEmptyIffBlank(b.clientName);
    if Trim(b.clientName) == [] then NameMissing
    else if !signedIn || !Complete(b) then IncompleteBooking
    else if !storeAccepts then SubmissionFailed
    else Confirmed
  }

  /**
   * The slots the date-and-time step lists: those of the chosen date for
   * the chosen service's duration, or none until both are chosen.
   */
  function VisibleSlots(cfg: BusinessConfig, b: BookingData, unavailableSlots: seq<string>, now: int): seq<TimeSlot>
    requires Evaluable(cfg)
  {
    if b.date.Some? && b.service.Some? then
      TimeSlots(cfg, b.date.value, b.service.value.durationMin, unavailableSlots, now)
    else
      []
  }

  class Wizard {
    var step: int
    var booking: BookingData
    /** The record an insert is under way for, until the store answers. */
    var pending: Option<BookingData>

    /** The wizard is on one of its five steps, and only a complete record is ever sent. */
    ghost predicate Valid()
      reads this
    {
      1 <= step <= 5 && (pending.Some? ==> Complete(pending.value))
    }

    /** A new wizard starts on the service step with nothing chosen and nothing sent. */
    constructor()
      ensures Valid() && step == 1 && booking == EmptyBooking() && pending == None
    {
      step := 1;
      booking := EmptyBooking();
      pending := None;
    }

    /**
     * `handleClose`: back to the first step with every field reset. An
     * insert under way is not cancelled.
     */
    method HandleClose()
      requires Valid()
      modifies this
      ensures Valid() && step == 1 && booking == EmptyBooking() && pending == old(pending)
    {
      step := 1;
      booking := EmptyBooking();
    }

    /** `selectService`: records the service, drops the chosen time, goes to the barber step. */
    method SelectService(service: Service)
      requires Valid()
      modifies this
      ensures Valid() && step == 2 && pending == old(pending)
      ensures booking == old(booking).(service := Some(service), time := None)
    {
      booking := booking.(service := Some(service), time := None);
      step := 2;
    }

    /** `selectBarber`: records the barber, drops the chosen time, goes to the date step. */
    method SelectBarber(barber: Barber)
      requires Valid()
      modifies this
      ensures Valid() && step == 3 && pending == old(pending)
      ensures booking == old(booking).(barber := Some(barber), time := None)
    {
      booking := booking.(barber := Some(barber), time := None);
      step := 3;
    }

    /** `selectDate`: records the date and drops the chosen time; the step stays. */
    method SelectDate(date: int)
      requires Valid()
      modifies this
      ensures Valid() && step == old(step) && pending == old(pending)
      ensures booking == old(booking).(date := Some(date), time := None)
    {
      booking := booking.(date := Some(date), time := None);
    }

    /**
     * `selectTime`: a booked time is refused and nothing changes; any
     * other time is recorded and the wizard moves to confirmation.
     */
    method SelectTime(time: string, unavailableSlots: seq<string>) returns (accepted: bool)
      requires Valid()
      modifies this
      ensures Valid() && pending == old(pending)
      ensures accepted <==> time !in unavailableSlots
      ensures accepted ==> step == 4 && booking == old(booking).(time := Some(time))
      ensures !accepted ==> step == old(step) && booking == old(booking)
    {
      if time in unavailableSlots {
        return false;
      }
      booking := booking.(time := Some(time));
      step := 4;
      return true;
    }

    /** The name field's `onChange`: only the name changes. */
    method SetClientName(name: string)
      requires Valid()
      modifies this
      ensures Valid() && step == old(step) && pending == old(pending)
      ensures booking == old(booking).(clientName := name)
    {
      booking := booking.(clientName := name);
    }

    /** The phone field's `onChange`: only the phone changes. */
    method SetClientPhone(phone: string)
      requires Valid()
      modifies this
      ensures Valid() && step == old(step) && pending == old(pending)
      ensures booking == old(booking).(clientPhone := phone)
    {
      booking := booking.(clientPhone := phone);
    }

    /**
     * `handleConfirm` up to the `await`: a blank name is refused; the
     * store call throws before inserting when no user is signed in or a
     * choice is missing; otherwise the current record is handed to the
     * store and the wizard waits for its answer. Nothing else changes.
     * The confirm button is disabled while an insert is under way.
     */
    method HandleConfirm(signedIn: bool) returns (refused: Option<ConfirmOutcome>)
      requires Valid() && pending.None?
      modifies this
      ensures Valid() && step == old(step) && booking == old(booking)
      ensures refused.None? <==> !AllWhitespace(booking.clientName) && signedIn && Complete(booking)
      ensures refused.Some? ==>
                refused.value == ConfirmResult(booking, signedIn, false)
                && refused.value in {NameMissing, IncompleteBooking}
      ensures pending == if refused.None? then Some(booking) else None
    {
      TrimEmptyIffBlank(booking.clientName);
      if Trim(booking.clientName) == [] {
        return Some(NameMissing);
      }
      if !signedIn || !Complete(booking) {
        return Some(IncompleteBooking);
      }
      pending := Some(booking);
      refused := None;
    }

    /**
     * `handleConfirm` after the `await`: the store's answer. A stored
     * appointment moves the wizard to the last step from whatever step it
     * is on by then; a refusal changes nothing. The record is not touched.
     */
    method FinishConfirm(accepted: bool) returns (outcome: ConfirmOutcome)
      requires Valid() && pending.Some?
      modifies this
      ensures Valid() && booking == old(booking) && pending == None
      ensures outcome == if accepted then Confirmed else SubmissionFailed
      ensures step == if accepted then 5 else old(step)
    {
      pending := None;
      if accepted {
        outcome := Confirmed;
        step := 5;
      } else {
        outcome := SubmissionFailed;
      }
    }

    /**
     * A press of "confirm" with nothing in between until the store
     * answers: the outcome is `ConfirmResult`, only a stored appointment
     * moves to the last step, and the record is never changed.
     */
    method ConfirmUninterrupted(signedIn: bool, storeAccepts: bool) returns (outcome: ConfirmOutcome)
      requires Valid() && pending.None?
      modifies this
      ensures Valid() && booking == old(booking) && pending == None
      ensures outcome == ConfirmResult(old(booking), signedIn, storeAccepts)
      ensures step == if outcome == Confirmed then 5 else old(step)
    {
      var refused := HandleConfirm(signedIn);
      if refused.Some? {
        return refused.value;
      }
      outcome := FinishConfirm(storeAccepts);
    }

    /**
     * Closing the modal while the insert is under way, then the store
     * accepting it: the wizard ends on the success step over an empty record.
     */
    method CloseWhileSaving() returns (outcome: ConfirmOutcome)
      requires Valid() && pending.Some?
      modifies this
      ensures outcome == Confirmed && step == 5 && booking == EmptyBooking() && pending == None
    {
      HandleClose();
      outcome := FinishConfirm(true);
    }

    /**
     * Going back from the confirmation step while the insert is under way,
     * then the store accepting it: the wizard jumps from the date step to
     * the success step.
     */
    method BackWhileSaving() returns (outcome: ConfirmOutcome)
      requires Valid() && pending.Some? && step == 4
      modifies this
      ensures outcome == Confirmed && step == 5 && booking == old(booking) && pending == None
    {
      PrevStep();
      assert step == 3;
      outcome := FinishConfirm(true);
    }

    /** `prevStep`: one step back, never below the first. */
    method PrevStep()
      requires Valid()
      modifies this
      ensures Valid() && booking == old(booking) && pending == old(pending)
      ensures old(step) > 1 ==> step == old(step) - 1
      ensures old(step) == 1 ==> step == 1
    {
      step := if step - 1 > 1 then step - 1 else 1;
    }

    /**
     * A click on slot `k` of the listed slots: only an available slot
     * passes the button's guard and reaches `SelectTime`, and an
     * available slot is never refused there.
     */
    method ClickSlot(cfg: BusinessConfig, unavailableSlots: seq<string>, now: int, k: int) returns (accepted: bool)
      requires Valid() && Evaluable(cfg)
      requires 0 <= k < |VisibleSlots(cfg, booking, unavailableSlots, now)|
      modifies this
      ensures Valid() && pending == old(pending)
      ensures var slot := VisibleSlots(cfg, old(booking), unavailableSlots, now)[k];
              && (accepted <==> slot.status == Available)
              && (accepted ==> step == 4 && booking == old(booking).(time := Some(slot.time)))
              && (!accepted ==> step == old(step) && booking == old(booking))
    {
      var slot := VisibleSlots(cfg, booking, unavailableSlots, now)[k];
      if slot.status != Available {
        return false;
      }
      AvailableSlotIsFree(cfg, booking.date.value, booking.service.value.durationMin, unavailableSlots, now, slot);
      accepted := SelectTime(slot.time, unavailableSlots);
    }
  }
}
