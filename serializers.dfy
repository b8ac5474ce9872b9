/**
 * `BookingSerializer`: how a request body becomes validated booking
 * attributes. Field-level check of the slot, then the object-level check
 * that defaults the slot, demands a date and rejects a taken (date, slot).
 */
module Serializers {
  import opened Wrappers
  import opened Models

  const MinSlot: int := 10
  const MaxSlot: int := 20
  /** The slot assumed when the request does not give one. */
  const DefaultSlot: int := 10

  datatype ValidationError =
    | SlotOutOfRange(value: int)        // "Reservation slot must be between 10 and 20"
    | DateRequired                      // "Reservation date is required."
    | SlotTaken(slot: int, date: Date)  // "Slot {slot} is already taken on {date}."

  /**
   * A request body for the booking resource. `id` and `user` are what a
   * client may send for the two read-only fields; they never reach the
   * validated attributes.
   */
  datatype Payload = Payload(
    id: Option<nat>,
    user: Option<UserId>,
    firstName: string,
    reservationDate: Option<Date>,
    reservationSlot: Option<int>)

  /** The writable fields of a booking after parsing (the `attrs` dict). */
  datatype Attrs = Attrs(
    firstName: string,
    reservationDate: Option<Date>,
    reservationSlot: Option<int>)

  /** Deserialization keeps only the writable fields. */
  function ToAttrs(p: Payload): Attrs {
    Attrs(p.firstName, p.reservationDate, p.reservationSlot)
  }

  /** Whatever `id` and `user` the client sends, the attributes are the same. */
  lemma ReadOnlyFieldsIgnored(p: Payload, id: Option<nat>, user: Option<UserId>)
    ensures ToAttrs(p.(id := id, user := user)) == ToAttrs(p)
    ensures ToAttrs(p).reservationSlot == p.reservationSlot
    ensures ToAttrs(p).reservationDate == p.reservationDate
  {
  }

  /** `validate_reservation_slot`: the slot must lie in 10..20, and is returned unchanged. */
  function ValidateReservationSlot(value: int): (r: Result<int, ValidationError>)
    ensures r.Success? <==> 10 <= value <= 20
    ensures r.Success? ==> r.value == value
    ensures r.Failure? ==> r.error == SlotOutOfRange(value)
  {
    if value < MinSlot || value > MaxSlot then Failure(SlotOutOfRange(value))
    else Success(value)
  }

  /** The slot `validate` works with: the given one, or the default. */
  function SlotOf(a: Attrs): int {
    a.reservationSlot.GetOr(DefaultSlot)
  }

  /** The existence query: does any row, of any owner, hold `slot` on `date`? */
  predicate SlotTakenIn(rows: seq<Booking>, date: Date, slot: int) {
    exists i :: 0 <= i < |rows| && HoldsSlot(rows[i], date, slot)
  }

  /**
   * What `validate` does to `attrs` given the current booking table: the
   * date must be present; no row may hold the (date, slot); on success the
   * slot actually used is written back.
   */
  function Validated(a: Attrs, rows: seq<Booking>): (r: Result<Attrs, ValidationError>)
    ensures a.reservationDate.None? ==> r == Failure(DateRequired)
    ensures a.reservationDate.Some? ==>
              (r.Failure? <==>
                 exists i :: 0 <= i < |rows| && HoldsSlot(rows[i], a.reservationDate.value, SlotOf(a)))
    ensures r.Failure? && a.reservationDate.Some? ==>
              r.error == SlotTaken(SlotOf(a), a.reservationDate.value)
    ensures r.Success? ==>
              r.value.firstName == a.firstName &&
              r.value.reservationDate == a.reservationDate &&
              r.value.reservationSlot == Some(if a.reservationSlot.Some? then a.reservationSlot.value else 10)
    ensures r.Success? ==>
              forall i :: 0 <= i < |rows| ==>
                !HoldsSlot(rows[i], r.value.reservationDate.value, r.value.reservationSlot.value)
  {
    var slot := SlotOf(a);
    match a.reservationDate
    case None => Failure(DateRequired)
    case Some(date) =>
      if SlotTakenIn(rows, date, slot) then Failure(SlotTaken(slot, date))
      else Success(a.(reservationSlot := Some(slot)))
  }

  /** Validation without a slot behaves exactly as validation with slot 10. */
  lemma MissingSlotActsAsDefault(a: Attrs, rows: seq<Booking>)
    requires a.reservationSlot.None?
    ensures Validated(a, rows) == Validated(a.(reservationSlot := Some(DefaultSlot)), rows)
  {
  }

  /**
   * The conflict check does not leave out the booking being updated: sending
   * a stored booking's own (date, slot) back is rejected as taken.
   */
  lemma RevalidatingStoredSlotConflicts(rows: seq<Booking>, k: nat, firstName: string)
    requires k < |rows|
    ensures Validated(Attrs(firstName, Some(rows[k].reservationDate), Some(rows[k].reservationSlot)), rows)
            == Failure(SlotTaken(rows[k].reservationSlot, rows[k].reservationDate))
  {
    assert HoldsSlot(rows[k], rows[k].reservationDate, rows[k].reservationSlot);
  }

  /**
   * The whole of `is_valid`: the field-level slot check runs first (only on
   * a slot that was given), and `validate` only when it passes.
   */
  function RunValidation(a: Attrs, rows: seq<Booking>): (r: Result<Attrs, ValidationError>)
    ensures r.Success? ==>
              r.value.reservationDate.Some? && r.value.reservationSlot.Some? &&
              10 <= r.value.reservationSlot.value <= 20
    ensures r.Success? ==> !SlotTakenIn(rows, r.value.reservationDate.value, r.value.reservationSlot.value)
    ensures r.Success? ==> r.value.firstName == a.firstName && r.value.reservationDate == a.reservationDate
    ensures a.reservationSlot.Some? && !(10 <= a.reservationSlot.value <= 20) ==>
              r == Failure(SlotOutOfRange(a.reservationSlot.value))
    ensures (a.reservationSlot.None? || 10 <= a.reservationSlot.value <= 20) ==> r == Validated(a, rows)
  {
    if a.reservationSlot.Some? && ValidateReservationSlot(a.reservationSlot.value).Failure? then
      Failure(ValidateReservationSlot(a.reservationSlot.value).error)
    else
      Validated(a, rows)
  }

  /**
   * Once a row holds (date, slot), a later request for that pair, by any
   * user, is rejected as taken, whether it names the slot or relies on the default.
   */
  lemma TakenSlotRejectsLaterRequests(rows: seq<Booking>, b: Booking, a: Attrs)
    requires b in rows
    requires a.reservationDate == Some(b.reservationDate) && SlotOf(a) == b.reservationSlot
    requires a.reservationSlot.Some? ==> 10 <= a.reservationSlot.value <= 20
    ensures RunValidation(a, rows) == Failure(SlotTaken(b.reservationSlot, b.reservationDate))
  {
    var k :| 0 <= k < |rows| && rows[k] == b;
    assert HoldsSlot(rows[k], b.reservationDate, b.reservationSlot);
  }

  /** A row made from accepted attributes can join the table without sharing its (date, slot). */
  lemma AcceptedRowKeepsSlotsUnique(rows: seq<Booking>, a: Attrs, b: Booking)
    requires SlotsUnique(rows)
    requires Validated(a, rows).Success?
    requires b.reservationDate == Validated(a, rows).value.reservationDate.value
    requires b.reservationSlot == Validated(a, rows).value.reservationSlot.value
    ensures SlotsUnique(rows + [b])
  {
    var rows' := rows + [b];
    forall i, j | 0 <= i < j < |rows'|
      ensures !HoldsSlot(rows'[j], rows'[i].reservationDate, rows'[i].reservationSlot)
    {
      if j == |rows| {
        assert !HoldsSlot(rows[i], b.reservationDate, b.reservationSlot);
      }
    }
  }

  /** The `attrs` dict that `validate` receives and updates in place. */
  class AttrDict {
    var firstName: string
    var reservationDate: Option<Date>
    var reservationSlot: Option<int>

    constructor (a: Attrs)
      ensures Value() == a
    {
      firstName := a.firstName;
      reservationDate := a.reservationDate;
      reservationSlot := a.reservationSlot;
    }

    function Value(): Attrs
      reads this
    {
      Attrs(firstName, reservationDate, reservationSlot)
    }
  }

  /**
   * `BookingSerializer.validate`: reads the table, and on success writes the
   * slot it used back into `attrs`; on failure `attrs` is left as it was.
   */
  method Validate(attrs: AttrDict, rows: seq<Booking>) returns (outcome: Outcome<ValidationError>)
    modifies attrs
    ensures Validated(old(attrs.Value()), rows).Success? ==>
              outcome == Pass && attrs.Value() == Validated(old(attrs.Value()), rows).value
    ensures Validated(old(attrs.Value()), rows).Failure? ==>
              outcome == Fail(Validated(old(attrs.Value()), rows).error) && attrs.Value() == old(attrs.Value())
  {
    var reservationSlot := attrs.reservationSlot.GetOr(DefaultSlot);
    var reservationDate := attrs.reservationDate;
    if reservationDate.None? {
      return Fail(DateRequired);
    }
    if SlotTakenIn(rows, reservationDate.value, reservationSlot) {
      return Fail(SlotTaken(reservationSlot, reservationDate.value));
    }
    attrs.reservationSlot := Some(reservationSlot);
    return Pass;
  }

  /**
   * `is_valid`: parses the payload into a fresh attribute dict, runs the
   * field-level slot check on a slot that was given, then `validate`.
   */
  method IsValid(payload: Payload, rows: seq<Booking>) returns (r: Result<Attrs, ValidationError>)
    ensures r == RunValidation(ToAttrs(payload), rows)
  {
    var attrs := new AttrDict(ToAttrs(payload));
    if attrs.reservationSlot.Some? {
      var checked := ValidateReservationSlot(attrs.reservationSlot.value);
      if checked.Failure? {
        return Failure(checked.error);
      }
    }
    var outcome := Validate(attrs, rows);
    if outcome.Fail? {
      return Failure(outcome.error);
    }
    return Success(attrs.Value());
  }
}
