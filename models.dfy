/**
 * The entities the booking API works on: users as the authentication layer
 * presents them, calendar dates, and rows of the booking table.
 */
module Models {

  /** Primary key of a user account. */
  type UserId = nat

  /** A calendar date; only compared for equality. */
  datatype Date = Date(year: int, month: int, day: int)

  /** One row of the booking table. */
  datatype Booking = Booking(
    id: nat,
    user: UserId,
    firstName: string,
    reservationDate: Date,
    reservationSlot: int)

  /**
   * The user attached to a request: the anonymous user when no valid token
   * was sent, otherwise an account (always authenticated) with its superuser flag.
   */
  datatype Requester = Anonymous | Account(id: UserId, isSuperuser: bool) {

    predicate IsAuthenticated() {
      Account?
    }

    predicate IsSuperuser() {
      Account? && isSuperuser
    }

    /** Model equality `obj.user == request.user`: the anonymous user equals no account. */
    predicate Is(u: UserId) {
      Account? && id == u
    }
  }

  /** Whether booking `b` holds `slot` on `date`. */
  predicate HoldsSlot(b: Booking, date: Date, slot: int) {
    b.reservationDate == date && b.reservationSlot == slot
  }

  /** No two rows of the table hold the same (date, slot). */
  ghost predicate SlotsUnique(rows: seq<Booking>) {
    forall i, j :: 0 <= i < j < |rows| ==>
      !HoldsSlot(rows[j], rows[i].reservationDate, rows[i].reservationSlot)
  }
}
