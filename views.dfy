/**
 * The two REST viewsets: which permission checks guard them, which rows a
 * requester sees, and how create, update and destroy change the booking table.
 */
module Views {
  import opened Wrappers
  import opened Models
  import opened Permissions
  import opened Serializers

  /**
   * What a booking request can fail with: 401, 404, or 400 with the
   * validation error. The object-level check never refuses a row that the
   * lookup found, so no 403 arises here.
   */
  datatype ApiError = NotAuthenticated | NotFound | Invalid(error: ValidationError)

  /**
   * `MenuViewSet` with `permission_classes = [IsSuperUserOrReadOnly]`: reads
   * are open to everyone, changes only to authenticated superusers.
   */
  function MenuPermits(req: Requester, verb: string): (allowed: bool)
    ensures allowed <==> verb in ["GET", "HEAD", "OPTIONS"] || (req.Account? && req.isSuperuser)
    ensures req == Anonymous ==> (allowed <==> IsSafeMethod(verb))
  {
    SuperUserOrReadOnly(req, verb)
  }

  /**
   * The request-level check of `BookingViewSet`: `IsAuthenticated` and the
   * `has_permission` that `IsOwnerOrSuperUser` inherits, which admits everyone.
   */
  function BookingPermits(req: Requester): (allowed: bool)
    ensures allowed <==> req.Account?
  {
    IsAuthenticated(req)
  }

  /**
   * The object-level check of `BookingViewSet` on one booking: the request
   * check, then `IsOwnerOrSuperUser` (`IsAuthenticated` has no object check of its own).
   */
  function BookingObjectPermits(req: Requester, obj: Booking): (allowed: bool)
    ensures allowed <==> req.Account? && (req.isSuperuser || req.id == obj.user)
    ensures req == Anonymous ==> !allowed
  {
    BookingPermits(req) && OwnerOrSuperUser(req, obj)
  }

  /** The rows whose user is `u`, in table order (`Booking.objects.filter(user=u)`). */
  function OwnBookings(rows: seq<Booking>, u: UserId): (r: seq<Booking>)
    ensures |r| <= |rows|
    ensures forall b :: b in r <==> b in rows && b.user == u
  {
    if rows == [] then []
    else
      assert rows == [rows[0]] + rows[1..];
      (if rows[0].user == u then [rows[0]] else []) + OwnBookings(rows[1..], u)
  }

  /**
   * Filtering distributes over concatenation; with the one-row case this
   * fixes the result completely, so the rows come out in table order.
   */
  lemma {:induction false} OwnBookingsConcat(s: seq<Booking>, t: seq<Booking>, u: UserId)
    ensures OwnBookings(s + t, u) == OwnBookings(s, u) + OwnBookings(t, u)
  {
    if s == [] {
      assert s + t == t;
    } else {
      assert (s + t)[0] == s[0];
      assert (s + t)[1..] == s[1..] + t;
      OwnBookingsConcat(s[1..], t, u);
    }
  }

  /** A table holding only `u`'s rows is returned whole, in its own order. */
  lemma {:induction false} OwnBookingsOfOwnTable(rows: seq<Booking>, u: UserId)
    requires forall i :: 0 <= i < |rows| ==> rows[i].user == u
    ensures OwnBookings(rows, u) == rows
  {
    if rows != [] {
      OwnBookingsOfOwnTable(rows[1..], u);
    }
  }

  /** `BookingViewSet.get_queryset`: superusers see every booking, anyone else their own. */
  function GetQueryset(req: Requester, rows: seq<Booking>): (r: seq<Booking>)
    requires req.IsAuthenticated()
    ensures req.IsSuperuser() ==> r == rows
    ensures !req.IsSuperuser() ==> forall b :: b in r <==> b in rows && b.user == req.id
    ensures forall b :: b in r ==> b in rows && BookingObjectPermits(req, b)
  {
    if req.IsSuperuser() then rows else OwnBookings(rows, req.id)
  }

  /** Position of the first row with primary key `id`, if there is one. */
  function IndexOfId(rows: seq<Booking>, id: nat): (r: Option<nat>)
    ensures r.None? <==> forall i :: 0 <= i < |rows| ==> rows[i].id != id
    ensures r.Some? ==> r.value < |rows| && rows[r.value].id == id
    ensures r.Some? ==> forall i :: 0 <= i < r.value ==> rows[i].id != id
  {
    if rows == [] then None
    else if rows[0].id == id then Some(0)
    else match IndexOfId(rows[1..], id)
      case None => None
      case Some(k) => Some(k + 1)
  }

  /** The table without the row at `k`. */
  function RemoveAt(rows: seq<Booking>, k: nat): seq<Booking>
    requires k < |rows|
  {
    rows[..k] + rows[k + 1..]
  }

  /** Removing a row keeps every other row and their order. */
  lemma RemoveAtIndex(rows: seq<Booking>, k: nat, i: nat)
    requires k < |rows| && i < |rows| - 1
    ensures |RemoveAt(rows, k)| == |rows| - 1
    ensures RemoveAt(rows, k)[i] == if i < k then rows[i] else rows[i + 1]
  {
  }

  /** Removing a row keeps no two rows sharing a (date, slot). */
  lemma RemoveKeepsSlotsUnique(rows: seq<Booking>, k: nat)
    requires k < |rows| && SlotsUnique(rows)
    ensures SlotsUnique(RemoveAt(rows, k))
  {
    var rest := RemoveAt(rows, k);
    forall i, j | 0 <= i < j < |rest|
      ensures !HoldsSlot(rest[j], rest[i].reservationDate, rest[i].reservationSlot)
    {
      RemoveAtIndex(rows, k, i);
      RemoveAtIndex(rows, k, j);
    }
  }

  /**
   * Replacing row `k` by `b` keeps (date, slot) unique when `b`'s pair was
   * held by no row of the table before.
   */
  lemma ReplaceKeepsSlotsUnique(rows: seq<Booking>, k: nat, b: Booking)
    requires k < |rows| && SlotsUnique(rows)
    requires forall i :: 0 <= i < |rows| ==> !HoldsSlot(rows[i], b.reservationDate, b.reservationSlot)
    ensures SlotsUnique(rows[k := b])
  {
    var rows' := rows[k := b];
    forall i, j | 0 <= i < j < |rows'|
      ensures !HoldsSlot(rows'[j], rows'[i].reservationDate, rows'[i].reservationSlot)
    {
      if i == k {
        assert !HoldsSlot(rows[j], b.reservationDate, b.reservationSlot);
      } else if j == k {
        assert !HoldsSlot(rows[i], b.reservationDate, b.reservationSlot);
      }
    }
  }

  /**
   * `BookingViewSet` over the booking table (`Booking.objects`). Primary keys
   * are handed out by `nextId`, as the database's auto-increment does.
   */
  class BookingViewSet {
    var rows: seq<Booking>
    var nextId: nat

    /** Every key is below the counter and no key is used twice. */
    ghost predicate Valid()
      reads this
    {
      (forall i :: 0 <= i < |rows| ==> rows[i].id < nextId) &&
      (forall i, j :: 0 <= i < j < |rows| ==> rows[i].id != rows[j].id)
    }

    constructor ()
      ensures Valid() && rows == [] && nextId == 1
    {
      rows := [];
      nextId := 1;
    }

    /** `list`: the permission check, then `get_queryset`. */
    method List(req: Requester) returns (r: Result<seq<Booking>, ApiError>)
      ensures !req.IsAuthenticated() ==> r == Failure(NotAuthenticated)
      ensures req.IsAuthenticated() ==> r.Success? && r.value == GetQueryset(req, rows)
    {
      if !BookingPermits(req) {
        return Failure(NotAuthenticated);
      }
      return Success(GetQueryset(req, rows));
    }

    /** `retrieve`: the permission check, then the lookup of `id` among the rows `get_queryset` shows. */
    method Retrieve(req: Requester, id: nat) returns (r: Result<Booking, ApiError>)
      requires Valid()
      ensures !req.IsAuthenticated() ==> r == Failure(NotAuthenticated)
      ensures req.IsAuthenticated() ==>
                (r == Failure(NotFound) <==> IndexOfId(GetQueryset(req, rows), id).None?)
      ensures req.IsAuthenticated() && IndexOfId(GetQueryset(req, rows), id).Some? ==> r.Success?
      ensures r.Success? ==> r.value in rows && r.value.id == id && BookingObjectPermits(req, r.value)
    {
      if !BookingPermits(req) {
        return Failure(NotAuthenticated);
      }
      var k := Lookup(req, id);
      if k.None? {
        return Failure(NotFound);
      }
      return Success(rows[k.value]);
    }

    /**
     * `perform_create`: saves the validated attributes as a new row whose
     * user is the requesting user.
     */
    method PerformCreate(user: UserId, a: Attrs) returns (b: Booking)
      requires Valid()
      requires a.reservationDate.Some? && a.reservationSlot.Some?
      modifies this
      ensures Valid()
      ensures b == Booking(old(nextId), user, a.firstName, a.reservationDate.value, a.reservationSlot.value)
      ensures rows == old(rows) + [b] && nextId == old(nextId) + 1
    {
      b := Booking(nextId, user, a.firstName, a.reservationDate.value, a.reservationSlot.value);
      rows := rows + [b];
      nextId := nextId + 1;
    }

    /**
     * `create`: the permission check, the serializer's field-level and
     * object-level validation against the table, then `perform_create`.
     * Exactly one row is appended on success, owned by the requester
     * whatever `user` the payload carries; nothing changes on failure.
     */
    method Create(req: Requester, payload: Payload) returns (r: Result<Booking, ApiError>)
      requires Valid()
      modifies this
      ensures Valid()
      ensures !req.IsAuthenticated() ==> r == Failure(NotAuthenticated)
      ensures req.IsAuthenticated() && RunValidation(ToAttrs(payload), old(rows)).Failure? ==>
                r == Failure(Invalid(RunValidation(ToAttrs(payload), old(rows)).error))
      ensures r.Failure? ==> rows == old(rows) && nextId == old(nextId)
      ensures r.Success? <==> req.IsAuthenticated() && RunValidation(ToAttrs(payload), old(rows)).Success?
      ensures r.Success? ==>
                var a := RunValidation(ToAttrs(payload), old(rows)).value;
                r.value == Booking(old(nextId), req.id, a.firstName, a.reservationDate.value, a.reservationSlot.value) &&
                rows == old(rows) + [r.value] && nextId == old(nextId) + 1
      ensures old(SlotsUnique(rows)) ==> SlotsUnique(rows)
    {
      if !BookingPermits(req) {
        return Failure(NotAuthenticated);
      }
      var validated := IsValid(payload, rows);
      if validated.Failure? {
        return Failure(Invalid(validated.error));
      }
      ghost var before := rows;
      var b := PerformCreate(req.id, validated.value);
      if SlotsUnique(before) {
        AcceptedRowKeepsSlotsUnique(before, ToAttrs(payload), b);
      }
      return Success(b);
    }

    /**
     * `update` (PUT): the permission check, the lookup of `id` among the rows
     * `get_queryset` shows the requester, validation against the whole table
     * (the row itself included), then the row's writable fields are set.
     */
    method Update(req: Requester, id: nat, payload: Payload) returns (r: Result<Booking, ApiError>)
      requires Valid()
      modifies this
      ensures Valid() && nextId == old(nextId)
      ensures !req.IsAuthenticated() ==> r == Failure(NotAuthenticated)
      ensures req.IsAuthenticated() && IndexOfId(GetQueryset(req, old(rows)), id).None? ==> r == Failure(NotFound)
      ensures req.IsAuthenticated() && IndexOfId(GetQueryset(req, old(rows)), id).Some? ==>
                match RunValidation(ToAttrs(payload), old(rows))
                case Failure(e) => r == Failure(Invalid(e))
                case Success(_) => r.Success?
      ensures r.Failure? ==> rows == old(rows)
      ensures r.Success? ==>
                req.IsAuthenticated() && IndexOfId(old(rows), id).Some? &&
                RunValidation(ToAttrs(payload), old(rows)).Success? &&
                var k := IndexOfId(old(rows), id).value;
                var a := RunValidation(ToAttrs(payload), old(rows)).value;
                BookingObjectPermits(req, old(rows)[k]) &&
                r.value == old(rows)[k].(firstName := a.firstName,
                                         reservationDate := a.reservationDate.value,
                                         reservationSlot := a.reservationSlot.value) &&
                rows == old(rows)[k := r.value]
      ensures old(SlotsUnique(rows)) ==> SlotsUnique(rows)
    {
      if !BookingPermits(req) {
        return Failure(NotAuthenticated);
      }
      var k := Lookup(req, id);
      if k.None? {
        return Failure(NotFound);
      }
      var obj := rows[k.value];
      var validated := IsValid(payload, rows);
      if validated.Failure? {
        return Failure(Invalid(validated.error));
      }
      var a := validated.value;
      var b := obj.(firstName := a.firstName,
                    reservationDate := a.reservationDate.value,
                    reservationSlot := a.reservationSlot.value);
      if SlotsUnique(rows) {
        ReplaceKeepsSlotsUnique(rows, k.value, b);
      }
      rows := rows[k.value := b];
      return Success(b);
    }

    /**
     * `destroy`: the permission check, the lookup of `id` among the rows
     * `get_queryset` shows the requester, then that one row is deleted.
     */
    method Destroy(req: Requester, id: nat) returns (r: Result<Booking, ApiError>)
      requires Valid()
      modifies this
      ensures Valid() && nextId == old(nextId)
      ensures !req.IsAuthenticated() ==> r == Failure(NotAuthenticated)
      ensures req.IsAuthenticated() ==>
                (r == Failure(NotFound) <==> IndexOfId(GetQueryset(req, old(rows)), id).None?)
      ensures req.IsAuthenticated() && IndexOfId(GetQueryset(req, old(rows)), id).Some? ==> r.Success?
      ensures r.Failure? ==> rows == old(rows)
      ensures r.Success? ==>
                req.IsAuthenticated() && IndexOfId(old(rows), id).Some? &&
                var k := IndexOfId(old(rows), id).value;
                r == Success(old(rows)[k]) && r.value.id == id &&
                BookingObjectPermits(req, r.value) &&
                rows == RemoveAt(old(rows), k)
      ensures old(SlotsUnique(rows)) ==> SlotsUnique(rows)
    {
      if !BookingPermits(req) {
        return Failure(NotAuthenticated);
      }
      var k := Lookup(req, id);
      if k.None? {
        return Failure(NotFound);
      }
      var obj := rows[k.value];
      if SlotsUnique(rows) {
        RemoveKeepsSlotsUnique(rows, k.value);
      }
      forall i, j | 0 <= i < j < |rows| - 1
        ensures RemoveAt(rows, k.value)[i].id != RemoveAt(rows, k.value)[j].id
      {
        RemoveAtIndex(rows, k.value, i);
        RemoveAtIndex(rows, k.value, j);
      }
      forall i | 0 <= i < |rows| - 1
        ensures RemoveAt(rows, k.value)[i].id < nextId
      {
        RemoveAtIndex(rows, k.value, i);
      }
      rows := RemoveAt(rows, k.value);
      return Success(obj);
    }

    /**
     * `get_object`: the position in the table of the row with key `id`,
     * provided `get_queryset` shows that row to the requester. The
     * object-level permission check that follows the lookup always passes
     * here, since every row `get_queryset` returns satisfies it.
     */
    method Lookup(req: Requester, id: nat) returns (k: Option<nat>)
      requires Valid() && req.IsAuthenticated()
      ensures k.None? <==> IndexOfId(GetQueryset(req, rows), id).None?
      ensures k.Some? ==> k == IndexOfId(rows, id)
      ensures k.Some? ==> rows[k.value].id == id && BookingObjectPermits(req, rows[k.value])
    {
      var visible := GetQueryset(req, rows);
      var found := IndexOfId(visible, id);
      if found.None? {
        return None;
      }
      var obj := visible[found.value];
      assert obj in rows;
      k := IndexOfId(rows, id);
      ghost var j :| 0 <= j < |rows| && rows[j] == obj;
      assert rows[k.value] == obj;
      assert BookingObjectPermits(req, rows[k.value]);
    }
  }
}
