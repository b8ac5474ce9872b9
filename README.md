# Little Lemon reservation API: booking admission and access policy

This project models the REST API that takes table bookings for the Little Lemon
restaurant, and proves properties of that model. The booking table is a sequence of rows
`(id, user, first_name, reservation_date, reservation_slot)` held by the
`BookingViewSet` class. The model covers:

- **Serializers** (`restaurantapi/serializers.py`):
  - the field-level slot check, which accepts only slots 10 to 20;
  - the object-level `validate` step. It defaults a missing slot to 10, rejects a
    missing date, and rejects the request when any existing booking, of any owner,
    already holds the same (date, slot). It then writes the slot back into the
    attribute dict (a mutable `AttrDict`);
  - the read-only `user` and `id` fields, which a client cannot set.
- **Permissions** (`restaurantapi/permissions.py`): `IsOwnerOrSuperUser` and
  `IsSuperUserOrReadOnly` as predicates over a requester. A requester is either the
  anonymous user or an account with a superuser flag.
- **Views** (`restaurantapi/views.py`):
  - which guards apply to the Menu and Booking viewsets;
  - `get_queryset`, a filter of the table;
  - `perform_create`, which appends one row owned by the requester;
  - the create, list, retrieve, update (PUT) and destroy actions these feed.

The conflict check is modelled as written. It does not leave out the booking being
updated, so a PUT that keeps a booking's own (date, slot) is rejected as taken
(`Serializers.RevalidatingStoredSlotConflicts`). Table insertions keep (date, slot)
unique: create, update and destroy all preserve that no two rows share a pair.

The framework's order of checks is modelled explicitly:

1. Request-level permissions.
2. The object lookup through `get_queryset`. A non-owner gets "not found", not
   "forbidden".
3. Object-level permissions. Because every row `get_queryset` returns already passes
   this check, the model proves it (`Views.BookingViewSet.Lookup`) instead of
   branching on it.
4. Field-level validation, then `validate`.

The API rejects a (date, slot) already held by any booking. It never updates an
existing booking in place on create, and returns no created/updated flag.

## Model

| member | source | states |
|---|---|---|
| Permissions.OwnerOrSuperUser | restaurantapi/permissions.py:9-12 | a superuser passes for every booking; anyone else passes iff they are an account and the booking's user |
| Permissions.SuperUserOrReadOnly | restaurantapi/permissions.py:19-22 | GET, HEAD and OPTIONS pass for every requester, anonymous included; any other method passes iff the requester is an authenticated superuser |
| Permissions.IsAuthenticated | restaurantapi/views.py:31 | passes iff the requester is not the anonymous user |
| Permissions.AnonymousNeverWrites | restaurantapi/permissions.py:22 | no anonymous requester passes the read-only guard on a method that is not safe |
| Serializers.ReadOnlyFieldsIgnored | restaurantapi/serializers.py:12-16 | the validated attributes do not depend on the `id` or `user` a client sends |
| Serializers.ValidateReservationSlot | restaurantapi/serializers.py:18-21 | succeeds iff 10 <= slot <= 20, returns the slot unchanged, and otherwise fails with the out-of-range error |
| Serializers.Validated | restaurantapi/serializers.py:23-43 | a missing date fails with "date required" whatever the table holds; otherwise it fails iff some row of any owner holds (date, slot-or-10), with that pair echoed; on success the attributes are the input with the slot set to the given slot or 10, and no row holds the returned pair |
| Serializers.MissingSlotActsAsDefault | restaurantapi/serializers.py:24-25 | validation without a slot gives exactly the result of validation with slot 10 |
| Serializers.RevalidatingStoredSlotConflicts | restaurantapi/serializers.py:32-38 | re-sending a stored booking's own (date, slot) is rejected as taken, because the booking itself is not left out of the check |
| Serializers.TakenSlotRejectsLaterRequests | restaurantapi/serializers.py:32-38 | once any row of the table holds (date, slot), a later request for the same pair by any user, with the slot given or defaulted, fails as taken |
| Serializers.RunValidation | restaurantapi/serializers.py:18-43 | field check then `validate`: on success the date is present, the slot (given or defaulted) lies in 10..20 and no row holds the pair; an out-of-range slot fails before the table is looked at; an absent or in-range slot gives exactly the result of `validate` |
| Serializers.IsValid | restaurantapi/serializers.py:18-43 | parsing the payload, the field-level slot check on a given slot and the in-place `validate` together give exactly the result the validation function specifies |
| Serializers.AcceptedRowKeepsSlotsUnique | restaurantapi/serializers.py:31-43 | appending a row with the accepted (date, slot) to a table without duplicate pairs leaves it without duplicate pairs |
| Serializers.Validate | restaurantapi/serializers.py:23-43 | the in-place `validate`: on success it passes and the attribute dict becomes the validated attributes, with the slot written back; on failure it returns that error and leaves the dict as it was |
| Views.MenuPermits | restaurantapi/views.py:10-18 | Menu requests pass iff the method is safe or the requester is an authenticated superuser; anonymous requesters may only read |
| Views.BookingPermits | restaurantapi/views.py:31 | the Booking request-level check passes iff the requester is authenticated |
| Views.BookingObjectPermits | restaurantapi/views.py:31 | an action on one booking passes iff the requester is authenticated and is that booking's user or a superuser; never for the anonymous user |
| Views.OwnBookings | restaurantapi/views.py:37 | the filtered rows are exactly the table's rows whose user is the requester |
| Views.OwnBookingsConcat | restaurantapi/views.py:37 | the filter distributes over concatenation, so rows keep their table order |
| Views.OwnBookingsOfOwnTable | restaurantapi/views.py:37 | a table holding only the requester's rows is returned whole and unchanged |
| Views.GetQueryset | restaurantapi/views.py:33-37 | a superuser gets the whole table; anyone else gets exactly their own rows and no row of another user; every returned row passes the object check |
| Views.BookingViewSet.constructor | restaurantapi/views.py:29 | starts from an empty table with keys counted from 1 |
| Views.BookingViewSet.List | restaurantapi/views.py:24-25 | anonymous requests are refused; otherwise the result is the requester's queryset |
| Views.BookingViewSet.Retrieve | restaurantapi/views.py:31-37 | refuses the anonymous user; "not found" iff the key is not among the rows the requester sees, and success otherwise; a returned row is in the table, has the key and passes the object check |
| Views.BookingViewSet.Lookup | restaurantapi/views.py:31-37 | finds the row with the key among the rows the requester sees, and proves that the object check passes for it |
| Views.BookingViewSet.PerformCreate | restaurantapi/views.py:39-40 | appends exactly one row with the next key, owned by the given user, with the validated fields; earlier rows are unchanged |
| Views.BookingViewSet.Create | restaurantapi/views.py:26-40 | refuses the anonymous user, then fails with the validation error, changing nothing; otherwise appends one row owned by the requester whatever the payload says, and keeps (date, slot) unique |
| Views.BookingViewSet.Update | restaurantapi/serializers.py:23-43 | refuses the anonymous user; "not found" outside the requester's queryset; validates against the whole table; on success replaces only the fields of that one row, keeps its key and owner, and keeps (date, slot) unique |
| Views.BookingViewSet.Destroy | restaurantapi/views.py:27-37 | refuses the anonymous user; "not found" iff the key is outside the requester's queryset; otherwise succeeds and removes exactly that row, which passes the object check, and keeps (date, slot) unique |

## Left out

- Settings (`littlelemon/settings.py`) are not modelled: environment and secret
  loading, database, storage, JWT, throttling and the host and CSRF lists are
  configuration and I/O.
- Login, logout and registration (`authorization/views.py`) are not modelled: they
  only call the framework's authentication, session and template functions.
- URL routing (`restaurantapi/urls.py`, `restaurant/urls.py`) is not modelled: it is
  tables only. The runtime supplies the requester and the HTTP method as parameters.
- `restaurant/models.py` is not part of this model. `first_name` is taken as always
  present. Field-level required-ness, length limits and date parsing, which come from
  the model declarations, are left out. So is the creation timestamp.
- `restaurant/views.py` is not part of this model. Its web booking view, which updates
  a user's existing booking for the same day, is not covered.
- `MenuSerializer` has no logic and the Menu table's contents are not modelled. Only
  the Menu access guard is.
- The database is not modelled: it is a sequence of rows. Primary keys come from a
  counter, and primary-key lookup and deletion are done by position.
- The race between the existence check and the write under concurrent requests is
  outside a sequential model.
- Partial update (PATCH) is not modelled; only full update (PUT) is.
- Error message texts are not modelled. Errors are values carrying the echoed date and
  slot, not formatted strings.
