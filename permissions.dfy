/** The two custom permission classes, as predicates over the request. */
module Permissions {
  import opened Models

  /** The HTTP methods that never change state. */
  const SafeMethods: seq<string> := ["GET", "HEAD", "OPTIONS"]

  predicate IsSafeMethod(verb: string) {
    verb in SafeMethods
  }

  /**
   * `IsOwnerOrSuperUser.has_object_permission`: a superuser may act on any
   * booking, anyone else only on a booking whose user is themselves.
   */
  function OwnerOrSuperUser(req: Requester, obj: Booking): (allowed: bool)
    ensures req.IsSuperuser() ==> allowed
    ensures !req.IsSuperuser() ==> (allowed <==> req.Account? && req.id == obj.user)
  {
    if req.IsSuperuser() then true else req.Is(obj.user)
  }

  /**
   * `IsSuperUserOrReadOnly.has_permission`: safe methods pass for everyone,
   * any other method only for an authenticated superuser.
   */
  function SuperUserOrReadOnly(req: Requester, verb: string): (allowed: bool)
    ensures verb == "GET" || verb == "HEAD" || verb == "OPTIONS" ==> allowed
    ensures !(verb == "GET" || verb == "HEAD" || verb == "OPTIONS") ==>
              (allowed <==> req.Account? && req.isSuperuser)
  {
    if IsSafeMethod(verb) then true
    else req.IsAuthenticated() && req.IsSuperuser()
  }

  /** The framework's `IsAuthenticated.has_permission`: a user is attached and authenticated. */
  function IsAuthenticated(req: Requester): (allowed: bool)
    ensures allowed <==> req != Anonymous
  {
    req.IsAuthenticated()
  }

  /** An anonymous requester never passes the superuser-or-read-only check on a method that is not safe. */
  lemma AnonymousNeverWrites(verb: string)
    requires !IsSafeMethod(verb)
    ensures !SuperUserOrReadOnly(Anonymous, verb)
  {
  }
}
