/** The roles a user may hold and the user the authentication strategy
    attaches to a request. */
module Roles {
  import opened Wrappers

  /** `Role.User` and `Role.Admin`. */
  datatype Role = UserRole | AdminRole

  /** `request.user`; a role that is absent or falsy is `None`. */
  datatype RequestUser = RequestUser(role: Option<Role>)
}

/** `RolesGuard.canActivate`: a route guarded by a `@Roles(...)` list
    admits only users whose role is in the list. */
module RolesGuard {
  import opened Wrappers
  import opened Roles

  const NoRoleMessage: string := "User does not have a role"

  /** `reflector.getAllAndOverride(ROLES_KEY, [handler, class])`: the
      handler's metadata when it has any, otherwise the class's. */
  function RequiredRoles(handler: Option<seq<Role>>, cls: Option<seq<Role>>): (r: Option<seq<Role>>)
    ensures handler.Some? ==> r == handler
    ensures handler.None? ==> r == cls
  {
    if handler.Some? then handler else cls
  }

  /** `required.some(role => userRole === role)`, scanning the list from
      the front. */
  function AnyRoleMatches(required: seq<Role>, userRole: Role): (r: bool)
    ensures r <==> userRole in required
  {
    if required == [] then false
    else if required[0] == userRole then true
    else AnyRoleMatches(required[1..], userRole)
  }

  /** The guard's decision: true without looking at the user when no roles
      are required; Forbidden for a missing user or one without a role;
      otherwise whether the user's role is required. */
  function CanActivate(handler: Option<seq<Role>>, cls: Option<seq<Role>>, user: Option<RequestUser>): (r: Outcome<bool>)
    ensures RequiredRoles(handler, cls).None? ==> r == Ok(true)
    ensures RequiredRoles(handler, cls).Some? && (user.None? || user.value.role.None?) ==>
      r == Err(Forbidden(NoRoleMessage))
    ensures RequiredRoles(handler, cls).Some? && user.Some? && user.value.role.Some? ==>
      r == Ok(user.value.role.value in RequiredRoles(handler, cls).value)
  {
    var requiredRoles := RequiredRoles(handler, cls);
    if requiredRoles.None? then Ok(true)
    else if user.None? || user.value.role.None? then Err(Forbidden(NoRoleMessage))
    else Ok(AnyRoleMatches(requiredRoles.value, user.value.role.value))
  }

  /** A route without roles metadata admits every request, whatever user
      it carries. */
  lemma NoMetadataIgnoresUser(user: Option<RequestUser>, other: Option<RequestUser>)
    ensures CanActivate(None, None, user) == CanActivate(None, None, other) == Ok(true)
  {
  }

  /** An empty but present list admits no user that has a role. */
  lemma EmptyListDeniesEveryone(cls: Option<seq<Role>>, role: Role)
    ensures CanActivate(Some([]), cls, Some(RequestUser(Some(role)))) == Ok(false)
  {
  }

  /** Two lists holding the same roles, in any order and with any
      repetition, decide every request alike. */
  lemma OnlyMembershipMatters(a: seq<Role>, b: seq<Role>, cls: Option<seq<Role>>, user: Option<RequestUser>)
    requires forall x :: x in a <==> x in b
    ensures CanActivate(Some(a), cls, user) == CanActivate(Some(b), cls, user)
  {
  }

  /** The handler's list wins over the class's, so an Admin-only class
      with a handler open to users admits a user. */
  lemma HandlerOverridesClass(handler: seq<Role>, cls: Option<seq<Role>>, user: Option<RequestUser>)
    ensures CanActivate(Some(handler), cls, user) == CanActivate(Some(handler), None, user)
  {
  }

  /** Only an Admin passes a route marked `@Roles(Role.Admin)`. */
  lemma AdminOnlyRoute(user: Option<RequestUser>)
    ensures CanActivate(Some([AdminRole]), None, user) == Ok(true) <==>
      user.Some? && user.value.role == Some(AdminRole)
  {
  }
}
