/** `JwtAuthGuard.canActivate`: before handing the request to passport's JWT
    strategy, a route whose path contains `/role` is refused to anyone but
    an Admin. The strategy itself is a parameter: its answer, and, in the
    corrected form, the user it authenticates. */
module JwtGuard {
  import opened Wrappers
  import opened Text
  import opened Roles

  const AdminOnlyMessage: string := "Chỉ admin mới có quyền thay đổi role"

  /** The route-path marker of a role change. */
  const RoleMarker: string := "/role"

  /** What one run of the guard did: whether it called the strategy, and
      the answer or exception the request met. */
  datatype GuardRun = GuardRun(delegated: bool, result: Outcome<bool>)

  /** A route path counts as changing a role when `/role` occurs anywhere
      in it. */
  predicate IsChangingRole(path: string)
  {
    Contains(path, RoleMarker)
  }

  /** The guard as written. `user` is `request.user` at the moment the
      guard runs; reading `role` on a missing user is a TypeError, which the
      framework answers with a 500. */
  function CanActivate(path: string, user: Option<RequestUser>, delegate: Outcome<bool>): (run: GuardRun)
    ensures !IsChangingRole(path) ==> run == GuardRun(true, delegate)
    ensures IsChangingRole(path) && user.None? ==> run == GuardRun(false, Err(InternalServerError))
    ensures IsChangingRole(path) && user.Some? && user.value.role != Some(AdminRole) ==>
      run == GuardRun(false, Err(Forbidden(AdminOnlyMessage)))
    ensures IsChangingRole(path) && user.Some? && user.value.role == Some(AdminRole) ==>
      run == GuardRun(true, delegate)
  {
    var isChangingRole := Contains(path, RoleMarker);
    if isChangingRole && user.None? then GuardRun(false, Err(InternalServerError))
    else if isChangingRole && user.value.role != Some(AdminRole) then GuardRun(false, Err(Forbidden(AdminOnlyMessage)))
    else GuardRun(true, delegate)
  }

  /** The strategy is called exactly when the guard raises nothing of its
      own: the pre-check never calls it and then refuses. */
  lemma DelegatedIffPassed(path: string, user: Option<RequestUser>, delegate: Outcome<bool>)
    ensures CanActivate(path, user, delegate).delegated <==>
      CanActivate(path, user, delegate).result == delegate &&
      (!IsChangingRole(path) || (user.Some? && user.value.role == Some(AdminRole)))
  {
  }

  /** The test is a substring test: the plural `/roles`, a nested
      `/users/:id/role` and a prefix such as `/roleplay` all trigger it,
      while `/users/:id` does not. */
  lemma {:induction false} SubstringTriggers()
    ensures IsChangingRole("/roles")
    ensures IsChangingRole("/users/:id/role")
    ensures IsChangingRole("/roleplay")
    ensures !IsChangingRole("/users/:id")
  {
    assert OccursAt("/roles", RoleMarker, 0);
    assert OccursAt("/users/:id/role", RoleMarker, 10);
    assert OccursAt("/roleplay", RoleMarker, 0);
    NoRoleInUserPath();
  }

  /** `/users/:id` has no `/role` in it. */
  lemma NoRoleInUserPath()
    ensures !Contains("/users/:id", RoleMarker)
  {
    var s := "/users/:id";
    forall i
      ensures !OccursAt(s, RoleMarker, i)
    {
      if i == 0 {
        assert s[i..i + 5][1] == 'u';
      } else if 0 < i <= 5 {
        assert s[i..i + 5][0] == s[i] != '/';
      }
    }
  }

  /** Finding, as written: the guard runs before the strategy has set
      `request.user`, so on every role-changing path the user is still
      missing and the request fails with a 500, even for an Admin carrying
      a valid token, and the strategy is never asked. */
  lemma RolePathFailsBeforeAuthentication(path: string, delegate: Outcome<bool>)
    requires IsChangingRole(path)
    ensures CanActivate(path, None, delegate) == GuardRun(false, Err(InternalServerError))
  {
  }

  /** The guard as evidently intended: the strategy authenticates the
      request first (a refusal passes through unchanged), and only then is
      the authenticated user's role checked on a role-changing path. */
  function CanActivateAfterAuthentication(path: string, authenticate: Outcome<RequestUser>): (r: Outcome<bool>)
    ensures authenticate.Err? ==> r == Err(authenticate.error)
    ensures authenticate.Ok? && IsChangingRole(path) && authenticate.value.role != Some(AdminRole) ==>
      r == Err(Forbidden(AdminOnlyMessage))
    ensures authenticate.Ok? && (!IsChangingRole(path) || authenticate.value.role == Some(AdminRole)) ==>
      r == Ok(true)
  {
    match authenticate
    case Err(e) => Err(e)
    case Ok(user) =>
      if IsChangingRole(path) && user.role != Some(AdminRole) then Err(Forbidden(AdminOnlyMessage))
      else Ok(true)
  }

  /** Corrected: an authenticated Admin reaches every role-changing path,
      and a 500 can only come from the strategy, never from the guard. */
  lemma AuthenticatedAdminPasses(path: string, authenticate: Outcome<RequestUser>)
    requires IsChangingRole(path)
    ensures authenticate == Ok(RequestUser(Some(AdminRole))) ==> CanActivateAfterAuthentication(path, authenticate) == Ok(true)
    ensures CanActivateAfterAuthentication(path, authenticate) != Err(InternalServerError) || authenticate == Err(InternalServerError)
  {
  }

  /** When the user is already on the request and the strategy admits it,
      the corrected guard answers as the written one does. */
  lemma CorrectedAgreesWhenUserPresent(path: string, user: RequestUser)
    ensures CanActivate(path, Some(user), Ok(true)).result == CanActivateAfterAuthentication(path, Ok(user))
  {
  }
}
