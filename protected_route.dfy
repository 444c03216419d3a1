/**
 * `ProtectedRoute`: what the guard renders given the authentication state.
 * Authentication means a non-empty token and a user object, as the auth
 * context computes `isAuthenticated`.
 */
module ProtectedRoute {
  import opened Wrappers

  /** The part of the auth context the guard reads; `role` is `user.role`, which may be missing. */
  datatype AuthState = AuthState(loading: bool, token: Option<string>, user: Option<Option<string>>)

  datatype Decision = Spinner | Redirect(to: string) | Render

  const DefaultRedirect := "/login"
  const Unauthorized := "/unauthorized"

  /** `!!token && !!user`. */
  predicate IsAuthenticated(s: AuthState)
  {
    s.token.Some? && s.token.value != "" && s.user.Some?
  }

  /** A `requiredRole` prop is truthy, so the role check runs, when it is a non-empty string. */
  predicate RoleRequired(requiredRole: Option<string>)
  {
    requiredRole.Some? && requiredRole.value != ""
  }

  /** `user?.role !== requiredRole`. */
  predicate RoleDiffers(s: AuthState, role: string)
  {
    s.user.None? || s.user.value != Some(role)
  }

  /** The guard's chain of checks: loading, then authentication, then the role. */
  function Decide(s: AuthState, requiredRole: Option<string>, redirectTo: Option<string>): (d: Decision)
    ensures s.loading ==> d == Spinner
    ensures !s.loading && !IsAuthenticated(s) ==> d == Redirect(if redirectTo.Some? then redirectTo.value else DefaultRedirect)
    ensures !s.loading && IsAuthenticated(s) && !RoleRequired(requiredRole) ==> d == Render
    ensures !s.loading && IsAuthenticated(s) && RoleRequired(requiredRole) && RoleDiffers(s, requiredRole.value) ==> d == Redirect(Unauthorized)
  {
    if s.loading then Spinner
    else if !IsAuthenticated(s) then Redirect(if redirectTo.Some? then redirectTo.value else DefaultRedirect)
    else if RoleRequired(requiredRole) && RoleDiffers(s, requiredRole.value) then Redirect(Unauthorized)
    else Render
  }

  /** Children render exactly when not loading, authenticated, and holding the role whenever one is required. */
  lemma RenderOnlyWhenAllowed(s: AuthState, requiredRole: Option<string>, redirectTo: Option<string>)
    ensures Decide(s, requiredRole, redirectTo) == Render <==>
      !s.loading && IsAuthenticated(s) && (RoleRequired(requiredRole) ==> s.user.value == Some(requiredRole.value))
  {
  }

  /** Without a `redirectTo` prop, an unauthenticated visitor goes to the login page. */
  lemma UnauthenticatedGoesToLogin(s: AuthState, requiredRole: Option<string>)
    requires !s.loading && !IsAuthenticated(s)
    ensures Decide(s, requiredRole, None) == Redirect("/login")
  {
  }

  /** A token without a user, or a user with an empty token, is not enough. */
  lemma TokenAndUserBothNeeded(loading: bool, token: Option<string>, user: Option<Option<string>>, requiredRole: Option<string>, redirectTo: Option<string>)
    requires !loading && (token.None? || token == Some("") || user.None?)
    ensures Decide(AuthState(loading, token, user), requiredRole, redirectTo).Redirect?
    ensures Decide(AuthState(loading, token, user), requiredRole, redirectTo) != Redirect(Unauthorized) || redirectTo == Some(Unauthorized)
  {
  }
}
