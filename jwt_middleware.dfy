/**
 * `JWTMiddleware::handle`: one `try` around `JWTAuth::parseToken()->authenticate()`
 * with three `catch` clauses, turning the outcome into a response or a call
 * of the next handler. The JWT library itself is not modelled: its outcome is
 * the input.
 */
module JwtMiddleware {
  import opened Wrappers

  /** The exception classes involved. Both token exceptions extend `JWTException`. */
  datatype ExceptionClass =
    | TokenExpiredException
    | TokenInvalidException
    /** `JWTException` itself, as thrown e.g. when the request carries no token. */
    | JWTException
    /** Any exception outside `JWTException`'s family (a database error, say). */
    | OtherException

  /** `thrown instanceof handler`. */
  predicate InstanceOf(thrown: ExceptionClass, handler: ExceptionClass)
  {
    thrown == handler ||
    (handler == JWTException && (thrown == TokenExpiredException || thrown == TokenInvalidException))
  }

  /** What `authenticate()` did: returned a user (or `false`, modelled as `None`), or threw. */
  datatype Authentication = Returned(user: Option<nat>) | Threw(exception: ExceptionClass)

  /** The middleware's outcome: the request goes on to `$next`, a JSON response is sent, or the exception escapes. */
  datatype Outcome =
    | Next(user: nat)
    | Respond(status: int, success: bool, message: string)
    | Propagate(exception: ExceptionClass)

  /** `handle`: the `catch` clauses are tried in the order they are written. */
  function Handle(a: Authentication): (r: Outcome)
    // the request reaches `$next` exactly when authentication yields a user
    ensures r.Next? <==> a.Returned? && a.user.Some?
    ensures r.Next? ==> r.user == a.user.value
    // every response is a rejection with success = false
    ensures r.Respond? ==> !r.success
    ensures a == Returned(None) ==> r == Respond(404, false, "User not found")
    ensures a == Threw(TokenExpiredException) ==> r == Respond(401, false, "Token expired")
    ensures a == Threw(TokenInvalidException) ==> r == Respond(401, false, "Token invalid")
    ensures a == Threw(JWTException) ==> r == Respond(401, false, "Token absent")
    // only a bare JWTException is reported as an absent token
    ensures r.Respond? && r.message == "Token absent" <==> a == Threw(JWTException)
    ensures r.Respond? && r.status == 401 <==> a.Threw? && InstanceOf(a.exception, JWTException)
    ensures r.Propagate? <==> a == Threw(OtherException)
  {
    match a
    case Returned(user) =>
      if user.None? then Respond(404, false, "User not found") else Next(user.value)
    case Threw(e) =>
      if InstanceOf(e, TokenExpiredException) then Respond(401, false, "Token expired")
      else if InstanceOf(e, TokenInvalidException) then Respond(401, false, "Token invalid")
      else if InstanceOf(e, JWTException) then Respond(401, false, "Token absent")
      else Propagate(e)
  }

  /**
   * The same try/catch with the generic clause written first: it would catch
   * the expired and invalid tokens too. `Handle` puts the specific clauses
   * first, and this shows that their order is what keeps them distinct.
   */
  function HandleGenericFirst(a: Authentication): Outcome
  {
    match a
    case Returned(user) =>
      if user.None? then Respond(404, false, "User not found") else Next(user.value)
    case Threw(e) =>
      if InstanceOf(e, JWTException) then Respond(401, false, "Token absent")
      else if InstanceOf(e, TokenExpiredException) then Respond(401, false, "Token expired")
      else if InstanceOf(e, TokenInvalidException) then Respond(401, false, "Token invalid")
      else Propagate(e)
  }

  lemma CatchOrderMatters()
    ensures HandleGenericFirst(Threw(TokenExpiredException)) == Respond(401, false, "Token absent")
    ensures Handle(Threw(TokenExpiredException)) != HandleGenericFirst(Threw(TokenExpiredException))
  {
  }
}
