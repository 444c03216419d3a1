/**
 * `AuthController` of the JSON API: `register`, `login`, `logout`, `me`,
 * `refresh` and the private `createRefreshToken`. Everything `JWTAuth` and
 * `Hash` do is kept abstract in `Services`; the clock and `rand()` are
 * parameters. The refresh "token" built here is an encoded payload that is
 * never stored, and `refresh` never reads the one a client submits.
 */
module AuthController {
  import opened Wrappers
  import opened Validation
  import opened Users
  import opened Permissions

  /**
   * The collaborators: `Hash::make`, `Hash::check(plain, hashed)`, Laravel's
   * `email` rule, `JWTAuth::fromUser` (None when it throws), `JWTAuth::refresh`
   * of the bearer token (None when it throws), the JWT provider's `encode`,
   * and the configured `ttl` and `refresh_ttl`, both in minutes.
   */
  datatype Services = Services(
    hash: string -> string,
    check: (string, string) -> bool,
    isEmail: string -> bool,
    fromUser: nat -> Option<string>,
    refresh: string -> Option<string>,
    encode: RefreshPayload -> string,
    ttl: int,
    refreshTtl: int)

  /** The claims `createRefreshToken` encodes: `Auth::id()`, `rand() . time()`, and an expiry in seconds. */
  datatype RefreshPayload = RefreshPayload(userId: Option<nat>, random: string, exp: int)

  datatype Authorization = Authorization(token: string, refreshToken: string, tokenType: string, expiresIn: int)

  datatype Response = Response(
    status: int,
    success: bool,
    message: string,
    user: Option<PublicUser>,
    authorization: Option<Authorization>,
    errors: set<string>)

  datatype RegisterRequest = RegisterRequest(name: Input, email: Input, password: Input, passwordConfirmation: Input)
  datatype LoginRequest = LoginRequest(email: Input, password: Input)
  datatype RefreshRequest = RefreshRequest(refreshToken: Input)

  datatype Action = Register | Login | Logout | Me | Refresh

  /** The constructor's `auth:api` middleware, excepting `login` and `register`. */
  function Guard(action: Action, caller: Option<User>): (denied: Option<Response>)
    ensures denied.Some? <==> caller.None? && action !in {Login, Register}
    ensures denied.Some? ==> denied.value.status == 401 && denied.value.authorization.None?
  {
    if caller.None? && action != Login && action != Register then
      Some(Response(401, false, "Unauthenticated.", None, None, {}))
    else None
  }

  function ValidationError(errors: set<string>): Response
  {
    Response(422, false, "Validation error", None, None, errors)
  }

  /** `createRefreshToken`: the encoded payload, expiring `refresh_ttl` minutes from `now` (seconds). */
  function CreateRefreshToken(svc: Services, authId: Option<nat>, random: string, now: int): string
  {
    svc.encode(RefreshPayload(authId, random, now + svc.refreshTtl * 60))
  }

  /** The `authorization` block every token response carries. */
  function TokenBlock(svc: Services, token: string, refreshToken: string): (a: Authorization)
    ensures a.token == token && a.refreshToken == refreshToken
    ensures a.tokenType == "bearer" && a.expiresIn == svc.ttl * 60
  {
    Authorization(token, refreshToken, "bearer", svc.ttl * 60)
  }

  /** The rules of `register`: fields that fail. */
  function RegisterErrors(users: seq<User>, isEmail: string -> bool, req: RegisterRequest): (e: set<string>)
    ensures e == {} <==>
      Filled(req.name) && |req.name.s| <= 255 &&
      Filled(req.email) && isEmail(req.email.s) && |req.email.s| <= 255 && !EmailTaken(users, req.email.s) &&
      Filled(req.password) && |req.password.s| >= 8 && req.passwordConfirmation == Text(req.password.s)
  {
    ErrorIf(!Passes(req.name, false, true, false, s => |s| <= 255), "name") +
    ErrorIf(!Passes(req.email, false, true, false, s => isEmail(s) && |s| <= 255 && !EmailTaken(users, s)), "email") +
    ErrorIf(!Passes(req.password, false, true, false, s => |s| >= 8 && req.passwordConfirmation == Text(s)), "password")
  }

  /** The rules of `login`. */
  function LoginErrors(isEmail: string -> bool, req: LoginRequest): (e: set<string>)
    ensures e == {} <==> Filled(req.email) && isEmail(req.email.s) && Filled(req.password)
  {
    ErrorIf(!Passes(req.email, false, true, false, isEmail), "email") +
    ErrorIf(!Passes(req.password, false, true, false, s => true), "password")
  }

  /**
   * `JWTAuth::attempt`: the first user with the email, if its stored hash
   * checks against the password.
   */
  function Attempt(svc: Services, users: seq<User>, email: string, password: string): (r: Option<nat>)
    ensures r.Some? ==> r.value < |users| && users[r.value].email == email && svc.check(password, users[r.value].password)
    ensures r.Some? <==> IndexOfEmail(users, email).Some? && svc.check(password, users[IndexOfEmail(users, email).value].password)
  {
    match IndexOfEmail(users, email)
    case None => None
    case Some(i) => if svc.check(password, users[i].password) then Some(i) else None
  }

  /** `login`. Nothing is written; the refresh payload names the user just authenticated. */
  function DoLogin(svc: Services, users: seq<User>, req: LoginRequest, random: string, now: int): (r: Response)
    ensures r.status in {200, 401, 422, 500}
    ensures r.success <==> r.status == 200
    ensures r.authorization.Some? <==> r.status == 200
    ensures r.status == 422 <==> LoginErrors(svc.isEmail, req) != {}
    ensures r.status == 401 <==> LoginErrors(svc.isEmail, req) == {} && Attempt(svc, users, req.email.s, req.password.s).None?
    ensures r.status == 401 ==> r.message == "Invalid credentials"
    // a token failure after a successful attempt is the 500; every other successful attempt is a 200
    ensures r.status == 500 <==>
      LoginErrors(svc.isEmail, req) == {} && Attempt(svc, users, req.email.s, req.password.s).Some? &&
      svc.fromUser(users[Attempt(svc, users, req.email.s, req.password.s).value].id).None?
    ensures r.status == 500 ==> r.message == "Could not create token"
    ensures r.status == 200 ==>
      var i := Attempt(svc, users, req.email.s, req.password.s).value;
      r.user == Some(Public(users[i])) && r.message == "Login successful" && svc.fromUser(users[i].id).Some? &&
      r.authorization == Some(TokenBlock(svc, svc.fromUser(users[i].id).value, CreateRefreshToken(svc, Some(users[i].id), random, now)))
  {
    var errors := LoginErrors(svc.isEmail, req);
    if errors != {} then ValidationError(errors)
    else match Attempt(svc, users, req.email.s, req.password.s)
      case None => Response(401, false, "Invalid credentials", None, None, {})
      case Some(i) =>
        match svc.fromUser(users[i].id)
        case None => Response(500, false, "Could not create token", None, None, {})
        case Some(token) =>
          Response(200, true, "Login successful", Some(Public(users[i])),
                   Some(TokenBlock(svc, token, CreateRefreshToken(svc, Some(users[i].id), random, now))), {})
  }

  /** `logout` behind the guard; `invalidated` says whether `JWTAuth::invalidate` returned without throwing. */
  function DoLogout(caller: Option<User>, invalidated: bool): (r: Response)
    ensures caller.None? ==> r.status == 401
    ensures caller.Some? ==> (r.status == 200 <==> invalidated) && (r.status != 200 ==> r.status == 500)
    ensures r.authorization.None? && (r.success <==> r.status == 200)
  {
    match Guard(Logout, caller)
    case Some(denied) => denied
    case None =>
      if invalidated then Response(200, true, "Successfully logged out", None, None, {})
      else Response(500, false, "Failed to logout", None, None, {})
  }

  /** `me`: the guarded user, or 404 if `Auth::user()` were empty. */
  function DoMe(caller: Option<User>): (r: Response)
    ensures r.status in {200, 401}
    ensures r.status == 200 <==> caller.Some?
    ensures caller.None? ==> r == Guard(Me, caller).value
    ensures caller.Some? ==> r.user == Some(Public(caller.value)) && r.success
  {
    match Guard(Me, caller)
    case Some(denied) => denied
    case None =>
      match caller
      case None => Response(404, false, "User not found", None, None, {})
      case Some(u) => Response(200, true, "", Some(Public(u)), None, {})
  }

  /** `refresh`: a new access token from the presented bearer token; the submitted `refresh_token` is only checked for presence. */
  function DoRefresh(svc: Services, caller: Option<User>, bearer: string, req: RefreshRequest, random: string, now: int): (r: Response)
    ensures r.status in {200, 401, 422}
    ensures r.authorization.Some? <==> r.status == 200
    // without a user the guard answers before validation
    ensures caller.None? ==> r == Guard(Refresh, caller).value
    ensures r.status == 200 <==> caller.Some? && Filled(req.refreshToken) && svc.refresh(bearer).Some?
    ensures caller.Some? ==> (r.status == 422 <==> !Filled(req.refreshToken))
    ensures caller.Some? && r.status == 401 ==> Filled(req.refreshToken) && svc.refresh(bearer).None? && r.message == "Token cannot be refreshed"
    ensures r.status == 200 ==>
      caller.Some? && svc.refresh(bearer).Some? &&
      r.authorization == Some(TokenBlock(svc, svc.refresh(bearer).value, CreateRefreshToken(svc, Some(caller.value.id), random, now)))
  {
    match Guard(Refresh, caller)
    case Some(denied) => denied
    case None =>
      var errors := ErrorIf(!Passes(req.refreshToken, false, true, false, s => true), "refresh_token");
      if errors != {} then ValidationError(errors)
      else match svc.refresh(bearer)
        case None => Response(401, false, "Token cannot be refreshed", None, None, {})
        case Some(token) =>
          Response(200, true, "Token refreshed successfully", None,
                   Some(TokenBlock(svc, token, CreateRefreshToken(svc, Some(caller.value.id), random, now))), {})
  }

  /**
   * `register`. Validation comes before any write; the user row is created
   * before the default role is assigned, so a missing 'Team Member' role or a
   * token failure answers 500 but leaves the new row in place. `authId` is
   * `Auth::id()` at the time, which for the unauthenticated caller this route
   * expects is `None`.
   */
  method DoRegister(store: UserStore, table: RoleTable, svc: Services, authId: Option<nat>,
                    req: RegisterRequest, random: string, now: int) returns (r: Response)
    requires store.Valid()
    modifies store
    ensures store.Valid()
    ensures var errors := RegisterErrors(old(store.users), svc.isEmail, req);
      errors != {} ==> r == ValidationError(errors) && store.users == old(store.users) && store.nextId == old(store.nextId)
    ensures RegisterErrors(old(store.users), svc.isEmail, req) == {} ==>
      var created := User(old(store.nextId), req.name.s, req.email.s, svc.hash(req.password.s), None, {});
      var withRole := created.(roles := {TeamMember});
      store.nextId == old(store.nextId) + 1 &&
      (if TeamMember !in table then
         store.users == old(store.users) + [created] && r.status == 500 && r.message == "Registration failed"
       else
         store.users == old(store.users) + [withRole] &&
         match svc.fromUser(old(store.nextId))
         case None => r.status == 500 && r.message == "Registration failed"
         case Some(token) =>
           r == Response(201, true, "User registered successfully", Some(Public(withRole)),
                         Some(TokenBlock(svc, token, CreateRefreshToken(svc, authId, random, now))), {}))
  {
    var errors := RegisterErrors(store.users, svc.isEmail, req);
    if errors != {} {
      return ValidationError(errors);
    }
    var id := store.Create(req.name.s, req.email.s, svc.hash(req.password.s), None);
    var ok := store.AssignRole(|store.users| - 1, TeamMember, table.Keys);
    if !ok {
      return Response(500, false, "Registration failed", None, None, {});
    }
    assert {} + {TeamMember} == {TeamMember};
    var user := store.users[|store.users| - 1];
    match svc.fromUser(id)
    case None =>
      return Response(500, false, "Registration failed", None, None, {});
    case Some(token) =>
      return Response(201, true, "User registered successfully", Some(Public(user)),
                      Some(TokenBlock(svc, token, CreateRefreshToken(svc, authId, random, now))), {});
  }

  /** Only `login` and `register` can be reached without an authenticated user. */
  lemma GuardedActions(caller: Option<User>)
    ensures Guard(Login, caller).None? && Guard(Register, caller).None?
    ensures caller.None? ==> Guard(Logout, caller).Some? && Guard(Me, caller).Some? && Guard(Refresh, caller).Some?
  {
  }

  /** Behind the guard, `me` never reaches its 404 branch. */
  lemma MeNeverNotFound(caller: Option<User>)
    ensures DoMe(caller).status != 404
  {
  }

  /** Every token response carries `expires_in` = TTL minutes times 60 and type "bearer". */
  lemma ExpiresInIsTtlSeconds(svc: Services, users: seq<User>, login: LoginRequest, caller: Option<User>, bearer: string,
                              refresh: RefreshRequest, random: string, now: int)
    ensures DoLogin(svc, users, login, random, now).authorization.Some? ==>
      DoLogin(svc, users, login, random, now).authorization.value.expiresIn == svc.ttl * 60
    ensures DoRefresh(svc, caller, bearer, refresh, random, now).authorization.Some? ==>
      DoRefresh(svc, caller, bearer, refresh, random, now).authorization.value.expiresIn == svc.ttl * 60
  {
  }

  /**
   * With an encoder that tells payloads apart (a signed JWT does), two refresh
   * tokens are equal exactly when they carry the same user id, the same random
   * value and were made at the same time; in particular, tokens made for
   * different users never coincide.
   */
  lemma RefreshPayloadClaims(svc: Services, a: Option<nat>, r: string, n: int, a': Option<nat>, r': string, n': int)
    requires forall p, q :: svc.encode(p) == svc.encode(q) ==> p == q
    ensures CreateRefreshToken(svc, a, r, n) == CreateRefreshToken(svc, a', r', n') <==> a == a' && r == r' && n == n'
  {
    var p := RefreshPayload(a, r, n + svc.refreshTtl * 60);
    var q := RefreshPayload(a', r', n' + svc.refreshTtl * 60);
    if svc.encode(p) == svc.encode(q) {
      assert p == q;
      assert p.exp == q.exp;
    }
  }

  /** Whatever non-empty `refresh_token` is submitted, `refresh` answers the same. */
  lemma RefreshIgnoresSubmittedToken(svc: Services, caller: Option<User>, bearer: string, a: string, b: string, random: string, now: int)
    requires !IsBlank(a) && !IsBlank(b)
    ensures DoRefresh(svc, caller, bearer, RefreshRequest(Text(a)), random, now) ==
            DoRefresh(svc, caller, bearer, RefreshRequest(Text(b)), random, now)
  {
  }

  /** A failed login issues no token of either kind. */
  lemma FailedLoginIssuesNothing(svc: Services, users: seq<User>, req: LoginRequest, random: string, now: int)
    ensures DoLogin(svc, users, req, random, now).status != 200 ==>
      DoLogin(svc, users, req, random, now).authorization.None? && DoLogin(svc, users, req, random, now).user.None?
  {
  }

  /**
   * A user stored with the hash of a password logs in with that password
   * (given that `Hash::check` accepts a hash made by `Hash::make` and the store's
   * emails are distinct): this is what `register` followed by `login` relies on.
   */
  lemma LoginFindsStoredUser(svc: Services, users: seq<User>, nextId: nat, i: nat, password: string, random: string, now: int)
    requires StoreInvariant(users, nextId) && i < |users|
    requires users[i].password == svc.hash(password) && svc.check(password, svc.hash(password))
    requires !IsBlank(users[i].email) && svc.isEmail(users[i].email) && !IsBlank(password)
    requires svc.fromUser(users[i].id).Some?
    ensures var r := DoLogin(svc, users, LoginRequest(Text(users[i].email), Text(password)), random, now);
      r.status == 200 && r.user == Some(Public(users[i])) &&
      r.authorization.value.refreshToken == CreateRefreshToken(svc, Some(users[i].id), random, now)
  {
    var j := IndexOfEmail(users, users[i].email).value;
    assert j == i;
  }
}
