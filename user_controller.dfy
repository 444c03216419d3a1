/**
 * `UserController`: every action sits behind `permission:manage users`
 * (the constructor's middleware); `store` validates, creates and assigns a
 * role; `update` validates and changes only the fields present in the
 * request; `destroy` deletes the user. Roles that exist are the keys of the
 * role table. `hash` stands for `Hash::make`, `isEmail` for the `email` rule.
 */
module UserController {
  import opened Wrappers
  import opened Validation
  import opened Users
  import opened Permissions
  import PermissionMiddleware

  datatype StoreRequest = StoreRequest(name: Input, email: Input, password: Input, role: Input, profilePhoto: Input)
  datatype UpdateRequest = UpdateRequest(name: Input, email: Input, password: Input, role: Input, profilePhoto: Input)

  /** A JSON response: status, message, the user shown (password hidden), and the fields that failed validation. */
  datatype Response = Response(status: int, message: string, user: Option<PublicUser>, errors: set<string>)

  function ValidationFailed(errors: set<string>): Response
  {
    Response(422, "The given data was invalid.", None, errors)
  }

  /** The rules of `store`. */
  function StoreErrors(users: seq<User>, roleNames: set<string>, isEmail: string -> bool, req: StoreRequest): (e: set<string>)
    ensures e == {} <==>
      Filled(req.name) && |req.name.s| <= 255 &&
      Filled(req.email) && isEmail(req.email.s) && !EmailTaken(users, req.email.s) &&
      Filled(req.password) && |req.password.s| >= 6 &&
      Filled(req.role) && req.role.s in roleNames
  {
    ErrorIf(!Passes(req.name, false, true, false, s => |s| <= 255), "name") +
    ErrorIf(!Passes(req.email, false, true, false, s => isEmail(s) && !EmailTaken(users, s)), "email") +
    ErrorIf(!Passes(req.password, false, true, false, s => |s| >= 6), "password") +
    ErrorIf(!Passes(req.role, false, true, false, s => s in roleNames), "role")
  }

  /** The rules of `update`; the email may stay the user's own. */
  function UpdateErrors(users: seq<User>, id: nat, roleNames: set<string>, isEmail: string -> bool, req: UpdateRequest): (e: set<string>)
    ensures e == {} <==>
      (Has(req.name) ==> Filled(req.name) && |req.name.s| <= 255) &&
      (Has(req.email) ==> Filled(req.email) && isEmail(req.email.s) && !EmailTakenByOther(users, req.email.s, id)) &&
      (req.password.Text? && !IsBlank(req.password.s) ==> |req.password.s| >= 6) &&
      (Has(req.role) ==> Filled(req.role) && req.role.s in roleNames)
  {
    ErrorIf(!Passes(req.name, true, true, false, s => |s| <= 255), "name") +
    ErrorIf(!Passes(req.email, true, true, false, s => isEmail(s) && !EmailTakenByOther(users, s, id)), "email") +
    ErrorIf(!Passes(req.password, false, false, true, s => |s| >= 6), "password") +
    ErrorIf(!Passes(req.role, true, true, false, s => s in roleNames), "role")
  }

  /** The submitted text of a field, or "" when there is none. */
  function TextOf(f: Input): string
  {
    if f.Text? then f.s else ""
  }

  /** `$request->profile_photo`, with null and absence both read as null. */
  function PhotoOf(f: Input): Option<string>
  {
    if f.Text? then Some(f.s) else None
  }

  /** The attribute assignments of `update`, then `syncRoles`. Only present fields change. */
  function Updated(u: User, req: UpdateRequest, hash: string -> string): (v: User)
    requires Has(req.name) ==> req.name.Text?
    requires Has(req.email) ==> req.email.Text?
    requires Has(req.role) ==> req.role.Text?
    ensures v.id == u.id
    ensures v.name == if Has(req.name) then req.name.s else u.name
    ensures v.email == if Has(req.email) then req.email.s else u.email
    ensures v.password == if Filled(req.password) then hash(req.password.s) else u.password
    ensures v.profilePhoto == if Has(req.profilePhoto) then PhotoOf(req.profilePhoto) else u.profilePhoto
    ensures v.roles == if Has(req.role) then {req.role.s} else u.roles
  {
    var u1 := if Has(req.name) then u.(name := req.name.s) else u;
    var u2 := if Has(req.email) then u1.(email := req.email.s) else u1;
    var u3 := if Filled(req.password) then u2.(password := hash(req.password.s)) else u2;
    var u4 := if Has(req.profilePhoto) then u3.(profilePhoto := PhotoOf(req.profilePhoto)) else u3;
    if Has(req.role) then u4.(roles := {req.role.s}) else u4
  }

  /** An update with no fields, or with only an empty password, changes nothing. */
  lemma EmptyUpdateChangesNothing(u: User, hash: string -> string, password: Input)
    requires !Filled(password)
    ensures Updated(u, UpdateRequest(Absent, Absent, password, Absent, Absent), hash) == u
  {
  }

  /** Resubmitting the user's own current email passes the uniqueness rule. */
  lemma OwnEmailIsNotTaken(users: seq<User>, nextId: nat, i: nat)
    requires StoreInvariant(users, nextId) && i < |users|
    ensures !EmailTakenByOther(users, users[i].email, users[i].id)
  {
  }

  /** The `permission:manage users` middleware in front of every action. */
  method Gate(table: RoleTable, caller: Option<set<string>>) returns (denied: Option<Response>)
    ensures caller.None? ==> denied == Some(Response(401, "Unauthorized", None, {}))
    ensures caller.Some? ==> (denied.None? <==> Can(table, caller.value, ManageUsers))
    ensures caller.Some? && denied.Some? ==> denied == Some(Response(403, "Insufficient permissions", None, {}))
  {
    var g := PermissionMiddleware.Handle(table, caller, [ManageUsers]);
    if caller.Some? {
      assert PermissionMiddleware.AnyHeld(table, caller.value, [ManageUsers]) <==> Can(table, caller.value, ManageUsers) by {
        assert [ManageUsers][0] == ManageUsers;
      }
    }
    if g.Pass? {
      return None;
    }
    return Some(Response(g.status, g.message, None, {}));
  }

  /** `index`: every user with its roles. */
  method Index(store: UserStore, table: RoleTable, caller: Option<set<string>>) returns (resp: Response, listed: seq<PublicUser>)
    ensures caller.Some? && Can(table, caller.value, ManageUsers) ==>
      resp.status == 200 && |listed| == |store.users| && forall i :: 0 <= i < |listed| ==> listed[i] == Public(store.users[i])
    ensures !(caller.Some? && Can(table, caller.value, ManageUsers)) ==> resp.status in {401, 403} && listed == []
  {
    var denied := Gate(table, caller);
    if denied.Some? {
      return denied.value, [];
    }
    listed := seq(|store.users|, i requires 0 <= i < |store.users| reads store => Public(store.users[i]));
    resp := Response(200, "", None, {});
  }

  /** `store`. */
  method Store(store: UserStore, table: RoleTable, caller: Option<set<string>>, req: StoreRequest,
               hash: string -> string, isEmail: string -> bool) returns (resp: Response)
    requires store.Valid()
    modifies store
    ensures store.Valid()
    ensures !(caller.Some? && Can(table, caller.value, ManageUsers)) ==>
      resp.status in {401, 403} && store.users == old(store.users) && store.nextId == old(store.nextId)
    ensures caller.Some? && Can(table, caller.value, ManageUsers) ==>
      var errors := StoreErrors(old(store.users), table.Keys, isEmail, req);
      var created := User(old(store.nextId), TextOf(req.name), TextOf(req.email), hash(TextOf(req.password)), PhotoOf(req.profilePhoto), {TextOf(req.role)});
      if errors != {} then
        resp == ValidationFailed(errors) && store.users == old(store.users) && store.nextId == old(store.nextId)
      else
        store.users == old(store.users) + [created] && store.nextId == old(store.nextId) + 1 &&
        resp == Response(201, "User created", Some(Public(created)), {})
  {
    var denied := Gate(table, caller);
    if denied.Some? {
      return denied.value;
    }
    var errors := StoreErrors(store.users, table.Keys, isEmail, req);
    if errors != {} {
      return ValidationFailed(errors);
    }
    var id := store.Create(req.name.s, req.email.s, hash(req.password.s), PhotoOf(req.profilePhoto));
    var ok := store.AssignRole(|store.users| - 1, req.role.s, table.Keys);
    assert {} + {req.role.s} == {req.role.s};
    var created := store.users[|store.users| - 1];
    return Response(201, "User created", Some(Public(created)), {});
  }

  /**
   * `update` of the user bound from the route parameter `id`. The binding runs
   * ahead of the controller's `permission` middleware, so an unknown id is a 404
   * whoever asks.
   */
  method Update(store: UserStore, table: RoleTable, caller: Option<set<string>>, id: nat, req: UpdateRequest,
                hash: string -> string, isEmail: string -> bool) returns (resp: Response)
    requires store.Valid()
    modifies store
    ensures store.Valid() && store.nextId == old(store.nextId)
    ensures IndexOfId(old(store.users), id).None? ==> resp.status == 404 && store.users == old(store.users)
    ensures IndexOfId(old(store.users), id).Some? && !(caller.Some? && Can(table, caller.value, ManageUsers)) ==>
      resp.status in {401, 403} && store.users == old(store.users)
    ensures IndexOfId(old(store.users), id).Some? && caller.Some? && Can(table, caller.value, ManageUsers) ==>
      var i := IndexOfId(old(store.users), id).value;
      var errors := UpdateErrors(old(store.users), id, table.Keys, isEmail, req);
      if errors != {} then
        resp == ValidationFailed(errors) && store.users == old(store.users)
      else
        var v := Updated(old(store.users)[i], req, hash);
        store.users == Replaced(old(store.users), i, v) &&
        resp == Response(200, "User updated", Some(Public(v)), {})
  {
    // route-model binding resolves the user before the controller's middleware runs
    var found := IndexOfId(store.users, id);
    if found.None? {
      return Response(404, "Not Found", None, {});
    }
    var denied := Gate(table, caller);
    if denied.Some? {
      return denied.value;
    }
    var i := found.value;
    var errors := UpdateErrors(store.users, id, table.Keys, isEmail, req);
    if errors != {} {
      return ValidationFailed(errors);
    }
    var u := store.users[i];
    // the attribute assignments and `save()`, roles untouched
    var saved := Updated(u, req.(role := Absent), hash);
    store.Save(i, saved);
    if Has(req.role) {
      store.SyncRoles(i, req.role.s);
    }
    var v := Updated(u, req, hash);
    assert store.users == Replaced(old(store.users), i, v);
    return Response(200, "User updated", Some(Public(v)), {});
  }

  /** `destroy` of the user bound from the route parameter `id`. */
  method Destroy(store: UserStore, table: RoleTable, caller: Option<set<string>>, id: nat) returns (resp: Response)
    requires store.Valid()
    modifies store
    ensures store.Valid() && store.nextId == old(store.nextId)
    ensures IndexOfId(old(store.users), id).None? ==> resp.status == 404 && store.users == old(store.users)
    ensures IndexOfId(old(store.users), id).Some? && !(caller.Some? && Can(table, caller.value, ManageUsers)) ==>
      resp.status in {401, 403} && store.users == old(store.users)
    ensures IndexOfId(old(store.users), id).Some? && caller.Some? && Can(table, caller.value, ManageUsers) ==>
      store.users == Removed(old(store.users), IndexOfId(old(store.users), id).value) && IndexOfId(store.users, id).None? &&
      resp == Response(200, "User deleted", None, {})
  {
    // route-model binding resolves the user before the controller's middleware runs
    var found := IndexOfId(store.users, id);
    if found.None? {
      return Response(404, "Not Found", None, {});
    }
    var denied := Gate(table, caller);
    if denied.Some? {
      return denied.value;
    }
    store.Delete(found.value);
    return Response(200, "User deleted", None, {});
  }
}
