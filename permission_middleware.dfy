/**
 * `PermissionMiddleware::handle(request, next, ...permissions)`: refuse a
 * request without an authenticated user, and otherwise let it through as soon
 * as the user holds one of the listed permissions.
 */
module PermissionMiddleware {
  import opened Wrappers
  import opened Permissions

  datatype GateResult = Pass | Deny(status: int, success: bool, message: string)

  /** Some listed permission is held by a user with `roles`. */
  predicate AnyHeld(table: RoleTable, roles: set<string>, permissions: seq<string>)
  {
    exists i :: 0 <= i < |permissions| && Can(table, roles, permissions[i])
  }

  /**
   * `handle`. `user` is the roles of `auth()->user()`, or `None` when
   * `auth()->check()` fails; `$next` is called exactly when the result is `Pass`.
   */
  method Handle(table: RoleTable, user: Option<set<string>>, permissions: seq<string>) returns (r: GateResult)
    ensures user.None? ==> r == Deny(401, false, "Unauthorized")
    ensures user.Some? ==> (r == Pass <==> AnyHeld(table, user.value, permissions))
    ensures user.Some? && r != Pass ==> r == Deny(403, false, "Insufficient permissions")
  {
    if user.None? {
      return Deny(401, false, "Unauthorized");
    }
    var roles := user.value;
    for i := 0 to |permissions|
      invariant forall k :: 0 <= k < i ==> !Can(table, roles, permissions[k])
    {
      if Can(table, roles, permissions[i]) {
        return Pass;
      }
    }
    return Deny(403, false, "Insufficient permissions");
  }

  /** The gate's verdict for an authenticated user, as a value. */
  function Verdict(table: RoleTable, roles: set<string>, permissions: seq<string>): GateResult
  {
    if AnyHeld(table, roles, permissions) then Pass else Deny(403, false, "Insufficient permissions")
  }

  /** The gate looks only at which names are listed: not at their order, nor at duplicates. */
  lemma AnyHeldIsAboutTheSet(table: RoleTable, roles: set<string>, a: seq<string>, b: seq<string>)
    requires forall p :: p in a <==> p in b
    ensures AnyHeld(table, roles, a) == AnyHeld(table, roles, b)
  {
    if AnyHeld(table, roles, a) {
      var i :| 0 <= i < |a| && Can(table, roles, a[i]);
      assert a[i] in b;
      var j :| 0 <= j < |b| && b[j] == a[i];
    }
    if AnyHeld(table, roles, b) {
      var j :| 0 <= j < |b| && Can(table, roles, b[j]);
      assert b[j] in a;
      var i :| 0 <= i < |a| && a[i] == b[j];
    }
  }

  /** Listing more permissions can turn a refusal into a pass but never the reverse. */
  lemma GateMonotone(table: RoleTable, roles: set<string>, a: seq<string>, b: seq<string>)
    requires forall p :: p in a ==> p in b
    ensures Verdict(table, roles, a) == Pass ==> Verdict(table, roles, b) == Pass
  {
    if AnyHeld(table, roles, a) {
      var i :| 0 <= i < |a| && Can(table, roles, a[i]);
      assert a[i] in b;
      var j :| 0 <= j < |b| && b[j] == a[i];
    }
  }

  /** An empty list refuses everyone, and the gate agrees with the union of the user's role permissions. */
  lemma GateIsUnionMembership(table: RoleTable, roles: set<string>, permissions: seq<string>)
    ensures permissions == [] ==> Verdict(table, roles, permissions) == Deny(403, false, "Insufficient permissions")
    ensures Verdict(table, roles, permissions) == Pass <==>
      exists p :: p in permissions && p in EffectivePermissions(table, roles)
  {
    if AnyHeld(table, roles, permissions) {
      var i :| 0 <= i < |permissions| && Can(table, roles, permissions[i]);
      CanIsMembershipInUnion(table, roles, permissions[i]);
    }
    if exists p :: p in permissions && p in EffectivePermissions(table, roles) {
      var p :| p in permissions && p in EffectivePermissions(table, roles);
      CanIsMembershipInUnion(table, roles, p);
      var i :| 0 <= i < |permissions| && permissions[i] == p;
    }
  }

  /** Over the seeded table, a user holding only Team Member is refused an action gated on 'manage users'. */
  lemma TeamMemberCannotManageUsers()
    ensures Verdict(SeededRoles(), {TeamMember}, [ManageUsers]) == Deny(403, false, "Insufficient permissions")
    ensures Verdict(SeededRoles(), {Admin}, [ManageUsers]) == Pass
  {
    OnlyAdminManagesUsers({TeamMember});
    OnlyAdminManagesUsers({Admin});
    assert Can(SeededRoles(), {Admin}, [ManageUsers][0]);
  }
}
