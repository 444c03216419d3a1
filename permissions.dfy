/**
 * `RolePermissionSeeder::run`: the eight permission names, the three roles
 * and the permission set each role is synced to; and the meaning of
 * `$user->can(p)` over that table (Spatie's role semantics: a user holds a
 * permission when one of the user's roles does).
 */
module Permissions {

  const ManageUsers := "manage users"
  const CreateProject := "create project"
  const UpdateProject := "update project"
  const DeleteProject := "delete project"
  const AssignTasks := "assign tasks"
  const UpdateTasks := "update tasks"
  const CommentTasks := "comment tasks"
  const ViewDashboard := "view dashboard"

  const Admin := "Admin"
  const ProjectManager := "Project Manager"
  const TeamMember := "Team Member"

  /** The list the seeder's first loop walks. */
  const SeededPermissions: seq<string> :=
    [ManageUsers, CreateProject, UpdateProject, DeleteProject, AssignTasks, UpdateTasks, CommentTasks, ViewDashboard]

  const AdminPermissions: seq<string> :=
    [ManageUsers, CreateProject, UpdateProject, DeleteProject, CommentTasks, ViewDashboard]
  const ProjectManagerPermissions: seq<string> :=
    [CreateProject, UpdateProject, AssignTasks, UpdateTasks, CommentTasks, ViewDashboard]
  const TeamMemberPermissions: seq<string> :=
    [UpdateTasks, CommentTasks, ViewDashboard]

  /** Role name to the names of the permissions synced to it (`role_has_permissions`). */
  type RoleTable = map<string, set<string>>

  /** The set of names listed in `s`. */
  function SetOf(s: seq<string>): set<string>
  {
    set x | x in s
  }

  /** The roles the seeder writes, each mapped to exactly the set it is synced to. */
  function SeededRoles(): RoleTable
  {
    map[Admin := SetOf(AdminPermissions),
        ProjectManager := SetOf(ProjectManagerPermissions),
        TeamMember := SetOf(TeamMemberPermissions)]
  }

  /** The union of the permission sets of `roles`. */
  function EffectivePermissions(table: RoleTable, roles: set<string>): set<string>
  {
    set r, p | r in roles && r in table && p in table[r] :: p
  }

  /** `$user->can(p)` for a user holding `roles`. */
  predicate Can(table: RoleTable, roles: set<string>, p: string)
  {
    exists r :: r in roles && r in table && p in table[r]
  }

  lemma CanIsMembershipInUnion(table: RoleTable, roles: set<string>, p: string)
    ensures Can(table, roles, p) <==> p in EffectivePermissions(table, roles)
  {
    if Can(table, roles, p) {
      var r :| r in roles && r in table && p in table[r];
      assert p in EffectivePermissions(table, roles);
    }
  }

  // ---------------------------------------------------------------------------
  // Facts about the seeded table

  lemma EightPermissions()
    ensures |SetOf(SeededPermissions)| == 8
  {
    assert SetOf(SeededPermissions) == PermissionNames();
    DistinctNames();
  }

  function PermissionNames(): set<string>
  {
    {ManageUsers, CreateProject, UpdateProject, DeleteProject, AssignTasks, UpdateTasks, CommentTasks, ViewDashboard}
  }

  lemma DistinctNames()
    ensures |PermissionNames()| == 8
  {
  }

  lemma SeededRoleSets()
    ensures SeededRoles().Keys == {Admin, ProjectManager, TeamMember}
    ensures SeededRoles()[Admin] == {ManageUsers, CreateProject, UpdateProject, DeleteProject, CommentTasks, ViewDashboard}
    ensures SeededRoles()[ProjectManager] == {CreateProject, UpdateProject, AssignTasks, UpdateTasks, CommentTasks, ViewDashboard}
    ensures SeededRoles()[TeamMember] == {UpdateTasks, CommentTasks, ViewDashboard}
    ensures AssignTasks !in SeededRoles()[Admin] && UpdateTasks !in SeededRoles()[Admin]
    ensures ManageUsers !in SeededRoles()[ProjectManager] && DeleteProject !in SeededRoles()[ProjectManager]
  {
    var t := SeededRoles();
    assert t[Admin] == SetOf(AdminPermissions);
  }

  /** Every role's set lies within the eight names; Team Member's set is within Project Manager's but not Admin's. */
  lemma SeededRoleRelations()
    ensures forall r :: r in SeededRoles() ==> SeededRoles()[r] <= SetOf(SeededPermissions)
    ensures SeededRoles()[TeamMember] <= SeededRoles()[ProjectManager]
    ensures !(SeededRoles()[TeamMember] <= SeededRoles()[Admin])
  {
    SeededRoleSets();
    assert UpdateTasks in SeededRoles()[TeamMember];
  }

  /** Only Admin holds 'manage users'; so a user can manage users iff the user holds the Admin role. */
  lemma OnlyAdminManagesUsers(roles: set<string>)
    ensures forall r :: r in SeededRoles() && ManageUsers in SeededRoles()[r] ==> r == Admin
    ensures Can(SeededRoles(), roles, ManageUsers) <==> Admin in roles
  {
    SeededRoleSets();
    if Admin in roles {
      assert ManageUsers in SeededRoles()[Admin];
    }
  }

  // ---------------------------------------------------------------------------
  // The seeder against the store

  /** The `permissions` table as rows (by name) and the roles with their synced permissions. */
  class Registry {
    var permissions: seq<string>
    var roles: RoleTable

    ghost predicate Valid()
      reads this
    {
      Unique(permissions) && forall r :: r in roles ==> roles[r] <= SetOf(permissions)
    }

    constructor ()
      ensures Valid() && permissions == [] && roles == map[]
    {
      permissions := [];
      roles := map[];
    }

    /** `Permission::firstOrCreate(['name' => name])`. */
    method FirstOrCreatePermission(name: string)
      requires Valid()
      modifies this
      ensures Valid() && roles == old(roles)
      ensures permissions == AddIfMissing(old(permissions), name)
    {
      if name !in permissions {
        permissions := permissions + [name];
      }
    }

    /** `Role::firstOrCreate(['name' => name])`: a new role starts with no permissions. */
    method FirstOrCreateRole(name: string)
      requires Valid()
      modifies this
      ensures Valid() && permissions == old(permissions)
      ensures roles == if name in old(roles) then old(roles) else old(roles)[name := {}]
    {
      if name !in roles {
        roles := roles[name := {}];
      }
    }

    /**
     * `$role->syncPermissions(names)`: the role's set becomes exactly `names`;
     * an unknown name makes Spatie throw before anything changes.
     */
    method SyncPermissions(role: string, names: seq<string>) returns (ok: bool)
      requires Valid() && role in roles
      modifies this
      ensures Valid() && permissions == old(permissions)
      ensures ok <==> forall n :: n in names ==> n in permissions
      ensures roles == if ok then old(roles)[role := SetOf(names)] else old(roles)
    {
      ok := forall n :: n in names ==> n in permissions;
      if ok {
        roles := roles[role := SetOf(names)];
      }
    }

    /** The seeder's first loop: one `firstOrCreate` per listed permission name. */
    method CreatePermissions()
      requires Valid()
      modifies this
      ensures Valid() && roles == old(roles)
      ensures permissions == AddAllMissing(old(permissions), SeededPermissions)
      ensures forall n :: n in SeededPermissions ==> n in permissions
    {
      for i := 0 to |SeededPermissions|
        invariant Valid() && roles == old(roles)
        invariant permissions == AddAllMissing(old(permissions), SeededPermissions[..i])
      {
        AddAllMissingStep(old(permissions), SeededPermissions[..i], SeededPermissions[i]);
        assert SeededPermissions[..i + 1] == SeededPermissions[..i] + [SeededPermissions[i]];
        FirstOrCreatePermission(SeededPermissions[i]);
      }
      assert SeededPermissions[..|SeededPermissions|] == SeededPermissions;
      AddAllMissingContains(old(permissions), SeededPermissions);
    }

    /** `Role::firstOrCreate` for Admin, Project Manager and Team Member. */
    method CreateRoles()
      requires Valid()
      modifies this
      ensures Valid() && permissions == old(permissions)
      ensures roles.Keys == old(roles).Keys + {Admin, ProjectManager, TeamMember}
      ensures forall k :: k in old(roles) ==> roles[k] == old(roles)[k]
    {
      FirstOrCreateRole(Admin);
      FirstOrCreateRole(ProjectManager);
      FirstOrCreateRole(TeamMember);
    }

    /** The three `syncPermissions` calls; every listed name exists, so none of them throws. */
    method SyncSeededRoles()
      requires Valid()
      requires Admin in roles && ProjectManager in roles && TeamMember in roles
      requires forall n :: n in SeededPermissions ==> n in permissions
      modifies this
      ensures Valid() && permissions == old(permissions)
      ensures roles == old(roles)[Admin := SetOf(AdminPermissions)][ProjectManager := SetOf(ProjectManagerPermissions)][TeamMember := SetOf(TeamMemberPermissions)]
    {
      RoleListsWithinSeeded();
      var ok := SyncPermissions(Admin, AdminPermissions);
      assert ok;
      ok := SyncPermissions(ProjectManager, ProjectManagerPermissions);
      assert ok;
      ok := SyncPermissions(TeamMember, TeamMemberPermissions);
      assert ok;
    }

    /** `run`: create the missing permissions, then the three roles, then sync each role to its list. */
    method Run()
      requires Valid()
      modifies this
      ensures Valid()
      ensures permissions == AddAllMissing(old(permissions), SeededPermissions)
      ensures roles == SeedRoles(old(roles))
    {
      CreatePermissions();
      CreateRoles();
      SyncSeededRoles();
      SeedRolesExtensional(old(roles), roles);
    }
  }

  lemma RoleListsWithinSeeded()
    ensures forall n :: n in AdminPermissions ==> n in SeededPermissions
    ensures forall n :: n in ProjectManagerPermissions ==> n in SeededPermissions
    ensures forall n :: n in TeamMemberPermissions ==> n in SeededPermissions
  {
  }

  lemma SeedRolesExtensional(before: RoleTable, after: RoleTable)
    requires after.Keys == before.Keys + {Admin, ProjectManager, TeamMember}
    requires after[Admin] == SetOf(AdminPermissions)
    requires after[ProjectManager] == SetOf(ProjectManagerPermissions)
    requires after[TeamMember] == SetOf(TeamMemberPermissions)
    requires forall k :: k in before && k != Admin && k != ProjectManager && k != TeamMember ==> after[k] == before[k]
    ensures after == SeedRoles(before)
  {
    var expected := SeedRoles(before);
    assert after.Keys == expected.Keys;
    forall k | k in after ensures after[k] == expected[k] {
    }
  }

  predicate Unique(s: seq<string>)
  {
    forall i, j :: 0 <= i < j < |s| ==> s[i] != s[j]
  }

  /** One `firstOrCreate` on the name column. */
  function AddIfMissing(rows: seq<string>, name: string): (r: seq<string>)
    ensures Unique(rows) ==> Unique(r)
    ensures name in r && forall x :: x in r <==> x in rows || x == name
  {
    if name in rows then rows else rows + [name]
  }

  /** The seeder's loop: one `firstOrCreate` per name, in list order. */
  function AddAllMissing(rows: seq<string>, names: seq<string>): seq<string>
    decreases |names|
  {
    if names == [] then rows else AddIfMissing(AddAllMissing(rows, names[..|names| - 1]), names[|names| - 1])
  }

  lemma AddAllMissingStep(rows: seq<string>, names: seq<string>, name: string)
    ensures AddAllMissing(rows, names + [name]) == AddIfMissing(AddAllMissing(rows, names), name)
  {
    assert (names + [name])[..|names|] == names;
  }

  /** The rows after the loop are the old rows and the listed names, each once, old rows first and unchanged. */
  lemma {:induction false} AddAllMissingContains(rows: seq<string>, names: seq<string>)
    ensures forall x :: x in AddAllMissing(rows, names) <==> x in rows || x in names
    ensures Unique(rows) ==> Unique(AddAllMissing(rows, names))
    ensures |rows| <= |AddAllMissing(rows, names)| && AddAllMissing(rows, names)[..|rows|] == rows
    decreases |names|
  {
    if names != [] {
      var init := names[..|names| - 1];
      AddAllMissingContains(rows, init);
      assert names == init + [names[|names| - 1]];
      forall x ensures x in names <==> x in init || x == names[|names| - 1] {
        if x in names {
          var k :| 0 <= k < |names| && names[k] == x;
          if k < |names| - 1 { assert init[k] == x; }
        }
      }
    }
  }

  /** The roles after the three `firstOrCreate` and `syncPermissions` calls: other roles are kept. */
  function SeedRoles(roles: RoleTable): (r: RoleTable)
    ensures r.Keys == roles.Keys + {Admin, ProjectManager, TeamMember}
    ensures forall k :: k in r && k !in SeededRoles() ==> r[k] == roles[k]
    ensures forall k :: k in SeededRoles() ==> r[k] == SeededRoles()[k]
  {
    roles + SeededRoles()
  }

  /** Running the seeder twice gives the same permission rows and role sets as running it once. */
  lemma SeederIdempotent(rows: seq<string>, roles: RoleTable)
    ensures AddAllMissing(AddAllMissing(rows, SeededPermissions), SeededPermissions) == AddAllMissing(rows, SeededPermissions)
    ensures SeedRoles(SeedRoles(roles)) == SeedRoles(roles)
  {
    var once := AddAllMissing(rows, SeededPermissions);
    AddAllMissingContains(rows, SeededPermissions);
    AddAllMissingNoop(once, SeededPermissions);
  }

  /** Adding names that are all present already changes nothing. */
  lemma {:induction false} AddAllMissingNoop(rows: seq<string>, names: seq<string>)
    requires forall x :: x in names ==> x in rows
    ensures AddAllMissing(rows, names) == rows
    decreases |names|
  {
    if names != [] {
      var init := names[..|names| - 1];
      forall x | x in init ensures x in rows {
        var k :| 0 <= k < |init| && init[k] == x;
        assert names[k] == x;
      }
      AddAllMissingNoop(rows, init);
      assert names[|names| - 1] in names;
    }
  }

  /** Names that are distinct and all new are appended in order. */
  lemma {:induction false} AddAllMissingFresh(rows: seq<string>, names: seq<string>)
    requires Unique(names)
    requires forall x :: x in names ==> x !in rows
    ensures AddAllMissing(rows, names) == rows + names
    decreases |names|
  {
    if names != [] {
      var init := names[..|names| - 1];
      var last := names[|names| - 1];
      forall x | x in init ensures x !in rows {
        var k :| 0 <= k < |init| && init[k] == x;
        assert names[k] == x;
      }
      AddAllMissingFresh(rows, init);
      assert last in names;
      assert rows + init + [last] == rows + names;
    }
  }

  /** Seeding an empty store leaves exactly the eight names, in list order, and exactly the three seeded roles. */
  lemma SeedFromEmpty()
    ensures AddAllMissing([], SeededPermissions) == SeededPermissions
    ensures SeedRoles(map[]) == SeededRoles()
  {
    AddAllMissingFresh([], SeededPermissions);
  }
}
