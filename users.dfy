/**
 * The `users` table with the Spatie role assignment of each user, as the
 * controllers and seeders change it. `hash` stands for `Hash::make`.
 */
module Users {
  import opened Wrappers

  /** A user row together with the names of the roles assigned to it (`model_has_roles`). */
  datatype User = User(id: nat, name: string, email: string, password: string, profilePhoto: Option<string>, roles: set<string>)

  /** A user as serialised into a JSON response: `password` and `remember_token` are `$hidden`. */
  datatype PublicUser = PublicUser(id: nat, name: string, email: string, profilePhoto: Option<string>, roles: set<string>)

  function Public(u: User): (p: PublicUser)
    ensures p.id == u.id && p.name == u.name && p.email == u.email && p.roles == u.roles
  {
    PublicUser(u.id, u.name, u.email, u.profilePhoto, u.roles)
  }

  /** What a response shows of a user does not depend on the stored password. */
  lemma PublicHidesPassword(u: User, pw: string)
    ensures Public(u.(password := pw)) == Public(u)
  {
  }

  /** The position of the first user with `email`, as `where('email', ...)->first()` finds it. */
  function IndexOfEmail(users: seq<User>, email: string): (r: Option<nat>)
    ensures r.Some? ==> r.value < |users| && users[r.value].email == email
    ensures r.Some? ==> forall j :: 0 <= j < r.value ==> users[j].email != email
    ensures r.None? ==> forall j :: 0 <= j < |users| ==> users[j].email != email
  {
    if users == [] then None
    else if users[0].email == email then Some(0)
    else match IndexOfEmail(users[1..], email)
      case None => None
      case Some(k) => Some(k + 1)
  }

  /** The position of the user with primary key `id`, as route model binding finds it. */
  function IndexOfId(users: seq<User>, id: nat): (r: Option<nat>)
    ensures r.Some? ==> r.value < |users| && users[r.value].id == id
    ensures r.None? ==> forall j :: 0 <= j < |users| ==> users[j].id != id
  {
    if users == [] then None
    else if users[0].id == id then Some(0)
    else match IndexOfId(users[1..], id)
      case None => None
      case Some(k) => Some(k + 1)
  }

  predicate EmailTaken(users: seq<User>, email: string)
  {
    exists j :: 0 <= j < |users| && users[j].email == email
  }

  /** `unique:users,email,<id>`: the email belongs to a user other than `id`. */
  predicate EmailTakenByOther(users: seq<User>, email: string, id: nat)
  {
    exists j :: 0 <= j < |users| && users[j].email == email && users[j].id != id
  }

  /** Primary keys are unique and below the next auto-increment value; emails are unique. */
  predicate StoreInvariant(users: seq<User>, nextId: nat)
  {
    (forall i :: 0 <= i < |users| ==> users[i].id < nextId) &&
    (forall i, j :: 0 <= i < |users| && 0 <= j < |users| && i != j ==>
       users[i].id != users[j].id && users[i].email != users[j].email)
  }

  /** `User::create`: a new row with the next id and no roles. */
  function Inserted(users: seq<User>, nextId: nat, name: string, email: string, password: string, photo: Option<string>): seq<User>
  {
    users + [User(nextId, name, email, password, photo, {})]
  }

  /** Replace the row at `i` (a `save()` of changed attributes or a change of roles). */
  function Replaced(users: seq<User>, i: nat, u: User): seq<User>
    requires i < |users|
  {
    users[i := u]
  }

  /** `$user->delete()` of the row at `i`. */
  function Removed(users: seq<User>, i: nat): (r: seq<User>)
    requires i < |users|
    ensures |r| == |users| - 1
    ensures forall x :: x in r ==> x in users
  {
    users[..i] + users[i + 1..]
  }

  lemma InsertKeepsInvariant(users: seq<User>, nextId: nat, name: string, email: string, password: string, photo: Option<string>)
    requires StoreInvariant(users, nextId)
    requires !EmailTaken(users, email)
    ensures StoreInvariant(Inserted(users, nextId, name, email, password, photo), nextId + 1)
  {
  }

  lemma ReplaceKeepsInvariant(users: seq<User>, nextId: nat, i: nat, u: User)
    requires StoreInvariant(users, nextId)
    requires i < |users| && u.id == users[i].id
    requires !EmailTakenByOther(users, u.email, u.id)
    ensures StoreInvariant(Replaced(users, i, u), nextId)
  {
    var r := Replaced(users, i, u);
    forall a, b | 0 <= a < |r| && 0 <= b < |r| && a != b ensures r[a].id != r[b].id && r[a].email != r[b].email {
      if a == i {
        assert r[b] == users[b];
      } else if b == i {
        assert r[a] == users[a];
      }
    }
  }

  lemma RemoveKeepsInvariant(users: seq<User>, nextId: nat, i: nat)
    requires StoreInvariant(users, nextId)
    requires i < |users|
    ensures StoreInvariant(Removed(users, i), nextId)
    ensures IndexOfId(Removed(users, i), users[i].id).None?
  {
    var r := Removed(users, i);
    forall a | 0 <= a < |r| ensures r[a] == users[if a < i then a else a + 1] {
    }
  }

  class UserStore {
    var users: seq<User>
    var nextId: nat

    ghost predicate Valid()
      reads this
    {
      StoreInvariant(users, nextId)
    }

    constructor ()
      ensures Valid() && users == []
    {
      users := [];
      nextId := 1;
    }

    /** `User::create([...])`. The callers have validated that the email is free. */
    method Create(name: string, email: string, password: string, photo: Option<string>) returns (id: nat)
      requires Valid() && !EmailTaken(users, email)
      modifies this
      ensures Valid()
      ensures id == old(nextId) && nextId == old(nextId) + 1
      ensures users == Inserted(old(users), old(nextId), name, email, password, photo)
    {
      InsertKeepsInvariant(users, nextId, name, email, password, photo);
      id := nextId;
      users := Inserted(users, nextId, name, email, password, photo);
      nextId := nextId + 1;
    }

    /** `save()` of the user at position `i` with new attribute values (not its id). */
    method Save(i: nat, u: User)
      requires Valid() && i < |users| && u.id == users[i].id
      requires !EmailTakenByOther(users, u.email, u.id)
      modifies this
      ensures Valid() && nextId == old(nextId)
      ensures users == Replaced(old(users), i, u)
    {
      ReplaceKeepsInvariant(users, nextId, i, u);
      users := Replaced(users, i, u);
    }

    /**
     * `$user->assignRole(role)`: adds the role to the user's set; Spatie throws
     * when no role of that name exists.
     */
    method AssignRole(i: nat, role: string, roleNames: set<string>) returns (ok: bool)
      requires Valid() && i < |users|
      modifies this
      ensures Valid() && nextId == old(nextId)
      ensures ok <==> role in roleNames
      ensures users == if ok then Replaced(old(users), i, old(users)[i].(roles := old(users)[i].roles + {role})) else old(users)
    {
      ok := role in roleNames;
      if ok {
        Save(i, users[i].(roles := users[i].roles + {role}));
      }
    }

    /** `$user->syncRoles([role])`: the user's roles become exactly `{role}`. */
    method SyncRoles(i: nat, role: string)
      requires Valid() && i < |users|
      modifies this
      ensures Valid() && nextId == old(nextId)
      ensures users == Replaced(old(users), i, old(users)[i].(roles := {role}))
    {
      Save(i, users[i].(roles := {role}));
    }

    /** `$user->delete()`. */
    method Delete(i: nat)
      requires Valid() && i < |users|
      modifies this
      ensures Valid() && nextId == old(nextId)
      ensures users == Removed(old(users), i)
      ensures IndexOfId(users, old(users)[i].id).None?
    {
      RemoveKeepsInvariant(users, nextId, i);
      users := Removed(users, i);
    }
  }
}
