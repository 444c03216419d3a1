/**
 * `UserSeeder::run`: three `User::firstOrCreate` calls keyed by email, each
 * followed by `assignRole`. `hash` stands for `Hash::make`.
 */
module UserSeeder {
  import opened Wrappers
  import opened Users
  import Permissions

  const DefaultPassword := "password123"

  /** One seeded account: the key, the name used when it has to be created, and the role assigned. */
  datatype Account = Account(email: string, name: string, role: string)

  const AdminAccount := Account("admin@example.com", "Admin User", Permissions.Admin)
  const ManagerAccount := Account("pm@example.com", "Project Manager", Permissions.ProjectManager)
  const TeamAccount := Account("team@example.com", "Team Member", Permissions.TeamMember)

  /** The rows of `users` and the next auto-increment value. */
  datatype Db = Db(users: seq<User>, nextId: nat)

  predicate Valid(db: Db)
  {
    StoreInvariant(db.users, db.nextId)
  }

  /** `firstOrCreate(['email' => …], [name, password, profile_photo => null])` followed by `assignRole`. */
  function SeedOne(db: Db, a: Account, hash: string -> string): Db
  {
    match IndexOfEmail(db.users, a.email)
    case Some(i) => Db(Replaced(db.users, i, db.users[i].(roles := db.users[i].roles + {a.role})), db.nextId)
    case None => Db(db.users + [User(db.nextId, a.name, a.email, hash(DefaultPassword), None, {a.role})], db.nextId + 1)
  }

  /** The whole seeder, in source order. */
  function Seed(db: Db, hash: string -> string): Db
  {
    SeedOne(SeedOne(SeedOne(db, AdminAccount, hash), ManagerAccount, hash), TeamAccount, hash)
  }

  /** The account's user is present afterwards, holding the role; a user that already existed keeps its row position, id, name and password. */
  lemma SeedOneEffect(db: Db, a: Account, hash: string -> string)
    requires Valid(db)
    ensures Valid(SeedOne(db, a, hash))
    ensures var r := SeedOne(db, a, hash).users;
      |r| >= |db.users| &&
      (forall j :: 0 <= j < |db.users| ==>
         r[j].id == db.users[j].id && r[j].email == db.users[j].email && r[j].name == db.users[j].name &&
         r[j].password == db.users[j].password && r[j].profilePhoto == db.users[j].profilePhoto &&
         db.users[j].roles <= r[j].roles)
    ensures Holds(SeedOne(db, a, hash), a)
    ensures EmailTaken(db.users, a.email) ==> |SeedOne(db, a, hash).users| == |db.users|
    ensures !EmailTaken(db.users, a.email) ==>
      SeedOne(db, a, hash).users == db.users + [User(db.nextId, a.name, a.email, hash(DefaultPassword), None, {a.role})]
  {
    var r := SeedOne(db, a, hash);
    match IndexOfEmail(db.users, a.email)
    case Some(i) =>
      ReplaceKeepsInvariant(db.users, db.nextId, i, db.users[i].(roles := db.users[i].roles + {a.role}));
      assert r.users[i].email == a.email;
    case None =>
      assert r.users[|db.users|].email == a.email;
  }

  /** The first user with the account's email exists and holds the account's role. */
  predicate Holds(db: Db, a: Account)
  {
    IndexOfEmail(db.users, a.email).Some? && a.role in db.users[IndexOfEmail(db.users, a.email).value].roles
  }

  /** Seeding an account whose user exists and holds the role changes nothing. */
  lemma SeedOneNoop(db: Db, a: Account, hash: string -> string)
    requires Holds(db, a)
    ensures SeedOne(db, a, hash) == db
  {
    var i := IndexOfEmail(db.users, a.email).value;
    assert db.users[i].roles + {a.role} == db.users[i].roles;
    assert db.users[i].(roles := db.users[i].roles) == db.users[i];
  }

  /** The position of an account's user survives seeding any account, and the role stays. */
  lemma SeedOneKeepsAccount(db: Db, a: Account, b: Account, hash: string -> string)
    requires Valid(db)
    requires Holds(db, b)
    ensures Holds(SeedOne(db, a, hash), b)
  {
    SeedOneEffect(db, a, hash);
    var i := IndexOfEmail(db.users, b.email).value;
    var r := SeedOne(db, a, hash).users;
    assert r[i].email == b.email;
    var k := IndexOfEmail(r, b.email).value;
    if k < |db.users| {
      assert db.users[k].email == b.email;
      assert k == i;
    }
  }

  /** After the seeder, each of the three accounts has its (unique) user, holding its role. */
  lemma SeedEstablishesAccounts(db: Db, hash: string -> string)
    requires Valid(db)
    ensures Valid(Seed(db, hash))
    ensures Holds(Seed(db, hash), AdminAccount)
    ensures Holds(Seed(db, hash), ManagerAccount)
    ensures Holds(Seed(db, hash), TeamAccount)
  {
    var d1 := SeedOne(db, AdminAccount, hash);
    var d2 := SeedOne(d1, ManagerAccount, hash);
    SeedOneEffect(db, AdminAccount, hash);
    SeedOneEffect(d1, ManagerAccount, hash);
    SeedOneEffect(d2, TeamAccount, hash);
    SeedOneKeepsAccount(d1, ManagerAccount, AdminAccount, hash);
    SeedOneKeepsAccount(d2, TeamAccount, AdminAccount, hash);
    SeedOneKeepsAccount(d2, TeamAccount, ManagerAccount, hash);
  }

  /** Running the seeder a second time changes nothing: in particular it creates no user. */
  lemma SeedIdempotent(db: Db, hash: string -> string)
    requires Valid(db)
    ensures Seed(Seed(db, hash), hash) == Seed(db, hash)
  {
    var s := Seed(db, hash);
    SeedEstablishesAccounts(db, hash);
    SeedOneNoop(s, AdminAccount, hash);
    SeedOneNoop(s, ManagerAccount, hash);
    SeedOneNoop(s, TeamAccount, hash);
  }

  /** A user that already had a seeded email keeps its name and password. */
  lemma SeedKeepsExistingUsers(db: Db, hash: string -> string, j: nat)
    requires Valid(db) && j < |db.users|
    ensures var r := Seed(db, hash).users;
      j < |r| && r[j].id == db.users[j].id && r[j].email == db.users[j].email &&
      r[j].name == db.users[j].name && r[j].password == db.users[j].password
  {
    var d1 := SeedOne(db, AdminAccount, hash);
    var d2 := SeedOne(d1, ManagerAccount, hash);
    SeedOneEffect(db, AdminAccount, hash);
    SeedOneEffect(d1, ManagerAccount, hash);
    SeedOneEffect(d2, TeamAccount, hash);
  }

  /** One account: `firstOrCreate`, then `assignRole`, on the store. */
  method RunOne(store: UserStore, a: Account, roleNames: set<string>, hash: string -> string)
    requires store.Valid() && a.role in roleNames
    modifies store
    ensures store.Valid()
    ensures Db(store.users, store.nextId) == SeedOne(Db(old(store.users), old(store.nextId)), a, hash)
  {
    var found := IndexOfEmail(store.users, a.email);
    if found.Some? {
      var ok := store.AssignRole(found.value, a.role, roleNames);
    } else {
      var id := store.Create(a.name, a.email, hash(DefaultPassword), None);
      var ok := store.AssignRole(|store.users| - 1, a.role, roleNames);
      assert {} + {a.role} == {a.role};
      assert store.users == old(store.users) + [User(old(store.nextId), a.name, a.email, hash(DefaultPassword), None, {a.role})];
    }
  }

  /** `run`. The three roles must exist: the seeder relies on the role seeder having run first. */
  method Run(store: UserStore, roleNames: set<string>, hash: string -> string)
    requires store.Valid()
    requires Permissions.Admin in roleNames && Permissions.ProjectManager in roleNames && Permissions.TeamMember in roleNames
    modifies store
    ensures store.Valid()
    ensures Db(store.users, store.nextId) == Seed(Db(old(store.users), old(store.nextId)), hash)
  {
    RunOne(store, AdminAccount, roleNames, hash);
    RunOne(store, ManagerAccount, roleNames, hash);
    RunOne(store, TeamAccount, roleNames, hash);
  }
}
