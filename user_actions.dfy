/** The user upsert run at sign-in: a user is identified by the pair (email, provider). */
module UserActions {
  import opened Types
  import opened JsArray

  /** `where: { email, provider }`. */
  function HasLogin(email: string, provider: string): User -> bool {
    (u: User) => u.email == email && u.provider == provider
  }

  ghost predicate UniqueUserIds(us: seq<User>) {
    forall i, j :: 0 <= i < j < |us| ==> us[i].id != us[j].id
  }

  /** No two users share both an email and a provider. */
  ghost predicate UniqueLogins(us: seq<User>) {
    forall i, j :: 0 <= i < j < |us| ==> !(us[i].email == us[j].email && us[i].provider == us[j].provider)
  }

  /** `Object.assign(user, data)`: every field of the DTO overwrites the record's, the id stays. */
  function Assign(u: User, data: CreateUserDto): (r: User)
    ensures r.id == u.id
    ensures CreateUserDto(r.fullName, r.email, r.provider, r.photoUrl) == data
  {
    u.(fullName := data.fullName, email := data.email, provider := data.provider, photoUrl := data.photoUrl)
  }

  /** The user table after the upsert, and the user the action returns. */
  datatype Upserted = Upserted(users: seq<User>, user: User)

  /** createOrUpdate: the first user with the DTO's (email, provider) is overwritten with the
      DTO and returned; without one, a user with a new id and the DTO's fields is appended. */
  function Upsert(us: seq<User>, data: CreateUserDto, newId: Id): (r: Upserted)
    ensures CreateUserDto(r.user.fullName, r.user.email, r.user.provider, r.user.photoUrl) == data
    ensures var k := FindIndex(us, HasLogin(data.email, data.provider));
      && (0 <= k ==> r.user.id == us[k].id && r.users == us[k := r.user])
      && (k < 0 ==> r.user.id == newId && r.users == us + [r.user])
  {
    var k := FindIndex(us, HasLogin(data.email, data.provider));
    if k >= 0 then
      var user := Assign(us[k], data);
      Upserted(us[k := user], user)
    else
      var user := User(newId, data.fullName, data.email, data.provider, data.photoUrl);
      Upserted(us + [user], user)
  }

  /** The upsert changes no other user, and the returned user is the row it wrote. */
  lemma UpsertTouchesOneRow(us: seq<User>, data: CreateUserDto, newId: Id)
    ensures var r := Upsert(us, data, newId);
      && |us| <= |r.users| <= |us| + 1
      && (exists j :: 0 <= j < |r.users| && r.users[j] == r.user)
      && (forall j :: 0 <= j < |us| && r.users[j] != us[j] ==> us[j].email == data.email && us[j].provider == data.provider)
  {
    var r := Upsert(us, data, newId);
    var k := FindIndex(us, HasLogin(data.email, data.provider));
    if k >= 0 {
      assert r.users[k] == r.user;
    } else {
      assert r.users[|us|] == r.user;
    }
  }

  /** With a fresh id for the new row, ids stay primary keys. */
  lemma UpsertKeepsIdsUnique(us: seq<User>, data: CreateUserDto, newId: Id)
    requires UniqueUserIds(us)
    requires forall u :: u in us ==> u.id != newId
    ensures UniqueUserIds(Upsert(us, data, newId).users)
  {
    var r := Upsert(us, data, newId);
    var k := FindIndex(us, HasLogin(data.email, data.provider));
    if k < 0 {
      forall i, j | 0 <= i < j < |r.users| ensures r.users[i].id != r.users[j].id {
        if j == |us| {
          assert us[i] in us;
        }
      }
    }
  }

  /** If (email, provider) was unique before the upsert, it is unique after it. */
  lemma UpsertKeepsLoginsUnique(us: seq<User>, data: CreateUserDto, newId: Id)
    requires UniqueLogins(us)
    ensures UniqueLogins(Upsert(us, data, newId).users)
  {
    var r := Upsert(us, data, newId);
    var k := FindIndex(us, HasLogin(data.email, data.provider));
    forall i, j | 0 <= i < j < |r.users|
      ensures !(r.users[i].email == r.users[j].email && r.users[i].provider == r.users[j].provider)
    {
      if k >= 0 {
        if i == k {
          assert !(us[k].email == us[j].email && us[k].provider == us[j].provider);
        } else if j == k {
          assert !(us[i].email == us[k].email && us[i].provider == us[k].provider);
        }
      } else if j == |us| {
        assert !HasLogin(data.email, data.provider)(us[i]);
      }
    }
  }

  /** The same email under another provider is another user: when no user has this
      (email, provider), every existing user is kept as it was and a new one is added, even
      if some existing user has the same email. */
  lemma OtherProviderIsNewUser(us: seq<User>, data: CreateUserDto, newId: Id, j: nat)
    requires j < |us| && us[j].email == data.email && us[j].provider != data.provider
    requires forall u :: u in us ==> !(u.email == data.email && u.provider == data.provider)
    ensures var r := Upsert(us, data, newId);
      && |r.users| == |us| + 1 && r.users[..|us|] == us
      && r.user.id == newId && r.user.provider != us[j].provider
  {
    forall i | 0 <= i < |us| ensures !HasLogin(data.email, data.provider)(us[i]) {
      assert us[i] in us;
    }
  }

  /** Signing in a second time with the same DTO changes nothing and returns the same user:
      after the first upsert, updated or created, a user with the DTO's login exists. */
  lemma UpsertIdempotent(us: seq<User>, data: CreateUserDto, newId: Id, otherId: Id)
    ensures var r := Upsert(us, data, newId); Upsert(r.users, data, otherId) == r
  {
    var r := Upsert(us, data, newId);
    var login := HasLogin(data.email, data.provider);
    var k := FindIndex(us, login);
    var m := if k >= 0 then k else |us|;
    assert login(r.users[m]);
    forall i | 0 <= i < m ensures !login(r.users[i]) {
      assert r.users[i] == us[i];
    }
    assert FindIndex(r.users, login) == m;
  }

  /** The User table. */
  class UserTable {
    var users: seq<User>

    ghost predicate Valid()
      reads this
    {
      UniqueUserIds(users)
    }

    constructor (users: seq<User>)
      requires UniqueUserIds(users)
      ensures Valid() && this.users == users
    {
      this.users := users;
    }

    /** createOrUpdate, with `newId` the id the database generates for a created row. */
    method CreateOrUpdate(data: CreateUserDto, newId: Id) returns (user: User)
      requires Valid()
      requires forall u :: u in users ==> u.id != newId
      modifies this
      ensures Valid()
      ensures users == Upsert(old(users), data, newId).users
      ensures user == Upsert(old(users), data, newId).user
    {
      UpsertKeepsIdsUnique(users, data, newId);
      var k := FindIndex(users, HasLogin(data.email, data.provider));
      if k >= 0 {
        user := users[k];
        user := user.(fullName := data.fullName, email := data.email, provider := data.provider,
                      photoUrl := data.photoUrl);
        users := users[k := user];
        return;
      }
      user := User(newId, data.fullName, data.email, data.provider, data.photoUrl);
      users := users + [user];
    }
  }
}
