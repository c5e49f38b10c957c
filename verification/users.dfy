/**
 * The user record and the user collection with its two lookups and its
 * insert, as the user controller and the role resolver use them.
 */
module Users {
  import opened Basics
  import opened ListRecords
  import EmailPattern

  /** A stored user; `password` holds the credential hash, never the raw password. */
  datatype User = User(id: UserId, userName: string, password: string, name: string, isAdmin: bool)

  /** `findById`: the first user with that identity, or null. */
  function FindById(users: seq<User>, id: UserId): (r: Option<User>)
    ensures r.Some? ==> r.value in users && r.value.id == id
    ensures r.None? <==> forall k :: 0 <= k < |users| ==> users[k].id != id
  {
    if users == [] then None
    else if users[0].id == id then Some(users[0])
    else FindById(users[1..], id)
  }

  /** `findOne({ userName })`: the first user with that user name, or null. */
  function FindByUserName(users: seq<User>, userName: string): (r: Option<User>)
    ensures r.Some? ==> r.value in users && r.value.userName == userName
    ensures r.None? <==> forall k :: 0 <= k < |users| ==> users[k].userName != userName
  {
    if users == [] then None
    else if users[0].userName == userName then Some(users[0])
    else FindByUserName(users[1..], userName)
  }

  /** Identities and user names are unique across the collection. */
  predicate UniqueUsers(users: seq<User>) {
    forall i, j :: 0 <= i < j < |users| ==>
      users[i].id != users[j].id && users[i].userName != users[j].userName
  }

  /** With unique user names, lookup by name finds exactly the stored user of that name. */
  lemma {:induction false} FindByUserNameExact(users: seq<User>, k: nat)
    requires UniqueUsers(users) && k < |users|
    ensures FindByUserName(users, users[k].userName) == Some(users[k])
  {
    if k > 0 {
      assert users[0].userName != users[k].userName;
      assert users[1..][k - 1] == users[k];
      FindByUserNameExact(users[1..], k - 1);
    }
  }

  /** With unique identities, lookup by identity finds exactly the stored user of that id. */
  lemma {:induction false} FindByIdExact(users: seq<User>, k: nat)
    requires UniqueUsers(users) && k < |users|
    ensures FindById(users, users[k].id) == Some(users[k])
  {
    if k > 0 {
      assert users[0].id != users[k].id;
      assert users[1..][k - 1] == users[k];
      FindByIdExact(users[1..], k - 1);
    }
  }

  /** The bounds on a user's display `name` and raw password. */
  const NameMinLength: nat := 3
  const NameMaxLength: nat := 30
  const PasswordMinLength: nat := 6
  const PasswordMaxLength: nat := 50

  /** The user collection, in insertion order. */
  class UserTable {
    var users: seq<User>

    ghost predicate Valid()
      reads this
    {
      UniqueUsers(users)
    }

    constructor ()
      ensures Valid() && users == []
    {
      users := [];
    }

    /**
     * `createUser`: saving the record. Record validation checks the raw
     * fields and the unique user name; the stored `password` is `hashed`,
     * the value the save hook computes from the raw password.
     */
    method CreateUser(id: UserId, userName: string, password: string, name: string, isAdmin: bool, hashed: string)
      returns (r: Result<User, string>)
      requires Valid()
      requires forall k :: 0 <= k < |users| ==> users[k].id != id
      modifies this
      ensures Valid()
      ensures r.Ok? <==>
        && NameMinLength <= |name| <= NameMaxLength
        && PasswordMinLength <= |password| <= PasswordMaxLength
        && EmailPattern.MatchesEmail(userName)
        && old(FindByUserName(users, userName)).None?
      ensures r.Ok? ==> r.value == User(id, userName, hashed, name, isAdmin) && users == old(users) + [r.value]
      ensures r.Err? ==> users == old(users) && r.error == CreateUserFailed
    {
      if !(NameMinLength <= |name| <= NameMaxLength)
        || !(PasswordMinLength <= |password| <= PasswordMaxLength)
        || !EmailPattern.MatchesEmail(userName)
        || FindByUserName(users, userName).Some?
      {
        return Err(CreateUserFailed);
      }
      var u := User(id, userName, hashed, name, isAdmin);
      users := users + [u];
      r := Ok(u);
    }
  }

  /** The prefix of the error `createUser` raises; the store's own detail text follows it. */
  const CreateUserFailed := "Failed to create user: "
}
