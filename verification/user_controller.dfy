/**
 * Registration and login over the user table. Password hashing, password
 * comparison and token signing are oracles passed in as functions.
 */
module UserController {
  import opened Basics
  import opened ListRecords
  import opened Users
  import opened AuthorizeRequest
  import EmailPattern

  /** A reply carrying a token, or a refusal with its message. */
  datatype AuthReply = TokenIssued(status: int, token: string) | Refused(status: int, message: string)

  const MissingRegisterFieldsMessage := "Username, name and password have to be specified"
  const UserNameTakenMessage := "Username already taken"
  const RegistrationFailedMessage := "Something went wrong during registration"
  const MissingLoginFieldsMessage := "Username and password have to be specified"
  const UserNotFoundMessage := "User not found"
  const InvalidPasswordMessage := "Invalid password"

  /** A body field as truthiness sees it: absent and empty are both false. */
  predicate Present(f: Option<string>) {
    f.Some? && f.value != ""
  }

  /** The claims signed into a user's token. */
  function ClaimsOf(u: User): (c: Claims)
    ensures c.id == u.id && c.userName == u.userName && c.name == u.name
  {
    Claims(u.id, u.userName, u.name)
  }

  /** The record constraints `createUser` checks, other than the unique user name. */
  predicate MeetsUserRecord(userName: string, password: string, name: string) {
    && NameMinLength <= |name| <= NameMaxLength
    && PasswordMinLength <= |password| <= PasswordMaxLength
    && EmailPattern.MatchesEmail(userName)
  }

  /**
   * `register`: a missing field is refused with 401 and a taken user name
   * with 400, both before anything is stored; otherwise the user is created
   * as a non-admin with the hashed password and gets a token for their
   * claims, or the record is rejected and the reply is 500.
   */
  method Register(table: UserTable, userName: Option<string>, password: Option<string>, name: Option<string>,
                  newId: UserId, hash: string -> string, sign: Claims -> string)
    returns (reply: AuthReply)
    requires table.Valid()
    requires forall k :: 0 <= k < |table.users| ==> table.users[k].id != newId
    modifies table
    ensures table.Valid()
    ensures !(Present(userName) && Present(password) && Present(name)) ==>
      reply == Refused(401, MissingRegisterFieldsMessage)
    ensures (Present(userName) && Present(password) && Present(name)
             && old(FindByUserName(table.users, userName.value)).Some?) ==>
      reply == Refused(400, UserNameTakenMessage)
    ensures reply.TokenIssued? <==>
      && Present(userName) && Present(password) && Present(name)
      && old(FindByUserName(table.users, userName.value)).None?
      && MeetsUserRecord(userName.value, password.value, name.value)
    ensures reply.TokenIssued? ==>
      var u := User(newId, userName.value, hash(password.value), name.value, false);
      && table.users == old(table.users) + [u]
      && reply == TokenIssued(201, sign(ClaimsOf(u)))
    ensures reply.Refused? ==> table.users == old(table.users)
    ensures reply.Refused? && reply.status == 500 ==> reply.message == RegistrationFailedMessage
  {
    if !Present(userName) || !Present(password) || !Present(name) {
      return Refused(401, MissingRegisterFieldsMessage);
    }
    var existing := FindByUserName(table.users, userName.value);
    if existing.Some? {
      return Refused(400, UserNameTakenMessage);
    }
    var created := table.CreateUser(newId, userName.value, password.value, name.value, false, hash(password.value));
    if created.Err? {
      return Refused(500, RegistrationFailedMessage);
    }
    var token := sign(ClaimsOf(created.value));
    reply := TokenIssued(201, token);
  }

  /**
   * `login`: a missing field is refused with 401, an unknown user name
   * with 404 and a password the stored hash does not match with 401; a
   * match gets 200 and a token for the stored user's claims.
   */
  method Login(table: UserTable, userName: Option<string>, password: Option<string>,
               compare: (string, string) -> bool, sign: Claims -> string)
    returns (reply: AuthReply)
    ensures !(Present(userName) && Present(password)) ==> reply == Refused(401, MissingLoginFieldsMessage)
    ensures Present(userName) && Present(password) && FindByUserName(table.users, userName.value).None? ==>
      reply == Refused(404, UserNotFoundMessage)
    ensures (Present(userName) && Present(password) && FindByUserName(table.users, userName.value).Some?
             && !compare(password.value, FindByUserName(table.users, userName.value).value.password)) ==>
      reply == Refused(401, InvalidPasswordMessage)
    ensures reply.TokenIssued? <==>
      && Present(userName) && Present(password)
      && FindByUserName(table.users, userName.value).Some?
      && compare(password.value, FindByUserName(table.users, userName.value).value.password)
    ensures reply.TokenIssued? ==>
      reply == TokenIssued(200, sign(ClaimsOf(FindByUserName(table.users, userName.value).value)))
  {
    if !Present(userName) || !Present(password) {
      return Refused(401, MissingLoginFieldsMessage);
    }
    var user := FindByUserName(table.users, userName.value);
    if user.None? {
      return Refused(404, UserNotFoundMessage);
    }
    var isMatch := compare(password.value, user.value.password);
    if !isMatch {
      return Refused(401, InvalidPasswordMessage);
    }
    var token := sign(ClaimsOf(user.value));
    reply := TokenIssued(200, token);
  }

  /**
   * A user who registers and then logs in with the same credentials, where
   * the password matches its own hash, gets a login token for the same
   * claims as the registration token, and is not an admin.
   */
  method RegisterThenLogin(table: UserTable, userName: string, password: string, name: string,
                           newId: UserId, hash: string -> string, compare: (string, string) -> bool,
                           sign: Claims -> string)
    returns (registered: AuthReply, loggedIn: AuthReply)
    requires table.Valid()
    requires forall k :: 0 <= k < |table.users| ==> table.users[k].id != newId
    requires compare(password, hash(password))
    modifies table
    ensures table.Valid()
    ensures registered.TokenIssued? ==>
      && FindByUserName(table.users, userName) == Some(User(newId, userName, hash(password), name, false))
      && registered == TokenIssued(201, sign(ClaimsOf(FindByUserName(table.users, userName).value)))
      && loggedIn == TokenIssued(200, sign(ClaimsOf(FindByUserName(table.users, userName).value)))
  {
    registered := Register(table, Some(userName), Some(password), Some(name), newId, hash, sign);
    if registered.TokenIssued? {
      FindByUserNameExact(table.users, |table.users| - 1);
    }
    loggedIn := Login(table, Some(userName), Some(password), compare, sign);
  }
}
