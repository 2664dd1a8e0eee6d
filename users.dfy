/** The user guards: the credential check of login and the protection of
    the default administrator account against deletion. */
module Users {
  import opened Tables

  /** The stored form of a password, a missing one hashed as ""; the one-way
      hash itself is the parameter `hash`, about which nothing is assumed. */
  function HashPassword(hash: string -> string, password: Option<string>): (stored: string)
    ensures password.None? ==> stored == hash("")
    ensures password.Some? ==> stored == hash(password.value)
  {
    hash(password.GetOr(""))
  }

  /** The user lookup by name: the first row whose name the store deems
      equal, if any. */
  function FindUser(users: seq<User>, username: string): (found: Option<User>)
    ensures found.Some? ==> found.value in users && SqlEq(found.value.username, username)
    ensures found.None? <==> forall u :: u in users ==> !SqlEq(u.username, username)
  {
    if |users| == 0 then None
    else if SqlEq(users[0].username, username) then Some(users[0])
    else FindUser(users[1..], username)
  }

  /** The login response body. */
  datatype Account = Account(username: string, role: string)

  /** login: 401 when no row matches or when the stored hash differs from
      the hash of the given password (missing password hashed as ""). */
  function Login(users: seq<User>, username: string, password: Option<string>, hash: string -> string)
    : (res: Result<Account, Error>)
    ensures res.Failure? ==> Status(res.error) == 401
    ensures (forall u :: u in users ==> !SqlEq(u.username, username)) ==> res == Failure(NoSuchAccount)
    ensures res.Success? ==> exists u :: u in users && SqlEq(u.username, username)
                                         && res.value == Account(u.username, u.role)
                                         && u.passwordHash == HashPassword(hash, password)
  {
    match FindUser(users, username)
    case None => Failure(NoSuchAccount)
    case Some(row) =>
      if HashPassword(hash, password) != row.passwordHash then Failure(WrongPassword)
      else Success(Account(row.username, row.role))
  }

  /** The unique index on `username`, under the store's collation. */
  predicate UniqueUsernames(users: seq<User>) {
    forall i, j :: 0 <= i < |users| && 0 <= j < |users| && SqlEq(users[i].username, users[j].username) ==> i == j
  }

  /** With usernames unique, login succeeds exactly for the account's own
      password hash, and answers with that account's name and role. */
  lemma {:induction false} LoginChecksTheAccount(users: seq<User>, k: nat, password: Option<string>, hash: string -> string)
    requires UniqueUsernames(users) && k < |users|
    ensures var u := users[k];
            (Login(users, u.username, password, hash)
               == if hash(password.GetOr("")) == u.passwordHash then Success(Account(u.username, u.role))
                  else Failure(WrongPassword))
  {
    FindFirst(users, k);
  }

  lemma {:induction false} FindFirst(users: seq<User>, k: nat)
    requires UniqueUsernames(users) && k < |users|
    ensures FindUser(users, users[k].username) == Some(users[k])
  {
    if k > 0 {
      assert !SqlEq(users[0].username, users[k].username);
      var rest := users[1..];
      assert UniqueUsernames(rest) by {
        forall i, j | 0 <= i < |rest| && 0 <= j < |rest| && SqlEq(rest[i].username, rest[j].username)
          ensures i == j
        {
          assert rest[i] == users[i + 1] && rest[j] == users[j + 1];
        }
      }
      assert rest[k - 1] == users[k];
      FindFirst(rest, k - 1);
    } else {
      SqlEqIsEquivalence(users[0].username, users[0].username, users[0].username);
    }
  }

  /** The delete by name: every row whose name the store deems equal goes. */
  function RemoveUser(users: seq<User>, username: string): (rest: seq<User>)
    ensures forall u :: u in rest <==> u in users && !SqlEq(u.username, username)
    ensures |rest| <= |users|
  {
    if |users| == 0 then []
    else
      var tail := RemoveUser(users[1..], username);
      assert users == [users[0]] + users[1..];
      if SqlEq(users[0].username, username) then tail else [users[0]] + tail
  }

  /** delete_user as written: the guard compares the name exactly, while the
      DELETE matches it the way the store compares strings. */
  function DeleteUserAsWritten(users: seq<User>, username: string): (res: Result<seq<User>, Error>)
    ensures res.Failure? <==> username == "admin"
    ensures res.Success? ==> forall u :: u in res.value <==> u in users && !SqlEq(u.username, username)
  {
    if username == "admin" then Failure(CannotDeleteAdmin) else Success(RemoveUser(users, username))
  }

  /** As written, asking to delete "Admin" passes the guard and removes the
      default administrator's row. */
  lemma AdminDeletedThroughCaseVariant(hashOfAdmin: string)
    ensures DeleteUserAsWritten([User("admin", hashOfAdmin, "admin")], "Admin") == Success([])
  {
    assert Lower("Admin") == "admin" && Lower("admin") == "admin";
    assert SqlEq("admin", "Admin");
    var users := [User("admin", hashOfAdmin, "admin")];
    assert users[1..] == [];
  }

  /** delete_user with the guard comparing names as the DELETE does: any
      spelling of "admin" is refused; any other name removes exactly the
      rows carrying that name. */
  function DeleteUser(users: seq<User>, username: string): (res: Result<seq<User>, Error>)
    ensures res.Failure? <==> SqlEq(username, "admin")
    ensures res.Failure? ==> res.error == CannotDeleteAdmin && Status(res.error) == 400
    ensures res.Success? ==> forall u :: u in res.value <==> u in users && !SqlEq(u.username, username)
  {
    if SqlEq(username, "admin") then Failure(CannotDeleteAdmin) else Success(RemoveUser(users, username))
  }

  /** Whatever name is asked for, a row of the administrator account is
      still there after a successful delete. */
  lemma AdminSurvivesDelete(users: seq<User>, username: string, admin: User)
    requires admin in users && SqlEq(admin.username, "admin")
    requires DeleteUser(users, username).Success?
    ensures admin in DeleteUser(users, username).value
  {
    SqlEqIsEquivalence(admin.username, username, "admin");
    SqlEqIsEquivalence(username, admin.username, "admin");
  }
}
