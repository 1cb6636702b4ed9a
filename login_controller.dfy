/**
 * The decision part of the login screen: the input guard of handleLogin, the
 * verdict of the background task (active user found, password matches, last
 * login stamped) and what the screen does with that verdict. The JavaFX thread
 * hand-off is left out: the task runs to completion inside HandleLogin.
 */
module LoginController {
  import opened JavaLang
  import PasswordUtil
  import UserModel
  import UserDao

  /** The texts the screen shows in its status label. */
  datatype Status =
    | Idle
    | MissingInput        // "Bitte Benutzername und Passwort eingeben."
    | LoginSucceeded      // "Anmeldung erfolgreich! Weiterleitung..."
    | InvalidCredentials  // "Ungültiger Benutzername oder Passwort."

  /** The guard: the trimmed username and the untrimmed password must both be non-empty. */
  predicate InputAccepted(usernameText: string, passwordText: string) {
    Trim(usernameText) != [] && passwordText != []
  }

  /**
   * The verdict of call() when no SQLException occurs: findByUsername finds a row,
   * the user is active, and the password verifies against the stored hash.
   */
  predicate LoginVerdict(sha256: PasswordUtil.Hasher, users: seq<UserDao.UserRow>, username: string, password: string) {
    var found := UserDao.FindActive(users, username);
    found.Some?
    && UserDao.FlagValue(users[found.value].isActive)
    && PasswordUtil.VerifyPassword(sha256, password, users[found.value].passwordHash)
  }

  /** A true verdict means an active account with that username whose hash matches the password. */
  lemma VerdictSound(sha256: PasswordUtil.Hasher, users: seq<UserDao.UserRow>, username: string, password: string)
    requires LoginVerdict(sha256, users, username, password)
    ensures exists i :: (0 <= i < |users| && users[i].username == username && users[i].isActive == 1
      && PasswordUtil.VerifyPassword(sha256, password, users[i].passwordHash))
  {
    var k := UserDao.FindActive(users, username).value;
    assert users[k].username == username && users[k].isActive == 1;
  }

  /** An inactive account never logs in, whatever the password. */
  lemma InactiveNeverLogsIn(sha256: PasswordUtil.Hasher, users: seq<UserDao.UserRow>, username: string, password: string)
    requires forall i :: 0 <= i < |users| && users[i].username == username ==> users[i].isActive != 1
    ensures !LoginVerdict(sha256, users, username, password)
  {
  }

  /** With usernames unique, an active account whose hash matches the password always logs in. */
  lemma VerdictComplete(sha256: PasswordUtil.Hasher, users: seq<UserDao.UserRow>, i: int, password: string)
    requires forall a, b :: 0 <= a < |users| && 0 <= b < |users| && a != b ==> users[a].username != users[b].username
    requires 0 <= i < |users| && users[i].isActive == 1
    requires PasswordUtil.VerifyPassword(sha256, password, users[i].passwordHash)
    ensures LoginVerdict(sha256, users, users[i].username, password)
  {
    var found := UserDao.FindActive(users, users[i].username);
    assert found.Some?;
    assert found.value == i;
  }

  /**
   * call(): look the user up, check the verdict, stamp the last login, and report
   * true. An SQLException from the lookup or from the stamp makes the verdict false.
   */
  method CheckCredentials(dao: UserDao.UserTable, sha256: PasswordUtil.Hasher, username: string, password: string,
                          timestamp: string, findFault: bool, updateFault: bool)
    returns (verdict: bool, authenticated: UserModel.User?)
    requires dao.Valid()
    modifies dao
    ensures dao.Valid()
    ensures verdict <==> !findFault && !updateFault && LoginVerdict(sha256, old(dao.rows), username, password)
    ensures verdict ==> var k := UserDao.FindActive(old(dao.rows), username).value;
      && dao.rows == UserDao.StampLastLogin(old(dao.rows), old(dao.rows)[k].uid, timestamp)
      && authenticated != null && fresh(authenticated)
      && authenticated.View() == UserDao.RowUser(old(dao.rows)[k])
    ensures !verdict ==> dao.rows == old(dao.rows) && authenticated == null
  {
    var found := dao.FindByUsername(username, findFault);
    if found.SqlError? {
      return false, null;
    }
    var user := found.value;
    if user != null && user.isActive && PasswordUtil.VerifyPassword(sha256, password, user.passwordHash) {
      var stamped := dao.UpdateLastLogin(user.GetUid(), timestamp, updateFault);
      if stamped.SqlError? {
        return false, null;
      }
      return true, user;
    }
    return false, null;
  }

  /** The login screen's state. */
  class LoginScreen {
    var usernameText: string
    var passwordText: string
    var status: Status
    /** The user handed to the session after a successful login, or null. */
    var sessionUser: UserModel.User?

    constructor ()
      ensures usernameText == [] && passwordText == [] && status == Idle && sessionUser == null
    {
      usernameText := [];
      passwordText := [];
      status := Idle;
      sessionUser := null;
    }

    /**
     * handleLogin with the task's outcome: missing input stops before any lookup;
     * a true verdict hands the user to the session; a false one leaves the session
     * alone and clears the password field.
     */
    method HandleLogin(dao: UserDao.UserTable, sha256: PasswordUtil.Hasher, timestamp: string,
                       findFault: bool, updateFault: bool)
      requires dao.Valid()
      modifies this, dao
      ensures dao.Valid()
      ensures usernameText == old(usernameText)
      ensures !InputAccepted(old(usernameText), old(passwordText)) ==>
        && status == MissingInput && passwordText == old(passwordText)
        && sessionUser == old(sessionUser) && dao.rows == old(dao.rows)
      ensures InputAccepted(old(usernameText), old(passwordText)) ==>
        var username := Trim(old(usernameText));
        if !findFault && !updateFault && LoginVerdict(sha256, old(dao.rows), username, old(passwordText)) then
          var k := UserDao.FindActive(old(dao.rows), username).value;
          && status == LoginSucceeded && passwordText == old(passwordText)
          && sessionUser != null && sessionUser.View() == UserDao.RowUser(old(dao.rows)[k])
          && dao.rows == UserDao.StampLastLogin(old(dao.rows), old(dao.rows)[k].uid, timestamp)
        else
          && status == InvalidCredentials && passwordText == []
          && sessionUser == old(sessionUser) && dao.rows == old(dao.rows)
    {
      var username := Trim(usernameText);
      var password := passwordText;
      if |username| == 0 || |password| == 0 {
        status := MissingInput;
        return;
      }
      var verdict, user := CheckCredentials(dao, sha256, username, password, timestamp, findFault, updateFault);
      if verdict {
        sessionUser := user;
        status := LoginSucceeded;
      } else {
        status := InvalidCredentials;
        passwordText := [];
      }
    }
  }
}
