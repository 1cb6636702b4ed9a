/**
 * LoginUserService.authenticate: the caregiver login decision over the caregiver
 * table. It reads no state of its own and changes none; the table, the hash
 * function and whether the query raises an SQLException are its inputs.
 */
module LoginUserService {
  import opened JavaLang
  import opened SqlTable
  import PasswordUtil
  import CaregiverDao
  import JavaTime

  /**
   * The authenticated account handed back to the caller. LoginUser is not part
   * of this model beyond the eight values its constructor receives.
   */
  datatype LoginUser = LoginUser(
    pid: int,
    username: string,
    firstName: string,
    surname: string,
    dateOfBirth: string,
    telephoneNumber: string,
    passwordHash: string,
    isAdmin: bool)

  /** The result of `SELECT * FROM caregiver WHERE username = ? AND locked is not true`. */
  function Candidates(rows: seq<CaregiverDao.CaregiverRow>, username: string): seq<CaregiverDao.CaregiverRow> {
    Filter(rows, (row: CaregiverDao.CaregiverRow) => row.username == username && CaregiverDao.IsUnlocked(row))
  }

  /** The LoginUser built from a result row: the stored hash, not the typed password. */
  function ToLoginUser(row: CaregiverDao.CaregiverRow): LoginUser {
    LoginUser(row.pid, row.username, row.firstName, row.surname, row.dateOfBirth,
              row.telephoneNumber, row.passwordHash, row.isAdmin)
  }

  /**
   * authenticate: null for a null username or password, for an SQLException, for
   * no unlocked row with that username, and for a password that does not match
   * the first such row's hash (checkPassword, taken to be verifyPassword).
   */
  function Authenticate(sha256: PasswordUtil.Hasher, rows: seq<CaregiverDao.CaregiverRow>, fault: bool,
                        username: Option<string>, password: Option<string>): (r: Option<LoginUser>)
    ensures username.None? || password.None? || fault ==> r.None?
    ensures r.Some? ==> exists i :: (0 <= i < |rows|
      && rows[i].username == username.value
      && CaregiverDao.IsUnlocked(rows[i])
      && PasswordUtil.VerifyPassword(sha256, password.value, rows[i].passwordHash)
      && r.value == ToLoginUser(rows[i]))
  {
    if username.None? || password.None? then None
    else if fault then None
    else
      var resultSet := Candidates(rows, username.value);
      if resultSet == [] then None
      else
        var row := resultSet[0];
        if PasswordUtil.VerifyPassword(sha256, password.value, row.passwordHash) then Some(ToLoginUser(row))
        else None
  }

  /**
   * With usernames unique, authentication succeeds exactly when an unlocked row
   * has that username and its hash matches the password; an unknown username and
   * a wrong password give the same null.
   */
  lemma AuthenticateIff(sha256: PasswordUtil.Hasher, rows: seq<CaregiverDao.CaregiverRow>, username: string, password: string)
    requires CaregiverDao.UniqueKeys(rows)
    ensures Authenticate(sha256, rows, false, Some(username), Some(password)).Some? <==>
      exists i :: 0 <= i < |rows| && rows[i].username == username && CaregiverDao.IsUnlocked(rows[i])
        && PasswordUtil.VerifyPassword(sha256, password, rows[i].passwordHash)
  {
    var resultSet := Candidates(rows, username);
    if i :| (0 <= i < |rows| && rows[i].username == username && CaregiverDao.IsUnlocked(rows[i])
             && PasswordUtil.VerifyPassword(sha256, password, rows[i].passwordHash)) {
      assert rows[i] in resultSet;
      var row := resultSet[0];
      assert row in rows;
      var j :| 0 <= j < |rows| && rows[j] == row;
      assert CaregiverDao.UsernameOf(rows[i]) == CaregiverDao.UsernameOf(rows[j]);
      assert i == j;
    }
  }

  /** A locked account never authenticates, even with the right password. */
  lemma LockedNeverAuthenticates(sha256: PasswordUtil.Hasher, rows: seq<CaregiverDao.CaregiverRow>, fault: bool,
                                 username: Option<string>, password: Option<string>, i: int)
    requires CaregiverDao.UniqueKeys(rows)
    requires 0 <= i < |rows| && rows[i].locked
    requires username == Some(rows[i].username)
    ensures Authenticate(sha256, rows, fault, username, password).None?
  {

  }

  /** Locking a caregiver (lockCaregiver) shuts that account out of authenticate. */
  lemma LockThenAuthenticateFails(sha256: PasswordUtil.Hasher, rows: seq<CaregiverDao.CaregiverRow>,
                                  i: int, until: JavaTime.Date, password: string)
    requires CaregiverDao.UniqueKeys(rows)
    requires 0 <= i < |rows|
    ensures var locked := CaregiverDao.LockRows(rows, rows[i].pid, until);
      Authenticate(sha256, locked, false, Some(rows[i].username), Some(password)).None?
  {
    var locked := CaregiverDao.LockRows(rows, rows[i].pid, until);
    assert CaregiverDao.UniqueKeys(locked) by {
      forall a, b | 0 <= a < |locked| && 0 <= b < |locked| && a != b
        ensures CaregiverDao.PidOf(locked[a]) != CaregiverDao.PidOf(locked[b])
        ensures CaregiverDao.UsernameOf(locked[a]) != CaregiverDao.UsernameOf(locked[b])
      {
        assert CaregiverDao.PidOf(rows[a]) != CaregiverDao.PidOf(rows[b]);
        assert CaregiverDao.UsernameOf(rows[a]) != CaregiverDao.UsernameOf(rows[b]);
      }
    }
    LockedNeverAuthenticates(sha256, locked, false, Some(rows[i].username), Some(password), i);
  }
}
