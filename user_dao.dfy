/**
 * The users table and the statements UserDao runs on it, as an in-memory sequence
 * of rows. The two flags are stored as the integers 1 and 0. Each statement may
 * raise an SQLException (the `fault` parameter); a failing statement changes
 * nothing, and findByUsername, updateLastLogin, usernameExists and readAllActive
 * pass the exception on to their caller.
 *
 * The users schema is not part of this model; uid is taken to be an
 * AUTOINCREMENT key and last_login to start out NULL, with created_at filled by
 * a column default that the caller supplies.
 */
module UserDao {
  import opened JavaLang
  import opened UserModel
  import opened SqlTable

  /** One row of the users table. */
  datatype UserRow = UserRow(
    uid: int,
    username: string,
    passwordHash: string,
    firstName: string,
    lastName: string,
    isAdmin: int,
    isActive: int,
    createdAt: Option<string>,
    lastLogin: Option<string>)

  function UidOf(row: UserRow): int {
    row.uid
  }

  // ---------------------------------------------------------------------------
  // Column mapping
  // ---------------------------------------------------------------------------

  /** How the DAO writes a flag: `flag ? 1 : 0`; reading it back with `== 1` gives the flag again. */
  function FlagColumn(flag: bool): (column: int)
    ensures column == 0 || column == 1
    ensures FlagValue(column) == flag
  {
    if flag then 1 else 0
  }

  /** How the DAO reads a flag: `getInt(...) == 1`. */
  predicate FlagValue(column: int) {
    column == 1
  }

  /** getInstanceFromResultSet (and the loop body of getListFromResultSet). */
  function RowUser(row: UserRow): UserView {
    UserView(Some(row.uid), row.username, row.passwordHash, row.firstName, row.lastName,
             FlagValue(row.isAdmin), FlagValue(row.isActive), OrEmpty(row.createdAt), OrEmpty(row.lastLogin))
  }

  /** The row `create` inserts for a user. */
  function NewUserRow(uid: int, v: UserView, createdAt: Option<string>): UserRow {
    UserRow(uid, v.username, v.passwordHash, v.firstName, v.lastName,
            FlagColumn(v.isAdmin), FlagColumn(v.isActive), createdAt, None)
  }

  /** What create writes is what a read gives back: names, hash and both flags; last login "". */
  lemma CreateReadRoundTrip(uid: int, v: UserView, createdAt: Option<string>)
    ensures var back := RowUser(NewUserRow(uid, v, createdAt));
      && back.uid == Some(uid)
      && back.username == v.username && back.passwordHash == v.passwordHash
      && back.firstName == v.firstName && back.lastName == v.lastName
      && back.isAdmin == v.isAdmin && back.isActive == v.isActive
      && back.lastLogin == ""
  {
    assert FlagValue(FlagColumn(v.isAdmin)) == v.isAdmin;
    assert FlagValue(FlagColumn(v.isActive)) == v.isActive;
  }

  // ---------------------------------------------------------------------------
  // WHERE and SET semantics
  // ---------------------------------------------------------------------------

  /** `username = ? AND is_active = 1` */
  predicate ActiveMatch(row: UserRow, username: string) {
    row.username == username && row.isActive == 1
  }

  /** findByUsername: the first active row with that username, if any. */
  function FindActive(rows: seq<UserRow>, username: string): (found: Option<nat>)
    ensures found.None? <==> forall i :: 0 <= i < |rows| ==> !ActiveMatch(rows[i], username)
    ensures found.Some? ==> found.value < |rows| && ActiveMatch(rows[found.value], username)
    ensures found.Some? ==> forall j :: 0 <= j < found.value ==> !ActiveMatch(rows[j], username)
  {
    if rows == [] then None
    else if ActiveMatch(rows[0], username) then Some(0)
    else match FindActive(rows[1..], username)
      case None => None
      case Some(k) => Some(k + 1)
  }

  /** An inactive account is never found, whatever its username. */
  lemma InactiveNeverFound(rows: seq<UserRow>, username: string, i: int)
    requires 0 <= i < |rows| && rows[i].isActive != 1
    ensures FindActive(rows, username) != Some(i)
  {
  }

  /** The rows of `WHERE is_active = 1`. */
  function ActiveRows(rows: seq<UserRow>): seq<UserRow> {
    Filter(rows, (row: UserRow) => row.isActive == 1)
  }

  /** `SELECT COUNT(*) FROM users WHERE username = ?`, over active and inactive rows alike. */
  function CountUsername(rows: seq<UserRow>, username: string): nat {
    if rows == [] then 0
    else (if rows[0].username == username then 1 else 0) + CountUsername(rows[1..], username)
  }

  predicate UsernameTaken(rows: seq<UserRow>, username: string) {
    exists i :: 0 <= i < |rows| && rows[i].username == username
  }

  lemma {:induction false} CountUsernamePositiveIff(rows: seq<UserRow>, username: string)
    ensures CountUsername(rows, username) > 0 <==> UsernameTaken(rows, username)
  {
    if rows != [] {
      CountUsernamePositiveIff(rows[1..], username);
      if UsernameTaken(rows[1..], username) {
        var i :| 0 <= i < |rows[1..]| && rows[1..][i].username == username;
        assert rows[i + 1] == rows[1..][i];
      }
      if UsernameTaken(rows, username) && rows[0].username != username {
        var i :| 0 <= i < |rows| && rows[i].username == username;
        assert rows[1..][i - 1] == rows[i];
      }
    }
  }

  /** usernameExists sees inactive accounts that findByUsername does not. */
  lemma InactiveUsernameStillTaken(rows: seq<UserRow>, i: int)
    requires 0 <= i < |rows| && rows[i].isActive != 1
    requires forall j :: 0 <= j < |rows| && j != i ==> rows[j].username != rows[i].username
    ensures UsernameTaken(rows, rows[i].username)
    ensures FindActive(rows, rows[i].username).None?
  {
  }

  /** The table after `UPDATE users SET last_login = stamp WHERE uid = key`. */
  function StampLastLogin(rows: seq<UserRow>, key: int, stamp: string): (stamped: seq<UserRow>)
    ensures |stamped| == |rows|
    ensures forall i :: 0 <= i < |rows| && rows[i].uid != key ==> stamped[i] == rows[i]
    ensures forall i :: 0 <= i < |rows| && rows[i].uid == key ==> stamped[i] == rows[i].(lastLogin := Some(stamp))
  {
    seq(|rows|, i requires 0 <= i < |rows| =>
      if rows[i].uid == key then rows[i].(lastLogin := Some(stamp)) else rows[i])
  }

  /**
   * The table after `update`: the six written columns of the row with that uid
   * take the user's values; created_at and last_login stay.
   */
  function UpdateUserRows(rows: seq<UserRow>, key: int, v: UserView): (updated: seq<UserRow>)
    ensures |updated| == |rows|
    ensures forall i :: 0 <= i < |rows| && rows[i].uid != key ==> updated[i] == rows[i]
    ensures forall i :: 0 <= i < |rows| && rows[i].uid == key ==>
      && updated[i].uid == key
      && updated[i].username == v.username
      && updated[i].passwordHash == v.passwordHash
      && updated[i].firstName == v.firstName
      && updated[i].lastName == v.lastName
      && FlagValue(updated[i].isAdmin) == v.isAdmin
      && FlagValue(updated[i].isActive) == v.isActive
      && updated[i].createdAt == rows[i].createdAt
      && updated[i].lastLogin == rows[i].lastLogin
  {
    seq(|rows|, i requires 0 <= i < |rows| =>
      if rows[i].uid == key then
        rows[i].(username := v.username, passwordHash := v.passwordHash, firstName := v.firstName,
                 lastName := v.lastName, isAdmin := FlagColumn(v.isAdmin), isActive := FlagColumn(v.isActive))
      else rows[i])
  }

  /** The table after `DELETE FROM users WHERE uid = key`. */
  function DeleteUserRows(rows: seq<UserRow>, key: int): seq<UserRow> {
    Filter(rows, (row: UserRow) => row.uid != key)
  }

  // ---------------------------------------------------------------------------
  // ORDER BY username
  // ---------------------------------------------------------------------------

  /** SQLite's BINARY order on text: by character code, a proper prefix first. */
  predicate TextLe(a: string, b: string) {
    a == [] || (b != [] && (a[0] < b[0] || (a[0] == b[0] && TextLe(a[1..], b[1..]))))
  }

  lemma {:induction false} TextLeTotal(a: string, b: string)
    ensures TextLe(a, b) || TextLe(b, a)
  {
    if a != [] && b != [] && a[0] == b[0] {
      TextLeTotal(a[1..], b[1..]);
    }
  }

  predicate SortedByUsername(rows: seq<UserRow>) {
    forall i :: 0 <= i < |rows| - 1 ==> TextLe(rows[i].username, rows[i + 1].username)
  }

  /** Inserts a row before the first row whose username is not smaller. */
  function InsertByUsername(row: UserRow, sorted: seq<UserRow>): (r: seq<UserRow>)
    ensures |r| == |sorted| + 1
    ensures multiset(r) == multiset(sorted) + multiset{row}
    ensures r[0] == row || (sorted != [] && r[0] == sorted[0])
  {
    if sorted == [] || TextLe(row.username, sorted[0].username) then [row] + sorted
    else
      assert sorted == [sorted[0]] + sorted[1..];
      [sorted[0]] + InsertByUsername(row, sorted[1..])
  }

  lemma {:induction false} InsertKeepsSorted(row: UserRow, sorted: seq<UserRow>)
    requires SortedByUsername(sorted)
    ensures SortedByUsername(InsertByUsername(row, sorted))
  {
    if sorted != [] && !TextLe(row.username, sorted[0].username) {
      TextLeTotal(row.username, sorted[0].username);
      assert SortedByUsername(sorted[1..]) by {
        forall i | 0 <= i < |sorted[1..]| - 1
          ensures TextLe(sorted[1..][i].username, sorted[1..][i + 1].username)
        {
          assert sorted[1..][i] == sorted[i + 1] && sorted[1..][i + 1] == sorted[i + 2];
        }
      }
      InsertKeepsSorted(row, sorted[1..]);
    }
  }

  /** The result order of `ORDER BY username`; rows with equal usernames keep table order. */
  function SortByUsername(rows: seq<UserRow>): (sorted: seq<UserRow>)
    ensures |sorted| == |rows|
    ensures multiset(sorted) == multiset(rows)
  {
    if rows == [] then []
    else
      assert rows == [rows[0]] + rows[1..];
      InsertByUsername(rows[0], SortByUsername(rows[1..]))
  }

  /** The rows come back ordered by username. */
  lemma {:induction false} SortByUsernameSorted(rows: seq<UserRow>)
    ensures SortedByUsername(SortByUsername(rows))
  {
    if rows != [] {
      SortByUsernameSorted(rows[1..]);
      InsertKeepsSorted(rows[0], SortByUsername(rows[1..]));
    }
  }

  /** readAllActive returns exactly the active rows, each once, ordered by username. */
  lemma ReadAllActiveContents(rows: seq<UserRow>)
    ensures SortedByUsername(SortByUsername(ActiveRows(rows)))
    ensures forall r :: r in SortByUsername(ActiveRows(rows)) <==> r in rows && r.isActive == 1
    ensures forall r :: multiset(SortByUsername(ActiveRows(rows)))[r] == if r.isActive == 1 then multiset(rows)[r] else 0
  {
    SortByUsernameSorted(ActiveRows(rows));
    forall r ensures multiset(SortByUsername(ActiveRows(rows)))[r] == if r.isActive == 1 then multiset(rows)[r] else 0 {
      FilterMultiset(rows, (row: UserRow) => row.isActive == 1, r);
    }
    forall r ensures r in SortByUsername(ActiveRows(rows)) <==> r in rows && r.isActive == 1 {
      assert r in SortByUsername(ActiveRows(rows)) <==> r in multiset(SortByUsername(ActiveRows(rows)));
    }
  }

  // ---------------------------------------------------------------------------
  // The table and its statements
  // ---------------------------------------------------------------------------

  /** getListFromResultSet: one new User per row of the result, in result order. */
  method UsersFromResultSet(resultSet: seq<UserRow>) returns (users: seq<User>)
    ensures |users| == |resultSet|
    ensures forall i :: 0 <= i < |users| ==> fresh(users[i]) && users[i].View() == RowUser(resultSet[i])
  {
    users := [];
    var n := 0;
    while n < |resultSet|
      invariant 0 <= n <= |resultSet| && |users| == n
      invariant forall i :: 0 <= i < n ==> fresh(users[i]) && users[i].View() == RowUser(resultSet[i])
    {
      var row := resultSet[n];
      var user := new User.FromDatabase(row.uid, row.username, row.passwordHash, row.firstName, row.lastName,
                                        row.isAdmin == 1, row.isActive == 1, row.createdAt, row.lastLogin);
      users := users + [user];
      n := n + 1;
    }
  }

  class UserTable {
    var rows: seq<UserRow>
    /** The next AUTOINCREMENT value of uid. */
    var nextUid: int

    /** Every uid is positive, unique and below the next AUTOINCREMENT value. */
    predicate Valid()
      reads this
    {
      && nextUid >= 1
      && (forall i :: 0 <= i < |rows| ==> 1 <= rows[i].uid < nextUid)
      && DistinctBy(rows, UidOf)
    }

    constructor ()
      ensures Valid() && rows == []
    {
      rows := [];
      nextUid := 1;
    }

    /** create: INSERT of the six columns; created_at takes its column default. */
    method Create(user: User, createdAtDefault: Option<string>, fault: bool) returns (r: Result<()>)
      requires Valid()
      modifies this
      ensures Valid()
      ensures if fault then r == SqlError && rows == old(rows) && nextUid == old(nextUid)
        else r == Ok(()) && rows == old(rows) + [NewUserRow(old(nextUid), user.View(), createdAtDefault)]
             && nextUid == old(nextUid) + 1
    {
      if fault {
        return SqlError;
      }
      rows := rows + [NewUserRow(nextUid, user.View(), createdAtDefault)];
      nextUid := nextUid + 1;
      r := Ok(());
    }

    /** readAll: every user, ordered by username. */
    method ReadAll(fault: bool) returns (r: Result<seq<User>>)
      ensures fault <==> r.SqlError?
      ensures r.Ok? ==> var ordered := SortByUsername(rows);
        |r.value| == |ordered| &&
        forall i :: 0 <= i < |ordered| ==> fresh(r.value[i]) && r.value[i].View() == RowUser(ordered[i])
    {
      if fault {
        return SqlError;
      }
      var users := UsersFromResultSet(SortByUsername(rows));
      r := Ok(users);
    }

    /** readAllActive: the active users, ordered by username. */
    method ReadAllActive(fault: bool) returns (r: Result<seq<User>>)
      ensures fault <==> r.SqlError?
      ensures r.Ok? ==> var ordered := SortByUsername(ActiveRows(rows));
        |r.value| == |ordered| &&
        forall i :: 0 <= i < |ordered| ==> fresh(r.value[i]) && r.value[i].View() == RowUser(ordered[i])
    {
      if fault {
        return SqlError;
      }
      var users := UsersFromResultSet(SortByUsername(ActiveRows(rows)));
      r := Ok(users);
    }

    /** findByUsername: the first active row with that username as a new User, or null. */
    method FindByUsername(username: string, fault: bool) returns (r: Result<User?>)
      ensures fault <==> r.SqlError?
      ensures r.Ok? ==> (r.value == null <==> FindActive(rows, username).None?)
      ensures r.Ok? && r.value != null ==>
        fresh(r.value) && r.value.View() == RowUser(rows[FindActive(rows, username).value])
    {
      if fault {
        return SqlError;
      }
      var found := FindActive(rows, username);
      if found.None? {
        return Ok(null);
      }
      var row := rows[found.value];
      var user := new User.FromDatabase(row.uid, row.username, row.passwordHash, row.firstName, row.lastName,
                                        row.isAdmin == 1, row.isActive == 1, row.createdAt, row.lastLogin);
      r := Ok(user);
    }

    /** updateLastLogin: sets last_login of the row with that uid, and nothing else. */
    method UpdateLastLogin(key: int, stamp: string, fault: bool) returns (r: Result<()>)
      requires Valid()
      modifies this
      ensures Valid() && nextUid == old(nextUid)
      ensures if fault then r == SqlError && rows == old(rows) else r == Ok(()) && rows == StampLastLogin(old(rows), key, stamp)
    {
      if fault {
        return SqlError;
      }
      rows := StampLastLogin(rows, key, stamp);
      r := Ok(());
    }

    /** usernameExists: true when some row, active or not, has that username. */
    method UsernameExists(username: string, fault: bool) returns (r: Result<bool>)
      ensures fault ==> r == SqlError
      ensures !fault ==> r == Ok(UsernameTaken(rows, username))
    {
      if fault {
        return SqlError;
      }
      var count := CountUsername(rows, username);
      CountUsernamePositiveIff(rows, username);
      r := Ok(count > 0);
    }

    /**
     * update, by getUid(): overwrites the six columns of the row with that uid;
     * a user without a uid gives -1, which matches no row.
     */
    method Update(user: User, fault: bool) returns (r: Result<()>)
      requires Valid()
      modifies this
      ensures Valid() && nextUid == old(nextUid)
      ensures if fault then r == SqlError && rows == old(rows)
        else r == Ok(()) && rows == UpdateUserRows(old(rows), user.GetUid(), user.View())
      ensures user.uid.None? ==> rows == old(rows)
    {
      if fault {
        return SqlError;
      }
      var key := user.GetUid();
      rows := UpdateUserRows(rows, key, user.View());
      if user.uid.None? {
        assert rows == old(rows);
      }
      r := Ok(());
    }

    /** deleteById */
    method DeleteById(key: int, fault: bool) returns (r: Result<()>)
      requires Valid()
      modifies this
      ensures Valid() && nextUid == old(nextUid)
      ensures if fault then r == SqlError && rows == old(rows) else r == Ok(()) && rows == DeleteUserRows(old(rows), key)
    {
      if fault {
        return SqlError;
      }
      FilterKeepsDistinct(rows, (row: UserRow) => row.uid != key, UidOf);
      rows := DeleteUserRows(rows, key);
      r := Ok(());
    }
  }

  /** A stamped login is what a later read shows as the user's last login; no other row changes. */
  lemma StampThenRead(rows: seq<UserRow>, i: int, stamp: string)
    requires 0 <= i < |rows|
    ensures RowUser(StampLastLogin(rows, rows[i].uid, stamp)[i]).lastLogin == stamp
    ensures RowUser(StampLastLogin(rows, rows[i].uid, stamp)[i]) == RowUser(rows[i]).(lastLogin := stamp)
  {
  }
}
