/**
 * The caregiver table and the statements CaregiverDao runs on it, as an in-memory
 * sequence of rows. Each statement may raise an SQLException; the `fault`
 * parameter says that it does, and a statement that fails changes nothing.
 *
 * Schema facts: pid is an AUTOINCREMENT key, username is NOT NULL UNIQUE over all
 * rows, locked defaults to 0 and lockedDate to NULL.
 */
module CaregiverDao {
  import opened JavaLang
  import opened JavaTime
  import opened CaregiverModel
  import opened SqlTable

  /** One row of the caregiver table. */
  datatype CaregiverRow = CaregiverRow(
    pid: int,
    username: string,
    firstName: string,
    surname: string,
    dateOfBirth: string,
    telephoneNumber: string,
    passwordHash: string,
    isAdmin: bool,
    locked: bool,
    lockedDate: Option<Date>)

  // ---------------------------------------------------------------------------
  // WHERE and SET semantics
  // ---------------------------------------------------------------------------

  function PidOf(row: CaregiverRow): int {
    row.pid
  }

  function UsernameOf(row: CaregiverRow): string {
    row.username
  }

  /** No two rows share a pid (the primary key) or a username (UNIQUE). */
  predicate UniqueKeys(rows: seq<CaregiverRow>) {
    DistinctBy(rows, PidOf) && DistinctBy(rows, UsernameOf)
  }

  /** A WHERE clause never makes keys collide. */
  lemma FilterKeepsUniqueKeys(rows: seq<CaregiverRow>, keep: CaregiverRow -> bool)
    requires UniqueKeys(rows)
    ensures UniqueKeys(Filter(rows, keep))
  {
    FilterKeepsDistinct(rows, keep, PidOf);
    FilterKeepsDistinct(rows, keep, UsernameOf);
  }

  /** `locked is not true` */
  predicate IsUnlocked(row: CaregiverRow) {
    !row.locked
  }

  /** `locked = 1 AND lockedDate < today`: a lock whose date has passed. */
  predicate IsExpired(row: CaregiverRow, today: Date) {
    row.locked && row.lockedDate.Some? && Before(row.lockedDate.value, today)
  }

  /** The result of `SELECT * FROM caregiver WHERE locked is not true`. */
  function UnlockedRows(rows: seq<CaregiverRow>): seq<CaregiverRow> {
    Filter(rows, IsUnlocked)
  }

  /** The table after `DELETE FROM caregiver WHERE locked = 1 AND lockedDate < today`. */
  function PurgeExpired(rows: seq<CaregiverRow>, today: Date): seq<CaregiverRow> {
    Filter(rows, (row: CaregiverRow) => !IsExpired(row, today))
  }

  /** The table after `DELETE FROM caregiver WHERE pid = key`. */
  function DeleteRows(rows: seq<CaregiverRow>, key: int): seq<CaregiverRow> {
    Filter(rows, (row: CaregiverRow) => row.pid != key)
  }

  /** The table after `UPDATE caregiver SET locked = 1, lockedDate = until WHERE pid = key`. */
  function LockRows(rows: seq<CaregiverRow>, key: int, until: Date): (locked: seq<CaregiverRow>)
    ensures |locked| == |rows|
    ensures forall i :: 0 <= i < |rows| && rows[i].pid != key ==> locked[i] == rows[i]
    ensures forall i :: 0 <= i < |rows| && rows[i].pid == key ==>
      locked[i] == rows[i].(locked := true, lockedDate := Some(until))
  {
    seq(|rows|, i requires 0 <= i < |rows| =>
      if rows[i].pid == key then rows[i].(locked := true, lockedDate := Some(until)) else rows[i])
  }

  /**
   * The table after the UPDATE of `update`: the seven written columns of the row
   * with the caregiver's pid take the caregiver's values; lock columns stay.
   */
  function UpdateRows(rows: seq<CaregiverRow>, key: int, v: CaregiverView): (updated: seq<CaregiverRow>)
    ensures |updated| == |rows|
    ensures forall i :: 0 <= i < |rows| && rows[i].pid != key ==> updated[i] == rows[i]
    ensures forall i :: 0 <= i < |rows| && rows[i].pid == key ==>
      && updated[i].pid == key
      && updated[i].username == v.username
      && updated[i].firstName == v.firstName
      && updated[i].surname == v.surname
      && updated[i].dateOfBirth == v.dateOfBirth
      && updated[i].telephoneNumber == v.telephoneNumber
      && updated[i].passwordHash == v.passwordHash
      && updated[i].isAdmin == v.isAdmin
      && updated[i].locked == rows[i].locked
      && updated[i].lockedDate == rows[i].lockedDate
  {
    seq(|rows|, i requires 0 <= i < |rows| =>
      if rows[i].pid == key then
        rows[i].(username := v.username, firstName := v.firstName, surname := v.surname,
                 dateOfBirth := v.dateOfBirth, telephoneNumber := v.telephoneNumber,
                 passwordHash := v.passwordHash, isAdmin := v.isAdmin)
      else rows[i])
  }

  /**
   * When `UPDATE caregiver SET username = ... WHERE pid = key` breaks UNIQUE: some
   * row has the pid, so the statement writes, and another row already holds the
   * new username. With no row to write, the constraint is never tested.
   */
  predicate UpdateClashes(rows: seq<CaregiverRow>, key: int, username: string) {
    && (exists j :: 0 <= j < |rows| && rows[j].pid == key)
    && (exists i :: 0 <= i < |rows| && rows[i].pid != key && rows[i].username == username)
  }

  /** An UPDATE whose WHERE matches no row succeeds and leaves the table as it was. */
  lemma UpdateMissingPidChangesNothing(rows: seq<CaregiverRow>, key: int, v: CaregiverView)
    requires forall j :: 0 <= j < |rows| ==> rows[j].pid != key
    ensures !UpdateClashes(rows, key, v.username)
    ensures UpdateRows(rows, key, v) == rows
  {
    var updated := UpdateRows(rows, key, v);
    assert forall i :: 0 <= i < |rows| ==> updated[i] == rows[i];
  }

  /** The row INSERT writes: the seven columns of `create`, and the defaults for the lock columns. */
  function NewRow(pid: int, v: CaregiverView): (row: CaregiverRow)
    ensures IsUnlocked(row) && row.lockedDate.None?
  {
    CaregiverRow(pid, v.username, v.firstName, v.surname, v.dateOfBirth, v.telephoneNumber,
                 v.passwordHash, v.isAdmin, false, None)
  }

  /** getInstanceFromResultSet: the lock columns are not read. */
  function RowView(row: CaregiverRow): (v: CaregiverView)
    ensures v.pid == Some(row.pid) && !v.locked && v.lockedDate.None?
  {
    CaregiverView(Some(row.pid), row.username, row.firstName, row.surname, row.dateOfBirth,
                  row.telephoneNumber, row.passwordHash, row.isAdmin, false, None)
  }

  /** The UNIQUE constraint on username: some row, locked or not, already has it. */
  predicate UsernameTaken(rows: seq<CaregiverRow>, username: string) {
    exists i :: 0 <= i < |rows| && rows[i].username == username
  }

  /** What usernameExists reports: some unlocked row has that username. */
  predicate UsernameInUse(rows: seq<CaregiverRow>, username: string) {
    exists i :: 0 <= i < |rows| && rows[i].username == username && IsUnlocked(rows[i])
  }

  /** `SELECT COUNT(*) FROM caregiver WHERE username = ? AND locked is not true` */
  function CountInUse(rows: seq<CaregiverRow>, username: string): nat {
    if rows == [] then 0
    else (if rows[0].username == username && IsUnlocked(rows[0]) then 1 else 0) + CountInUse(rows[1..], username)
  }

  lemma {:induction false} CountInUsePositiveIff(rows: seq<CaregiverRow>, username: string)
    ensures CountInUse(rows, username) > 0 <==> UsernameInUse(rows, username)
  {
    if rows != [] {
      CountInUsePositiveIff(rows[1..], username);
      if UsernameInUse(rows[1..], username) {
        var i :| 0 <= i < |rows[1..]| && rows[1..][i].username == username && IsUnlocked(rows[1..][i]);
        assert rows[i + 1] == rows[1..][i];
      }
      if UsernameInUse(rows, username) && !(rows[0].username == username && IsUnlocked(rows[0])) {
        var i :| 0 <= i < |rows| && rows[i].username == username && IsUnlocked(rows[i]);
        assert rows[1..][i - 1] == rows[i];
      }
    }
  }

  // ---------------------------------------------------------------------------
  // Properties of the statements
  // ---------------------------------------------------------------------------

  /** The purge removes exactly the expired locks and keeps the remaining rows in order. */
  lemma PurgeRemovesExactlyExpired(rows: seq<CaregiverRow>, today: Date)
    ensures forall r :: r in PurgeExpired(rows, today) <==> r in rows && !IsExpired(r, today)
  {
  }

  /** A second purge on the same date removes nothing. */
  lemma PurgeIdempotent(rows: seq<CaregiverRow>, today: Date)
    ensures PurgeExpired(PurgeExpired(rows, today), today) == PurgeExpired(rows, today)
  {
    FilterIdempotent(rows, (row: CaregiverRow) => !IsExpired(row, today));
  }

  /**
   * A caregiver locked today (until today + 10 years) survives a purge run today,
   * and so does every other row the purge would have kept before the lock.
   */
  lemma LockedTodaySurvivesPurge(rows: seq<CaregiverRow>, key: int, today: Date)
    requires IsValidDate(today)
    ensures var locked := LockRows(rows, key, PlusYears(today, 10));
      forall i :: 0 <= i < |rows| && rows[i].pid == key ==> locked[i] in PurgeExpired(locked, today)
  {
    PlusYearsIsLater(today, 10);
    var until := PlusYears(today, 10);
    var locked := LockRows(rows, key, until);
    forall i | 0 <= i < |rows| && rows[i].pid == key
      ensures locked[i] in PurgeExpired(locked, today)
    {
      assert !IsExpired(locked[i], today);
    }
  }

  /** Locking never changes which rows the purge of a given day removes from the other caregivers. */
  lemma LockLeavesOthersToPurge(rows: seq<CaregiverRow>, key: int, until: Date, today: Date)
    ensures forall r :: r in rows && r.pid != key ==>
      (r in PurgeExpired(LockRows(rows, key, until), today) <==> !IsExpired(r, today))
  {
    var locked := LockRows(rows, key, until);
    forall r | r in rows && r.pid != key
      ensures r in locked
    {
      var i :| 0 <= i < |rows| && rows[i] == r;
      assert locked[i] == r;
    }
  }

  /** An update never touches the lock columns, of any row. */
  lemma UpdateKeepsLockColumns(rows: seq<CaregiverRow>, key: int, v: CaregiverView)
    ensures forall i :: 0 <= i < |rows| ==>
      UpdateRows(rows, key, v)[i].locked == rows[i].locked
      && UpdateRows(rows, key, v)[i].lockedDate == rows[i].lockedDate
  {
  }

  /** An update cannot lift a lock: whatever was locked is still locked. */
  lemma UpdateKeepsUnlockedRows(rows: seq<CaregiverRow>, key: int, v: CaregiverView)
    ensures |UnlockedRows(UpdateRows(rows, key, v))| == |UnlockedRows(rows)|
  {
    UpdateKeepsUnlockedCount(rows, key, v);
  }

  lemma {:induction false} UpdateKeepsUnlockedCount(rows: seq<CaregiverRow>, key: int, v: CaregiverView)
    ensures |Filter(UpdateRows(rows, key, v), IsUnlocked)| == |Filter(rows, IsUnlocked)|
  {
    if rows != [] {
      UpdateKeepsUnlockedCount(rows[1..], key, v);
      assert UpdateRows(rows, key, v)[1..] == UpdateRows(rows[1..], key, v);
    }
  }

  /**
   * Once a caregiver is locked, usernameExists no longer sees the username, yet the
   * UNIQUE constraint still does: creating an account with it fails.
   */
  lemma LockHidesUsername(rows: seq<CaregiverRow>, key: int, until: Date, i: int)
    requires UniqueKeys(rows)
    requires 0 <= i < |rows| && rows[i].pid == key
    ensures var locked := LockRows(rows, key, until);
      !UsernameInUse(locked, rows[i].username) && UsernameTaken(locked, rows[i].username)
  {
    var locked := LockRows(rows, key, until);
    assert locked[i].username == rows[i].username;
  }

  /** A username is in use only if it is taken: usernameExists is the weaker check. */
  lemma InUseImpliesTaken(rows: seq<CaregiverRow>, username: string)
    requires UsernameInUse(rows, username)
    ensures UsernameTaken(rows, username)
  {
  }

  // ---------------------------------------------------------------------------
  // The table and its statements
  // ---------------------------------------------------------------------------

  class CaregiverTable {
    var rows: seq<CaregiverRow>
    /** The next AUTOINCREMENT value of pid. */
    var nextPid: int

    /** Keys are unique and below the next AUTOINCREMENT value. */
    predicate Valid()
      reads this
    {
      UniqueKeys(rows) && forall i :: 0 <= i < |rows| ==> rows[i].pid < nextPid
    }

    constructor ()
      ensures Valid() && rows == []
    {
      rows := [];
      nextPid := 1;
    }

    /** create: INSERT of the seven columns; fails on a duplicate username, locked row or not. */
    method Create(caregiver: Caregiver, fault: bool) returns (r: Result<()>)
      requires Valid()
      modifies this
      ensures Valid()
      ensures if fault || UsernameTaken(old(rows), caregiver.username)
        then r == SqlError && rows == old(rows) && nextPid == old(nextPid)
        else r == Ok(()) && rows == old(rows) + [NewRow(old(nextPid), caregiver.View())] && nextPid == old(nextPid) + 1
    {
      if fault || UsernameTaken(rows, caregiver.username) {
        return SqlError;
      }
      rows := rows + [NewRow(nextPid, caregiver.View())];
      nextPid := nextPid + 1;
      r := Ok(());
    }

    /**
     * readAll: one Caregiver per unlocked row, in table order, each built by the
     * database constructor (so locked is false and lockedDate null in memory).
     */
    method ReadAll(fault: bool) returns (r: Result<seq<Caregiver>>)
      ensures fault <==> r.SqlError?
      ensures r.Ok? ==>
        && |r.value| == |UnlockedRows(rows)|
        && forall i :: 0 <= i < |r.value| ==> fresh(r.value[i]) && r.value[i].View() == RowView(UnlockedRows(rows)[i])
    {
      if fault {
        return SqlError;
      }
      var resultSet := UnlockedRows(rows);
      var caregivers: seq<Caregiver> := [];
      var n := 0;
      while n < |resultSet|
        invariant 0 <= n <= |resultSet| && |caregivers| == n
        invariant forall i :: 0 <= i < n ==> fresh(caregivers[i]) && caregivers[i].View() == RowView(resultSet[i])
      {
        var row := resultSet[n];
        var c := new Caregiver.FromDatabase(row.pid, row.username, row.firstName, row.surname,
                                            row.dateOfBirth, row.telephoneNumber, row.passwordHash, row.isAdmin);
        caregivers := caregivers + [c];
        n := n + 1;
      }
      r := Ok(caregivers);
    }

    /**
     * update, by the caregiver's pid: overwrites the seven columns and leaves the
     * lock columns; fails when the row is there and another row already has the
     * new username. With no row of that pid nothing is written and nothing fails.
     */
    method Update(caregiver: Caregiver, fault: bool) returns (r: Result<()>)
      requires Valid()
      requires caregiver.pid.Some?
      modifies this
      ensures Valid() && nextPid == old(nextPid)
      ensures if fault || UpdateClashes(old(rows), caregiver.pid.value, caregiver.username) then
          r == SqlError && rows == old(rows)
        else r == Ok(()) && rows == UpdateRows(old(rows), caregiver.pid.value, caregiver.View())
    {
      var key := caregiver.GetPid();
      if fault || UpdateClashes(rows, key, caregiver.username) {
        return SqlError;
      }
      rows := UpdateRows(rows, key, caregiver.View());
      r := Ok(());
    }

    /** deleteById */
    method DeleteById(key: int, fault: bool) returns (r: Result<()>)
      requires Valid()
      modifies this
      ensures Valid() && nextPid == old(nextPid)
      ensures if fault then r == SqlError && rows == old(rows) else r == Ok(()) && rows == DeleteRows(old(rows), key)
    {
      if fault {
        return SqlError;
      }
      FilterKeepsUniqueKeys(rows, (row: CaregiverRow) => row.pid != key);
      rows := DeleteRows(rows, key);
      r := Ok(());
    }

    /** lockCaregiver: locks the row with that pid until today + 10 years. */
    method LockCaregiver(key: int, today: Date, fault: bool) returns (r: Result<()>)
      requires Valid() && IsValidDate(today)
      modifies this
      ensures Valid() && nextPid == old(nextPid)
      ensures if fault then r == SqlError && rows == old(rows)
        else r == Ok(()) && rows == LockRows(old(rows), key, PlusYears(today, 10))
    {
      if fault {
        return SqlError;
      }
      var lockedUntil := PlusYears(today, 10);
      rows := LockRows(rows, key, lockedUntil);
      r := Ok(());
    }

    /** deleteExpiredCaregiverLocks: deletes every lock that ran out before today. */
    method DeleteExpiredCaregiverLocks(today: Date, fault: bool) returns (r: Result<()>)
      requires Valid()
      modifies this
      ensures Valid() && nextPid == old(nextPid)
      ensures if fault then r == SqlError && rows == old(rows) else r == Ok(()) && rows == PurgeExpired(old(rows), today)
    {
      if fault {
        return SqlError;
      }
      FilterKeepsUniqueKeys(rows, (row: CaregiverRow) => !IsExpired(row, today));
      rows := PurgeExpired(rows, today);
      r := Ok(());
    }

    /** usernameExists: true when the COUNT over unlocked rows with that username is positive. */
    method UsernameExists(username: string, fault: bool) returns (r: Result<bool>)
      ensures fault ==> r == SqlError
      ensures !fault ==> r == Ok(UsernameInUse(rows, username))
    {
      if fault {
        return SqlError;
      }
      var count := CountInUse(rows, username);
      CountInUsePositiveIff(rows, username);
      r := Ok(count > 0);
    }
  }
}
