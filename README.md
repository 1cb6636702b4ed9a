# NHPlus accounts, authentication and treatment rules in Dafny

NHPlus is a JavaFX desktop application for a nursing home. This project models
the part of it that holds rules, not screens:

- the password policy, its feedback text and the SHA-256 hex digest (`PasswordUtil`);
- the session slot holding the logged-in caregiver (`Session`);
- the authentication decisions of `LoginUserService.authenticate` and of the login
  screen's background check;
- the row semantics of the `caregiver` and `users` tables behind `CaregiverDao` and
  `UserDao`;
- the records `Caregiver`, `User`, `CareGiver` and `Treatment`;
- the form and selection rules of the admin panel, the new-treatment dialog and the
  treatment overview.

Each Java file of that core is one Dafny module:

| Dafny file | module | Java file |
|---|---|---|
| java_lang.dfy | JavaLang | `String.trim`, `isBlank`, the regex classes `\s`, `\d`, `.` |
| java_time.dfy | JavaTime | `LocalDate` order and `plusYears`, `LocalTime.isAfter` |
| password_util.dfy | PasswordUtil | utils/PasswordUtil.java |
| session.dfy | SessionService | service/Session.java |
| caregiver_model.dfy | CaregiverModel | model/Caregiver.java |
| user_model.dfy | UserModel | model/User.java |
| treatment.dfy | TreatmentModel | model/Treatment.java |
| care_giver.dfy | CareGiverModel | model/CareGiver.java |
| sql_table.dfy | SqlTable | the WHERE filter shared by both DAOs |
| caregiver_dao.dfy | CaregiverDao | datastorage/CaregiverDao.java |
| user_dao.dfy | UserDao | datastorage/UserDao.java |
| login_user_service.dfy | LoginUserService | service/LoginUserService.java |
| login_controller.dfy | LoginController | controller/LoginController.java |
| new_treatment.dfy | NewTreatmentController | controller/NewTreatmentController.java |
| all_treatment.dfy | AllTreatmentController | controller/AllTreatmentController.java |
| admin_panel.dfy | AdminPanel | controller/AdminPanelController.java |

The model follows these conventions.

- **Null and errors.** Java `null` is `Option`. A JDBC call that may raise an
  `SQLException` takes a `fault: bool` parameter saying whether it raises, and
  returns `Result<T> = Ok(value) | SqlError`.
- **Mutable objects.** Objects whose setters change them (`Caregiver`, `User`,
  `Treatment`, `CareGiver`, `Session`) are classes. Every setter states the whole
  new state through a `View()` record.
- **Tables.** A table is a class holding `rows: seq<Row>`. Each DAO method is
  proved to leave `rows == F(old(rows))`, where `F` is a function stating the
  WHERE/SET semantics. The lemmas are proved about `F`.
- **External pieces become parameters.**
  - SHA-256 of `password.getBytes()` is `sha256: Hasher`.
  - The clock is a `today` or `timestamp` parameter.
  - `DateConverter`'s parsing is a partial function `parse`/`parseTime`, and its
    formatting is `formatDate`.

Several methods the code calls are not defined in `PasswordUtil.java` or
`Session.java`. The model takes them as follows:

- `PasswordUtil.generatePassword` is `hashPassword`;
- `PasswordUtil.checkPassword` is `verifyPassword`;
- `PasswordUtil.getPasswordValidationError` returns null exactly when `isValidPassword` holds;
- `Session.login(user)`, used by the login screen, hands the user to the session.
  It is modelled as the screen's `sessionUser` slot.

## Model

Source paths are relative to the repository root.

| member | source | states |
|---|---|---|
| JavaLang.TrimEmptyIff | src/main/java/de/hitec/nhplus/controller/AdminPanelController.java:226-256 | `s.trim().isEmpty()`, the controllers' "missing" test, holds exactly when every char of s is at most U+0020 |
| JavaLang.TrimIdempotent | src/main/java/de/hitec/nhplus/controller/AdminPanelController.java:272 | trimming an already trimmed username changes nothing |
| JavaTime.PlusYears | src/main/java/de/hitec/nhplus/datastorage/CaregiverDao.java:191 | `plusYears` keeps month and day, except that 29 February becomes 28 February in a non-leap target year; the result is a valid date |
| JavaTime.PlusYearsIsLater | src/main/java/de/hitec/nhplus/datastorage/CaregiverDao.java:191 | a lock date n > 0 years ahead lies strictly after today |
| PasswordUtil.IsValidPasswordIff | src/main/java/de/hitec/nhplus/utils/PasswordUtil.java:13-15 | a password is valid exactly when it has at least 8 chars, all from A-Z a-z 0-9 `@$!%*#?&+`, with at least one letter, one digit and one special char |
| PasswordUtil.ForeignCharRejects | src/main/java/de/hitec/nhplus/utils/PasswordUtil.java:14 | one char outside the whitelist (space, `-`, umlaut) makes a password invalid |
| PasswordUtil.SeededUserPasswordRejected | src/main/java/de/hitec/nhplus/utils/SetUpDB.java:207 | the seeded demo password `User123-` fails `isValidPassword` |
| PasswordUtil.SeededAdminPasswordAccepted | src/main/java/de/hitec/nhplus/utils/SetUpDB.java:203 | the seeded admin password `Admin123+` passes `isValidPassword` |
| PasswordUtil.MatchesContainingIff | src/main/java/de/hitec/nhplus/utils/PasswordUtil.java:83-91 | `p.matches(".*[k].*")` holds exactly when p has no line terminator and contains a char of class k |
| PasswordUtil.CheckPasswordRequirements | src/main/java/de/hitec/nhplus/utils/PasswordUtil.java:72-96 | the step-by-step builder produces exactly the feedback text `Feedback(password)` |
| PasswordUtil.IssuesInOrder | src/main/java/de/hitec/nhplus/utils/PasswordUtil.java:79-93 | the issue text is the messages of the length, letter, digit and special rules, in that order, each present exactly when its rule fails |
| PasswordUtil.FeedbackForEmpty | src/main/java/de/hitec/nhplus/utils/PasswordUtil.java:73-75 | null and "" get "Passwort darf nicht leer sein" |
| PasswordUtil.FeedbackOkIff | src/main/java/de/hitec/nhplus/utils/PasswordUtil.java:95 | for a non-empty password the feedback is "OK" exactly when no rule fails |
| PasswordUtil.FeedbackListsFailures | src/main/java/de/hitec/nhplus/utils/PasswordUtil.java:95 | when a rule fails, the feedback is "Fehlt: " followed by the failing rules' messages without the final space |
| PasswordUtil.MessagesEmptyIff | src/main/java/de/hitec/nhplus/utils/PasswordUtil.java:79-95 | the issue text is empty exactly when no rule is listed |
| PasswordUtil.ValidPasswordGetsOk | src/main/java/de/hitec/nhplus/utils/PasswordUtil.java:55-57 | every password that `isValidPassword` accepts gets "OK" feedback |
| PasswordUtil.OkFeedbackForInvalidPassword | src/main/java/de/hitec/nhplus/utils/PasswordUtil.java:79-93 | the converse fails: "Pass word1!" gets "OK" although it is invalid, because the feedback builder has no whitelist |
| PasswordUtil.HashPassword | src/main/java/de/hitec/nhplus/utils/PasswordUtil.java:22-38 | the hex loop returns `Hex(sha256(password))`: two lower-case, zero-padded digits per digest byte, in digest order |
| PasswordUtil.Unsigned | src/main/java/de/hitec/nhplus/utils/PasswordUtil.java:28 | `0xff & b` lies in 0..255 and agrees with b modulo 256 |
| PasswordUtil.ByteHexDigits | src/main/java/de/hitec/nhplus/utils/PasswordUtil.java:28-32 | each byte becomes its high nibble's hex digit, then its low nibble's |
| PasswordUtil.ByteHexInjective | src/main/java/de/hitec/nhplus/utils/PasswordUtil.java:28-32 | two bytes with the same two-digit text are the same byte |
| PasswordUtil.HexLength | src/main/java/de/hitec/nhplus/utils/PasswordUtil.java:27-33 | the hex text is twice as long as the digest |
| PasswordUtil.HexAlphabet | src/main/java/de/hitec/nhplus/utils/PasswordUtil.java:27-33 | only `0-9a-f` appear in the hex text |
| PasswordUtil.HexInjective | src/main/java/de/hitec/nhplus/utils/PasswordUtil.java:27-33 | distinct digests give distinct hex texts |
| PasswordUtil.PasswordHashShape | src/main/java/de/hitec/nhplus/utils/PasswordUtil.java:22-38 | a 32-byte SHA-256 digest gives a 64-char lower-case hex hash |
| PasswordUtil.VerifyAfterHash | src/main/java/de/hitec/nhplus/utils/PasswordUtil.java:46-48 | a password always verifies against its own hash |
| PasswordUtil.VerifyRejectsOtherDigest | src/main/java/de/hitec/nhplus/utils/PasswordUtil.java:46-48 | a password with a different digest does not verify against that hash |
| SessionService.Session.SetLoggedInCaregiver | src/main/java/de/hitec/nhplus/service/Session.java:49 | the slot is overwritten: the getter returns the new caregiver, and the session is logged in exactly when that caregiver is non-null |
| SessionService.Session.Logout | src/main/java/de/hitec/nhplus/service/Session.java:56 | the slot is cleared: not logged in and not admin |
| SessionService.Session.IsCurrentUserAdmin | src/main/java/de/hitec/nhplus/service/Session.java:74-76 | admin exactly when logged in and the logged-in caregiver is an admin |
| SessionService.SessionHolder.GetInstance | src/main/java/de/hitec/nhplus/service/Session.java:28-33 | the first call creates a session with nobody logged in; every later call returns that same object |
| SessionService.SessionHolder.constructor | src/main/java/de/hitec/nhplus/service/Session.java:12 | the static instance slot starts out null |
| SessionService.Session.constructor | src/main/java/de/hitec/nhplus/service/Session.java:20 | a new session has nobody logged in |
| CaregiverModel.Caregiver.NewAccount | src/main/java/de/hitec/nhplus/model/Caregiver.java:48-58 | the new-account constructor stores the hash of the password, never the plaintext; there is no pid |
| CaregiverModel.Caregiver.FromDatabase | src/main/java/de/hitec/nhplus/model/Caregiver.java:73-82 | the database constructor stores pid and hash verbatim, unlocked, with no lock date |
| CaregiverModel.NewAccountHashVerifies | src/main/java/de/hitec/nhplus/model/Caregiver.java:54 | the stored hash verifies against the password given and is 64 chars long |
| CaregiverModel.Caregiver.SetDateOfBirth | src/main/java/de/hitec/nhplus/model/Caregiver.java:101-103 | changes only the date of birth |
| CaregiverModel.Caregiver.SetPasswordHash | src/main/java/de/hitec/nhplus/model/Caregiver.java:113-115 | changes only the password hash |
| CaregiverModel.Caregiver.SetTelephoneNumber | src/main/java/de/hitec/nhplus/model/Caregiver.java:125-127 | changes only the phone number |
| CaregiverModel.Caregiver.SetIsAdmin | src/main/java/de/hitec/nhplus/model/Caregiver.java:137-139 | changes only the admin flag |
| CaregiverModel.Caregiver.SetUsername | src/main/java/de/hitec/nhplus/model/Caregiver.java:149-151 | changes only the username |
| CaregiverModel.Caregiver.SetLocked | src/main/java/de/hitec/nhplus/model/Caregiver.java:157-159 | changes only the locked flag |
| CaregiverModel.Caregiver.SetLockedDate | src/main/java/de/hitec/nhplus/model/Caregiver.java:165-167 | changes only the lock date |
| CaregiverModel.Caregiver.SetFirstName | src/main/java/de/hitec/nhplus/model/Person.java:27-29 | changes only the first name |
| CaregiverModel.Caregiver.SetSurname | src/main/java/de/hitec/nhplus/model/Person.java:39-41 | changes only the surname |
| UserModel.User.New | src/main/java/de/hitec/nhplus/model/User.java:24-33 | a new user has no uid, and createdAt and lastLogin are "" |
| UserModel.User.FromDatabase | src/main/java/de/hitec/nhplus/model/User.java:38-49 | the full constructor keeps the uid and reads a null createdAt or lastLogin as "" |
| UserModel.User.GetUid | src/main/java/de/hitec/nhplus/model/User.java:52-54 | -1 for a user without a uid, else the stored uid |
| UserModel.User.GetFullName | src/main/java/de/hitec/nhplus/model/User.java:153-155 | first name, one space, last name |
| UserModel.User.GetRole | src/main/java/de/hitec/nhplus/model/User.java:160-162 | "Administrator" exactly for admins, "Pfleger" exactly for the others |
| UserModel.User.SetUsername | src/main/java/de/hitec/nhplus/model/User.java:122-124 | changes only the username |
| UserModel.User.SetPasswordHash | src/main/java/de/hitec/nhplus/model/User.java:126-128 | changes only the hash |
| UserModel.User.SetFirstName | src/main/java/de/hitec/nhplus/model/User.java:130-132 | changes only the first name |
| UserModel.User.SetLastName | src/main/java/de/hitec/nhplus/model/User.java:134-136 | changes only the last name |
| UserModel.User.SetAdmin | src/main/java/de/hitec/nhplus/model/User.java:138-140 | changes only the admin flag |
| UserModel.User.SetActive | src/main/java/de/hitec/nhplus/model/User.java:142-144 | changes only the active flag |
| UserModel.User.SetLastLogin | src/main/java/de/hitec/nhplus/model/User.java:146-148 | changes only lastLogin, storing "" for null |
| TreatmentModel.Treatment.New | src/main/java/de/hitec/nhplus/model/Treatment.java:30-39 | tid is 0; pid, cid and the other fields are as given |
| TreatmentModel.Treatment.Stored | src/main/java/de/hitec/nhplus/model/Treatment.java:53-63 | tid, pid, cid and the other fields are as given |
| TreatmentModel.Treatment.SetDate | src/main/java/de/hitec/nhplus/model/Treatment.java:124-126 | a text that parses replaces only the date; a text that does not parse changes nothing |
| TreatmentModel.Treatment.SetBegin | src/main/java/de/hitec/nhplus/model/Treatment.java:133-135 | a text that parses replaces only the begin time; a text that does not parse changes nothing |
| TreatmentModel.Treatment.SetEnd | src/main/java/de/hitec/nhplus/model/Treatment.java:142-144 | a text that parses replaces only the end time; a text that does not parse changes nothing |
| TreatmentModel.Treatment.SetDescription | src/main/java/de/hitec/nhplus/model/Treatment.java:160-162 | changes only the description |
| TreatmentModel.Treatment.SetRemarks | src/main/java/de/hitec/nhplus/model/Treatment.java:178-180 | changes only the remarks |
| CareGiverModel.CareGiver.New | src/main/java/de/hitec/nhplus/model/CareGiver.java:25-28 | no cid, the given names and phone, an empty treatment list |
| CareGiverModel.CareGiver.Stored | src/main/java/de/hitec/nhplus/model/CareGiver.java:39-43 | the given cid, names and phone, an empty treatment list |
| CareGiverModel.CareGiver.SetTelephoneNumber | src/main/java/de/hitec/nhplus/model/CareGiver.java:61-63 | changes only the phone number |
| CareGiverModel.CareGiver.Add | src/main/java/de/hitec/nhplus/model/CareGiver.java:71-77 | returns false and keeps the list for an object already in it; otherwise appends it and returns true; the list stays duplicate-free |
| SqlTable.Filter | src/main/java/de/hitec/nhplus/datastorage/CaregiverDao.java:104 | a WHERE clause keeps exactly the rows that satisfy it, never more rows than the table has |
| SqlTable.FilterIdempotent | src/main/java/de/hitec/nhplus/datastorage/CaregiverDao.java:207-209 | running the same WHERE twice keeps what running it once keeps |
| SqlTable.FilterMultiset | src/main/java/de/hitec/nhplus/datastorage/UserDao.java:213 | a WHERE keeps every copy of a matching row and no copy of another |
| SqlTable.FilterKeepsDistinct | src/main/java/de/hitec/nhplus/datastorage/CaregiverDao.java:206-212 | deleting rows keeps a key distinct |
| CaregiverDao.FilterKeepsUniqueKeys | src/main/java/de/hitec/nhplus/datastorage/CaregiverDao.java:206-212 | deleting rows keeps pids and usernames unique |
| CaregiverDao.LockRows | src/main/java/de/hitec/nhplus/datastorage/CaregiverDao.java:190-198 | the lock sets `locked = 1` and the lock date on the rows with that pid only; every other row is unchanged |
| CaregiverDao.UpdateRows | src/main/java/de/hitec/nhplus/datastorage/CaregiverDao.java:135-156 | the update overwrites the named columns of the rows with that pid only, keeping pid, locked and lockedDate |
| CaregiverDao.NewRow | src/main/java/de/hitec/nhplus/datastorage/CaregiverDao.java:32-57 | a created row is unlocked with no lock date |
| CaregiverDao.RowView | src/main/java/de/hitec/nhplus/datastorage/CaregiverDao.java:81-98 | a row read back has its pid, locked false and no lock date in memory |
| CaregiverDao.CountInUsePositiveIff | src/main/java/de/hitec/nhplus/datastorage/CaregiverDao.java:225-233 | `COUNT(*) > 0` holds exactly when some unlocked row has that username |
| CaregiverDao.PurgeRemovesExactlyExpired | src/main/java/de/hitec/nhplus/datastorage/CaregiverDao.java:206-212 | the purge keeps exactly the rows that are not locked with a lock date before today |
| CaregiverDao.PurgeIdempotent | src/main/java/de/hitec/nhplus/datastorage/CaregiverDao.java:206-212 | a second purge on the same date removes nothing |
| CaregiverDao.LockedTodaySurvivesPurge | src/main/java/de/hitec/nhplus/datastorage/CaregiverDao.java:191 | a row locked today is not purged by a sweep on the same date |
| CaregiverDao.LockLeavesOthersToPurge | src/main/java/de/hitec/nhplus/datastorage/CaregiverDao.java:190-198 | every row with another pid is still in the table after a lock |
| CaregiverDao.UpdateKeepsLockColumns | src/main/java/de/hitec/nhplus/datastorage/CaregiverDao.java:137-156 | an update never changes pid, locked or lockedDate of any row |
| CaregiverDao.UpdateKeepsUnlockedRows | src/main/java/de/hitec/nhplus/datastorage/CaregiverDao.java:135-168 | an update leaves the number of rows that `readAll` returns unchanged |
| CaregiverDao.UpdateKeepsUnlockedCount | src/main/java/de/hitec/nhplus/datastorage/CaregiverDao.java:135-168 | an update leaves the number of unlocked rows unchanged |
| CaregiverDao.LockHidesUsername | src/main/java/de/hitec/nhplus/datastorage/CaregiverDao.java:220-245 | once a caregiver is locked, `usernameExists` no longer finds their username, although the row remains |
| CaregiverDao.InUseImpliesTaken | src/main/java/de/hitec/nhplus/datastorage/CaregiverDao.java:225-233 | a username in use by an unlocked row is also taken under the UNIQUE constraint over all rows |
| CaregiverDao.CaregiverTable.constructor | src/main/java/de/hitec/nhplus/utils/SetUpDB.java:123-134 | a freshly created caregiver table is empty and meets the key invariant |
| CaregiverDao.CaregiverTable.Create | src/main/java/de/hitec/nhplus/datastorage/CaregiverDao.java:32-57 | an INSERT appends one unlocked row with the next pid, unless the username is taken anywhere or the statement fails |
| CaregiverDao.CaregiverTable.ReadAll | src/main/java/de/hitec/nhplus/datastorage/CaregiverDao.java:100-133 | returns one new caregiver per unlocked row, in table order, each equal to the row's view |
| CaregiverDao.CaregiverTable.Update | src/main/java/de/hitec/nhplus/datastorage/CaregiverDao.java:135-168 | the rows become `UpdateRows(old, pid, caregiver)`; it fails, changing nothing, when the statement fails or when a row with the pid exists and another row already holds the new username. With no row of that pid it succeeds and writes nothing |
| CaregiverDao.UpdateMissingPidChangesNothing | src/main/java/de/hitec/nhplus/datastorage/CaregiverDao.java:137-146 | an UPDATE whose `WHERE pid = ?` matches no row cannot break UNIQUE and leaves the table unchanged |
| CaregiverDao.CaregiverTable.DeleteById | src/main/java/de/hitec/nhplus/datastorage/CaregiverDao.java:170-188 | removes exactly the rows with that pid |
| CaregiverDao.CaregiverTable.LockCaregiver | src/main/java/de/hitec/nhplus/datastorage/CaregiverDao.java:190-204 | the rows become `LockRows(old, pid, today + 10 years)` |
| CaregiverDao.CaregiverTable.DeleteExpiredCaregiverLocks | src/main/java/de/hitec/nhplus/datastorage/CaregiverDao.java:206-218 | the rows become `PurgeExpired(old, today)` |
| CaregiverDao.CaregiverTable.UsernameExists | src/main/java/de/hitec/nhplus/datastorage/CaregiverDao.java:220-245 | true exactly when some unlocked row has the username; an SQLException is rethrown |
| UserDao.FlagColumn | src/main/java/de/hitec/nhplus/datastorage/UserDao.java:28-29 | a flag is written as 1 or 0 and reads back as the same flag |
| UserDao.CreateReadRoundTrip | src/main/java/de/hitec/nhplus/datastorage/UserDao.java:50-63 | a created row reads back as the user written: username, hash, names and both flags |
| UserDao.FindActive | src/main/java/de/hitec/nhplus/datastorage/UserDao.java:138-161 | the first active row with that username, or none exactly when no active row has it |
| UserDao.InactiveNeverFound | src/main/java/de/hitec/nhplus/datastorage/UserDao.java:142 | an inactive row is never the one found |
| UserDao.CountUsernamePositiveIff | src/main/java/de/hitec/nhplus/datastorage/UserDao.java:184-207 | `COUNT(*) > 0` holds exactly when some row, active or not, has that username |
| UserDao.InactiveUsernameStillTaken | src/main/java/de/hitec/nhplus/datastorage/UserDao.java:184-207 | the username of an inactive user counts as taken but is never found by `findByUsername` |
| UserDao.StampLastLogin | src/main/java/de/hitec/nhplus/datastorage/UserDao.java:163-182 | only `last_login` of the rows with that uid changes |
| UserDao.UpdateUserRows | src/main/java/de/hitec/nhplus/datastorage/UserDao.java:97-121 | the update overwrites username, hash, names and both flags of the rows with that uid, keeping uid, created_at and last_login |
| UserDao.TextLeTotal | src/main/java/de/hitec/nhplus/datastorage/UserDao.java:68 | the username order compares any two usernames |
| UserDao.InsertByUsername | src/main/java/de/hitec/nhplus/datastorage/UserDao.java:68 | inserting into the ordered result adds exactly that row |
| UserDao.InsertKeepsSorted | src/main/java/de/hitec/nhplus/datastorage/UserDao.java:68 | inserting into an ordered result keeps it ordered |
| UserDao.SortByUsername | src/main/java/de/hitec/nhplus/datastorage/UserDao.java:68 | `ORDER BY username` is a permutation of the rows |
| UserDao.SortByUsernameSorted | src/main/java/de/hitec/nhplus/datastorage/UserDao.java:68 | `ORDER BY username` yields rows in username order |
| UserDao.ReadAllActiveContents | src/main/java/de/hitec/nhplus/datastorage/UserDao.java:209-227 | `readAllActive` returns exactly the active rows, each as often as it occurs, ordered by username |
| UserDao.UsersFromResultSet | src/main/java/de/hitec/nhplus/datastorage/UserDao.java:77-95 | one new user per result row, in result order, each equal to its row |
| UserDao.StampThenRead | src/main/java/de/hitec/nhplus/datastorage/UserDao.java:163-182 | a stamped row reads back with the new last login and otherwise unchanged |
| UserDao.UserTable.constructor | src/main/java/de/hitec/nhplus/datastorage/UserDao.java:13-15 | the model's start state: an empty users table that meets `Valid()`. The Java DAO opens over whatever rows the database already holds, and every other method assumes only `Valid()` of the table, never that it started empty |
| UserDao.UserTable.Create | src/main/java/de/hitec/nhplus/datastorage/UserDao.java:18-35 | an INSERT appends one row with the next uid, the written flags, the created_at default and no last login |
| UserDao.UserTable.ReadAll | src/main/java/de/hitec/nhplus/datastorage/UserDao.java:65-75 | returns one user per row, ordered by username |
| UserDao.UserTable.ReadAllActive | src/main/java/de/hitec/nhplus/datastorage/UserDao.java:209-227 | returns one user per active row, ordered by username; an SQLException is rethrown |
| UserDao.UserTable.FindByUsername | src/main/java/de/hitec/nhplus/datastorage/UserDao.java:138-161 | null exactly when no active row has the username, else a new user equal to the first such row; an SQLException is rethrown |
| UserDao.UserTable.UpdateLastLogin | src/main/java/de/hitec/nhplus/datastorage/UserDao.java:163-182 | the rows become `StampLastLogin(old, uid, stamp)`; an SQLException is rethrown |
| UserDao.UserTable.UsernameExists | src/main/java/de/hitec/nhplus/datastorage/UserDao.java:184-207 | true exactly when some row, inactive ones included, has the username; an SQLException is rethrown |
| UserDao.UserTable.Update | src/main/java/de/hitec/nhplus/datastorage/UserDao.java:97-121 | the rows become `UpdateUserRows(old, uid, user)`; a user without a uid changes nothing |
| UserDao.UserTable.DeleteById | src/main/java/de/hitec/nhplus/datastorage/UserDao.java:123-136 | removes exactly the rows with that uid |
| LoginUserService.Authenticate | src/main/java/de/hitec/nhplus/service/LoginUserService.java:33-66 | null for a null username or password and for an SQLException; a non-null result is an unlocked row with that username whose stored hash matches the password, carrying that hash |
| LoginUserService.AuthenticateIff | src/main/java/de/hitec/nhplus/service/LoginUserService.java:45-60 | with unique usernames, authentication succeeds exactly when an unlocked row has the username and its hash verifies |
| LoginUserService.LockedNeverAuthenticates | src/main/java/de/hitec/nhplus/service/LoginUserService.java:40 | a locked account never authenticates, whatever the password |
| LoginUserService.LockThenAuthenticateFails | src/main/java/de/hitec/nhplus/service/LoginUserService.java:40 | after `lockCaregiver`, that caregiver's username no longer authenticates |
| LoginController.VerdictSound | src/main/java/de/hitec/nhplus/controller/LoginController.java:90-93 | a true verdict means an active row with that username whose hash verifies |
| LoginController.VerdictComplete | src/main/java/de/hitec/nhplus/controller/LoginController.java:90-93 | with unique usernames, an active row whose hash verifies gives a true verdict |
| LoginController.InactiveNeverLogsIn | src/main/java/de/hitec/nhplus/controller/LoginController.java:90-93 | a username held only by inactive rows never logs in |
| LoginController.CheckCredentials | src/main/java/de/hitec/nhplus/controller/LoginController.java:88-106 | true exactly when neither query fails and the verdict holds; then `last_login` of the found row is stamped and that user is returned; otherwise nothing changes |
| LoginController.LoginScreen.constructor | src/main/java/de/hitec/nhplus/controller/LoginController.java:31-40 | both text fields start empty, no status is shown and no user has been handed over |
| LoginController.LoginScreen.HandleLogin | src/main/java/de/hitec/nhplus/controller/LoginController.java:68-150 | an empty trimmed username or empty password stops before any lookup; a true verdict hands the found user to the session; a false one leaves the session alone and clears the password |
| NewTreatmentController.InputValidIff | src/main/java/de/hitec/nhplus/controller/NewTreatmentController.java:127-141 | the input is valid exactly when both times are present and parse, end is after begin, the description is not blank and a date is chosen |
| NewTreatmentController.EqualTimesRejected | src/main/java/de/hitec/nhplus/controller/NewTreatmentController.java:134-136 | a treatment ending when it begins is rejected |
| NewTreatmentController.BlankDescriptionRejected | src/main/java/de/hitec/nhplus/controller/NewTreatmentController.java:140 | a blank description is rejected whatever the times |
| NewTreatmentController.HandleAdd | src/main/java/de/hitec/nhplus/controller/NewTreatmentController.java:101-111 | valid input with no caregiver, or one without a cid, fails at `getCid`; otherwise a new treatment with tid 0 and the parsed values |
| AllTreatmentController.FormatPatientDisplayName | src/main/java/de/hitec/nhplus/controller/AllTreatmentController.java:123-125 | the name is the surname, ", ", then the first name |
| AllTreatmentController.DisplayNames | src/main/java/de/hitec/nhplus/controller/AllTreatmentController.java:112-115 | one display name per patient, in list order |
| AllTreatmentController.FirstWithDisplayName | src/main/java/de/hitec/nhplus/controller/AllTreatmentController.java:152-159 | the index of the first patient with that display name, or the list length when there is none |
| AllTreatmentController.FindByDisplayName | src/main/java/de/hitec/nhplus/controller/AllTreatmentController.java:152-159 | none exactly when no display name matches, else the first matching patient |
| AllTreatmentController.AllPatientsNeverResolves | src/main/java/de/hitec/nhplus/controller/AllTreatmentController.java:108 | "alle" never resolves to a patient |
| AllTreatmentController.GetPatientFromDisplayName | src/main/java/de/hitec/nhplus/controller/AllTreatmentController.java:152-159 | the early-return loop returns `FindByDisplayName` |
| AllTreatmentController.SearchPatientInList | src/main/java/de/hitec/nhplus/controller/AllTreatmentController.java:161-168 | the first patient with an equal surname, or null exactly when there is none |
| AllTreatmentController.SearchCareGiverInList | src/main/java/de/hitec/nhplus/controller/AllTreatmentController.java:170-177 | the first caregiver with an equal surname, or null exactly when there is none |
| AllTreatmentController.SelectingPatientShowsTheirTreatments | src/main/java/de/hitec/nhplus/controller/AllTreatmentController.java:128-150 | with distinct display names, selecting a patient's name shows exactly that patient's treatments |
| AllTreatmentController.TreatmentOverview.constructor | src/main/java/de/hitec/nhplus/controller/AllTreatmentController.java:58-61 | both observable lists start empty and the patient list is null until a read succeeds |
| AllTreatmentController.TreatmentOverview.CreateComboBoxData | src/main/java/de/hitec/nhplus/controller/AllTreatmentController.java:106-121 | the selection list becomes "alle" and one display name per patient, in order, and the patient list is set; a failed read leaves only "alle" and the patient list as it was, possibly still null |
| AllTreatmentController.TreatmentOverview.HandleComboBox | src/main/java/de/hitec/nhplus/controller/AllTreatmentController.java:128-150 | all treatments for no selection or "alle", the patient's treatments for a resolvable name, none otherwise |
| AllTreatmentController.TreatmentOverview.HandleNewTreatment | src/main/java/de/hitec/nhplus/controller/AllTreatmentController.java:197-206 | the dialog opens for the first patient with that display name, never for "alle" |
| AllTreatmentController.TreatmentOverview.HandleDelete | src/main/java/de/hitec/nhplus/controller/AllTreatmentController.java:180-189 | removes the treatment at the index, keeps the others in order, and deletes that treatment's tid |
| AdminPanel.FieldsCheck | src/main/java/de/hitec/nhplus/controller/AdminPanelController.java:226-267 | no error means every field is present, the password is valid and the phone format is accepted |
| AdminPanel.ValidateForm | src/main/java/de/hitec/nhplus/controller/AdminPanelController.java:217-282 | the error reported is a check that fails and every earlier check passes; no error means no check fails, including trimmed-username uniqueness and a failed query |
| AdminPanel.CreatedAccount | src/main/java/de/hitec/nhplus/controller/AdminPanelController.java:184-194 | the new account has a trimmed username and phone, a hash of the untrimmed password, no pid, and is unlocked |
| AdminPanel.StoredPhoneCanBreakFormat | src/main/java/de/hitec/nhplus/controller/AdminPanelController.java:189 | "  12" passes the phone check, but the stored trimmed "12" would not |
| AdminPanel.InUseIgnoresLockedRow | src/main/java/de/hitec/nhplus/datastorage/CaregiverDao.java:225-233 | adding a locked row does not change whether a username is in use |
| AdminPanel.LockedRowInvisibleToValidation | src/main/java/de/hitec/nhplus/controller/AdminPanelController.java:270-279 | a locked row does not change the validation result; if it holds the username, the form still validates but the INSERT hits the UNIQUE constraint |
| AdminPanel.EditFieldsCheck | src/main/java/de/hitec/nhplus/controller/AdminPanelController.java:373-384 | "fields required" exactly when a name or the phone is blank; no error exactly when they are present and the phone format is accepted |
| AdminPanel.EditedFields | src/main/java/de/hitec/nhplus/controller/AdminPanelController.java:387-390 | the edit writes trimmed names and phone and the admin flag, and nothing else |
| AdminPanel.EditedAccount | src/main/java/de/hitec/nhplus/controller/AdminPanelController.java:393-401 | a blank new password keeps the hash; a non-blank one is replaced by a hash it verifies against |
| AdminPanel.AccountPanel.constructor | src/main/java/de/hitec/nhplus/controller/AdminPanelController.java:40-65 | the form starts empty, the list empty, the status hidden and the create button enabled |
| AdminPanel.AccountPanel.LoadUsers | src/main/java/de/hitec/nhplus/controller/AdminPanelController.java:310-326 | the list shows one caregiver per unlocked row, in table order; a failed read keeps the list and shows an error |
| AdminPanel.AccountPanel.CheckUsernameAvailability | src/main/java/de/hitec/nhplus/controller/AdminPanelController.java:154-171 | the create button is disabled exactly when the trimmed name is in use; a failed query or a blank field changes nothing |
| AdminPanel.AccountPanel.Validate | src/main/java/de/hitec/nhplus/controller/AdminPanelController.java:217-282 | the early-return chain computes `ValidateForm` |
| AdminPanel.AccountPanel.HandleCreateUser | src/main/java/de/hitec/nhplus/controller/AdminPanelController.java:177-212 | an invalid form shows its first error and changes nothing; a valid one is created, cleared and reloaded, or kept with an error when the INSERT fails; the create button's state never changes, and the pid counter advances only with a successful INSERT |
| AdminPanel.AccountPanel.SaveAccount | src/main/java/de/hitec/nhplus/controller/AdminPanelController.java:182-211 | the INSERT appends `CreatedAccount` as a new row, then the form is cleared and the list reloaded; the pid counter advances by one exactly when a row is inserted, and the create button's state never changes |
| AdminPanel.AccountPanel.ApplyFields | src/main/java/de/hitec/nhplus/controller/AdminPanelController.java:387-390 | the four setters change the first name, surname and telephone number to their trimmed texts and the admin flag to the checkbox, and nothing else of the caregiver |
| AdminPanel.AccountPanel.StoreEdit | src/main/java/de/hitec/nhplus/controller/AdminPanelController.java:403-416 | a failed UPDATE (an injected fault, or another row holding the username while the caregiver's own row exists) shows the failure and leaves the table and list as they were; otherwise the row with the pid, if any, takes the caregiver's values, the success status is shown and the list reloaded; the pid counter and the create button's state never change |
| AdminPanel.AccountPanel.SaveEdit | src/main/java/de/hitec/nhplus/controller/AdminPanelController.java:369-421 | blank fields change nothing; a rejected password leaves the object edited but unsaved; otherwise the edited account is returned and stored as `StoreEdit` states, even when the UPDATE fails; the pid counter and the create button's state never change |
| AdminPanel.AccountPanel.HandleDeleteUser | src/main/java/de/hitec/nhplus/controller/AdminPanelController.java:425-455 | deleting oneself is refused and the own row always survives; otherwise a confirmed delete removes the target's rows and reloads; the pid counter and the create button's state never change |

The definitions below have no contract of their own. Each is the reference that
methods are proved equal to, and the rows named beside it state its properties.

- `PasswordUtil.IsValidPassword`: `IsValidPasswordIff`, `ForeignCharRejects`.
- `PasswordUtil.Feedback`: `CheckPasswordRequirements`, `FeedbackForEmpty`,
  `FeedbackOkIff`, `FeedbackListsFailures`, `IssuesInOrder`.
- `PasswordUtil.PasswordHash`: `HashPassword`, `PasswordHashShape`, `HexInjective`.
- `PasswordUtil.VerifyPassword`: `VerifyAfterHash`, `VerifyRejectsOtherDigest`.
- `NewTreatmentController.AreInputDataInvalid`: `InputValidIff`,
  `EqualTimesRejected`, `BlankDescriptionRejected`.
- `CaregiverDao.UnlockedRows`, `DeleteRows`, `UserDao.ActiveRows` and
  `DeleteUserRows` are WHERE clauses applied with `SqlTable.Filter`: its row, with
  `FilterMultiset`, says which rows each keeps.
- `CaregiverDao.PurgeExpired`: `PurgeRemovesExactlyExpired`, `PurgeIdempotent`,
  `LockedTodaySurvivesPurge`.
- `CaregiverDao.UsernameInUse`: `CountInUsePositiveIff`, `InUseImpliesTaken`,
  `LockHidesUsername`.
- `CaregiverDao.UpdateClashes`: `UpdateMissingPidChangesNothing`.
- `LoginUserService.Candidates`, the SELECT of `authenticate`, and `ToLoginUser`,
  the `LoginUser` built from its row: `Authenticate`, `AuthenticateIff`,
  `LockedNeverAuthenticates`, `LockThenAuthenticateFails`.
- `LoginController.InputAccepted` and `LoginVerdict`: `VerdictSound`,
  `VerdictComplete`, `InactiveNeverLogsIn`, `CheckCredentials`.
- `AllTreatmentController.ShownTreatments`: `SelectingPatientShowsTheirTreatments`,
  `HandleComboBox`.
- `AdminPanel.PhoneAccepted`: `FieldsCheck`, `StoredPhoneCanBreakFormat`.
- `AdminPanel.AccountPanel.Created` and `Edited`: `SaveAccount`, `StoreEdit`.
- `SessionService.Session.GetLoggedInCaregiver` and `IsLoggedIn`: the
  `Session` constructor, `SetLoggedInCaregiver`, `Logout`, `IsCurrentUserAdmin`.

## Left out

- JavaFX: FXML loading, stages, alerts, labels, styles, table cell factories,
  `initialize`, `handleMouseClick` and the window openers. `Status` enumerates the
  messages a screen shows instead of their texts.
- The login screen's background `Task`, `Thread`, `Thread.sleep` and
  `Platform.runLater`. The task is modelled as one sequential call, and an
  exception in the task's failure handler is not modelled.
- SHA-256 and `String.getBytes()` with the platform charset. They are the
  parameter `sha256`, taken to return 32 bytes where a lemma needs it.
- The clock. `LocalDate.now()` and the login timestamp are parameters.
- `DateConverter`, `Patient`, `PatientDao`, `TreatmentDao`, `CareGiverDao`,
  `LoginUser` and `LoginUserDao` are not part of this model. Parsing and
  formatting are function parameters. Patients are a small record, and treatment
  reads are `Result` values.
- `PasswordUtil.generatePassword`, `checkPassword` and `getPasswordValidationError`
  are not in `PasswordUtil.java`. They are taken to be `hashPassword`,
  `verifyPassword` and "null exactly when `isValidPassword`".
- `Session.login`, `getCurrentUserFullName` and `isAdmin` are not in `Session.java`.
  Only `Session.java`'s own API is modelled; the login screen's hand-off is the
  `sessionUser` slot.
- The `users` table's DDL is not in `SetUpDB.java`. Several details are therefore
  modelling choices:
  - the uid is the next integer;
  - the `created_at` default is a parameter;
  - a new row has no `last_login`;
  - no UNIQUE constraint is assumed, so `create` accepts a duplicate username;
  - `ORDER BY username` keeps rows with equal usernames in table order.
- `ORDER BY username` compares usernames by char codes, as SQLite's default
  BINARY collation does.
- Supplementary characters. A Java `char` is one Dafny `char`, and surrogate pairs
  are not modelled.
- `AuditLog` calls, `System.out`/`printStackTrace`, and the user count label.
- `SetUpDB`, `Main`, `MainDashboardController`, `MainWindowController`,
  `AllCaregiverController` and `TreatmentController`. They are UI or seed data with
  no rule beyond what is modelled.
- Java `long` ids are unbounded integers. No id arithmetic in the core can
  overflow.
- Object identity of `Treatment` in `CareGiver.add` is Dafny object identity, so
  two equal-valued treatments are distinct, as in Java.
- Paths that throw a `NullPointerException` are preconditions or error outcomes,
  not exceptions:
  - `AllTreatmentController.TreatmentOverview.HandleDelete` requires a selected
    row; with no selection `getSelectedIndex()` is -1 and the Java code throws.
  - `AdminPanel.AccountPanel.HandleDeleteUser` requires a logged-in caregiver with
    a pid and a target with a pid, because the Java code dereferences both.
  - `AdminPanel.AccountPanel.SaveEdit` requires a caregiver with a pid, because the
    UPDATE dereferences it.
  - `AllTreatmentController.SearchPatientInList` searches a list passed in. The
    controller's `patientList` field is null until the first successful
    `PatientDao.readAll`, and the Java method throws on it before then.
  - `AllTreatmentController.SearchCareGiverInList` searches a list passed in. The
    controller's `careGiverList` field is never filled, so the Java method throws
    on first use.
  - `AllTreatmentController.TreatmentOverview.HandleNewTreatment` requires that the
    patient list has been read. Before the first successful `PatientDao.readAll`
    the Java field is null and `getPatientFromDisplayName` throws, even for "alle".
    The selection is taken to be non-null.
  - `AllTreatmentController.TreatmentOverview.HandleComboBox` requires the same for a
    selection other than none or "alle", for the same reason.
  - `NewTreatmentController.HandleAdd` reports `NullCaregiver` where the Java code
    throws.
- `CaregiverDao.RowView` copies the stored `dateOfBirth` text unchanged. The Java
  code parses it with `DateConverter.convertStringToLocalDate` and formats it again
  with `convertLocalDateToString`, and that round trip is taken to be the identity
  on stored texts. A stored text that does not parse, where Java throws, is not
  modelled.
- `TreatmentModel.Treatment.SetDate`, `SetBegin` and `SetEnd` return false and change
  nothing when the parser rejects the text. The Java parser throws there instead,
  so that exception is the `false` outcome.
- `AllTreatmentController.TreatmentOverview.HandleDelete`: the DELETE of the
  removed treatment is its result `deletedTid`; the DAO call and its
  `SQLException` are outside the model.
- `CaregiverModel.Caregiver.GetPid` and `CareGiverModel.CareGiver.GetCid` have no
  postcondition. Their precondition states that the id must be present.
