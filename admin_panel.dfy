/**
 * The administration screen for accounts: the create form and its validation
 * chain, the live username check, the account list, the edit dialog's save
 * action, and deletion with its guard against deleting oneself.
 *
 * The JavaFX controls are the fields of an AccountPanel; the status label is a
 * Status value naming which message is shown. DateConverter is not part of this
 * model: the text it makes of a date is the `formatDate` parameter.
 */
module AdminPanel {
  import opened JavaLang
  import opened JavaTime
  import opened PasswordUtil
  import opened CaregiverModel
  import opened CaregiverDao
  import opened SessionService

  // ---------------------------------------------------------------------------
  // The create form and validateForm
  // ---------------------------------------------------------------------------

  /** The create form: text fields (possibly null), the date picker and the admin box. */
  datatype AccountForm = AccountForm(
    username: Option<string>,
    password: Option<string>,
    firstName: Option<string>,
    lastName: Option<string>,
    phone: Option<string>,
    birthday: Option<Date>,
    isAdmin: bool)

  /** The form after clearForm: empty texts, no date, box unticked. */
  const EmptyForm: AccountForm := AccountForm(Some(""), Some(""), Some(""), Some(""), Some(""), None, false)

  /** The reasons validateForm refuses a form, in the order it checks them. */
  datatype FormError =
    | UsernameRequired
    | PasswordRequired
    | PasswordRejected
    | FirstNameRequired
    | LastNameRequired
    | PhoneRequired
    | PhoneInvalid
    | BirthdayRequired
    | ValidationFailed
    | UsernameTaken

  /** The position of each check in validateForm's chain. */
  function Rank(e: FormError): nat {
    match e
    case UsernameRequired => 0
    case PasswordRequired => 1
    case PasswordRejected => 2
    case FirstNameRequired => 3
    case LastNameRequired => 4
    case PhoneRequired => 5
    case PhoneInvalid => 6
    case BirthdayRequired => 7
    case ValidationFailed => 8
    case UsernameTaken => 9
  }

  /** One char of the phone pattern's class `[0-9\-\s]`. */
  predicate IsPhoneChar(c: char) {
    IsRegexDigit(c) || c == '-' || IsRegexSpace(c)
  }

  /** `phone.matches("^[0-9\\-\\s]{4,15}$")`: 4 to 15 chars, each a digit, '-' or `\s`. */
  predicate PhoneAccepted(phone: string) {
    4 <= |phone| <= 15 && forall i :: 0 <= i < |phone| ==> IsPhoneChar(phone[i])
  }

  /**
   * Check e, taken on its own, refuses the form. The database check fails when
   * usernameExists raises (`fault`) and otherwise when an unlocked caregiver
   * already has the trimmed username.
   */
  predicate Fails(form: AccountForm, rows: seq<CaregiverRow>, fault: bool, e: FormError) {
    match e
    case UsernameRequired => IsMissing(form.username)
    case PasswordRequired => IsMissing(form.password)
    case PasswordRejected => form.password.Some? && !IsValidPassword(form.password)
    case FirstNameRequired => IsMissing(form.firstName)
    case LastNameRequired => IsMissing(form.lastName)
    case PhoneRequired => IsMissing(form.phone)
    case PhoneInvalid => form.phone.Some? && !PhoneAccepted(form.phone.value)
    case BirthdayRequired => form.birthday.None?
    case ValidationFailed => fault
    case UsernameTaken => !fault && form.username.Some? && UsernameInUse(rows, Trim(form.username.value))
  }

  /** Every field the created account is built from is present. */
  predicate Complete(form: AccountForm) {
    && form.username.Some? && form.password.Some? && form.firstName.Some?
    && form.lastName.Some? && form.phone.Some? && form.birthday.Some?
  }

  /** The checks of validateForm that look only at the form, in its order. */
  function FieldsCheck(form: AccountForm): (error: Option<FormError>)
    ensures error.Some? ==> Rank(error.value) < Rank(ValidationFailed)
    ensures error.None? ==> Complete(form) && IsValidPassword(form.password) && PhoneAccepted(form.phone.value)
  {
    if IsMissing(form.username) then Some(UsernameRequired)
    else if IsMissing(form.password) then Some(PasswordRequired)
    else if !IsValidPassword(form.password) then Some(PasswordRejected)
    else if IsMissing(form.firstName) then Some(FirstNameRequired)
    else if IsMissing(form.lastName) then Some(LastNameRequired)
    else if IsMissing(form.phone) then Some(PhoneRequired)
    else if !PhoneAccepted(form.phone.value) then Some(PhoneInvalid)
    else if form.birthday.None? then Some(BirthdayRequired)
    else None
  }

  /**
   * validateForm: the first check of the chain that refuses the form, or None
   * when the form may be saved. The database is asked only once every field
   * passed.
   */
  function ValidateForm(form: AccountForm, rows: seq<CaregiverRow>, fault: bool): (error: Option<FormError>)
    ensures error.None? ==> forall e :: !Fails(form, rows, fault, e)
    ensures error.Some? ==> Fails(form, rows, fault, error.value)
    ensures error.Some? ==> forall e :: Rank(e) < Rank(error.value) ==> !Fails(form, rows, fault, e)
    ensures error.None? ==> Complete(form) && IsValidPassword(form.password) && PhoneAccepted(form.phone.value)
  {
    if FieldsCheck(form).Some? then FieldsCheck(form)
    else if fault then Some(ValidationFailed)
    else if UsernameInUse(rows, Trim(form.username.value)) then Some(UsernameTaken)
    else None
  }

  /**
   * The account handleCreateUser builds: trimmed names, username and phone, the
   * date as text, the hash of the untrimmed password, not locked, no pid yet.
   */
  function CreatedAccount(sha256: Hasher, formatDate: Date -> string, form: AccountForm): (v: CaregiverView)
    requires Complete(form)
    ensures v.pid.None? && !v.locked && v.lockedDate.None? && v.isAdmin == form.isAdmin
    ensures VerifyPassword(sha256, form.password.value, v.passwordHash)
    ensures v.username == Trim(form.username.value) && v.telephoneNumber == Trim(form.phone.value)
  {
    CaregiverView(None, Trim(form.username.value), Trim(form.firstName.value), Trim(form.lastName.value),
                  formatDate(form.birthday.value), Trim(form.phone.value),
                  PasswordHash(sha256, form.password.value), form.isAdmin, false, None)
  }

  /**
   * The phone format is checked on the untrimmed text and the trimmed text is
   * stored: "  12" passes, and "12", which the pattern refuses, is saved.
   */
  lemma StoredPhoneCanBreakFormat()
    ensures PhoneAccepted("  12")
    ensures Trim("  12") == "12" && !PhoneAccepted(Trim("  12"))
  {
    var p := "  12";
    assert p[1..][1..] == "12";
    assert TrimLeading("12") == "12";
    assert TrimTrailing("12") == "12";
    assert Trim(p) == "12";
    assert !PhoneAccepted("12");
  }

  /** usernameExists does not see a locked row. */
  lemma InUseIgnoresLockedRow(rows: seq<CaregiverRow>, row: CaregiverRow, name: string)
    requires row.locked
    ensures UsernameInUse(rows + [row], name) <==> UsernameInUse(rows, name)
  {
    var all := rows + [row];
    if UsernameInUse(all, name) {
      var i :| 0 <= i < |all| && all[i].username == name && IsUnlocked(all[i]);
      assert i < |rows| && rows[i] == all[i];
    }
    if UsernameInUse(rows, name) {
      var i :| 0 <= i < |rows| && rows[i].username == name && IsUnlocked(rows[i]);
      assert all[i] == rows[i];
    }
  }

  /**
   * Validation looks only at unlocked caregivers, while the UNIQUE constraint
   * covers every row: adding a locked row never changes validateForm's verdict,
   * and when that row holds the trimmed username, the INSERT after a passing
   * validation fails.
   */
  lemma LockedRowInvisibleToValidation(sha256: Hasher, formatDate: Date -> string, form: AccountForm,
                                       rows: seq<CaregiverRow>, fault: bool, row: CaregiverRow)
    requires row.locked
    ensures ValidateForm(form, rows + [row], fault) == ValidateForm(form, rows, fault)
    ensures ValidateForm(form, rows, fault).None? && row.username == Trim(form.username.value) ==>
      CaregiverDao.UsernameTaken(rows + [row], CreatedAccount(sha256, formatDate, form).username)
  {
    var all := rows + [row];
    if form.username.Some? {
      InUseIgnoresLockedRow(rows, row, Trim(form.username.value));
    }
    if ValidateForm(form, rows, fault).None? && row.username == Trim(form.username.value) {
      assert all[|rows|] == row;
    }
  }

  // ---------------------------------------------------------------------------
  // The edit dialog
  // ---------------------------------------------------------------------------

  /** The edit dialog's fields; the new password may be left empty. */
  datatype EditForm = EditForm(firstName: string, lastName: string, phone: string,
                               newPassword: Option<string>, isAdmin: bool)

  datatype EditError = FieldsRequired | EditPhoneInvalid | EditPasswordRejected

  /** The checks made before the caregiver is changed: no blank field, a phone the pattern accepts. */
  function EditFieldsCheck(edit: EditForm): (error: Option<EditError>)
    ensures error == Some(FieldsRequired) <==>
      Trim(edit.firstName) == [] || Trim(edit.lastName) == [] || Trim(edit.phone) == []
    ensures error.None? <==> error != Some(FieldsRequired) && PhoneAccepted(edit.phone)
  {
    if Trim(edit.firstName) == [] || Trim(edit.lastName) == [] || Trim(edit.phone) == [] then Some(FieldsRequired)
    else if !PhoneAccepted(edit.phone) then Some(EditPhoneInvalid)
    else None
  }

  /** A new password was typed ("leave empty = keep"). */
  predicate ChangesPassword(edit: EditForm) {
    edit.newPassword.Some? && Trim(edit.newPassword.value) != []
  }

  /** The caregiver after the dialog's setters ran: trimmed names and phone, the admin box. */
  function EditedFields(v: CaregiverView, edit: EditForm): (w: CaregiverView)
    ensures w.pid == v.pid && w.username == v.username && w.passwordHash == v.passwordHash
    ensures w.dateOfBirth == v.dateOfBirth && w.locked == v.locked && w.lockedDate == v.lockedDate
    ensures w.firstName == Trim(edit.firstName) && w.surname == Trim(edit.lastName)
    ensures w.telephoneNumber == Trim(edit.phone) && w.isAdmin == edit.isAdmin
  {
    v.(firstName := Trim(edit.firstName), surname := Trim(edit.lastName),
       telephoneNumber := Trim(edit.phone), isAdmin := edit.isAdmin)
  }

  /** The caregiver saved by the dialog: the edited fields, and a new hash when a new password was typed. */
  function EditedAccount(sha256: Hasher, v: CaregiverView, edit: EditForm): (w: CaregiverView)
    ensures w.(passwordHash := v.passwordHash) == EditedFields(v, edit)
    ensures ChangesPassword(edit) ==> VerifyPassword(sha256, edit.newPassword.value, w.passwordHash)
    ensures !ChangesPassword(edit) ==> w.passwordHash == v.passwordHash
  {
    if ChangesPassword(edit) then EditedFields(v, edit).(passwordHash := PasswordHash(sha256, edit.newPassword.value))
    else EditedFields(v, edit)
  }

  // ---------------------------------------------------------------------------
  // The screen
  // ---------------------------------------------------------------------------

  /** Which message the status label shows, if any. */
  datatype Status =
    | Hidden
    | Invalid(error: FormError)
    | CreateFailed
    | LoadFailed
    | EditRejected(editError: EditError)
    | Updated
    | UpdateFailed
    | SelfDeleteRefused
    | Deleted
    | DeleteFailed

  /** The account list shows one caregiver per unlocked row, in table order. */
  predicate ShowsUnlocked(users: seq<Caregiver>, rows: seq<CaregiverRow>)
    reads users
  {
    |users| == |UnlockedRows(rows)|
    && forall i :: 0 <= i < |users| ==> users[i].View() == RowView(UnlockedRows(rows)[i])
  }

  class AccountPanel {
    var form: AccountForm
    var usersList: seq<Caregiver>
    var status: Status
    var createDisabled: bool

    constructor ()
      ensures form == EmptyForm && usersList == [] && status == Hidden && !createDisabled
    {
      form := EmptyForm;
      usersList := [];
      status := Hidden;
      createDisabled := false;
    }

    /** loadUsers: replaces the list by the unlocked caregivers; a failed read only shows an error. */
    method LoadUsers(table: CaregiverTable, fault: bool)
      modifies this
      ensures form == old(form) && createDisabled == old(createDisabled)
      ensures fault ==> usersList == old(usersList) && status == LoadFailed
      ensures !fault ==> status == old(status) && ShowsUnlocked(usersList, table.rows)
      ensures !fault ==> forall i :: 0 <= i < |usersList| ==> fresh(usersList[i])
    {
      var caregivers := table.ReadAll(fault);
      if caregivers.SqlError? {
        status := LoadFailed;
        return;
      }
      usersList := caregivers.value;
    }

    /**
     * checkUsernameAvailability, run by the username field's listener: a taken
     * name disables the create button, a free one enables it; a failed query
     * changes nothing, and so does a blank field.
     */
    method CheckUsernameAvailability(table: CaregiverTable, text: Option<string>, fault: bool)
      modifies this
      ensures form == old(form) && usersList == old(usersList)
      ensures IsMissing(text) || fault ==> status == old(status) && createDisabled == old(createDisabled)
      ensures !IsMissing(text) && !fault ==>
        (createDisabled <==> UsernameInUse(table.rows, Trim(text.value)))
        && status == (if createDisabled then Invalid(UsernameTaken) else Hidden)
    {
      if text.None? || Trim(text.value) == [] {
        return;
      }
      var inUse := table.UsernameExists(Trim(text.value), fault);
      if inUse.SqlError? {
        return;
      }
      if inUse.value {
        status := Invalid(UsernameTaken);
        createDisabled := true;
      } else {
        status := Hidden;
        createDisabled := false;
      }
    }

    /**
     * validateForm as the screen runs it: the chain of checks, asking the table
     * whether the trimmed username is in use only when every field passed.
     */
    method Validate(table: CaregiverTable, fault: bool) returns (error: Option<FormError>)
      ensures error == ValidateForm(form, table.rows, fault)
    {
      if IsMissing(form.username) {
        return Some(UsernameRequired);
      }
      if IsMissing(form.password) {
        return Some(PasswordRequired);
      }
      if !IsValidPassword(form.password) {
        return Some(PasswordRejected);
      }
      if IsMissing(form.firstName) {
        return Some(FirstNameRequired);
      }
      if IsMissing(form.lastName) {
        return Some(LastNameRequired);
      }
      if IsMissing(form.phone) {
        return Some(PhoneRequired);
      }
      if !PhoneAccepted(form.phone.value) {
        return Some(PhoneInvalid);
      }
      if form.birthday.None? {
        return Some(BirthdayRequired);
      }
      var inUse := table.UsernameExists(Trim(form.username.value), fault);
      if inUse.SqlError? {
        return Some(ValidationFailed);
      }
      if inUse.value {
        return Some(UsernameTaken);
      }
      return None;
    }

    /**
     * handleCreateUser: a refused form shows its error; otherwise the account is
     * inserted, the form cleared (which also hides the status) and the list
     * reloaded. A failed INSERT keeps the form and shows an error.
     */
    method HandleCreateUser(table: CaregiverTable, sha256: Hasher, formatDate: Date -> string,
                            existsFault: bool, createFault: bool, readFault: bool)
      requires table.Valid()
      modifies this, table
      ensures table.Valid() && createDisabled == old(createDisabled)
      ensures ValidateForm(old(form), old(table.rows), existsFault).Some? ==>
        && status == Invalid(ValidateForm(old(form), old(table.rows), existsFault).value)
        && form == old(form) && usersList == old(usersList)
        && table.rows == old(table.rows) && table.nextPid == old(table.nextPid)
      ensures ValidateForm(old(form), old(table.rows), existsFault).None? ==>
        Created(old(form), old(table.rows), old(table.nextPid), old(usersList), table.rows, table.nextPid,
                CreatedAccount(sha256, formatDate, old(form)), createFault, readFault)
    {
      var error := Validate(table, existsFault);
      if error.Some? {
        status := Invalid(error.value);
        return;
      }
      SaveAccount(table, sha256, formatDate, createFault, readFault);
    }

    /** What handleCreateUser leaves behind once the form passed validation. */
    predicate Created(oldForm: AccountForm, oldRows: seq<CaregiverRow>, oldNextPid: int, oldUsers: seq<Caregiver>,
                      rows: seq<CaregiverRow>, nextPid: int, account: CaregiverView, createFault: bool, readFault: bool)
      reads this, usersList
    {
      if createFault || CaregiverDao.UsernameTaken(oldRows, account.username) then
        && status == CreateFailed && form == oldForm && usersList == oldUsers
        && rows == oldRows && nextPid == oldNextPid
      else
        && rows == oldRows + [NewRow(oldNextPid, account)] && nextPid == oldNextPid + 1
        && form == EmptyForm
        && (readFault ==> status == LoadFailed && usersList == oldUsers)
        && (!readFault ==> status == Hidden && ShowsUnlocked(usersList, rows))
    }

    /** The part of handleCreateUser after validateForm: build, INSERT, clear, reload. */
    method SaveAccount(table: CaregiverTable, sha256: Hasher, formatDate: Date -> string,
                       createFault: bool, readFault: bool)
      requires table.Valid() && Complete(form)
      modifies this, table
      ensures table.Valid() && createDisabled == old(createDisabled)
      ensures Created(old(form), old(table.rows), old(table.nextPid), old(usersList), table.rows, table.nextPid,
                      CreatedAccount(sha256, formatDate, old(form)), createFault, readFault)
    {
      var account := CreatedAccount(sha256, formatDate, form);
      var caregiver := new Caregiver.NewAccount(sha256, account.username, account.firstName, account.surname,
                                                account.dateOfBirth, account.telephoneNumber,
                                                form.password.value, form.isAdmin, false, None);
      var created := table.Create(caregiver, createFault);
      if created.SqlError? {
        status := CreateFailed;
        return;
      }
      form := EmptyForm;
      status := Hidden;
      LoadUsers(table, readFault);
    }

    /** What the edit dialog leaves behind once the caregiver passed its checks and holds `account`. */
    predicate Edited(oldRows: seq<CaregiverRow>, oldUsers: seq<Caregiver>, rows: seq<CaregiverRow>,
                     account: CaregiverView, updateFault: bool, readFault: bool)
      requires account.pid.Some?
      reads this, usersList
    {
      var key := account.pid.value;
      if updateFault || UpdateClashes(oldRows, key, account.username) then
        status == UpdateFailed && rows == oldRows && usersList == oldUsers
      else
        && rows == UpdateRows(oldRows, key, account)
        && (readFault ==> status == LoadFailed && usersList == oldUsers)
        && (!readFault ==> status == Updated && ShowsUnlocked(usersList, rows))
    }

    /** The four setters the dialog calls before it looks at the new password. */
    method ApplyFields(caregiver: Caregiver, edit: EditForm)
      modifies caregiver
      ensures caregiver.View() == EditedFields(old(caregiver.View()), edit)
    {
      caregiver.SetFirstName(Trim(edit.firstName));
      caregiver.SetSurname(Trim(edit.lastName));
      caregiver.SetTelephoneNumber(Trim(edit.phone));
      caregiver.SetIsAdmin(edit.isAdmin);
    }

    /** The part of the save button after the checks: UPDATE by pid, then reload. */
    method StoreEdit(caregiver: Caregiver, table: CaregiverTable, updateFault: bool, readFault: bool)
      requires table.Valid() && caregiver.pid.Some?
      modifies this, table
      ensures table.Valid() && table.nextPid == old(table.nextPid)
      ensures form == old(form) && createDisabled == old(createDisabled)
      ensures Edited(old(table.rows), old(usersList), table.rows, caregiver.View(), updateFault, readFault)
    {
      var updated := table.Update(caregiver, updateFault);
      if updated.SqlError? {
        status := UpdateFailed;
        return;
      }
      status := Updated;
      LoadUsers(table, readFault);
    }

    /**
     * The edit dialog's save button. The blank and phone checks refuse without
     * changing anything; the setters then run before the new password is
     * checked, so a refused password leaves the caregiver object edited but not
     * saved. Otherwise the caregiver is updated by pid and returned, even when
     * the UPDATE fails.
     */
    method SaveEdit(caregiver: Caregiver, edit: EditForm, table: CaregiverTable, sha256: Hasher,
                    updateFault: bool, readFault: bool) returns (saved: Caregiver?)
      requires table.Valid() && caregiver.pid.Some?
      modifies this, caregiver, table
      ensures table.Valid() && table.nextPid == old(table.nextPid)
      ensures form == old(form) && createDisabled == old(createDisabled)
      ensures EditFieldsCheck(edit).Some? ==>
        && saved == null && status == EditRejected(EditFieldsCheck(edit).value)
        && caregiver.View() == old(caregiver.View()) && table.rows == old(table.rows)
        && usersList == old(usersList)
      ensures EditFieldsCheck(edit).None? && ChangesPassword(edit) && !IsValidPassword(edit.newPassword) ==>
        && saved == null && status == EditRejected(EditPasswordRejected)
        && caregiver.View() == EditedFields(old(caregiver.View()), edit) && table.rows == old(table.rows)
        && usersList == old(usersList)
      ensures EditFieldsCheck(edit).None? && (!ChangesPassword(edit) || IsValidPassword(edit.newPassword)) ==>
        && saved == caregiver
        && caregiver.View() == EditedAccount(sha256, old(caregiver.View()), edit)
        && caregiver.pid.Some?
        && Edited(old(table.rows), old(usersList), table.rows, caregiver.View(), updateFault, readFault)
    {
      var fieldsError := EditFieldsCheck(edit);
      if fieldsError.Some? {
        status := EditRejected(fieldsError.value);
        return null;
      }
      ApplyFields(caregiver, edit);
      if ChangesPassword(edit) {
        if !IsValidPassword(edit.newPassword) {
          status := EditRejected(EditPasswordRejected);
          return null;
        }
        caregiver.SetPasswordHash(PasswordHash(sha256, edit.newPassword.value));
      }
      StoreEdit(caregiver, table, updateFault, readFault);
      return caregiver;
    }

    /**
     * handleDeleteUser: refuses when the target has the logged-in caregiver's
     * pid; otherwise, once confirmed, deletes the target's row and reloads.
     * Whatever happens, the logged-in caregiver's own row survives.
     */
    method HandleDeleteUser(target: Caregiver, session: Session, confirmed: bool, table: CaregiverTable,
                            deleteFault: bool, readFault: bool)
      requires table.Valid() && target.pid.Some?
      requires session.loggedInCaregiver != null && session.loggedInCaregiver.pid.Some?
      modifies this, table
      ensures table.Valid() && table.nextPid == old(table.nextPid)
      ensures form == old(form) && createDisabled == old(createDisabled)
      ensures forall row :: row in old(table.rows) && row.pid == session.loggedInCaregiver.pid.value ==>
        row in table.rows
      ensures target.pid == session.loggedInCaregiver.pid ==>
        status == SelfDeleteRefused && table.rows == old(table.rows) && usersList == old(usersList)
      ensures target.pid != session.loggedInCaregiver.pid && !confirmed ==>
        status == old(status) && table.rows == old(table.rows) && usersList == old(usersList)
      ensures target.pid != session.loggedInCaregiver.pid && confirmed ==>
        if deleteFault then
          status == DeleteFailed && table.rows == old(table.rows) && usersList == old(usersList)
        else
          && table.rows == DeleteRows(old(table.rows), target.pid.value)
          && (readFault ==> status == LoadFailed && usersList == old(usersList))
          && (!readFault ==> status == Deleted && ShowsUnlocked(usersList, table.rows))
    {
      var me := session.GetLoggedInCaregiver();
      if target.GetPid() == me.GetPid() {
        status := SelfDeleteRefused;
        return;
      }
      if !confirmed {
        return;
      }
      var deleted := table.DeleteById(target.GetPid(), deleteFault);
      if deleted.SqlError? {
        status := DeleteFailed;
        return;
      }
      status := Deleted;
      LoadUsers(table, readFault);
    }
  }
}
