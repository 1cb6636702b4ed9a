/**
 * The Caregiver record: an account of a nurse or administrator. Its JavaFX
 * properties are plain fields here, changed in place by the setters.
 *
 * The date of birth is kept as the text DateConverter makes of a LocalDate;
 * DateConverter is not part of this model, so callers pass that text in.
 */
module CaregiverModel {
  import opened JavaLang
  import PasswordUtil

  /** Every field of a Caregiver at one moment; the setters are specified against it. */
  datatype CaregiverView = CaregiverView(
    pid: Option<int>,
    username: string,
    firstName: string,
    surname: string,
    dateOfBirth: string,
    telephoneNumber: string,
    passwordHash: string,
    isAdmin: bool,
    locked: bool,
    lockedDate: Option<string>)

  class Caregiver {
    /** Null until the account has been read back from the database. */
    var pid: Option<int>
    var username: string
    var firstName: string
    var surname: string
    var dateOfBirth: string
    var telephoneNumber: string
    var passwordHash: string
    var isAdmin: bool
    var locked: bool
    var lockedDate: Option<string>

    function View(): CaregiverView
      reads this
    {
      CaregiverView(pid, username, firstName, surname, dateOfBirth, telephoneNumber,
                    passwordHash, isAdmin, locked, lockedDate)
    }

    /**
     * A new account, not yet stored: the plaintext password is replaced by its
     * hash (generatePassword, taken to be hashPassword) and no pid is set.
     */
    constructor NewAccount(sha256: PasswordUtil.Hasher, username: string, firstName: string, surname: string,
                           dateOfBirth: string, telephoneNumber: string, password: string,
                           isAdmin: bool, locked: bool, lockedDate: Option<string>)
      ensures View() == CaregiverView(None, username, firstName, surname, dateOfBirth, telephoneNumber,
                                      PasswordUtil.PasswordHash(sha256, password), isAdmin, locked, lockedDate)
    {
      this.pid := None;
      this.username := username;
      this.firstName := firstName;
      this.surname := surname;
      this.dateOfBirth := dateOfBirth;
      this.telephoneNumber := telephoneNumber;
      this.passwordHash := PasswordUtil.PasswordHash(sha256, password);
      this.isAdmin := isAdmin;
      this.locked := locked;
      this.lockedDate := lockedDate;
    }

    /**
     * An account read from the database: the stored hash is kept verbatim, and
     * the lock columns are not read, so locked is false and lockedDate null.
     */
    constructor FromDatabase(pid: int, username: string, firstName: string, surname: string,
                             dateOfBirth: string, telephoneNumber: string, passwordHash: string, isAdmin: bool)
      ensures View() == CaregiverView(Some(pid), username, firstName, surname, dateOfBirth, telephoneNumber,
                                      passwordHash, isAdmin, false, None)
    {
      this.pid := Some(pid);
      this.username := username;
      this.firstName := firstName;
      this.surname := surname;
      this.dateOfBirth := dateOfBirth;
      this.telephoneNumber := telephoneNumber;
      this.passwordHash := passwordHash;
      this.isAdmin := isAdmin;
      this.locked := false;
      this.lockedDate := None;
    }

    /** getPid: only defined once a pid is set (the Java code dereferences a null property otherwise). */
    function GetPid(): int
      reads this
      requires pid.Some?
    {
      pid.value
    }

    method SetDateOfBirth(dateOfBirth: string)
      modifies this
      ensures View() == old(View()).(dateOfBirth := dateOfBirth)
    {
      this.dateOfBirth := dateOfBirth;
    }

    method SetPasswordHash(passwordHash: string)
      modifies this
      ensures View() == old(View()).(passwordHash := passwordHash)
    {
      this.passwordHash := passwordHash;
    }

    method SetTelephoneNumber(telephoneNumber: string)
      modifies this
      ensures View() == old(View()).(telephoneNumber := telephoneNumber)
    {
      this.telephoneNumber := telephoneNumber;
    }

    method SetIsAdmin(isAdmin: bool)
      modifies this
      ensures View() == old(View()).(isAdmin := isAdmin)
    {
      this.isAdmin := isAdmin;
    }

    method SetUsername(username: string)
      modifies this
      ensures View() == old(View()).(username := username)
    {
      this.username := username;
    }

    method SetLocked(locked: bool)
      modifies this
      ensures View() == old(View()).(locked := locked)
    {
      this.locked := locked;
    }

    method SetLockedDate(lockedDate: Option<string>)
      modifies this
      ensures View() == old(View()).(lockedDate := lockedDate)
    {
      this.lockedDate := lockedDate;
    }

    /** Person.setFirstName */
    method SetFirstName(firstName: string)
      modifies this
      ensures View() == old(View()).(firstName := firstName)
    {
      this.firstName := firstName;
    }

    /** Person.setSurname */
    method SetSurname(surname: string)
      modifies this
      ensures View() == old(View()).(surname := surname)
    {
      this.surname := surname;
    }
  }

  /**
   * The hash a new account stores is a 64-digit lower-case hex text whenever the
   * digest has 32 bytes, and it verifies against the password it was made from.
   */
  lemma NewAccountHashVerifies(sha256: PasswordUtil.Hasher, password: string, v: CaregiverView)
    requires v.passwordHash == PasswordUtil.PasswordHash(sha256, password)
    requires |sha256(password)| == 32
    ensures PasswordUtil.VerifyPassword(sha256, password, v.passwordHash)
    ensures |v.passwordHash| == 64
  {
    PasswordUtil.PasswordHashShape(sha256, password);
  }
}
