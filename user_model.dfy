/**
 * The User record of the users table: login name, hash, names, the admin and
 * active flags, and two timestamps kept as text in which null reads as "".
 */
module UserModel {
  import opened JavaLang

  /** Every field of a User at one moment; the setters are specified against it. */
  datatype UserView = UserView(
    uid: Option<int>,
    username: string,
    passwordHash: string,
    firstName: string,
    lastName: string,
    isAdmin: bool,
    isActive: bool,
    createdAt: string,
    lastLogin: string)

  const AdministratorRole: string := "Administrator"
  const CaregiverRole: string := "Pfleger"

  class User {
    /** Null for a user not yet stored. */
    var uid: Option<int>
    var username: string
    var passwordHash: string
    var firstName: string
    var lastName: string
    var isAdmin: bool
    var isActive: bool
    var createdAt: string
    var lastLogin: string

    function View(): UserView
      reads this
    {
      UserView(uid, username, passwordHash, firstName, lastName, isAdmin, isActive, createdAt, lastLogin)
    }

    /** A new user: no uid, and both timestamps "". */
    constructor New(username: string, passwordHash: string, firstName: string, lastName: string,
                    isAdmin: bool, isActive: bool)
      ensures View() == UserView(None, username, passwordHash, firstName, lastName, isAdmin, isActive, "", "")
    {
      this.uid := None;
      this.username := username;
      this.passwordHash := passwordHash;
      this.firstName := firstName;
      this.lastName := lastName;
      this.isAdmin := isAdmin;
      this.isActive := isActive;
      this.createdAt := "";
      this.lastLogin := "";
    }

    /** A stored user: a null createdAt or lastLogin is kept as "". */
    constructor FromDatabase(uid: int, username: string, passwordHash: string, firstName: string, lastName: string,
                             isAdmin: bool, isActive: bool, createdAt: Option<string>, lastLogin: Option<string>)
      ensures View() == UserView(Some(uid), username, passwordHash, firstName, lastName, isAdmin, isActive,
                                 OrEmpty(createdAt), OrEmpty(lastLogin))
    {
      this.uid := Some(uid);
      this.username := username;
      this.passwordHash := passwordHash;
      this.firstName := firstName;
      this.lastName := lastName;
      this.isAdmin := isAdmin;
      this.isActive := isActive;
      this.createdAt := if createdAt.Some? then createdAt.value else "";
      this.lastLogin := if lastLogin.Some? then lastLogin.value else "";
    }

    /** getUid: the stored uid, or the sentinel -1 for a user without one. */
    function GetUid(): (id: int)
      reads this
      ensures uid.Some? ==> id == uid.value
      ensures uid.None? ==> id == -1
    {
      match uid
      case Some(v) => v
      case None => -1
    }

    /** getFullName: the first name, one space, the last name. */
    function GetFullName(): (fullName: string)
      reads this
      ensures |fullName| == |firstName| + 1 + |lastName|
      ensures fullName[..|firstName|] == firstName
      ensures fullName[|firstName|] == ' '
      ensures fullName[|firstName| + 1..] == lastName
    {
      firstName + " " + lastName
    }

    /** getRole: "Administrator" exactly for administrators, "Pfleger" exactly for everyone else. */
    function GetRole(): (role: string)
      reads this
      ensures role == AdministratorRole <==> isAdmin
      ensures role == CaregiverRole <==> !isAdmin
    {
      if isAdmin then AdministratorRole else CaregiverRole
    }

    method SetUsername(username: string)
      modifies this
      ensures View() == old(View()).(username := username)
    {
      this.username := username;
    }

    method SetPasswordHash(passwordHash: string)
      modifies this
      ensures View() == old(View()).(passwordHash := passwordHash)
    {
      this.passwordHash := passwordHash;
    }

    method SetFirstName(firstName: string)
      modifies this
      ensures View() == old(View()).(firstName := firstName)
    {
      this.firstName := firstName;
    }

    method SetLastName(lastName: string)
      modifies this
      ensures View() == old(View()).(lastName := lastName)
    {
      this.lastName := lastName;
    }

    method SetAdmin(isAdmin: bool)
      modifies this
      ensures View() == old(View()).(isAdmin := isAdmin)
    {
      this.isAdmin := isAdmin;
    }

    method SetActive(isActive: bool)
      modifies this
      ensures View() == old(View()).(isActive := isActive)
    {
      this.isActive := isActive;
    }

    /** setLastLogin: null is stored as "". */
    method SetLastLogin(lastLogin: Option<string>)
      modifies this
      ensures View() == old(View()).(lastLogin := OrEmpty(lastLogin))
    {
      this.lastLogin := if lastLogin.Some? then lastLogin.value else "";
    }
  }
}
