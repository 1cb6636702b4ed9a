/**
 * The login session: one slot holding the caregiver who is logged in, reached
 * through a lazily created single instance.
 */
module SessionService {
  import opened CaregiverModel

  class Session {
    /** The caregiver who is logged in, or null. */
    var loggedInCaregiver: Caregiver?

    /** The private constructor: nobody is logged in. */
    constructor ()
      ensures loggedInCaregiver == null
      ensures !IsLoggedIn()
    {
      loggedInCaregiver := null;
    }

    function GetLoggedInCaregiver(): Caregiver?
      reads this
    {
      loggedInCaregiver
    }

    /** Overwrites whatever caregiver was logged in before. */
    method SetLoggedInCaregiver(caregiver: Caregiver?)
      modifies this
      ensures GetLoggedInCaregiver() == caregiver
      ensures IsLoggedIn() <==> caregiver != null
    {
      loggedInCaregiver := caregiver;
    }

    method Logout()
      modifies this
      ensures GetLoggedInCaregiver() == null
      ensures !IsLoggedIn() && !IsCurrentUserAdmin()
    {
      loggedInCaregiver := null;
    }

    predicate IsLoggedIn()
      reads this
    {
      loggedInCaregiver != null
    }

    /** An administrator is logged in: read from the caregiver's current admin flag. */
    predicate IsCurrentUserAdmin()
      reads this, loggedInCaregiver
      ensures IsCurrentUserAdmin() ==> IsLoggedIn()
      ensures IsCurrentUserAdmin() <==> IsLoggedIn() && GetLoggedInCaregiver().isAdmin
    {
      loggedInCaregiver != null && loggedInCaregiver.isAdmin
    }
  }

  /** The class-level `instance` slot of Session. */
  class SessionHolder {
    var instance: Session?

    constructor ()
      ensures instance == null
    {
      instance := null;
    }

    /** getInstance: creates the session on the first call and returns that same one afterwards. */
    method GetInstance() returns (session: Session)
      modifies this
      ensures instance == session
      ensures old(instance) != null ==> session == old(instance)
      ensures old(instance) == null ==> fresh(session) && !session.IsLoggedIn()
    {
      if instance == null {
        instance := new Session();
      }
      session := instance;
    }
  }

  /**
   * A client run: the instance is shared, logging in overwrites, logging out twice
   * is logging out once, and setting null is logging out.
   */
  method SessionLifecycle(holder: SessionHolder, nurse: Caregiver, admin: Caregiver)
    requires !nurse.isAdmin && admin.isAdmin
    modifies holder, holder.instance
  {
    var s1 := holder.GetInstance();
    var s2 := holder.GetInstance();
    assert s1 == s2;

    s1.SetLoggedInCaregiver(nurse);
    assert s1.IsLoggedIn() && !s1.IsCurrentUserAdmin();
    s1.SetLoggedInCaregiver(admin);
    assert s1.GetLoggedInCaregiver() == admin && s1.IsCurrentUserAdmin();

    s1.Logout();
    var afterOnce := s1.GetLoggedInCaregiver();
    s1.Logout();
    assert s1.GetLoggedInCaregiver() == afterOnce == null;

    s1.SetLoggedInCaregiver(admin);
    s1.SetLoggedInCaregiver(null);
    assert !s1.IsLoggedIn() && !s1.IsCurrentUserAdmin();
  }
}
