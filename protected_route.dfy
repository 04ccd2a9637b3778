/**
 * The guard around every back-office page. It holds the session, the result
 * of the admin-role check and a loading flag, and decides from them what to
 * render. The two auth callbacks start a role check that completes later, so
 * each returns the user id it is pending for; the completion is its own step.
 */
module ProtectedRoute {
  import opened Types

  datatype Screen = Loading | RedirectToAuth | RedirectToUnauthorized | Children

  /** The render: loading first, then no session, then `isAdmin === false`. */
  function Decide(loading: bool, session: Option<Id>, isAdmin: Option<bool>): (s: Screen)
    ensures s == Children <==> !loading && session.Some? && isAdmin != Some(false)
    ensures s == RedirectToUnauthorized <==> !loading && session.Some? && isAdmin == Some(false)
    ensures s == RedirectToAuth <==> !loading && session.None?
  {
    if loading then Loading
    else if session.None? then RedirectToAuth
    else if isAdmin == Some(false) then RedirectToUnauthorized
    else Children
  }

  /** `user_roles` filtered by `user_id` and `role = "admin"`, then `!!data`. */
  function HasAdminRole(roles: set<(Id, string)>, user: Id): (found: bool)
    ensures found <==> (user, "admin") in roles
  {
    (user, "admin") in roles
  }

  /** Once the role check has completed for the signed-in user, the children render exactly for an admin. */
  lemma AdmittedIffAdmin(roles: set<(Id, string)>, user: Id)
    ensures Decide(false, Some(user), Some(HasAdminRole(roles, user))) == Children <==> (user, "admin") in roles
  {
  }

  /**
   * The test is `isAdmin === false`, not `!isAdmin`: a signed-in session whose
   * role check has not completed yet is let through once loading is off.
   */
  lemma UncheckedSessionAdmitted(user: Id)
    ensures Decide(false, Some(user), None) == Children
  {
  }

  class RouteGuard {
    var session: Option<Id>
    var isAdmin: Option<bool>
    var loading: bool

    constructor()
      ensures session == None && isAdmin == None && loading
      ensures Render() == Loading
    {
      session := None;
      isAdmin := None;
      loading := true;
    }

    function Render(): Screen
      reads this
    {
      Decide(loading, session, isAdmin)
    }

    /** `onAuthStateChange`: with a session a role check starts; without one the guard stops loading and denies. */
    method OnAuthStateChange(s: Option<Id>) returns (pending: Option<Id>)
      modifies this
      ensures session == s && pending == s
      ensures s.None? ==> isAdmin == Some(false) && !loading && Render() == RedirectToAuth
      ensures s.Some? ==> isAdmin == old(isAdmin) && loading == old(loading)
    {
      session := s;
      pending := s;
      if s.None? {
        isAdmin := Some(false);
        loading := false;
      }
    }

    /** `getSession().then(...)`: like the listener, except that without a session `isAdmin` is left alone. */
    method OnInitialSession(s: Option<Id>) returns (pending: Option<Id>)
      modifies this
      ensures session == s && pending == s && isAdmin == old(isAdmin)
      ensures s.None? ==> !loading && Render() == RedirectToAuth
      ensures s.Some? ==> loading == old(loading)
    {
      session := s;
      pending := s;
      if s.None? {
        loading := false;
      }
    }

    /**
     * `checkAdminRole` completing for `user`: an admin exactly when the
     * lookup succeeds and finds the role; a lookup that throws counts as not
     * an admin. Whatever the outcome, loading ends.
     */
    method CompleteRoleCheck(roles: set<(Id, string)>, user: Id, queryOk: bool)
      modifies this
      ensures isAdmin == Some(queryOk && HasAdminRole(roles, user)) && !loading && session == old(session)
      ensures session.Some? ==> (Render() == Children <==> queryOk && (user, "admin") in roles)
    {
      isAdmin := Some(queryOk && HasAdminRole(roles, user));
      loading := false;
    }
  }
}
