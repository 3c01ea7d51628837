/** The guard around every signed-in page of the web app
    (frontend/src/utilities/ProtectedRoute.jsx): a spinner while the session
    is being restored, then the login page for visitors, the no-buildings page
    for a regular user without a building, the unauthorized page for a role
    the route does not list, and the page itself otherwise. */
module RouteGuard {
  import opened Common
  import opened Session

  datatype View = Spinner | Redirect(to: string) | Render

  const NoBuildingsPath: string := "/no-buildings"
  const UnauthorizedPath: string := "/unauthorized"

  /** `!user.buildings || user.buildings.length == 0`. */
  predicate NoBuildings(u: User) {
    u.buildings.None? || |u.buildings.value| == 0
  }

  /** The guard's decision; `roles` is absent when the route lists none. */
  function Guard(user: Option<User>, loading: bool, roles: Option<seq<string>>): (v: View)
    ensures v == Spinner <==> loading
    ensures v == Redirect(LoginPath) <==> !loading && user.None?
    ensures v == Render ==> user.Some? && (roles.Some? ==> user.value.userType in roles.value)
    ensures v == Render && user.Some? && user.value.userType == Regular ==> !NoBuildings(user.value)
  {
    if loading then Spinner
    else if user.None? then Redirect(LoginPath)
    else if HasRole(user, Regular) && NoBuildings(user.value) then Redirect(NoBuildingsPath)
    else if roles.Some? && user.value.userType !in roles.value then Redirect(UnauthorizedPath)
    else Render
  }

  /** Who may see a guarded page, stated apart from the guard's order of
      tests: a user whose role the route admits (every role when it lists
      none) and who, being a regular user, has at least one building. */
  predicate Admitted(u: User, roles: Option<seq<string>>) {
    (u.userType == Regular ==> !NoBuildings(u))
    && (roles.Some? ==> u.userType in roles.value)
  }

  /** The page renders exactly for an admitted, signed-in user once loading
      is over. */
  lemma RenderIffAdmitted(user: Option<User>, loading: bool, roles: Option<seq<string>>)
    ensures Guard(user, loading, roles) == Render <==> !loading && user.Some? && Admitted(user.value, roles)
  {
  }

  /** Every decision is one of the five outcomes, and each redirect has its reason. */
  lemma RedirectReasons(user: Option<User>, loading: bool, roles: Option<seq<string>>)
    ensures Guard(user, loading, roles) == Spinner <==> loading
    ensures Guard(user, loading, roles) == Redirect(LoginPath) <==> !loading && user.None?
    ensures Guard(user, loading, roles) == Redirect(NoBuildingsPath) ==>
      user.Some? && user.value.userType == Regular && NoBuildings(user.value)
    ensures Guard(user, loading, roles) == Redirect(UnauthorizedPath) ==>
      user.Some? && roles.Some? && user.value.userType !in roles.value
    ensures Guard(user, loading, roles) in {Spinner, Redirect(LoginPath), Redirect(NoBuildingsPath),
                                            Redirect(UnauthorizedPath), Render}
  {
  }

  /** A regular user without buildings reaches no guarded page, whatever
      roles the route lists: the building test comes before the role test. */
  lemma NoBuildingsWins(u: User, roles: Option<seq<string>>)
    requires u.userType == Regular && NoBuildings(u)
    ensures Guard(Some(u), false, roles) == Redirect(NoBuildingsPath)
  {
  }

  /** Buildings matter only to regular users. */
  lemma BuildingsIrrelevantForOtherRoles(u: User, b: Option<seq<BuildingRef>>, roles: Option<seq<string>>)
    requires u.userType != Regular
    ensures Guard(Some(u), false, roles) == Guard(Some(u.(buildings := b)), false, roles)
  {
  }

  /** A regular user with a building is sent away from an admin-only route. */
  lemma RegularOnAdminRoute(u: User)
    requires u.userType == Regular && !NoBuildings(u)
    ensures Guard(Some(u), false, Some([Admin])) == Redirect(UnauthorizedPath)
  {
  }
}
