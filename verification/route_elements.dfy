/** The three route elements (src/router/PublicRoute.tsx,
    src/router/SuperAdminRoute.tsx, src/router/OrganizarRoute.tsx). Each
    reads the raw `loading` flag of the auth context, not the guard's
    `IsResolving`, and renders a placeholder (Wait), an `<Outlet />` (Allow)
    or a `<Navigate replace />` (Redirect). */
module RouteElements {
  import opened Wrappers
  import opened RouteGuard

  /** Sign-in and sign-up pages: only for visitors without a user. */
  function PublicRoute(v: AuthView): (d: Decision)
    ensures v.loading ==> d == Wait
    ensures !v.loading && v.user.Some? ==> d == Redirect(DashboardPath, true)
    ensures d == Allow <==> !v.loading && v.user.None?
  {
    if v.loading then Wait
    else if v.user.Some? then Redirect(DashboardPath, true)
    else Allow
  }

  /** `profile?.is_superadmin`: false when the profile is null. */
  predicate ProfileIsSuperadmin(v: AuthView)
  {
    v.profile.Some? && v.profile.value.isSuperadmin
  }

  /** Superadmin-only pages. */
  function SuperAdminRoute(v: AuthView): (d: Decision)
    ensures v.loading ==> d == Wait
    ensures !v.loading && v.user.None? ==> d == Redirect(LoginPath, true)
    ensures !v.loading && v.user.Some? && !ProfileIsSuperadmin(v) ==> d == Redirect(DashboardPath, true)
    ensures d == Allow <==> !v.loading && v.user.Some? && ProfileIsSuperadmin(v)
  {
    if v.loading then Wait
    else if v.user.None? then Redirect(LoginPath, true)
    else if !ProfileIsSuperadmin(v) then Redirect(DashboardPath, true)
    else Allow
  }

  /** Organizer pages: everyone signed in except superadmins, including a
      user whose profile has not arrived. */
  function OrganizerRoute(v: AuthView): (d: Decision)
    ensures v.loading ==> d == Wait
    ensures !v.loading && v.user.None? ==> d == Redirect(LoginPath, true)
    ensures !v.loading && v.user.Some? && ProfileIsSuperadmin(v) ==> d == Redirect(SuperAdminHome, true)
    ensures d == Allow <==> !v.loading && v.user.Some? && !ProfileIsSuperadmin(v)
  {
    if v.loading then Wait
    else if v.user.None? then Redirect(LoginPath, true)
    else if ProfileIsSuperadmin(v) then Redirect(SuperAdminHome, true)
    else Allow
  }

  /** PublicRoute never reads the profile. */
  lemma PublicRouteIgnoresProfile(v: AuthView, p: Option<Profile>)
    ensures PublicRoute(v.(profile := p)) == PublicRoute(v)
  {
  }

  /** For a signed-in, non-loading view, SuperAdminRoute and OrganizerRoute
      split the users between them: exactly one of the two lets the user in. */
  lemma AdminAndOrganizerRoutesSplitUsers(v: AuthView)
    requires !v.loading && v.user.Some?
    ensures (SuperAdminRoute(v) == Allow) != (OrganizerRoute(v) == Allow)
  {
  }

  /** Where the route elements and the guard disagree: a signed-in user whose
      profile is still null passes OrganizerRoute while the guard waits. */
  lemma OrganizerRouteAdmitsProfilelessUser(v: AuthView, path: string)
    requires !v.loading && v.user.Some? && v.profile.None?
    ensures OrganizerRoute(v) == Allow
    ensures Decide(v, path) == Wait
  {
  }

  /** Whatever SuperAdminRoute lets through, the guard allows on every
      superadmin page too. */
  lemma SuperAdminRouteAgreesWithGuard(v: AuthView, path: string)
    requires SuperAdminRoute(v) == Allow && IsSuperAdminPath(path)
    ensures Decide(v, path) == Allow
  {
  }
}
