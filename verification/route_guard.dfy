/** The page-access decision of `useRouteGuard` (src/hooks/useRouteGuard.ts):
    a priority-ordered chain over the authentication view and the current
    path, producing Wait, Allow or a redirect. The hook's `useEffect` shell,
    which performs the navigation, is the caller of `Decide`. */
module RouteGuard {
  import opened Wrappers
  import opened Text

  /** The identity-provider user; only its presence and id are ever read. */
  datatype User = User(id: string, email: string)

  /** An `organizers` row. `has_active_code` and `has_active_tournament` are
      nullable columns that the context's own profile type does not declare,
      so absent, null and false are all possible and all read as falsy. */
  datatype Profile = Profile(
    id: string,
    fullName: string,
    email: string,
    organizationName: Option<string>,
    isActive: bool,
    isSuperadmin: bool,
    hasActiveCode: Option<bool>,
    hasActiveTournament: Option<bool>)

  /** What the guard and the route elements read from the auth context. */
  datatype AuthView = AuthView(loading: bool, user: Option<User>, profile: Option<Profile>)

  /** Wait renders a loading state and navigates nowhere; Redirect is one
      `navigate(to, { replace })`. */
  datatype Decision = Wait | Allow | Redirect(to: string, replace: bool)

  const LoginPath := "/login"
  const SignupPath := "/signup"
  const ActivationPath := "/activacion"
  const RequestCodePath := "/solicitar-codigo"
  const SuperAdminHome := "/superadmin"
  const OnboardingPrefix := "/onboarding"
  const OnboardingEntry := "/onboarding/campeonato/datos"
  const DashboardPath := "/dashboard"

  /** `["/login", "/signup"].includes(pathname)`: exact match. */
  predicate IsPublicPath(path: string)
  {
    path == LoginPath || path == SignupPath
  }

  /** `["/activacion", "/solicitar-codigo"].includes(pathname)`: exact match. */
  predicate IsActivationPath(path: string)
  {
    path == ActivationPath || path == RequestCodePath
  }

  predicate IsSuperAdminPath(path: string)
  {
    StartsWith(path, SuperAdminHome)
  }

  predicate IsOnboardingPath(path: string)
  {
    StartsWith(path, OnboardingPrefix)
  }

  /** `loading || (user && !profile)`: the hook's `loading` result. */
  predicate IsResolving(v: AuthView)
  {
    v.loading || (v.user.Some? && v.profile.None?)
  }

  /** A signed-in, resolved view whose profile is present. */
  predicate HasProfile(v: AuthView)
  {
    !IsResolving(v) && v.user.Some? && v.profile.Some?
  }

  predicate IsSuperadmin(v: AuthView)
  {
    HasProfile(v) && v.profile.value.isSuperadmin
  }

  /** Past the superadmin check, still without an active access code. */
  predicate NeedsCode(v: AuthView)
  {
    HasProfile(v) && !v.profile.value.isSuperadmin && !IsTrue(v.profile.value.hasActiveCode)
  }

  /** Has a code, still without an active tournament. */
  predicate NeedsTournament(v: AuthView)
  {
    HasProfile(v) && !v.profile.value.isSuperadmin && IsTrue(v.profile.value.hasActiveCode)
    && !IsTrue(v.profile.value.hasActiveTournament)
  }

  /** Neither superadmin nor missing a code or a tournament. */
  predicate FullyProvisioned(v: AuthView)
  {
    HasProfile(v) && !v.profile.value.isSuperadmin && IsTrue(v.profile.value.hasActiveCode)
    && IsTrue(v.profile.value.hasActiveTournament)
  }

  /** The effect of `useRouteGuard` for one evaluation: first matching rule wins. */
  function Decide(v: AuthView, path: string): (d: Decision)
    // rule 1: wait exactly while resolving
    ensures d == Wait <==> IsResolving(v)
    // every navigation replaces the history entry
    ensures d.Redirect? ==> d.replace
    // rule 2: signed out
    ensures !IsResolving(v) && v.user.None? ==>
              (d == Allow <==> IsPublicPath(path)) && (d != Allow ==> d == Redirect(LoginPath, true))
    // rule 3: superadmin, checked before the code and tournament flags
    ensures IsSuperadmin(v) ==>
              (d == Allow <==> IsSuperAdminPath(path)) && (d != Allow ==> d == Redirect(SuperAdminHome, true))
    // rule 4: no active code
    ensures NeedsCode(v) ==>
              (d == Allow <==> IsActivationPath(path)) && (d != Allow ==> d == Redirect(ActivationPath, true))
    // rule 5: no active tournament
    ensures NeedsTournament(v) ==>
              (d == Allow <==> IsOnboardingPath(path)) && (d != Allow ==> d == Redirect(OnboardingEntry, true))
    // rule 6: fully provisioned users leave the entry flows for the dashboard
    ensures FullyProvisioned(v) ==>
              (d == Redirect(DashboardPath, true) <==> IsPublicPath(path) || IsActivationPath(path) || IsOnboardingPath(path))
              && (d != Redirect(DashboardPath, true) ==> d == Allow)
  {
    if IsResolving(v) then Wait
    else if v.user.None? then
      if IsPublicPath(path) then Allow else Redirect(LoginPath, true)
    else
      var profile := v.profile.value;
      if profile.isSuperadmin then
        if IsSuperAdminPath(path) then Allow else Redirect(SuperAdminHome, true)
      else if !IsTrue(profile.hasActiveCode) then
        if IsActivationPath(path) then Allow else Redirect(ActivationPath, true)
      else if !IsTrue(profile.hasActiveTournament) then
        if IsOnboardingPath(path) then Allow else Redirect(OnboardingEntry, true)
      else if IsPublicPath(path) || IsActivationPath(path) || IsOnboardingPath(path) then
        Redirect(DashboardPath, true)
      else Allow
  }

  /** A resolved view falls under exactly one of the guard's rules 2 to 6. */
  lemma RulesPartitionViews(v: AuthView)
    requires !IsResolving(v)
    ensures v.user.None? || IsSuperadmin(v) || NeedsCode(v) || NeedsTournament(v) || FullyProvisioned(v)
    ensures v.user.None? ==> !HasProfile(v)
    ensures IsSuperadmin(v) ==> !NeedsCode(v) && !NeedsTournament(v) && !FullyProvisioned(v)
    ensures NeedsCode(v) ==> !NeedsTournament(v) && !FullyProvisioned(v)
    ensures NeedsTournament(v) ==> !FullyProvisioned(v)
  {
  }

  /** None of the exact-match paths lies under either prefix, and the two
      prefixes do not overlap. */
  lemma PathTestsDisjoint()
    ensures forall path | IsPublicPath(path) || IsActivationPath(path) ::
              !IsOnboardingPath(path) && !IsSuperAdminPath(path)
    ensures forall path | IsOnboardingPath(path) :: !IsSuperAdminPath(path)
  {
    assert ActivationPath[1] != OnboardingPrefix[1] && ActivationPath[1] != SuperAdminHome[1];
    assert RequestCodePath[1] != OnboardingPrefix[1] && RequestCodePath[2] != SuperAdminHome[2];
    forall path | IsOnboardingPath(path) ensures !IsSuperAdminPath(path) {
      assert path[1] == OnboardingPrefix[1] != SuperAdminHome[1];
    }
  }

  /** The static classification of routes the guard's tests amount to. */
  datatype PathClass = Public | Activation | Onboarding | SuperAdmin | Other

  function ClassOf(path: string): (c: PathClass)
    ensures c == Public <==> IsPublicPath(path)
    ensures c == Activation <==> IsActivationPath(path)
    ensures c == Onboarding <==> IsOnboardingPath(path)
    ensures c == SuperAdmin <==> IsSuperAdminPath(path)
  {
    PathTestsDisjoint();
    if IsPublicPath(path) then Public
    else if IsActivationPath(path) then Activation
    else if IsOnboardingPath(path) then Onboarding
    else if IsSuperAdminPath(path) then SuperAdmin
    else Other
  }

  /** The guard as a decision table over path classes: an independent
      statement of the same priority order. */
  function DecideByClass(v: AuthView, c: PathClass): Decision
  {
    if v.loading || (v.user.Some? && v.profile.None?) then Wait
    else if v.user.None? then (if c == Public then Allow else Redirect(LoginPath, true))
    else if v.profile.value.isSuperadmin then (if c == SuperAdmin then Allow else Redirect(SuperAdminHome, true))
    else if v.profile.value.hasActiveCode != Some(true) then (if c == Activation then Allow else Redirect(ActivationPath, true))
    else if v.profile.value.hasActiveTournament != Some(true) then (if c == Onboarding then Allow else Redirect(OnboardingEntry, true))
    else if c in {Public, Activation, Onboarding} then Redirect(DashboardPath, true)
    else Allow
  }

  /** The guard depends on the path only through its class. */
  lemma DecideFollowsClassTable(v: AuthView, path: string)
    ensures Decide(v, path) == DecideByClass(v, ClassOf(path))
  {
  }

  /** Loop-freedom: for a fixed view, the target of any redirect is a path the
      same view allows, so one navigation always settles. */
  lemma RedirectTargetsAreAllowed(v: AuthView, path: string)
    ensures Decide(v, path).Redirect? ==> Decide(v, Decide(v, path).to) == Allow
  {
    var d := Decide(v, path);
    if d.Redirect? {
      assert StartsWith(SuperAdminHome, SuperAdminHome);
      assert OnboardingEntry[..|OnboardingPrefix|] == OnboardingPrefix;
    }
  }

  /** The decision reads the user only for its presence. */
  lemma DecideIgnoresUserIdentity(v: AuthView, u: User, path: string)
    requires v.user.Some?
    ensures Decide(v.(user := Some(u)), path) == Decide(v, path)
  {
  }

  /** Rule 3 precedes rule 4: a superadmin without an active code is sent to
      the superadmin home even from the activation page. */
  lemma SuperadminCheckedBeforeCode(v: AuthView)
    requires !v.loading && v.user.Some? && v.profile.Some?
    requires v.profile.value.isSuperadmin && !IsTrue(v.profile.value.hasActiveCode)
    ensures Decide(v, ActivationPath) == Redirect(SuperAdminHome, true)
  {
    PathTestsDisjoint();
  }
}
