/** The session state machine of `AuthProvider` (src/context/AuthContext.tsx).
    Each handler (the auth-change callback, the one-shot restore, logout) is
    one atomic transition; every remote call's outcome is an input. The
    interleaving of `await`s between handlers is not modelled, and neither is
    any stale-result check, because the code has none. */
module AuthSession {
  import opened Wrappers
  import opened RouteGuard

  /** The provider's React state (`user`, `profile`, `loading`) and its two
      refs (`initialRestoreDone`, `lastFetchedId`). */
  datatype Session = Session(
    user: Option<User>,
    profile: Option<Profile>,
    loading: bool,
    initialRestoreDone: bool,
    lastFetchedId: Option<string>)

  /** State at mount. */
  const Initial := Session(None, None, true, false, None)

  /** The outcome of one `organizers` lookup by id: an error result or a thrown
      exception (both `Failed`), no row, or a row. */
  datatype Lookup = Failed | NotFound | Found(row: Profile)

  /** The outcome of `supabase.auth.getUser()` during restore. */
  datatype GetUser = GetUserError | GetUserThrew | GetUserOk(user: Option<User>)

  /** Whether `supabase.auth.signOut()` resolved or threw. */
  datatype SignOut = SignOutOk | SignOutThrew

  /** The events of `onAuthStateChange`; only `SIGNED_OUT` is distinguished. */
  datatype AuthEvent = InitialSession | SignedIn | SignedOut | TokenRefreshed | UserUpdated | PasswordRecovery

  /** A handler's effect: the next state, and the id it looked up, if any. */
  datatype Step = Step(next: Session, lookedUp: Option<string>)

  /** What `loadProfile` returns and leaves in `lastFetchedId`. */
  datatype Loaded = Loaded(profile: Option<Profile>, lastFetchedId: Option<string>)

  /** `loadProfile`: never throws. A failure yields null and leaves the dedupe
      id alone; a success records the row's id, or null when there is no row. */
  function LoadProfile(lastFetchedId: Option<string>, lookup: Lookup): (r: Loaded)
    ensures r.profile.Some? <==> lookup.Found?
    ensures lookup.Found? ==> r.profile == Some(lookup.row) && r.lastFetchedId == Some(lookup.row.id)
    ensures lookup.Failed? ==> r.lastFetchedId == lastFetchedId
    ensures lookup.NotFound? ==> r.lastFetchedId == None
  {
    match lookup
    case Failed => Loaded(None, lastFetchedId)
    case NotFound => Loaded(None, None)
    case Found(row) => Loaded(Some(row), Some(row.id))
  }

  /** The `onAuthStateChange` callback. `lookup` is what the profile lookup
      would return; it is read only when a lookup is issued. */
  function OnAuthChange(s: Session, event: AuthEvent, sessionUser: Option<User>, lookup: Lookup): (r: Step)
    // before restore, only SIGNED_OUT has an effect
    ensures !s.initialRestoreDone && event == SignedOut ==>
              r.next == s.(user := None, profile := None, loading := false)
    ensures !s.initialRestoreDone && event != SignedOut ==> r.next == s
    ensures !s.initialRestoreDone ==> r.lookedUp == None
    // after restore, the session user is adopted and loading ends
    ensures s.initialRestoreDone ==> r.next.user == sessionUser && !r.next.loading
    // a known id reuses the current profile without a lookup
    ensures s.initialRestoreDone && sessionUser.Some? && s.lastFetchedId == Some(sessionUser.value.id) ==>
              r.next.profile == s.profile && r.next.lastFetchedId == s.lastFetchedId && r.lookedUp == None
    // a new id is looked up, and the result (or null) replaces the profile
    ensures s.initialRestoreDone && sessionUser.Some? && s.lastFetchedId != Some(sessionUser.value.id) ==>
              r.lookedUp == Some(sessionUser.value.id)
              && r.next.profile == (if lookup.Found? then Some(lookup.row) else None)
              && r.next.lastFetchedId == (match lookup
                                          case Failed => s.lastFetchedId
                                          case NotFound => None
                                          case Found(row) => Some(row.id))
    // no user: profile cleared, dedupe id kept
    ensures s.initialRestoreDone && sessionUser.None? ==>
              r.next.profile == None && r.next.lastFetchedId == s.lastFetchedId && r.lookedUp == None
    ensures r.next.initialRestoreDone == s.initialRestoreDone
  {
    if !s.initialRestoreDone then
      if event == SignedOut then Step(s.(user := None, profile := None, loading := false), None)
      else Step(s, None)
    else
      match sessionUser
      case None => Step(s.(user := None, profile := None, loading := false), None)
      case Some(u) =>
        if s.lastFetchedId != Some(u.id) then
          var loaded := LoadProfile(s.lastFetchedId, lookup);
          Step(s.(user := Some(u), profile := loaded.profile, lastFetchedId := loaded.lastFetchedId, loading := false),
               Some(u.id))
        else
          Step(s.(user := Some(u), loading := false), None)
  }

  /** `restoreSession`: whatever `getUser` does, it ends with loading false and
      the restore marked done. A user found is always looked up, without
      consulting the dedupe id. */
  function Restore(s: Session, getUser: GetUser, lookup: Lookup): (r: Step)
    ensures !r.next.loading && r.next.initialRestoreDone
    ensures !(getUser.GetUserOk? && getUser.user.Some?) ==>
              r.next == s.(loading := false, initialRestoreDone := true) && r.lookedUp == None
    ensures getUser.GetUserOk? && getUser.user.Some? ==>
              r.next.user == getUser.user && r.lookedUp == Some(getUser.user.value.id)
              && r.next.profile == (if lookup.Found? then Some(lookup.row) else None)
              && r.next.lastFetchedId == (match lookup
                                          case Failed => s.lastFetchedId
                                          case NotFound => None
                                          case Found(row) => Some(row.id))
  {
    match getUser
    case GetUserError => Step(s.(loading := false, initialRestoreDone := true), None)
    case GetUserThrew => Step(s.(loading := false, initialRestoreDone := true), None)
    case GetUserOk(None) => Step(s.(loading := false, initialRestoreDone := true), None)
    case GetUserOk(Some(u)) =>
      var loaded := LoadProfile(s.lastFetchedId, lookup);
      Step(s.(user := Some(u), profile := loaded.profile, lastFetchedId := loaded.lastFetchedId,
              loading := false, initialRestoreDone := true),
           Some(u.id))
  }

  /** `logout`: clears user, profile and the dedupe id even when `signOut`
      throws, and leaves `loading` and `initialRestoreDone` alone. */
  function Logout(s: Session, signOut: SignOut): (r: Step)
    ensures r.next.user.None? && r.next.profile.None? && r.next.lastFetchedId.None?
    ensures r.next.loading == s.loading && r.next.initialRestoreDone == s.initialRestoreDone
    ensures r.lookedUp == None
  {
    Step(s.(user := None, profile := None, lastFetchedId := None), None)
  }

  /** What the guard and route elements read. */
  function View(s: Session): AuthView
  {
    AuthView(s.loading, s.user, s.profile)
  }

  /** One input to the provider. */
  datatype Input =
    | Change(event: AuthEvent, sessionUser: Option<User>, lookup: Lookup)
    | RestoreDone(getUser: GetUser, lookup: Lookup)
    | LogoutCall(signOut: SignOut)

  function Apply(s: Session, i: Input): Session
  {
    match i
    case Change(e, u, l) => OnAuthChange(s, e, u, l).next
    case RestoreDone(g, l) => Restore(s, g, l).next
    case LogoutCall(o) => Logout(s, o).next
  }

  function Run(s: Session, inputs: seq<Input>): Session
    decreases |inputs|
  {
    if inputs == [] then s else Run(Apply(s, inputs[0]), inputs[1..])
  }

  /** The lookup an input carries answers for the user it was issued for:
      the query filters on `id`, so a row found has that id. */
  predicate WellKeyed(i: Input)
  {
    match i
    case Change(_, u, l) => u.Some? && l.Found? ==> l.row.id == u.value.id
    case RestoreDone(g, l) => g.GetUserOk? && g.user.Some? && l.Found? ==> l.row.id == g.user.value.id
    case LogoutCall(_) => true
  }

  /** A stored profile belongs to the current user and is the one the dedupe
      id names. */
  predicate Consistent(s: Session)
  {
    s.profile.Some? ==>
      s.user.Some? && s.profile.value.id == s.user.value.id && s.lastFetchedId == Some(s.profile.value.id)
  }

  lemma ApplyPreservesConsistent(s: Session, i: Input)
    requires Consistent(s) && WellKeyed(i)
    ensures Consistent(Apply(s, i))
  {
  }

  /** Along any run of well-keyed inputs from mount, a non-null profile always
      belongs to the current user and is the one last fetched. */
  lemma {:induction false} RunPreservesConsistent(s: Session, inputs: seq<Input>)
    requires Consistent(s)
    requires forall k | 0 <= k < |inputs| :: WellKeyed(inputs[k])
    ensures Consistent(Run(s, inputs))
    decreases |inputs|
  {
    if inputs != [] {
      ApplyPreservesConsistent(s, inputs[0]);
      RunPreservesConsistent(Apply(s, inputs[0]), inputs[1..]);
    }
  }

  /** `initialRestoreDone` is never reset, and loading never comes back once
      the restore is done. */
  lemma {:induction false} RestoreDoneIsPermanent(s: Session, inputs: seq<Input>)
    requires s.initialRestoreDone && !s.loading
    ensures Run(s, inputs).initialRestoreDone && !Run(s, inputs).loading
    decreases |inputs|
  {
    if inputs != [] {
      RestoreDoneIsPermanent(Apply(s, inputs[0]), inputs[1..]);
    }
  }

  /** Before the restore, nothing ever looks a profile up, so no profile and
      no dedupe id can exist. */
  lemma {:induction false} NothingFetchedBeforeRestore(inputs: seq<Input>)
    requires forall k | 0 <= k < |inputs| :: !inputs[k].RestoreDone?
    ensures Run(Initial, inputs).profile.None? && Run(Initial, inputs).lastFetchedId.None?
    ensures !Run(Initial, inputs).initialRestoreDone
  {
    var s := Initial;
    var k := 0;
    while k < |inputs|
      invariant 0 <= k <= |inputs|
      invariant Run(Initial, inputs) == Run(s, inputs[k..])
      invariant s.profile.None? && s.lastFetchedId.None? && !s.initialRestoreDone
    {
      assert inputs[k..][1..] == inputs[k + 1..];
      s := Apply(s, inputs[k]);
      k := k + 1;
    }
    assert inputs[k..] == [];
  }

  /** After logout the guard either lets the page through or sends the
      visitor to the login page, unless the restore is still pending. */
  lemma LogoutLeadsToLoginOrPublic(s: Session, o: SignOut, path: string)
    requires !s.loading
    ensures var d := Decide(View(Logout(s, o).next), path);
            d == Allow || d == Redirect(LoginPath, true)
  {
  }
}
