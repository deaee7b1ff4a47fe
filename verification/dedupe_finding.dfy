/** The dedupe id of `AuthProvider` is meant to name the user whose profile is
    already held, so that a repeat event for that user can skip the lookup; the
    logout handler clears it "to force a reload on the next sign-in". Two paths
    leave it naming an id whose profile is no longer held: a sign-out event that
    does not come through `logout`, and a failed lookup. A later event for that
    id then skips the lookup and the profile stays null, which the guard reads
    as "still resolving" on every path. */
module DedupeFinding {
  import opened Wrappers
  import opened RouteGuard
  import opened AuthSession

  /** As written: restore signs `u` in, a `SIGNED_OUT` event arrives (session
      expiry, another tab), then `u` signs in again with a lookup that would
      succeed. The lookup is skipped, the profile stays null and the guard
      waits on every path; further events for `u` never recover. */
  lemma ExternalSignOutStrandsSession(u: User, p: Profile, path: string, e: AuthEvent)
    requires p.id == u.id
    ensures var s1 := Restore(Initial, GetUserOk(Some(u)), Found(p)).next;
            var s2 := OnAuthChange(s1, SignedOut, None, Found(p)).next;
            var s3 := OnAuthChange(s2, SignedIn, Some(u), Found(p));
            && s1.profile == Some(p)
            && s3.lookedUp == None
            && s3.next.user == Some(u) && s3.next.profile == None
            && Decide(View(s3.next), path) == Wait
            && OnAuthChange(s3.next, e, Some(u), Found(p)).next == s3.next
  {
  }

  /** As written: restore signs `u` in with its profile, the session switches
      to another user `v` whose lookup fails (the id of `u` is kept), then `u`
      signs in again with a lookup that would succeed. The lookup is skipped,
      the profile stays null and the guard waits on every path; further
      events for `u` never recover. */
  lemma FailedLookupStrandsSession(u: User, v: User, p: Profile, path: string, e: AuthEvent)
    requires p.id == u.id && v.id != u.id
    ensures var s1 := Restore(Initial, GetUserOk(Some(u)), Found(p)).next;
            var s2 := OnAuthChange(s1, SignedIn, Some(v), Failed);
            var s3 := OnAuthChange(s2.next, SignedIn, Some(u), Found(p));
            && s1.profile == Some(p)
            && s2.lookedUp == Some(v.id) && s2.next.profile == None
            && s2.next.lastFetchedId == Some(u.id)
            && s3.lookedUp == None
            && s3.next.user == Some(u) && s3.next.profile == None
            && Decide(View(s3.next), path) == Wait
            && OnAuthChange(s3.next, e, Some(u), Found(p)).next == s3.next
  {
  }

  /** `loadProfile` with the dedupe id cleared whenever no profile results. */
  function LoadProfileIntended(lookup: Lookup): (r: Loaded)
    ensures r.profile.Some? <==> lookup.Found?
    ensures r.lastFetchedId.Some? <==> lookup.Found?
    ensures lookup.Found? ==> r.profile == Some(lookup.row) && r.lastFetchedId == Some(lookup.row.id)
  {
    match lookup
    case Found(row) => Loaded(Some(row), Some(row.id))
    case _ => Loaded(None, None)
  }

  /** The callback with both corrections: a user-less event forgets the dedupe
      id as logout does, and a failed lookup does not keep a stale one. */
  function OnAuthChangeIntended(s: Session, event: AuthEvent, sessionUser: Option<User>, lookup: Lookup): (r: Step)
    ensures !s.initialRestoreDone ==> r == OnAuthChange(s, event, sessionUser, lookup)
    ensures s.initialRestoreDone ==> r.next.user == sessionUser && !r.next.loading
    ensures s.initialRestoreDone && sessionUser.None? ==> r.next.profile == None && r.next.lastFetchedId == None
  {
    if !s.initialRestoreDone then OnAuthChange(s, event, sessionUser, lookup)
    else
      match sessionUser
      case None => Step(s.(user := None, profile := None, loading := false, lastFetchedId := None), None)
      case Some(u) =>
        if s.lastFetchedId != Some(u.id) then
          var loaded := LoadProfileIntended(lookup);
          Step(s.(user := Some(u), profile := loaded.profile, lastFetchedId := loaded.lastFetchedId, loading := false),
               Some(u.id))
        else
          Step(s.(user := Some(u), loading := false), None)
  }

  /** `restoreSession` using the corrected loader. */
  function RestoreIntended(s: Session, getUser: GetUser, lookup: Lookup): (r: Step)
    ensures !r.next.loading && r.next.initialRestoreDone
    ensures getUser.GetUserOk? && getUser.user.Some? ==>
              r.next.user == getUser.user && r.lookedUp == Some(getUser.user.value.id)
              && r.next.profile == (if lookup.Found? then Some(lookup.row) else None)
              && r.next.lastFetchedId == (if lookup.Found? then Some(lookup.row.id) else None)
    ensures !(getUser.GetUserOk? && getUser.user.Some?) ==> r == Restore(s, getUser, lookup)
  {
    match getUser
    case GetUserOk(Some(u)) =>
      var loaded := LoadProfileIntended(lookup);
      Step(s.(user := Some(u), profile := loaded.profile, lastFetchedId := loaded.lastFetchedId,
              loading := false, initialRestoreDone := true),
           Some(u.id))
    case _ => Restore(s, getUser, lookup)
  }

  function ApplyIntended(s: Session, i: Input): Session
  {
    match i
    case Change(e, u, l) => OnAuthChangeIntended(s, e, u, l).next
    case RestoreDone(g, l) => RestoreIntended(s, g, l).next
    case LogoutCall(o) => Logout(s, o).next
  }

  /** The intended meaning of the dedupe id: it names exactly the user whose
      profile is held, and nothing is recorded before the restore. */
  predicate DedupeSound(s: Session)
  {
    && Consistent(s)
    && (!s.initialRestoreDone ==> s.lastFetchedId.None?)
    && (s.lastFetchedId.Some? ==> s.profile.Some? && s.profile.value.id == s.lastFetchedId.value)
  }

  lemma ApplyIntendedPreservesDedupeSound(s: Session, i: Input)
    requires DedupeSound(s) && WellKeyed(i)
    ensures DedupeSound(ApplyIntended(s, i))
  {
  }

  /** Corrected: after the restore, an event carrying user `u` whose profile
      row exists always leaves that profile in place, so the guard stops
      waiting. */
  lemma IntendedNeverStrands(s: Session, e: AuthEvent, u: User, p: Profile, path: string)
    requires DedupeSound(s) && s.initialRestoreDone
    requires p.id == u.id
    ensures var r := OnAuthChangeIntended(s, e, Some(u), Found(p)).next;
            r.profile.Some? && r.profile.value.id == u.id && Decide(View(r), path) != Wait
  {
  }

  /** The corrected restore of a user whose row exists ends the wait too. */
  lemma RestoreIntendedNeverStrands(s: Session, u: User, p: Profile, path: string)
    requires p.id == u.id
    ensures var r := RestoreIntended(s, GetUserOk(Some(u)), Found(p)).next;
            r.profile == Some(p) && r.lastFetchedId == Some(u.id) && Decide(View(r), path) != Wait
  {
  }

  /** Starting from mount, every state the corrected handlers reach keeps the
      dedupe id sound. */
  lemma {:induction false} IntendedRunsStaySound(s: Session, inputs: seq<Input>)
    requires DedupeSound(s)
    requires forall k | 0 <= k < |inputs| :: WellKeyed(inputs[k])
    ensures DedupeSound(RunIntended(s, inputs))
    decreases |inputs|
  {
    if inputs != [] {
      ApplyIntendedPreservesDedupeSound(s, inputs[0]);
      IntendedRunsStaySound(ApplyIntended(s, inputs[0]), inputs[1..]);
    }
  }

  function RunIntended(s: Session, inputs: seq<Input>): Session
    decreases |inputs|
  {
    if inputs == [] then s else RunIntended(ApplyIntended(s, inputs[0]), inputs[1..])
  }
}
