# cancha360 core in Dafny

A model of the logic behind cancha360, a web application where football
tournament organisers register, obtain an access code, set up a tournament
(data, teams, generated fixture) and then manage its matches, while a
superadmin manages organisers and access codes.

The model covers:

- the page-access guard (`useRouteGuard`) and the three route elements;
- the authentication session state machine of `AuthProvider`, and a defect
  in its profile-lookup deduplication;
- the round-robin fixture generator (circle method, single and double
  format) and the save payload built from it;
- the list, filter and form logic of the pages: team list, organisers,
  access codes, match list, match editor, phone validation of the
  access-code request;
- the sign-up error message mapping;
- the two Redux slots.

Every handler is one atomic, pure transition. Whatever a handler gets from
the outside becomes an input value: answers of the remote store, of the
identity provider and of the code generator, and the current time. JavaScript
built-ins the code relies on (`includes`, `startsWith`, `trim`, `filter`,
the `\s` class) are defined with their JavaScript meaning in `Text` and
`Seqs`. `toLowerCase` stays a function parameter `lower`.

Modules, one per source unit: `RouteGuard`, `RouteElements`, `AuthSession`,
`DedupeFinding`, `Fixture`, `FixtureProofs` with `CircleMethod` and
`ModArith` (index arithmetic of the rotations), `TournamentTeams`,
`AuthErrors`, `Organizers`, `AccessCodes`, `MatchStatus`, `Matches`,
`EditMatch`, `Phone` and `Slices`. Shared vocabulary: `Wrappers`, `Text`
and `Seqs`.

## Model

| member | source | states |
|---|---|---|
| RouteGuard.Decide | src/hooks/useRouteGuard.ts:11-49 | Wait exactly while loading or a user has no profile. Redirects always replace the history entry. Each of the five later rules (signed out, superadmin, no code, no tournament, fully provisioned) allows exactly its own paths and otherwise sends to its own fixed target. |
| RouteGuard.RulesPartitionViews | src/hooks/useRouteGuard.ts:16-49 | Every resolved view falls under exactly one of the five rules, so the first matching branch is the only one. |
| RouteGuard.PathTestsDisjoint | src/hooks/useRouteGuard.ts:13-37 | The exact-match public and activation paths lie under neither prefix, and "/onboarding" paths are never "/superadmin" paths. |
| RouteGuard.ClassOf | src/hooks/useRouteGuard.ts:13-37 | Each path has one class, and each class holds exactly when the corresponding test of the hook succeeds. |
| RouteGuard.DecideFollowsClassTable | src/hooks/useRouteGuard.ts:16-50 | The guard agrees with an independent decision table over path classes. It depends on the path only through its class, and otherwise only on loading, user and profile. |
| RouteGuard.RedirectTargetsAreAllowed | src/hooks/useRouteGuard.ts:13-49 | Loop-freedom: for a fixed view, every redirect target is a path the same view allows. |
| RouteGuard.DecideIgnoresUserIdentity | src/hooks/useRouteGuard.ts:6-19 | Only the presence of the user is read, never which user it is. |
| RouteGuard.SuperadminCheckedBeforeCode | src/hooks/useRouteGuard.ts:24-34 | A superadmin without an active code is sent to "/superadmin" even from the activation page. |
| RouteElements.PublicRoute | src/router/PublicRoute.tsx:4-16 | Placeholder while loading whoever the user is. Otherwise a user goes to "/dashboard" with replace, and the page shows exactly when nobody is signed in. |
| RouteElements.SuperAdminRoute | src/router/SuperAdminRoute.tsx:4-16 | Placeholder while loading. No user goes to "/login"; a null or non-superadmin profile goes to "/dashboard". The outlet shows if and only if a signed-in superadmin is present. |
| RouteElements.OrganizerRoute | src/router/OrganizarRoute.tsx:4-19 | Placeholder while loading. No user goes to "/login"; a superadmin goes to "/superadmin". The outlet shows if and only if a user is signed in and the profile is not a superadmin's. |
| RouteElements.PublicRouteIgnoresProfile | src/router/PublicRoute.tsx:5-15 | Changing the profile never changes PublicRoute's decision. |
| RouteElements.AdminAndOrganizerRoutesSplitUsers | src/router/SuperAdminRoute.tsx:7-15 | For a settled, signed-in view exactly one of SuperAdminRoute and OrganizerRoute lets the user in. |
| RouteElements.OrganizerRouteAdmitsProfilelessUser | src/router/OrganizarRoute.tsx:13-18 | A user whose profile is null passes OrganizerRoute while the guard still waits. |
| RouteElements.SuperAdminRouteAgreesWithGuard | src/hooks/useRouteGuard.ts:24-29 | Whoever SuperAdminRoute lets in, the guard also allows on every "/superadmin" page. |
| AuthSession.LoadProfile | src/context/AuthContext.tsx:48-67 | Never fails. A profile results exactly when a row is found. A failure keeps the dedupe id; no row clears it; a row records its id. |
| AuthSession.OnAuthChange | src/context/AuthContext.tsx:73-103 | Before the restore only SIGNED_OUT has an effect (user and profile null, loading off), and nothing is looked up. After it the session user is adopted and loading ends. A known id keeps the profile with no lookup; a new id is looked up and its result or null replaces the profile, while the dedupe id is kept after a failed lookup, cleared when there is no row and set to the row's id when there is one. No user clears the profile but keeps the dedupe id. |
| AuthSession.Restore | src/context/AuthContext.tsx:110-132 | Always ends with loading off and the restore marked done, even after an error or exception. A user found is adopted and always looked up, even when the dedupe id already names it. The dedupe id is then kept after a failed lookup, cleared when there is no row, and set to the row's id when there is one. |
| AuthSession.Logout | src/context/AuthContext.tsx:138-149 | Clears user, profile and dedupe id whether or not sign-out throws. Leaves loading and the restore flag unchanged, and looks nothing up. |
| AuthSession.ApplyPreservesConsistent | src/context/AuthContext.tsx:50-61 | If each lookup answers for the id it was asked about, a held profile belongs to the current user and is the one the dedupe id names, and every input preserves this. |
| AuthSession.RunPreservesConsistent | src/context/AuthContext.tsx:48-149 | The same invariant along any run of such inputs. |
| AuthSession.RestoreDoneIsPermanent | src/context/AuthContext.tsx:128-131 | Once the restore is done and loading is off, no later input resets the restore flag or turns loading on. |
| AuthSession.NothingFetchedBeforeRestore | src/context/AuthContext.tsx:78-86 | Until a restore input arrives, there is never a profile, never a dedupe id, and the restore flag stays off. |
| AuthSession.LogoutLeadsToLoginOrPublic | src/context/AuthContext.tsx:138-149 | Once loading is off, after logout the guard either allows the page or redirects to "/login". |
| DedupeFinding.ExternalSignOutStrandsSession | src/context/AuthContext.tsx:90-100 | As written: restore signs u in, a SIGNED_OUT event arrives, then u signs in again. The lookup is skipped and the profile stays null. The guard waits on every path, and further events for u change nothing. |
| DedupeFinding.FailedLookupStrandsSession | src/context/AuthContext.tsx:56-59 | As written: restore signs u in with its row. A SIGNED_IN event for another user v follows, whose lookup fails, so the dedupe id still names u while no profile is held. When u signs in again, the lookup is skipped and the profile stays null. The guard waits on every path, and further events for u change nothing. |
| DedupeFinding.LoadProfileIntended | src/context/AuthContext.tsx:56-61 | Corrected loader: the dedupe id is set exactly when a profile results, and to that profile's id. |
| DedupeFinding.OnAuthChangeIntended | src/context/AuthContext.tsx:88-102 | Corrected callback: same as written before the restore. After it, the session user is adopted, and a user-less event clears the dedupe id as logout does. |
| DedupeFinding.RestoreIntended | src/context/AuthContext.tsx:121-125 | The corrected restore still always ends with loading off and the restore done, and always looks a found user up. The profile and the dedupe id then both come from the lookup: the row and its id when there is one, and neither otherwise. Without a user it behaves exactly like the original restore. |
| DedupeFinding.RestoreIntendedNeverStrands | src/context/AuthContext.tsx:121-131 | With the correction, restoring a user whose row exists holds that profile and records its id, so the guard stops waiting. |
| DedupeFinding.ApplyIntendedPreservesDedupeSound | src/context/AuthContext.tsx:146-147 | With the corrections, every input keeps the dedupe id naming exactly the user whose profile is held. |
| DedupeFinding.IntendedNeverStrands | src/context/AuthContext.tsx:90-97 | With the corrections, after the restore an event for a user whose row exists always leaves that profile in place, so the guard stops waiting. |
| DedupeFinding.IntendedRunsStaySound | src/context/AuthContext.tsx:43-45 | The corrected handlers keep the dedupe id sound along any run of inputs. |
| Fixture.Pad | src/pages/onboarding/TournamentFixture.tsx:56-59 | The working list is even, starts with the input teams, and has "Descanso" appended exactly when the input is odd. |
| Fixture.Rotate | src/pages/onboarding/TournamentFixture.tsx:78-79 | Slot 0 stays, the last team moves to slot 1 and the others shift right by one. |
| Fixture.RotateSameTeams | src/pages/onboarding/TournamentFixture.tsx:78-79 | A rotation is a permutation of the working list. |
| Fixture.TurnsSameTeams | src/pages/onboarding/TournamentFixture.tsx:62-80 | After any number of rounds the working list is a permutation of the padded list. |
| Fixture.FirstLeg | src/pages/onboarding/TournamentFixture.tsx:60-77 | numTeams - 1 rounds; round r is numbered r + 1 and is played by the working list after r rotations. |
| Fixture.MirrorTwice | src/pages/onboarding/TournamentFixture.tsx:85-88 | Swapping home and away twice gives the matches back. |
| Fixture.SecondLeg | src/pages/onboarding/TournamentFixture.tsx:81-93 | The return leg has one matchday per first-leg matchday, numbered after the first leg, with the same matches swapped. |
| Fixture.Schedule | src/pages/onboarding/TournamentFixture.tsx:51-97 | Single: numTeams - 1 matchdays, exactly the first leg. Double: twice as many, the first leg followed by its mirror. Either way the matchdays are numbered 1, 2, … in order. |
| Fixture.PairUp | src/pages/onboarding/TournamentFixture.tsx:63-73 | The inner loop yields the round's matches: slot i against slot numTeams-1-i, dropping pairs with "Descanso". |
| Fixture.RotateInPlace | src/pages/onboarding/TournamentFixture.tsx:78-79 | `pop` then `splice(1, 0, last)` is the rotation. |
| Fixture.ReturnLeg | src/pages/onboarding/TournamentFixture.tsx:82-93 | The `forEach` loop builds exactly the mirrored, renumbered return leg. |
| Fixture.GenerateRoundRobin | src/pages/onboarding/TournamentFixture.tsx:51-97 | The loop-based generator returns the reference schedule for both formats. |
| Fixture.ToPayloadRounds | src/pages/onboarding/TournamentFixture.tsx:117-123 | Matchdays map in order to rounds numbered by `number`, with local = team1 and visitor = team2. |
| Fixture.PayloadRoundTrip | src/pages/onboarding/TournamentFixture.tsx:117-123 | Reading the payload back gives the matchdays: the mapping loses nothing. |
| FixtureProofs.TurnsAt | src/pages/onboarding/TournamentFixture.tsx:78-79 | Closed form of the rotations: after r rounds slot j holds the team that started in slot Pos(m, r, j). |
| FixtureProofs.TurnsDistinct | src/pages/onboarding/TournamentFixture.tsx:78-79 | Rotation keeps a duplicate-free working list duplicate-free. |
| FixtureProofs.MatchesDisjoint | src/pages/onboarding/TournamentFixture.tsx:64-73 | With distinct slots, no two matches of a round share a team. |
| FixtureProofs.PadFacts | src/pages/onboarding/TournamentFixture.tsx:56-59 | Padding distinct real teams keeps them distinct, adds no other real team, and includes "Descanso" exactly for an odd count. |
| FixtureProofs.RoundSize | src/pages/onboarding/TournamentFixture.tsx:64-73 | A round has n/2 matches, one fewer when the list holds "Descanso". |
| FixtureProofs.RoundIsMatching | src/pages/onboarding/TournamentFixture.tsx:62-79 | For distinct input teams, every first-leg round pairs input teams, never a team with itself or a team twice. It has \|teams\|/2 matches (rounded down). |
| FixtureProofs.ScheduleRoundsAreMatchings | src/pages/onboarding/TournamentFixture.tsx:51-96 | The same for every matchday of either format. |
| FixtureProofs.PairMeets | src/pages/onboarding/TournamentFixture.tsx:62-80 | Any two different input teams meet in some first-leg match. |
| FixtureProofs.PairMeetsAtMostOnce | src/pages/onboarding/TournamentFixture.tsx:62-80 | Two different input teams meet in at most one first-leg match. |
| FixtureProofs.EachPairMeetsOnce | src/pages/onboarding/TournamentFixture.tsx:51-96 | Single format: every two different input teams meet in exactly one match. |
| FixtureProofs.PairMeetsInBothLegs | src/pages/onboarding/TournamentFixture.tsx:81-94 | Double format: every pair meets in the first leg, and again at the same position n matchdays later with home and away swapped. |
| FixtureProofs.PairMeetsAtMostTwice | src/pages/onboarding/TournamentFixture.tsx:81-94 | Double format: two games of the same pair are the same game or its mirror n matchdays apart. |
| CircleMethod.PosStep | src/pages/onboarding/TournamentFixture.tsx:78-79 | The closed form advances exactly as one pop-and-insert rotation. |
| CircleMethod.MeetRoundMeets | src/pages/onboarding/TournamentFixture.tsx:62-79 | Any two different starting slots sit opposite each other in some round below numTeams - 1. |
| CircleMethod.MeetRoundUnique | src/pages/onboarding/TournamentFixture.tsx:62-79 | They do so in at most one such round. |
| TournamentTeams.AddTeam | src/pages/onboarding/TournamentTeams.tsx:11-43 | An empty field gets the required error. A name whose trimmed form is listed gets the duplicate error and leaves the list. Otherwise the trimmed name is appended, the error cleared and the banner removed. |
| TournamentTeams.RemoveAtSplices | src/pages/onboarding/TournamentTeams.tsx:45-47 | Removing drops exactly the entry at the index and keeps the rest in order; an index outside the list removes nothing. |
| TournamentTeams.RemoveTeam | src/pages/onboarding/TournamentTeams.tsx:45-47 | The list loses exactly one occurrence of the removed entry, and everything else on the page is unchanged. |
| TournamentTeams.Continue | src/pages/onboarding/TournamentTeams.tsx:49-56 | Proceeds, saving the list and going to the fixture step, exactly when the count equals the required number. Otherwise the list stays and the banner asks for that number. |
| TournamentTeams.EnabledContinueNeedsFullList | src/pages/onboarding/TournamentTeams.tsx:173 | Through the enabled button (two or more teams) Continue proceeds only with the full list, which then requires at least two teams. |
| TournamentTeams.StepKeepsDistinct | src/pages/onboarding/TournamentTeams.tsx:32-47 | Any add, remove or Continue click keeps the list free of duplicates. |
| TournamentTeams.StepsKeepDistinct | src/pages/onboarding/TournamentTeams.tsx:32-47 | So does any sequence of them. |
| TournamentTeams.AddedNameIsTrimmed | src/pages/onboarding/TournamentTeams.tsx:40 | An added name neither starts nor ends with whitespace. |
| AuthErrors.MapAuthError | src/utils/errors.ts:1-16 | Each message is chosen exactly when its substring occurs and no earlier one does: "password", then "already registered", then "invalid email". Otherwise the fallback. |
| AuthErrors.MapAuthErrorIsOneOfFour | src/utils/errors.ts:1-16 | The output is always one of the four fixed messages. |
| AuthErrors.MessagesDistinct | src/utils/errors.ts:3-15 | The four messages are pairwise different, so the message tells the branch. |
| AuthErrors.CapitalisedPasswordFallsThrough | src/utils/errors.ts:2 | Matching is case-sensitive: "Password" gets the fallback. |
| Organizers.ToOrganizer | src/pages/superadmin/Organizers.tsx:36-45 | Status is active if and only if the row is active. Null text columns become "". The registration date is the creation date. Last access and tournament count are placeholders. |
| Organizers.ToOrganizerRoundTrip | src/pages/superadmin/Organizers.tsx:37-45 | A row whose text columns are set is recovered from its entry. |
| Organizers.NullColumnsReadAsEmpty | src/pages/superadmin/Organizers.tsx:38-40 | A null column and an empty one give the same entry. |
| Organizers.ToOrganizers | src/pages/superadmin/Organizers.tsx:36-46 | One entry per row, in order. |
| Organizers.FilterOrganizers | src/pages/superadmin/Organizers.tsx:74-81 | An order-preserving subsequence. An organiser is kept if and only if its lower-cased name or e-mail contains the lower-cased term and its status passes the filter. Each kept organiser appears as often as in the input. |
| Organizers.EmptySearchListsAll | src/pages/superadmin/Organizers.tsx:74-81 | With 'all' and an empty term, every organiser is listed. |
| Organizers.ApplyReload | src/pages/superadmin/Organizers.tsx:32-52 | A failed reload keeps the list; a successful one replaces it with the mapped rows, none for a null response. |
| Organizers.ClickToggle | src/pages/superadmin/Organizers.tsx:58-61 | Opens the modal with the clicked organiser selected and the list untouched. |
| Organizers.ConfirmToggle | src/pages/superadmin/Organizers.tsx:62-69 | Without a selection nothing happens and nothing is sent. Otherwise the opposite status is requested. A throwing request leaves the page as it was; a successful one reloads, closes the modal and clears the selection. |
| Organizers.CancelToggle | src/pages/superadmin/Organizers.tsx:70-73 | Closes the modal and clears the selection, keeping the list. |
| Organizers.ConfirmRequestsOpposite | src/pages/superadmin/Organizers.tsx:58-64 | After clicking an organiser, confirming requests its id: reactivation for a suspended one, suspension for an active one. |
| Organizers.ClickThenCancelRestores | src/pages/superadmin/Organizers.tsx:58-73 | Opening the modal then cancelling restores the page. |
| AccessCodes.ToAccessCode | src/pages/superadmin/AccessCodes.tsx:67-74 | Used if and only if the row is used. Null id and code become "". A missing creation date becomes the current time. usedBy is absent exactly when the e-mail column is null. |
| AccessCodes.ToAccessCodeRoundTrip | src/pages/superadmin/AccessCodes.tsx:68-74 | A row with id, code and date set is recovered from its entry, whatever the current time. |
| AccessCodes.ToAccessCodes | src/pages/superadmin/AccessCodes.tsx:66-75 | One entry per row, in order. |
| AccessCodes.FilterCodes | src/pages/superadmin/AccessCodes.tsx:103-106 | An order-preserving subsequence holding exactly the codes the filter shows, each as often as in the input. |
| AccessCodes.AllListsEverything | src/pages/superadmin/AccessCodes.tsx:103-104 | The 'all' filter returns the codes unchanged. |
| AccessCodes.FilterCountsStatus | src/pages/superadmin/AccessCodes.tsx:103-106 | A status filter lists as many codes as have that status. |
| AccessCodes.StatusFiltersPartition | src/pages/superadmin/AccessCodes.tsx:103-106 | The used and unused lists together account for every code. |
| AccessCodes.ApplyFilterParam | src/pages/superadmin/AccessCodes.tsx:53-59 | Only "used" and "unused" change the filter; any other value or no parameter keeps it. |
| AccessCodes.FilterParamNeverWidens | src/pages/superadmin/AccessCodes.tsx:55-58 | From 'all', the parameter leaves 'all' if and only if it is "used" or "unused". |
| AccessCodes.Generate | src/pages/superadmin/AccessCodes.tsx:29-51 | A failure changes nothing. A new code is prepended as unused with no user, the old codes following in order. The modal opens showing it, not yet copied. |
| AccessCodes.CloseModal | src/pages/superadmin/AccessCodes.tsx:97-101 | Closes the modal and clears the shown code and the copied flag, keeping the list. |
| AccessCodes.GeneratedCodeIsUnused | src/pages/superadmin/AccessCodes.tsx:34-41 | After generating, the 'unused' view is the new code followed by the previous unused codes. |
| AccessCodes.GenerateThenClose | src/pages/superadmin/AccessCodes.tsx:29-101 | Generating then closing leaves only the list changed, and closing again changes nothing. |
| MatchStatus.BadgeFor | src/pages/matches/Matches.tsx:38-59 | A status stored under a badge's key shows that badge; any other status shows the pending badge. |
| MatchStatus.BadgeRoundTrip | src/pages/matches/Matches.tsx:39-58 | Looking a badge up by its own key finds it. |
| MatchStatus.NonPendingIsKnown | src/pages/matches/Matches.tsx:57-58 | A non-pending badge only shows for exactly its own key. |
| MatchStatus.LabelsDistinct | src/pages/matches/Matches.tsx:39-56 | Different badges show different labels. |
| Matches.FilterRound | src/pages/matches/Matches.tsx:68-75 | The matchday keeps its number. Its matches become an order-preserving subsequence holding exactly those where a present team name contains the term, both lower-cased, each as often as in the input. |
| Matches.FilterRounds | src/pages/matches/Matches.tsx:68-75 | Absent exactly while nothing is loaded. Otherwise every matchday, in order, each filtered. |
| Matches.FilterKeepsRoundNumbers | src/pages/matches/Matches.tsx:68-69 | Filtering keeps the count of matchdays and each one's number. |
| Matches.NamelessMatchDropped | src/pages/matches/Matches.tsx:70-74 | A match with no team name is never shown, even for the empty term. |
| Matches.EmptyTermKeepsNamed | src/pages/matches/Matches.tsx:70-74 | With the empty term every match with a named team is shown. |
| Matches.FirstNumbered | src/pages/matches/Matches.tsx:77-79 | The position of the first matchday with the number, or none exactly when no matchday has it. |
| Matches.CurrentMatchday | src/pages/matches/Matches.tsx:77-79 | The matchday shown is the first listed matchday with the selected number: every matchday before it has another number. None means no listed matchday has it, or nothing is loaded. |
| Matches.FirstNumberedByNumbers | src/pages/matches/Matches.tsx:77-79 | The matchday found depends only on the sequence of numbers. |
| Matches.SearchKeepsCurrentMatchday | src/pages/matches/Matches.tsx:68-79 | The search never changes which matchday is on screen, only its matches. |
| EditMatch.InitialForm | src/pages/matches/EditMatch.tsx:14-17 | Fields start from the match known at the first render: missing date and time as "", the status as is. |
| EditMatch.Mount | src/pages/matches/EditMatch.tsx:14-17 | At first render nothing is loaded, so date and time are empty and status undefined. |
| EditMatch.MatchLoaded | src/pages/matches/EditMatch.tsx:20-23 | The loaded match arrives and the form keeps its values. |
| EditMatch.ChooseStatus | src/pages/matches/EditMatch.tsx:166-176 | Picking an option stores that badge's key and touches nothing else. |
| EditMatch.CanRegisterResult | src/pages/matches/EditMatch.tsx:75-76 | True if and only if the status is "played", "wo" or "suspended"; never for an undefined status. |
| EditMatch.FormBadge | src/pages/matches/EditMatch.tsx:48-49 | An undefined status shows the pending badge; otherwise the table lookup with its pending fallback. |
| EditMatch.RegisterIffBadgeNotPending | src/pages/matches/EditMatch.tsx:48-76 | A result can be registered exactly when the badge on screen is not the pending one. |
| EditMatch.RegisterControls | src/pages/matches/EditMatch.tsx:194-207 | The button is disabled, and the hint shown, exactly when a result cannot be registered. |
| EditMatch.InitiallyCannotRegister | src/pages/matches/EditMatch.tsx:14-17 | Whatever the lookup answers, the page first shows the pending badge and a disabled button with the hint. |
| EditMatch.ChosenStatusGate | src/pages/matches/EditMatch.tsx:75-76 | After choosing a status, the button is enabled exactly for the non-pending badges. |
| Phone.CheckPhone | src/pages/accesscode/Request.tsx:14-22 | Flags missing for "", bad format when the pattern does not match, too short below 8 and too long above 20 characters. |
| Phone.AcceptedShape | src/pages/accesscode/Request.tsx:17-20 | An accepted phone holds only digits, '+', parentheses, '-', '.' and whitespace, with '+' only in first position. |
| Phone.MatchedAllowed | src/pages/accesscode/Request.tsx:18 | Any string matching a sequence of class runs holds only characters of those classes. |
| Phone.MatchedAvoids | src/pages/accesscode/Request.tsx:18 | A character no class admits does not occur in a match. |
| Phone.MatchedDigitBounds | src/pages/accesscode/Request.tsx:18 | A match has at least the elements' least and at most their greatest number of digits. |
| Phone.AcceptedDigitCount | src/pages/accesscode/Request.tsx:18 | An accepted phone has between 3 and 17 digits. |
| Phone.DigitsMatch | src/pages/accesscode/Request.tsx:18 | Every digit string of 3 to 17 characters matches the pattern. |
| Phone.DigitPhoneAcceptedIff | src/pages/accesscode/Request.tsx:17-22 | A phone of digits only is accepted if and only if it has 8 to 17 of them. |
| Phone.ThreeDigitsAccepted | src/pages/accesscode/Request.tsx:21 | The minimum counts characters, not digits: "(a) (b) c" with three digits is accepted. |
| Phone.OrganizationName | src/pages/accesscode/Request.tsx:23 | A missing organisation name defaults to "". |
| Phone.Submit | src/pages/accesscode/Request.tsx:40-47 | A request is sent if and only if the phone passes every rule. It carries the phone, and an organisation name that is never null. It is the name entered, or "" when none was entered. |
| Phone.SubmittedRequestIsWellFormed | src/pages/accesscode/Request.tsx:17-20 | A phone that reaches the service uses only the pattern's characters, has '+' only in front, and holds 3 to 17 digits. |
| Slices.Reduce | src/reducers/tournamentSlice.ts:18-25 | set stores the payload, remove empties the slot, and other actions leave it. |
| Slices.LastActionWins | src/reducers/tournamentSlice.ts:19-24 | After any run of actions the slot holds what the last set or remove left, or its old value if neither came. |
| Slices.RemoveIdempotent | src/reducers/matchSlice.ts:19-21 | Removing twice is removing once. |
| Slices.SetTournament | src/reducers/tournamentSlice.ts:19-21 | Stores the tournament and leaves the match slot alone. |
| Slices.RemoveTournament | src/reducers/tournamentSlice.ts:22-24 | Empties the tournament slot and leaves the match slot alone. |
| Slices.SetEditingMatch | src/reducers/matchSlice.ts:16-18 | Stores the match and leaves the tournament slot alone. |
| Slices.RemoveEditingMatch | src/reducers/matchSlice.ts:19-21 | Empties the match slot and leaves the tournament slot alone. |
| Slices.SetThenRemoveIsInitial | src/reducers/tournamentSlice.ts:11-24 | Set then remove, on either slot, gives the initial store back. |
| Slices.SecondSetWins | src/reducers/matchSlice.ts:16-18 | Of two sets in a row, the second wins, in either slot. |

## Left out

- I/O:
  - the remote-store and edge-function wrappers under `src/services/`, and `useStandings`;
  - the answers they give are inputs: `Lookup`, `GetUser`, `SignOut`, `Reload`, `Generated`, a toggle success flag and the rows loaded.
- The interleaving of `await`s in `AuthProvider`, React scheduling and batching: each handler is one atomic step. Overlapping callbacks and stale lookup results are not modelled.
- `restoreSession` is not part of the context's value, so re-bootstrapping from a page is not modelled.
- Side effects, which appear only as decision values:
  - navigation, rendering, `<Navigate>` and `<Outlet>`;
  - toasts, alerts, `console` output;
  - the clipboard and the `setTimeout` copy feedback;
  - `localStorage`;
  - the loading flags and messages of the pages.
- `new Date().toISOString()` in the access-code mapping: the current time is the parameter `now`.
- `String.prototype.toLowerCase`: Unicode case mapping is not modelled, so it is the parameter `lower`. The empty-term lemmas assume `lower("") == ""`.
- Fixture:
  - a team literally named "Descanso" is treated as the rest marker and never plays. The fixture theorems require that no input team has that name.
  - their requirement of distinct input teams mirrors the team step, which never lists a name twice.
  - The demo list used when no teams are saved is not modelled, and neither is the JSON parse.
- The status lookup `statusConfig[status]` also finds JavaScript prototype keys such as "constructor". The model treats every other string as unknown.
- TournamentTeams.AddTeam:
  - `maxNumberTeams` is an integer, while the code reads it from stored JSON. If it is stored as a string, `!==` never matches and Continue never proceeds; that is not modelled.
  - A whitespace-only name passes `required` and adds "" after trimming. The model follows the code there.
- Phone.CheckPhone: the order of the schema's error messages and which one is shown first are presentation and are not modelled. The failures are reported as flags.
- Pages not modelled:
  - the superadmin dashboard (demo figures from `localStorage`);
  - the result-registration page (its status table is the one in `MatchStatus`, and its save handler is empty);
  - the login, sign-up and activation pages (library-defined e-mail checks and I/O sequencing);
  - presentation components and layouts;
  - the router table and `combineReducers`.

## Findings

| source | as written | input that shows it | evidently intended | confidence | as-written member | corrected member |
|---|---|---|---|---|---|---|
| src/context/AuthContext.tsx:90-100 | A user-less auth event clears the profile but keeps `lastFetchedId`. A later event for the same id then skips the lookup and leaves the profile null. | Restore signs user u in with a found row. A SIGNED_OUT event follows (session expiry or another tab), then SIGNED_IN for u. The profile stays null and the guard waits on every path. | The dedupe id names exactly the user whose profile is held. A user-less event clears it, as `logout` does at :147. | not executed | DedupeFinding.ExternalSignOutStrandsSession | DedupeFinding.OnAuthChangeIntended |
| src/context/AuthContext.tsx:56-61 | A failed lookup returns null before `lastFetchedId` is updated. The id of the previous user stays recorded while no profile is held. | Restore signs user u in with a found row. SIGNED_IN for another user v follows, and v's lookup fails. Then SIGNED_IN for u arrives. The lookup is skipped, the profile stays null and the guard waits on every path. | Whenever a lookup yields no profile, no id is recorded. | not executed | DedupeFinding.FailedLookupStrandsSession | DedupeFinding.LoadProfileIntended |
