/** The team-list step of the onboarding wizard
    (src/pages/onboarding/TournamentTeams.tsx): adding a trimmed, not yet
    listed name, removing by position, and the Continue rule. */
module TournamentTeams {
  import opened Wrappers
  import opened Text
  import opened Seqs

  const RequiredMessage := "El nombre del equipo no puede estar vacío"
  const DuplicateMessage := "Este equipo ya fue agregado"
  const FixturePath := "/onboarding/campeonato/fixture"

  /** The banner under the list: nothing, or `Debes agregar ${count} equipos`. */
  datatype Banner = NoBanner | MustAdd(count: int)

  /** The page state: the list, the required count read from the saved
      tournament data, the form field's error and the banner. */
  datatype TeamsPage = TeamsPage(teams: seq<string>, maxNumberTeams: int, fieldError: Option<string>, banner: Banner)

  /** Submitting the form with `teamName`. An empty field fails the form's
      `required` rule before the handler runs; a name whose trimmed form is
      listed sets the duplicate error; otherwise the trimmed name is appended,
      the form is reset and the banner cleared. */
  function AddTeam(p: TeamsPage, teamName: string): (q: TeamsPage)
    ensures q.maxNumberTeams == p.maxNumberTeams
    ensures teamName == "" ==> q == p.(fieldError := Some(RequiredMessage))
    ensures teamName != "" && Trim(teamName) in p.teams ==> q == p.(fieldError := Some(DuplicateMessage))
    ensures teamName != "" && Trim(teamName) !in p.teams ==>
              q == TeamsPage(p.teams + [Trim(teamName)], p.maxNumberTeams, None, NoBanner)
  {
    if teamName == "" then p.(fieldError := Some(RequiredMessage))
    else
      var name := Trim(teamName);
      if name in p.teams then p.(fieldError := Some(DuplicateMessage))
      else TeamsPage(p.teams + [name], p.maxNumberTeams, None, NoBanner)
  }

  /** `teams.filter((_, i) => i !== index)`. */
  function RemoveAt(teams: seq<string>, index: int): (r: seq<string>)
    ensures |r| == if 0 <= index < |teams| then |teams| - 1 else |teams|
  {
    if teams == [] then []
    else if index == 0 then teams[1..]
    else [teams[0]] + RemoveAt(teams[1..], index - 1)
  }

  /** Removing drops exactly the element at `index` and keeps the others in
      order; an index outside the list removes nothing. */
  lemma {:induction false} RemoveAtSplices(teams: seq<string>, index: int)
    ensures 0 <= index < |teams| ==> RemoveAt(teams, index) == teams[..index] + teams[index + 1..]
    ensures !(0 <= index < |teams|) ==> RemoveAt(teams, index) == teams
    decreases |teams|
  {
    if teams != [] && index != 0 {
      RemoveAtSplices(teams[1..], index - 1);
      if 0 <= index < |teams| {
        assert teams[..index] == [teams[0]] + teams[1..][..index - 1];
        assert teams[index + 1..] == teams[1..][index..];
      }
    }
  }

  /** The remove button of the entry at `index`. */
  function RemoveTeam(p: TeamsPage, index: int): (q: TeamsPage)
    ensures q.maxNumberTeams == p.maxNumberTeams && q.fieldError == p.fieldError && q.banner == p.banner
    ensures 0 <= index < |p.teams| ==> multiset(q.teams) + multiset{p.teams[index]} == multiset(p.teams)
    ensures !(0 <= index < |p.teams|) ==> q.teams == p.teams
  {
    RemoveAtMultiset(p.teams, index);
    p.(teams := RemoveAt(p.teams, index))
  }

  lemma RemoveAtMultiset(teams: seq<string>, index: int)
    ensures 0 <= index < |teams| ==> multiset(RemoveAt(teams, index)) + multiset{teams[index]} == multiset(teams)
    ensures !(0 <= index < |teams|) ==> RemoveAt(teams, index) == teams
  {
    RemoveAtSplices(teams, index);
    if 0 <= index < |teams| {
      SpliceMultiset(teams, index);
    }
  }

  lemma SpliceMultiset(teams: seq<string>, index: int)
    requires 0 <= index < |teams|
    ensures multiset(teams[..index] + teams[index + 1..]) + multiset{teams[index]} == multiset(teams)
  {
    var a, x, b := teams[..index], teams[index], teams[index + 1..];
    assert teams == a + [x] + b;
  }

  /** What a Continue click does: stay with the banner set, or save the list
      and go to the fixture step. */
  datatype ContinueOutcome = Stay(page: TeamsPage) | Proceed(to: string, saved: seq<string>)

  function Continue(p: TeamsPage): (o: ContinueOutcome)
    ensures o.Proceed? <==> |p.teams| == p.maxNumberTeams
    ensures o.Proceed? ==> o.to == FixturePath && o.saved == p.teams
    ensures o.Stay? ==> o.page == p.(banner := MustAdd(p.maxNumberTeams))
  {
    if |p.teams| != p.maxNumberTeams then Stay(p.(banner := MustAdd(p.maxNumberTeams)))
    else Proceed(FixturePath, p.teams)
  }

  /** The Continue button is disabled while fewer than two teams are listed. */
  predicate ContinueDisabled(p: TeamsPage)
  {
    |p.teams| < 2
  }

  /** An enabled Continue click proceeds only when the list holds exactly the
      required count, which is then at least two. */
  lemma EnabledContinueNeedsFullList(p: TeamsPage)
    requires !ContinueDisabled(p)
    ensures Continue(p).Proceed? ==> p.maxNumberTeams >= 2 && |Continue(p).saved| == p.maxNumberTeams
  {
  }

  /** User actions on the page. */
  datatype TeamAction = Add(teamName: string) | Remove(index: int) | ContinueClick

  function Step(p: TeamsPage, a: TeamAction): TeamsPage
  {
    match a
    case Add(n) => AddTeam(p, n)
    case Remove(i) => RemoveTeam(p, i)
    case ContinueClick => match Continue(p) case Stay(q) => q case Proceed(_, _) => p
  }

  function Steps(p: TeamsPage, acts: seq<TeamAction>): TeamsPage
    decreases |acts|
  {
    if acts == [] then p else Steps(Step(p, acts[0]), acts[1..])
  }

  /** One action keeps the list free of duplicates. */
  lemma StepKeepsDistinct(p: TeamsPage, a: TeamAction)
    requires Distinct(p.teams)
    ensures Distinct(Step(p, a).teams)
  {
    match a
    case Add(n) =>
      if n != "" && Trim(n) !in p.teams {
        AppendKeepsDistinct(p.teams, Trim(n));
      }
    case Remove(i) =>
      RemoveAtKeepsDistinct(p.teams, i);
    case ContinueClick =>
  }

  lemma AppendKeepsDistinct(s: seq<string>, x: string)
    requires Distinct(s) && x !in s
    ensures Distinct(s + [x])
  {
    var t := s + [x];
    forall i, j | 0 <= i < j < |t|
      ensures t[i] != t[j]
    {
      assert t[i] == s[i];
      if j == |s| {
        assert t[j] == x;
      } else {
        assert t[j] == s[j];
      }
    }
  }

  lemma RemoveAtKeepsDistinct(s: seq<string>, index: int)
    requires Distinct(s)
    ensures Distinct(RemoveAt(s, index))
  {
    RemoveAtSplices(s, index);
    if 0 <= index < |s| {
      var t := RemoveAt(s, index);
      forall x, y | 0 <= x < y < |t|
        ensures t[x] != t[y]
      {
        var x0 := if x < index then x else x + 1;
        var y0 := if y < index then y else y + 1;
        assert t[x] == s[x0] && t[y] == s[y0];
      }
    }
  }

  /** Starting from a duplicate-free list, no sequence of adds, removes and
      Continue clicks ever lists a team twice. */
  lemma {:induction false} StepsKeepDistinct(p: TeamsPage, acts: seq<TeamAction>)
    requires Distinct(p.teams)
    ensures Distinct(Steps(p, acts).teams)
    decreases |acts|
  {
    if acts != [] {
      StepKeepsDistinct(p, acts[0]);
      StepsKeepDistinct(Step(p, acts[0]), acts[1..]);
    }
  }

  /** Every listed team is a trimmed name: adding never lists a name with
      whitespace at either end. */
  lemma AddedNameIsTrimmed(p: TeamsPage, teamName: string)
    requires teamName != "" && Trim(teamName) !in p.teams
    ensures var t := AddTeam(p, teamName).teams[|p.teams|];
            t == [] || (!IsJsWhitespace(t[0]) && !IsJsWhitespace(t[|t| - 1]))
  {
  }
}
