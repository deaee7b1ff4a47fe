/** The match list of a tournament (src/pages/matches/Matches.tsx): the
    search over team names applied inside every matchday, and the choice of
    the matchday on screen. */
module Matches {
  import opened Wrappers
  import opened Text
  import opened Seqs

  /** A team as embedded in a match; its name may be null. */
  datatype TeamRef = TeamRef(name: Option<string>)

  /** A match with its teams; either team may be missing. */
  datatype MatchRow = MatchRow(id: string, localTeam: Option<TeamRef>, visitorTeam: Option<TeamRef>,
                               status: string)

  /** A matchday with its matches. */
  datatype RoundRow = RoundRow(roundNumber: int, matches: seq<MatchRow>)

  /** The matchday selected when the page opens. */
  const InitialSelection := 1

  /** `team?.name?.toLowerCase().includes(term.toLowerCase())`: false when the
      team or its name is missing. */
  predicate NameContains(team: Option<TeamRef>, term: string, lower: string -> string)
  {
    team.Some? && team.value.name.Some? && Contains(lower(team.value.name.value), lower(term))
  }

  predicate Kept(m: MatchRow, term: string, lower: string -> string)
  {
    NameContains(m.localTeam, term, lower) || NameContains(m.visitorTeam, term, lower)
  }

  /** One matchday with its matches filtered by the search term. */
  function FilterRound(d: RoundRow, term: string, lower: string -> string): (r: RoundRow)
    ensures r.roundNumber == d.roundNumber
    ensures IsSubsequence(r.matches, d.matches)
    ensures forall m | m in r.matches :: Kept(m, term, lower)
    ensures forall m | m in d.matches && Kept(m, term, lower) :: m in r.matches
    ensures forall i | 0 <= i < |d.matches| && Kept(d.matches[i], term, lower) ::
              multiset(r.matches)[d.matches[i]] == multiset(d.matches)[d.matches[i]]
  {
    d.(matches := Filter(d.matches, m => Kept(m, term, lower)))
  }

  /** `filteredMatchdays`: absent while nothing is loaded; otherwise every
      matchday, in order, each filtered. */
  function FilterRounds(rounds: Option<seq<RoundRow>>, term: string, lower: string -> string)
    : (r: Option<seq<RoundRow>>)
    ensures r.None? <==> rounds.None?
    ensures rounds.Some? ==> |r.value| == |rounds.value|
    ensures rounds.Some? ==> forall i | 0 <= i < |rounds.value| ::
              r.value[i] == FilterRound(rounds.value[i], term, lower)
  {
    match rounds
    case None => None
    case Some(ds) => Some(seq(|ds|, i requires 0 <= i < |ds| => FilterRound(ds[i], term, lower)))
  }

  /** Filtering keeps the matchdays' numbers, position by position. */
  lemma FilterKeepsRoundNumbers(ds: seq<RoundRow>, term: string, lower: string -> string)
    ensures var fs := FilterRounds(Some(ds), term, lower).value;
            |fs| == |ds| && forall i | 0 <= i < |ds| :: fs[i].roundNumber == ds[i].roundNumber
  {
  }

  /** A match in which neither team has a name never shows, not even for the
      empty search term. */
  lemma NamelessMatchDropped(d: RoundRow, m: MatchRow, term: string, lower: string -> string)
    requires m.localTeam.None? || m.localTeam.value.name.None?
    requires m.visitorTeam.None? || m.visitorTeam.value.name.None?
    ensures m !in FilterRound(d, term, lower).matches
  {
  }

  /** With the empty term every match with at least one named team shows,
      given that lower-casing keeps the empty string empty. */
  lemma EmptyTermKeepsNamed(d: RoundRow, m: MatchRow, lower: string -> string)
    requires lower("") == ""
    requires m in d.matches
    requires (m.localTeam.Some? && m.localTeam.value.name.Some?)
             || (m.visitorTeam.Some? && m.visitorTeam.value.name.Some?)
    ensures m in FilterRound(d, "", lower).matches
  {
    if m.localTeam.Some? && m.localTeam.value.name.Some? {
      assert StartsWith(lower(m.localTeam.value.name.value), "");
    } else {
      assert StartsWith(lower(m.visitorTeam.value.name.value), "");
    }
  }

  /** The position of the first matchday numbered `n`, if any. */
  function FirstNumbered(ds: seq<RoundRow>, n: int): (r: Option<nat>)
    ensures r.Some? ==> r.value < |ds| && ds[r.value].roundNumber == n
                        && forall j | 0 <= j < r.value :: ds[j].roundNumber != n
    ensures r.None? <==> forall j | 0 <= j < |ds| :: ds[j].roundNumber != n
  {
    if ds == [] then None
    else if ds[0].roundNumber == n then Some(0)
    else match FirstNumbered(ds[1..], n)
      case None => None
      case Some(i) => Some(i + 1)
  }

  /** `currentMatchday`: the first filtered matchday numbered as selected. */
  function CurrentMatchday(filtered: Option<seq<RoundRow>>, selected: int): (r: Option<RoundRow>)
    ensures filtered.None? ==> r.None?
    ensures filtered.Some? && r.Some? ==> r.value in filtered.value && r.value.roundNumber == selected
    // and it is the first such matchday: every earlier one has another number
    ensures filtered.Some? && r.Some? ==>
              exists i | 0 <= i < |filtered.value| ::
                filtered.value[i] == r.value && forall j | 0 <= j < i :: filtered.value[j].roundNumber != selected
    ensures filtered.Some? && r.None? ==> forall d | d in filtered.value :: d.roundNumber != selected
  {
    match filtered
    case None => None
    case Some(ds) =>
      match FirstNumbered(ds, selected)
      case None => None
      case Some(i) => Some(ds[i])
  }

  /** The first position of a number depends only on the numbers. */
  lemma {:induction false} FirstNumberedByNumbers(a: seq<RoundRow>, b: seq<RoundRow>, n: int)
    requires |a| == |b| && forall i | 0 <= i < |a| :: a[i].roundNumber == b[i].roundNumber
    ensures FirstNumbered(a, n) == FirstNumbered(b, n)
  {
    if a != [] {
      FirstNumberedByNumbers(a[1..], b[1..], n);
    }
  }

  /** The search never changes which matchday is on screen: the current
      matchday is the filtered form of the first loaded matchday numbered as
      selected. */
  lemma SearchKeepsCurrentMatchday(ds: seq<RoundRow>, selected: int, term: string, lower: string -> string)
    ensures var cur := CurrentMatchday(FilterRounds(Some(ds), term, lower), selected);
            match FirstNumbered(ds, selected)
            case None => cur.None?
            case Some(i) => cur == Some(FilterRound(ds[i], term, lower))
  {
    var fs := FilterRounds(Some(ds), term, lower).value;
    FirstNumberedByNumbers(fs, ds, selected);
  }
}
