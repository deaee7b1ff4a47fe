/** The fixture generator of the onboarding wizard
    (src/pages/onboarding/TournamentFixture.tsx): `generateRoundRobin` by the
    circle method, and the mapping of the generated matchdays into the save
    payload in `handleFinish`. */
module Fixture {

  /** The rest marker padded onto odd team lists; pairs with it are dropped. */
  const Bye := "Descanso"

  datatype Match = Match(team1: string, team2: string)
  datatype Matchday = Matchday(number: int, matches: seq<Match>)
  datatype Format = Single | Double

  /** An odd list gets `Bye` appended, so the working list is even. */
  function Pad(teams: seq<string>): (r: seq<string>)
    ensures |r| % 2 == 0
    ensures |r| == |teams| + |teams| % 2
    ensures r[..|teams|] == teams
    ensures |teams| % 2 == 1 ==> r[|teams|] == Bye
  {
    if |teams| % 2 != 0 then teams + [Bye] else teams
  }

  /** `pop()` the last team and `splice(1, 0, last)` it back: slot 0 stays,
      the last team moves to slot 1, the others shift right by one. */
  function Rotate(c: seq<string>): (r: seq<string>)
    requires |c| >= 1
    ensures |r| == |c| && r[0] == c[0]
    ensures |c| >= 2 ==> r[1] == c[|c| - 1] && forall j | 2 <= j < |c| :: r[j] == c[j - 1]
  {
    if |c| == 1 then c else [c[0], c[|c| - 1]] + c[1..|c| - 1]
  }

  /** The working list after `r` rounds. */
  function Turns(c: seq<string>, r: nat): (t: seq<string>)
    requires |c| >= 1
    ensures |t| == |c| && t[0] == c[0]
  {
    if r == 0 then c else Rotate(Turns(c, r - 1))
  }

  /** Rotation only reorders the teams. */
  lemma RotateSameTeams(c: seq<string>)
    requires |c| >= 1
    ensures multiset(Rotate(c)) == multiset(c)
  {
    if |c| > 1 {
      assert c == [c[0]] + c[1..|c| - 1] + [c[|c| - 1]];
    }
  }

  /** So does any number of rotations. */
  lemma {:induction false} TurnsSameTeams(c: seq<string>, r: nat)
    requires |c| >= 1
    ensures multiset(Turns(c, r)) == multiset(c)
  {
    if r > 0 {
      TurnsSameTeams(c, r - 1);
      RotateSameTeams(Turns(c, r - 1));
    }
  }

  /** The matches of the first `k` slots of the inner loop: slot `i` pairs
      `c[i]` with `c[|c| - 1 - i]`, kept unless either is `Bye`. */
  function MatchesUpTo(c: seq<string>, k: int): seq<Match>
    requires |c| % 2 == 0 && 0 <= k <= |c| / 2
  {
    if k == 0 then []
    else
      var t1 := c[k - 1];
      var t2 := c[|c| - k];
      if t1 != Bye && t2 != Bye then MatchesUpTo(c, k - 1) + [Match(t1, t2)] else MatchesUpTo(c, k - 1)
  }

  /** One matchday's matches from the working list. */
  function RoundMatches(c: seq<string>): seq<Match>
    requires |c| % 2 == 0
  {
    MatchesUpTo(c, |c| / 2)
  }

  /** `numTeams - 1` rounds, none for an empty list. */
  function NumRounds(padded: seq<string>): nat
  {
    if |padded| == 0 then 0 else |padded| - 1
  }

  /** Round `r` (from 0) of the first leg. */
  function Round(padded: seq<string>, r: nat): Matchday
    requires |padded| % 2 == 0 && |padded| >= 1
  {
    Matchday(r + 1, RoundMatches(Turns(padded, r)))
  }

  /** The first leg: round `r` is numbered `r + 1` and plays the working list
      after `r` rotations. */
  function FirstLeg(padded: seq<string>): (d: seq<Matchday>)
    requires |padded| % 2 == 0
    ensures |d| == NumRounds(padded)
    ensures forall r | 0 <= r < |d| :: d[r] == Round(padded, r) && d[r].number == r + 1
  {
    seq(NumRounds(padded), r requires 0 <= r < NumRounds(padded) => Round(padded, r))
  }

  /** The first leg grows one round at a time. */
  lemma FirstLegPrefix(padded: seq<string>, r: nat)
    requires |padded| % 2 == 0 && r < NumRounds(padded)
    ensures FirstLeg(padded)[..r + 1] == FirstLeg(padded)[..r] + [Round(padded, r)]
  {
  }

  /** `team1` and `team2` swapped. */
  function Mirror(ms: seq<Match>): (r: seq<Match>)
    ensures |r| == |ms|
    ensures forall j | 0 <= j < |ms| :: r[j].team1 == ms[j].team2 && r[j].team2 == ms[j].team1
  {
    seq(|ms|, j requires 0 <= j < |ms| => Match(ms[j].team2, ms[j].team1))
  }

  /** Swapping twice gives the matches back. */
  lemma MirrorTwice(ms: seq<Match>)
    ensures Mirror(Mirror(ms)) == ms
  {
  }

  /** The return leg, numbered after the first. */
  function SecondLeg(first: seq<Matchday>): (d: seq<Matchday>)
    ensures |d| == |first|
    ensures forall k | 0 <= k < |d| :: d[k] == Matchday(|first| + k + 1, Mirror(first[k].matches))
  {
    seq(|first|, k requires 0 <= k < |first| => Matchday(|first| + k + 1, Mirror(first[k].matches)))
  }

  /** What `generateRoundRobin` returns. */
  function Schedule(teams: seq<string>, format: Format): (d: seq<Matchday>)
    ensures var n := NumRounds(Pad(teams));
            && (format == Single ==> |d| == n && d == FirstLeg(Pad(teams)))
            && (format == Double ==> |d| == 2 * n && d[..n] == FirstLeg(Pad(teams))
                                     && d[n..] == SecondLeg(FirstLeg(Pad(teams))))
            && (forall k | 0 <= k < |d| :: d[k].number == k + 1)
  {
    var first := FirstLeg(Pad(teams));
    if format == Double then first + SecondLeg(first) else first
  }

  /** The inner loop of one round: slot `i` against slot `numTeams - 1 - i`. */
  method PairUp(teamsCopy: seq<string>) returns (matches: seq<Match>)
    requires |teamsCopy| % 2 == 0
    ensures matches == RoundMatches(teamsCopy)
  {
    var numTeams := |teamsCopy|;
    matches := [];
    var i := 0;
    while i < numTeams / 2
      invariant 0 <= i <= numTeams / 2
      invariant matches == MatchesUpTo(teamsCopy, i)
    {
      var team1 := teamsCopy[i];
      var team2 := teamsCopy[numTeams - 1 - i];
      if team1 != Bye && team2 != Bye {
        matches := matches + [Match(team1, team2)];
      }
      i := i + 1;
    }
  }

  /** The in-place rotation at the end of a round. */
  method RotateInPlace(teamsCopy: seq<string>) returns (next: seq<string>)
    requires |teamsCopy| >= 2
    ensures next == Rotate(teamsCopy)
  {
    var lastTeam := teamsCopy[|teamsCopy| - 1];
    next := teamsCopy[..|teamsCopy| - 1];
    next := next[..1] + [lastTeam] + next[1..];
  }

  /** The return leg loop of the `'double'` format. */
  method ReturnLeg(matchdays: seq<Matchday>) returns (returnMatchdays: seq<Matchday>)
    ensures returnMatchdays == SecondLeg(matchdays)
  {
    returnMatchdays := [];
    var firstRoundLength := |matchdays|;
    var index := 0;
    while index < |matchdays|
      invariant 0 <= index <= |matchdays|
      invariant returnMatchdays == SecondLeg(matchdays)[..index]
    {
      var matchday := matchdays[index];
      returnMatchdays := returnMatchdays + [Matchday(firstRoundLength + index + 1, Mirror(matchday.matches))];
      index := index + 1;
    }
  }

  /** `generateRoundRobin` as written: pad, one round per rotation of the
      working list, then the mirrored leg for `Double`. */
  method GenerateRoundRobin(teams: seq<string>, format: Format) returns (matchdays: seq<Matchday>)
    ensures matchdays == Schedule(teams, format)
  {
    ghost var padded := Pad(teams);
    matchdays := [];
    var teamsCopy := teams;
    if |teamsCopy| % 2 != 0 {
      teamsCopy := teamsCopy + [Bye];
    }
    assert teamsCopy == padded;
    var numTeams := |teamsCopy|;
    var numRounds := numTeams - 1;
    var round := 0;
    while round < numRounds
      invariant numTeams == |padded| && |teamsCopy| == numTeams
      invariant 0 <= round <= NumRounds(padded)
      invariant numTeams >= 1 ==> teamsCopy == Turns(padded, round)
      invariant matchdays == FirstLeg(padded)[..round]
    {
      var matches := PairUp(teamsCopy);
      FirstLegPrefix(padded, round);
      matchdays := matchdays + [Matchday(round + 1, matches)];
      teamsCopy := RotateInPlace(teamsCopy);
      round := round + 1;
    }
    assert matchdays == FirstLeg(padded);
    if format == Double {
      var returnMatchdays := ReturnLeg(matchdays);
      matchdays := matchdays + returnMatchdays;
    }
  }

  /** One match of the save payload. */
  datatype PayloadMatch = PayloadMatch(local: string, visitor: string)

  /** One round of the save payload. */
  datatype PayloadRound = PayloadRound(roundNumber: int, matches: seq<PayloadMatch>)

  function ToPayloadMatches(ms: seq<Match>): (r: seq<PayloadMatch>)
    ensures |r| == |ms|
    ensures forall j | 0 <= j < |ms| :: r[j].local == ms[j].team1 && r[j].visitor == ms[j].team2
  {
    seq(|ms|, j requires 0 <= j < |ms| => PayloadMatch(ms[j].team1, ms[j].team2))
  }

  /** The `rounds` field built in `handleFinish`: matchdays in order, round
      number from `number`, home side from `team1`, away side from `team2`. */
  function ToPayloadRounds(days: seq<Matchday>): (r: seq<PayloadRound>)
    ensures |r| == |days|
    ensures forall k | 0 <= k < |days| ::
              r[k].roundNumber == days[k].number && r[k].matches == ToPayloadMatches(days[k].matches)
  {
    seq(|days|, k requires 0 <= k < |days| => PayloadRound(days[k].number, ToPayloadMatches(days[k].matches)))
  }

  /** Reading a payload back as matchdays. */
  function FromPayloadRounds(rounds: seq<PayloadRound>): (r: seq<Matchday>)
    ensures |r| == |rounds|
  {
    seq(|rounds|, k requires 0 <= k < |rounds| =>
      Matchday(rounds[k].roundNumber,
               seq(|rounds[k].matches|, j requires 0 <= j < |rounds[k].matches| =>
                 Match(rounds[k].matches[j].local, rounds[k].matches[j].visitor))))
  }

  /** The payload mapping loses nothing: reading it back yields the matchdays. */
  lemma PayloadRoundTrip(days: seq<Matchday>)
    ensures FromPayloadRounds(ToPayloadRounds(days)) == days
  {
    var back := FromPayloadRounds(ToPayloadRounds(days));
    forall k | 0 <= k < |days|
      ensures back[k] == days[k]
    {
      assert back[k].matches == days[k].matches;
    }
  }
}
