/** What the circle method guarantees about `generateRoundRobin`
    (src/pages/onboarding/TournamentFixture.tsx) for a list of distinct team
    names none of which is the rest marker: every matchday pairs teams at
    most once each and seats all but the resting team, and in the single
    format every two teams meet in exactly one match. */
module FixtureProofs {
  import opened Seqs
  import opened CircleMethod
  import opened Fixture

  /** The match of slot `i`: `c[i]` at home against `c[|c| - 1 - i]`. */
  function SlotMatch(c: seq<string>, i: int): Match
    requires 0 <= i < |c|
  {
    Match(c[i], c[|c| - 1 - i])
  }

  /** Slot `i` is played: neither side is the rest marker. */
  predicate Kept(c: seq<string>, i: int)
    requires 0 <= i < |c|
  {
    c[i] != Bye && c[|c| - 1 - i] != Bye
  }

  /** Two matches have no team in common. */
  predicate SharesNoTeam(x: Match, y: Match)
  {
    x.team1 != y.team1 && x.team1 != y.team2 && x.team2 != y.team1 && x.team2 != y.team2
  }

  /** Nobody plays themself and nobody plays twice. */
  predicate PairwiseDisjoint(ms: seq<Match>)
  {
    && (forall j | 0 <= j < |ms| :: ms[j].team1 != ms[j].team2)
    && (forall j1, j2 | 0 <= j1 < j2 < |ms| :: SharesNoTeam(ms[j1], ms[j2]))
  }

  /** A matchday pairs real teams from `teams`, nobody against themself and
      nobody twice. */
  predicate IsMatching(ms: seq<Match>, teams: seq<string>)
  {
    && (forall j | 0 <= j < |ms| :: ms[j].team1 in teams && ms[j].team2 in teams)
    && PairwiseDisjoint(ms)
  }

  /** `x` is a game between `a` and `b`, either side at home. */
  predicate Plays(x: Match, a: string, b: string)
  {
    (x.team1 == a && x.team2 == b) || (x.team1 == b && x.team2 == a)
  }

  /** One rotation, slot by slot. */
  lemma TurnsStep(c: seq<string>, r: nat, j: int)
    requires |c| >= 2 && 0 <= j < |c|
    ensures Turns(c, r + 1)[j] == if j == 0 then Turns(c, r)[0]
                                  else if j == 1 then Turns(c, r)[|c| - 1]
                                  else Turns(c, r)[j - 1]
  {
    assert Turns(c, r + 1) == Rotate(Turns(c, r));
  }

  /** The slot whose occupant moves to slot `j` in one rotation. */
  function Source(m: int, j: int): int
  {
    if j == 0 then 0 else if j == 1 then m else j - 1
  }

  /** One rotation carries the closed form from round `r - 1` to round `r`. */
  lemma TurnsAtStep(c: seq<string>, r: nat, j: int)
    requires |c| >= 2 && 0 <= j < |c| && r >= 1
    requires Turns(c, r - 1)[Source(|c| - 1, j)] == c[Pos(|c| - 1, r - 1, Source(|c| - 1, j))]
    ensures Turns(c, r)[j] == c[Pos(|c| - 1, r, j)]
  {
    TurnsStep(c, r - 1, j);
    PosStep(|c| - 1, r - 1, j);
  }

  /** The working list after `r` rounds, in closed form: slot `j` holds the
      team that started in slot `Pos(|c| - 1, r, j)`. */
  lemma {:induction false} TurnsAt(c: seq<string>, r: nat, j: int)
    requires |c| >= 2 && 0 <= j < |c|
    ensures Turns(c, r)[j] == c[Pos(|c| - 1, r, j)]
    decreases r
  {
    if r == 0 {
      PosAtStart(|c| - 1, j);
    } else {
      TurnsAt(c, r - 1, Source(|c| - 1, j));
      TurnsAtStep(c, r, j);
    }
  }

  /** `TurnsAt` for every slot at once. */
  lemma TurnsClosedForm(c: seq<string>, r: nat)
    requires |c| >= 2
    ensures forall j | 0 <= j < |c| :: Turns(c, r)[j] == c[Pos(|c| - 1, r, j)]
  {
    forall j | 0 <= j < |c|
      ensures Turns(c, r)[j] == c[Pos(|c| - 1, r, j)]
    {
      TurnsAt(c, r, j);
    }
  }

  /** Rotation keeps the list duplicate-free. */
  lemma TurnsDistinct(c: seq<string>, r: nat)
    requires |c| >= 2 && Distinct(c)
    ensures Distinct(Turns(c, r))
  {
    var m := |c| - 1;
    forall i, j | 0 <= i < j < |c|
      ensures Turns(c, r)[i] != Turns(c, r)[j]
    {
      TurnsAt(c, r, i);
      TurnsAt(c, r, j);
      WhereOfPos(m, r, i);
      WhereOfPos(m, r, j);
    }
  }

  /** Every match of the first `k` slots is the match of a kept slot below `k`. */
  lemma {:induction false} MatchesFromSlots(c: seq<string>, k: int)
    requires |c| % 2 == 0 && 0 <= k <= |c| / 2
    ensures forall x | x in MatchesUpTo(c, k) ::
              exists i :: 0 <= i < k && Kept(c, i) && x == SlotMatch(c, i)
  {
    if k > 0 {
      MatchesFromSlots(c, k - 1);
      forall x | x in MatchesUpTo(c, k)
        ensures exists i :: 0 <= i < k && Kept(c, i) && x == SlotMatch(c, i)
      {
        if x !in MatchesUpTo(c, k - 1) {
          assert Kept(c, k - 1) && x == SlotMatch(c, k - 1);
        }
      }
    }
  }

  /** Every kept slot below `k` contributes its match. */
  lemma {:induction false} KeptSlotPlayed(c: seq<string>, k: int, i: int)
    requires |c| % 2 == 0 && 0 <= i < k <= |c| / 2 && Kept(c, i)
    ensures SlotMatch(c, i) in MatchesUpTo(c, k)
  {
    if i < k - 1 {
      KeptSlotPlayed(c, k - 1, i);
    }
  }

  /** With duplicate-free slots the first `k` slots' matches are disjoint. */
  lemma {:induction false} MatchesDisjoint(c: seq<string>, k: int)
    requires |c| % 2 == 0 && 0 <= k <= |c| / 2 && Distinct(c)
    ensures PairwiseDisjoint(MatchesUpTo(c, k))
  {
    if k > 0 {
      var n := |c|;
      MatchesDisjoint(c, k - 1);
      MatchesFromSlots(c, k - 1);
      var prev := MatchesUpTo(c, k - 1);
      var ms := MatchesUpTo(c, k);
      if ms != prev {
        var last := SlotMatch(c, k - 1);
        assert ms == prev + [last];
        forall j | 0 <= j < |prev|
          ensures SharesNoTeam(prev[j], last)
        {
          assert prev[j] in prev;
          var i :| 0 <= i < k - 1 && Kept(c, i) && prev[j] == SlotMatch(c, i);
          assert c[i] != c[k - 1] && c[i] != c[n - k];
          assert c[n - 1 - i] != c[k - 1] && c[n - 1 - i] != c[n - k];
        }
        assert c[k - 1] != c[n - k];
        forall j1, j2 | 0 <= j1 < j2 < |ms|
          ensures SharesNoTeam(ms[j1], ms[j2])
        {
          if j2 == |prev| {
            assert ms[j2] == last && ms[j1] == prev[j1];
          } else {
            assert ms[j1] == prev[j1] && ms[j2] == prev[j2];
          }
        }
        forall j | 0 <= j < |ms|
          ensures ms[j].team1 != ms[j].team2
        {
          if j < |prev| {
            assert ms[j] == prev[j];
          }
        }
      }
    }
  }

  /** No rest marker in the list: every slot is played. */
  lemma {:induction false} CountWithoutBye(c: seq<string>, k: int)
    requires |c| % 2 == 0 && 0 <= k <= |c| / 2 && Bye !in c
    ensures |MatchesUpTo(c, k)| == k
  {
    if k > 0 {
      CountWithoutBye(c, k - 1);
      assert c[k - 1] in c && c[|c| - k] in c;
    }
  }

  /** The rest marker only at `b`: the one slot holding it is dropped. */
  lemma {:induction false} CountWithOneBye(c: seq<string>, k: int, b: int)
    requires |c| % 2 == 0 && 0 <= k <= |c| / 2 && 0 <= b < |c| && c[b] == Bye
    requires forall j | 0 <= j < |c| && j != b :: c[j] != Bye
    ensures |MatchesUpTo(c, k)| == k - (if b < k || |c| - 1 - b < k then 1 else 0)
  {
    if k > 0 {
      CountWithOneBye(c, k - 1, b);
    }
  }

  /** The working list is the input, plus the rest marker when odd. */
  lemma PadFacts(teams: seq<string>)
    requires Distinct(teams) && Bye !in teams
    ensures Distinct(Pad(teams))
    ensures forall x | x in Pad(teams) && x != Bye :: x in teams
    ensures Bye in Pad(teams) <==> |teams| % 2 == 1
  {
    var p := Pad(teams);
    if |teams| % 2 == 1 {
      assert p == teams + [Bye];
      assert p[|teams|] == Bye;
    }
  }

  /** A duplicate-free working list whose real teams come from `teams`
      yields a matching of `teams`. */
  lemma SlotsMakeMatching(c: seq<string>, teams: seq<string>)
    requires |c| % 2 == 0 && Distinct(c)
    requires forall x | x in c && x != Bye :: x in teams
    ensures IsMatching(RoundMatches(c), teams)
  {
    var ms := RoundMatches(c);
    MatchesDisjoint(c, |c| / 2);
    MatchesFromSlots(c, |c| / 2);
    forall j | 0 <= j < |ms|
      ensures ms[j].team1 in teams && ms[j].team2 in teams
    {
      assert ms[j] in ms;
      var i :| 0 <= i < |c| / 2 && Kept(c, i) && ms[j] == SlotMatch(c, i);
      assert c[i] in c && c[|c| - 1 - i] in c;
    }
  }

  /** The number of matches of a round: every slot is played, except the
      one holding the rest marker when there is one. */
  lemma RoundSize(c: seq<string>, p: seq<string>)
    requires |c| % 2 == 0 && |c| >= 2 && Distinct(c) && multiset(c) == multiset(p)
    ensures |RoundMatches(c)| == if Bye in p then |c| / 2 - 1 else |c| / 2
  {
    if Bye in p {
      assert Bye in multiset(p);
      var b :| 0 <= b < |c| && c[b] == Bye;
      CountWithOneBye(c, |c| / 2, b);
    } else {
      assert Bye !in multiset(c);
      assert Bye !in c;
      CountWithoutBye(c, |c| / 2);
    }
  }

  /** One first-leg round: a duplicate-free rotation of the padded list whose
      matches form a matching of `teams` of size `|teams| / 2`. */
  lemma RoundIsMatching(teams: seq<string>, r: nat)
    requires Distinct(teams) && Bye !in teams && r < NumRounds(Pad(teams))
    ensures Distinct(Turns(Pad(teams), r))
    ensures IsMatching(RoundMatches(Turns(Pad(teams), r)), teams)
    ensures |RoundMatches(Turns(Pad(teams), r))| == |teams| / 2
  {
    var p := Pad(teams);
    var c := Turns(p, r);
    PadFacts(teams);
    TurnsDistinct(p, r);
    TurnsSameTeams(p, r);
    forall x | x in c && x != Bye
      ensures x in teams
    {
      assert x in multiset(c);
    }
    SlotsMakeMatching(c, teams);
    RoundSize(c, p);
  }

  /** The slot a match of a round was played in. */
  lemma SlotOfPlay(c: seq<string>, j: int, a: string, b: string) returns (i: int)
    requires |c| % 2 == 0 && 0 <= j < |RoundMatches(c)| && Plays(RoundMatches(c)[j], a, b)
    ensures 0 <= i < |c| / 2
    ensures (c[i] == a && c[|c| - 1 - i] == b) || (c[i] == b && c[|c| - 1 - i] == a)
  {
    var ms := RoundMatches(c);
    MatchesFromSlots(c, |c| / 2);
    assert ms[j] in ms;
    i :| 0 <= i < |c| / 2 && Kept(c, i) && ms[j] == SlotMatch(c, i);
  }

  /** Starting slots `u` and `v` sitting in the two seats of one pairing
      slot after `r` rotations meet in round `r`. */
  lemma SeatedOppositeMeet(p: seq<string>, r: nat, i: int, u: int, v: int)
    requires |p| >= 2 && Distinct(p) && 0 <= i < |p| && 0 <= u < |p| && 0 <= v < |p|
    requires Turns(p, r)[i] == p[u] && Turns(p, r)[|p| - 1 - i] == p[v]
    ensures Meet(|p| - 1, r, u, v)
  {
    var m := |p| - 1;
    TurnsAt(p, r, i);
    TurnsAt(p, r, m - i);
    assert p[Pos(m, r, i)] == p[u];
    assert Pos(m, r, i) == u;
    assert p[Pos(m, r, m - i)] == p[v];
    assert Pos(m, r, m - i) == v;
    WhereOfPos(m, r, i);
    WhereOfPos(m, r, m - i);
  }

  /** A match between `a` (starting slot `u`) and `b` (starting slot `v`) in
      round `r` means the two slots meet in that round. */
  lemma PlaysMeansMeet(p: seq<string>, r: nat, j: int, u: int, v: int)
    requires |p| >= 2 && |p| % 2 == 0 && Distinct(p)
    requires 0 <= u < |p| && 0 <= v < |p|
    requires 0 <= j < |RoundMatches(Turns(p, r))| && Plays(RoundMatches(Turns(p, r))[j], p[u], p[v])
    ensures Meet(|p| - 1, r, u, v)
  {
    var c := Turns(p, r);
    var i := SlotOfPlay(c, j, p[u], p[v]);
    if c[i] == p[u] {
      SeatedOppositeMeet(p, r, i, u, v);
    } else {
      SeatedOppositeMeet(p, r, i, v, u);
    }
  }

  /** Two real teams seated opposite each other are paired in the round. */
  lemma SeatedOppositePlay(c: seq<string>, w: int)
    requires |c| % 2 == 0 && 0 <= w < |c| && Kept(c, w)
    ensures exists j :: 0 <= j < |RoundMatches(c)| && Plays(RoundMatches(c)[j], c[w], c[|c| - 1 - w])
  {
    var w2 := |c| - 1 - w;
    var i := if w < w2 then w else w2;
    assert 0 <= i < |c| / 2 && Kept(c, i);
    KeptSlotPlayed(c, |c| / 2, i);
    var ms := RoundMatches(c);
    var j :| 0 <= j < |ms| && ms[j] == SlotMatch(c, i);
    assert Plays(ms[j], c[w], c[w2]);
  }

  /** Starting slots that meet in round `r` sit opposite each other then. */
  lemma MeetSeatsOpposite(p: seq<string>, r: nat, u: int, v: int)
    requires |p| >= 2 && 0 <= u < |p| && 0 <= v < |p| && Meet(|p| - 1, r, u, v)
    ensures Turns(p, r)[Where(|p| - 1, r, u)] == p[u]
    ensures Turns(p, r)[|p| - 1 - Where(|p| - 1, r, u)] == p[v]
  {
    var m := |p| - 1;
    var wu, wv := Where(m, r, u), Where(m, r, v);
    assert wv == m - wu;
    TurnsAt(p, r, wu);
    TurnsAt(p, r, wv);
    PosOfWhere(m, r, u);
    PosOfWhere(m, r, v);
  }

  /** Slots `u` and `v` meeting in round `r` gives a match between their teams. */
  lemma MeetMeansPlays(p: seq<string>, r: nat, u: int, v: int)
    requires |p| >= 2 && |p| % 2 == 0
    requires 0 <= u < |p| && p[u] != Bye && 0 <= v < |p| && p[v] != Bye
    requires Meet(|p| - 1, r, u, v)
    ensures exists j :: 0 <= j < |RoundMatches(Turns(p, r))| && Plays(RoundMatches(Turns(p, r))[j], p[u], p[v])
  {
    var c := Turns(p, r);
    var w := Where(|p| - 1, r, u);
    MeetSeatsOpposite(p, r, u, v);
    SeatedOppositePlay(c, w);
  }

  /** Swapping home and away keeps a matching a matching. */
  lemma MirrorIsMatching(ms: seq<Match>, teams: seq<string>)
    requires IsMatching(ms, teams)
    ensures IsMatching(Mirror(ms), teams) && |Mirror(ms)| == |ms|
  {
    var mm := Mirror(ms);
    forall j1, j2 | 0 <= j1 < j2 < |mm|
      ensures SharesNoTeam(mm[j1], mm[j2])
    {
      assert SharesNoTeam(ms[j1], ms[j2]);
    }
  }

  /** Every first-leg matchday is a matching of size `|teams| / 2`. */
  lemma FirstLegIsMatchings(teams: seq<string>)
    requires Distinct(teams) && Bye !in teams
    ensures forall k | 0 <= k < |FirstLeg(Pad(teams))| ::
              IsMatching(FirstLeg(Pad(teams))[k].matches, teams)
              && |FirstLeg(Pad(teams))[k].matches| == |teams| / 2
  {
    var p := Pad(teams);
    forall k | 0 <= k < |FirstLeg(p)|
      ensures IsMatching(FirstLeg(p)[k].matches, teams) && |FirstLeg(p)[k].matches| == |teams| / 2
    {
      RoundIsMatching(teams, k);
      assert FirstLeg(p)[k] == Round(p, k);
    }
  }

  /** Every matchday of either format is a matching of `teams` of size
      `|teams| / 2`: all but the resting team play, once. */
  lemma ScheduleRoundsAreMatchings(teams: seq<string>, format: Format)
    requires Distinct(teams) && Bye !in teams
    ensures forall k | 0 <= k < |Schedule(teams, format)| ::
              IsMatching(Schedule(teams, format)[k].matches, teams)
              && |Schedule(teams, format)[k].matches| == |teams| / 2
  {
    var d := Schedule(teams, format);
    var first := FirstLeg(Pad(teams));
    var n := |first|;
    FirstLegIsMatchings(teams);
    forall k | 0 <= k < |d|
      ensures IsMatching(d[k].matches, teams) && |d[k].matches| == |teams| / 2
    {
      if k < n {
        assert d[k] == first[k];
      } else {
        assert d[k].matches == Mirror(first[k - n].matches);
        MirrorIsMatching(first[k - n].matches, teams);
      }
    }
  }

  /** The starting slots of two input teams in the padded list. */
  lemma StartingSlots(teams: seq<string>, a: string, b: string) returns (u: int, v: int)
    requires Distinct(teams) && Bye !in teams && a in teams && b in teams && a != b
    ensures 0 <= u < |teams| && 0 <= v < |teams| && u != v
    ensures Pad(teams)[u] == a && Pad(teams)[v] == b
    ensures ValidModulus(|Pad(teams)| - 1) && NumRounds(Pad(teams)) == |Pad(teams)| - 1
  {
    var p := Pad(teams);
    assert p[..|teams|] == teams;
    u :| 0 <= u < |teams| && teams[u] == a;
    v :| 0 <= v < |teams| && teams[v] == b;
    assert p[u] == teams[u] && p[v] == teams[v];
  }

  /** Two different teams meet in some first-leg match. */
  lemma PairMeets(teams: seq<string>, a: string, b: string)
    requires Distinct(teams) && Bye !in teams && a in teams && b in teams && a != b
    ensures var d := FirstLeg(Pad(teams));
            exists k, j :: 0 <= k < |d| && 0 <= j < |d[k].matches| && Plays(d[k].matches[j], a, b)
  {
    var p := Pad(teams);
    var d := FirstLeg(p);
    var u, v := StartingSlots(teams, a, b);
    var m := |p| - 1;
    var r := MeetRound(m, u, v);
    MeetRoundMeets(m, u, v);
    MeetMeansPlays(p, r, u, v);
    assert d[r] == Round(p, r);
  }

  /** In a matchday with no team twice, a pair plays at most one match. */
  lemma DisjointPlaysOnce(ms: seq<Match>, a: string, b: string, j1: int, j2: int)
    requires PairwiseDisjoint(ms)
    requires 0 <= j1 < |ms| && Plays(ms[j1], a, b) && 0 <= j2 < |ms| && Plays(ms[j2], a, b)
    ensures j1 == j2
  {
  }

  /** `PlaysMeansMeet` read off the first leg. */
  lemma PlaysInLegMeansMeet(p: seq<string>, k: int, j: int, u: int, v: int)
    requires |p| >= 2 && |p| % 2 == 0 && Distinct(p)
    requires 0 <= u < |p| && 0 <= v < |p|
    requires 0 <= k < |FirstLeg(p)| && 0 <= j < |FirstLeg(p)[k].matches|
    requires Plays(FirstLeg(p)[k].matches[j], p[u], p[v])
    ensures 0 <= k < |p| - 1 && Meet(|p| - 1, k, u, v)
  {
    assert FirstLeg(p)[k] == Round(p, k);
    PlaysMeansMeet(p, k, j, u, v);
  }

  /** Two different teams meet in at most one first-leg round. */
  lemma PairMeetsInOneRound(p: seq<string>, u: int, v: int, k1: int, j1: int, k2: int, j2: int)
    requires |p| >= 2 && |p| % 2 == 0 && Distinct(p)
    requires 0 <= u < |p| && 0 <= v < |p| && u != v
    requires 0 <= k1 < |FirstLeg(p)| && 0 <= j1 < |FirstLeg(p)[k1].matches|
    requires Plays(FirstLeg(p)[k1].matches[j1], p[u], p[v])
    requires 0 <= k2 < |FirstLeg(p)| && 0 <= j2 < |FirstLeg(p)[k2].matches|
    requires Plays(FirstLeg(p)[k2].matches[j2], p[u], p[v])
    ensures k1 == k2
  {
    PlaysInLegMeansMeet(p, k1, j1, u, v);
    PlaysInLegMeansMeet(p, k2, j2, u, v);
    MeetRoundUnique(|p| - 1, u, v, k1, k2);
  }

  /** Two different teams meet in at most one first-leg match. */
  lemma PairMeetsAtMostOnce(teams: seq<string>, a: string, b: string, k1: int, j1: int, k2: int, j2: int)
    requires Distinct(teams) && Bye !in teams && a in teams && b in teams && a != b
    requires var d := FirstLeg(Pad(teams));
             && 0 <= k1 < |d| && 0 <= j1 < |d[k1].matches| && Plays(d[k1].matches[j1], a, b)
             && 0 <= k2 < |d| && 0 <= j2 < |d[k2].matches| && Plays(d[k2].matches[j2], a, b)
    ensures k1 == k2 && j1 == j2
  {
    var u, v := StartingSlots(teams, a, b);
    PadFacts(teams);
    PairMeetsInOneRound(Pad(teams), u, v, k1, j1, k2, j2);
    FirstLegIsMatchings(teams);
    var ms := FirstLeg(Pad(teams))[k1].matches;
    DisjointPlaysOnce(ms, a, b, j1, j2);
  }

  /** Single format: every two different teams meet in exactly one match. */
  lemma EachPairMeetsOnce(teams: seq<string>, a: string, b: string)
    requires Distinct(teams) && Bye !in teams
    requires a in teams && b in teams && a != b
    ensures var d := Schedule(teams, Single);
            exists k, j :: 0 <= k < |d| && 0 <= j < |d[k].matches| && Plays(d[k].matches[j], a, b)
    ensures var d := Schedule(teams, Single);
            forall k1, j1, k2, j2 |
              && 0 <= k1 < |d| && 0 <= j1 < |d[k1].matches| && Plays(d[k1].matches[j1], a, b)
              && 0 <= k2 < |d| && 0 <= j2 < |d[k2].matches| && Plays(d[k2].matches[j2], a, b)
              :: k1 == k2 && j1 == j2
  {
    assert Schedule(teams, Single) == FirstLeg(Pad(teams));
    PairMeets(teams, a, b);
    forall k1, j1, k2, j2 |
      var d := FirstLeg(Pad(teams));
      && 0 <= k1 < |d| && 0 <= j1 < |d[k1].matches| && Plays(d[k1].matches[j1], a, b)
      && 0 <= k2 < |d| && 0 <= j2 < |d[k2].matches| && Plays(d[k2].matches[j2], a, b)
      ensures k1 == k2 && j1 == j2
    {
      PairMeetsAtMostOnce(teams, a, b, k1, j1, k2, j2);
    }
  }

  /** A game of the double schedule is the same pairing as the first-leg game
      in the same slot of the same round of its leg. */
  lemma DoublePlayInFirstLeg(teams: seq<string>, a: string, b: string, k: int, j: int, r: int)
    requires var d := Schedule(teams, Double);
             0 <= k < |d| && 0 <= j < |d[k].matches| && Plays(d[k].matches[j], a, b)
    requires r == if k < NumRounds(Pad(teams)) then k else k - NumRounds(Pad(teams))
    ensures var first := FirstLeg(Pad(teams));
            0 <= r < |first| && 0 <= j < |first[r].matches| && Plays(first[r].matches[j], a, b)
  {
    var d := Schedule(teams, Double);
    var n := NumRounds(Pad(teams));
    var first := FirstLeg(Pad(teams));
    if k < n {
      assert d[k] == d[..n][k];
    } else {
      var second := SecondLeg(first);
      assert d[k] == d[n..][k - n] == second[k - n];
      MirrorPlays(first[r].matches, j, a, b);
    }
  }

  /** A swapped game is a game of the same pair. */
  lemma MirrorPlays(ms: seq<Match>, j: int, a: string, b: string)
    requires 0 <= j < |ms| && Plays(Mirror(ms)[j], a, b)
    ensures Plays(ms[j], a, b)
  {
  }

  /** Double format, existence: two different teams meet in some first-leg
      slot, and the same slot of the round `n` later holds the return game. */
  lemma PairMeetsInBothLegs(teams: seq<string>, a: string, b: string)
    requires Distinct(teams) && Bye !in teams
    requires a in teams && b in teams && a != b
    ensures var d := Schedule(teams, Double);
            var n := NumRounds(Pad(teams));
            exists k, j {:trigger d[k].matches[j]} ::
              && 0 <= k < n && 0 <= j < |d[k].matches| && Plays(d[k].matches[j], a, b)
              && j < |d[n + k].matches|
              && d[n + k].matches[j] == Match(d[k].matches[j].team2, d[k].matches[j].team1)
  {
    var d := Schedule(teams, Double);
    var n := NumRounds(Pad(teams));
    var first := FirstLeg(Pad(teams));
    assert d[..n] == first;
    PairMeets(teams, a, b);
    var k, j :| 0 <= k < |first| && 0 <= j < |first[k].matches| && Plays(first[k].matches[j], a, b);
    assert d[k] == first[k];
    assert d[n + k].matches == Mirror(first[k].matches);
  }

  /** Double format, uniqueness: two games of the same pair sit in the same
      slot, in the same round or in rounds `n` apart. */
  lemma PairMeetsAtMostTwice(teams: seq<string>, a: string, b: string, k1: int, j1: int, k2: int, j2: int)
    requires Distinct(teams) && Bye !in teams
    requires a in teams && b in teams && a != b
    requires var d := Schedule(teams, Double);
             && 0 <= k1 < |d| && 0 <= j1 < |d[k1].matches| && Plays(d[k1].matches[j1], a, b)
             && 0 <= k2 < |d| && 0 <= j2 < |d[k2].matches| && Plays(d[k2].matches[j2], a, b)
    ensures var n := NumRounds(Pad(teams));
            j1 == j2 && (k1 == k2 || k1 == k2 + n || k2 == k1 + n)
  {
    var n := NumRounds(Pad(teams));
    var r1 := if k1 < n then k1 else k1 - n;
    var r2 := if k2 < n then k2 else k2 - n;
    DoublePlayInFirstLeg(teams, a, b, k1, j1, r1);
    DoublePlayInFirstLeg(teams, a, b, k2, j2, r2);
    PairMeetsAtMostOnce(teams, a, b, r1, j1, r2, j2);
  }
}
