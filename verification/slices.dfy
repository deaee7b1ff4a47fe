/** The two Redux slots of the store (src/reducers/tournamentSlice.ts,
    src/reducers/matchSlice.ts). Each holds one value or null, with a
    `set` action that stores its payload and a `remove` action that empties
    it; actions of other slices leave a slot alone. */
module Slices {
  import opened Wrappers

  datatype SlotAction<T> = Set(payload: T) | Remove | Other

  /** One reducer step of a slot. */
  function Reduce<T>(state: Option<T>, a: SlotAction<T>): (s: Option<T>)
    ensures a.Set? ==> s == Some(a.payload)
    ensures a.Remove? ==> s.None?
    ensures a.Other? ==> s == state
  {
    match a
    case Set(p) => Some(p)
    case Remove => None
    case Other => state
  }

  /** The slot after dispatching `actions` in order. */
  function Run<T>(state: Option<T>, actions: seq<SlotAction<T>>): Option<T>
    decreases |actions|
  {
    if actions == [] then state else Run(Reduce(state, actions[0]), actions[1..])
  }

  /** The last action that touches the slot, if any. */
  function LastEffective<T>(actions: seq<SlotAction<T>>): (r: Option<SlotAction<T>>)
    ensures r.Some? ==> !r.value.Other? && r.value in actions
    ensures r.None? <==> forall i | 0 <= i < |actions| :: actions[i].Other?
  {
    if actions == [] then None
    else if !actions[|actions| - 1].Other? then Some(actions[|actions| - 1])
    else LastEffective(actions[..|actions| - 1])
  }

  /** Running appends one step at the end. */
  lemma {:induction false} RunSnoc<T>(state: Option<T>, actions: seq<SlotAction<T>>, a: SlotAction<T>)
    ensures Run(state, actions + [a]) == Reduce(Run(state, actions), a)
    decreases |actions|
  {
    if actions != [] {
      assert (actions + [a])[1..] == actions[1..] + [a];
      RunSnoc(Reduce(state, actions[0]), actions[1..], a);
    }
  }

  /** The last set wins: after any run the slot holds the payload of the last
      set unless a remove came later, and is untouched when neither came. */
  lemma {:induction false} LastActionWins<T>(state: Option<T>, actions: seq<SlotAction<T>>)
    ensures Run(state, actions) == match LastEffective(actions)
                                   case None => state
                                   case Some(a) => Reduce(state, a)
  {
    if actions != [] {
      var init := actions[..|actions| - 1];
      var last := actions[|actions| - 1];
      assert actions == init + [last];
      RunSnoc(state, init, last);
      LastActionWins(state, init);
    }
  }

  /** Removing twice is removing once. */
  lemma RemoveIdempotent<T>(state: Option<T>)
    ensures Reduce(Reduce(state, Remove), Remove) == Reduce(state, Remove)
  {
  }

  /** A tournament as the store keeps it. */
  datatype Tournament = Tournament(id: string, name: string)

  /** A match with its teams as the store keeps it while being edited. */
  datatype EditingMatch = EditingMatch(id: string, localTeamName: Option<string>, visitorTeamName: Option<string>,
                                       status: string, scheduledDate: Option<string>, scheduledTime: Option<string>)

  /** The store's two slots, both empty at start. */
  datatype Store = Store(tournament: Option<Tournament>, matchEditing: Option<EditingMatch>)

  const InitialStore := Store(None, None)

  function SetTournament(s: Store, t: Tournament): (r: Store)
    ensures r.tournament == Some(t) && r.matchEditing == s.matchEditing
  {
    s.(tournament := Reduce(s.tournament, Set(t)))
  }

  function RemoveTournament(s: Store): (r: Store)
    ensures r.tournament.None? && r.matchEditing == s.matchEditing
  {
    s.(tournament := Reduce(s.tournament, Remove))
  }

  function SetEditingMatch(s: Store, m: EditingMatch): (r: Store)
    ensures r.matchEditing == Some(m) && r.tournament == s.tournament
  {
    s.(matchEditing := Reduce(s.matchEditing, Set(m)))
  }

  function RemoveEditingMatch(s: Store): (r: Store)
    ensures r.matchEditing.None? && r.tournament == s.tournament
  {
    s.(matchEditing := Reduce(s.matchEditing, Remove))
  }

  /** Setting and then removing either slot brings the initial store back. */
  lemma SetThenRemoveIsInitial(t: Tournament, m: EditingMatch)
    ensures RemoveTournament(SetTournament(InitialStore, t)) == InitialStore
    ensures RemoveEditingMatch(SetEditingMatch(InitialStore, m)) == InitialStore
  {
  }

  /** Of two sets in a row the second wins; the other slot is untouched. */
  lemma SecondSetWins(s: Store, t1: Tournament, t2: Tournament, m1: EditingMatch, m2: EditingMatch)
    ensures SetTournament(SetTournament(s, t1), t2) == SetTournament(s, t2)
    ensures SetEditingMatch(SetEditingMatch(s, m1), m2) == SetEditingMatch(s, m2)
  {
  }
}
