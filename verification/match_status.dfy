/** The match-status badge table shared by the match list and the match
    editor (src/pages/matches/Matches.tsx:38-59,
    src/pages/matches/EditMatch.tsx:29-57). */
module MatchStatus {

  datatype Badge = Pending | Played | Wo | Suspended

  /** The status string each badge is stored under. */
  function Key(b: Badge): string
  {
    match b
    case Pending => "pending"
    case Played => "played"
    case Wo => "wo"
    case Suspended => "suspended"
  }

  /** The text the badge shows. */
  function Label(b: Badge): string
  {
    match b
    case Pending => "Pendiente"
    case Played => "Jugado"
    case Wo => "W.O."
    case Suspended => "Suspendido"
  }

  /** The badge's style classes. */
  function Color(b: Badge): string
  {
    match b
    case Pending => "bg-state-pending text-white"
    case Played => "bg-state-played text-white"
    case Wo => "bg-state-wo text-white"
    case Suspended => "bg-state-suspended text-white"
  }

  /** `statusConfig[status] ?? statusConfig.pending`: the badge stored under
      `status`, or the pending one when no badge is. */
  function BadgeFor(status: string): (b: Badge)
    ensures forall c: Badge :: Key(c) == status ==> b == c
    ensures (forall c: Badge :: Key(c) != status) ==> b == Pending
  {
    if status == Key(Played) then Played
    else if status == Key(Wo) then Wo
    else if status == Key(Suspended) then Suspended
    else Pending
  }

  /** Looking a badge up by its own key finds that badge. */
  lemma BadgeRoundTrip(b: Badge)
    ensures BadgeFor(Key(b)) == b
  {
  }

  /** A status with a badge other than pending is that badge's key. */
  lemma NonPendingIsKnown(status: string)
    ensures BadgeFor(status) != Pending ==> Key(BadgeFor(status)) == status
  {
  }

  /** Different badges show different labels. */
  lemma LabelsDistinct(b: Badge, c: Badge)
    ensures Label(b) == Label(c) ==> b == c
  {
    if b != c {
      assert Label(b)[0] != Label(c)[0] || |Label(b)| != |Label(c)|;
    }
  }
}
