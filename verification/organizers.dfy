/** The organizer administration page (src/pages/superadmin/Organizers.tsx):
    mapping stored rows to list entries, the search and status filter, and
    the suspend/reactivate confirmation modal. */
module Organizers {
  import opened Wrappers
  import opened Text
  import opened Seqs

  /** A stored organizer row, as far as the page reads it; the text columns
      may be null. */
  datatype OrganizerRow = OrganizerRow(id: Option<string>, fullName: Option<string>, email: Option<string>,
                                       createdAt: string, isActive: bool)

  datatype Status = Active | Suspended

  /** A list entry. `lastAccess` and `tournamentsCreated` are placeholders. */
  datatype Organizer = Organizer(id: string, name: string, email: string, registrationDate: string,
                                 lastAccess: string, tournamentsCreated: int, status: Status)

  /** The row-to-entry mapping of `getOrganizers`. */
  function ToOrganizer(row: OrganizerRow): (o: Organizer)
    ensures o.status == Active <==> row.isActive
    ensures row.id.None? ==> o.id == ""
    ensures row.id.Some? ==> o.id == row.id.value
    ensures row.fullName.None? ==> o.name == ""
    ensures row.fullName.Some? ==> o.name == row.fullName.value
    ensures row.email.None? ==> o.email == ""
    ensures row.email.Some? ==> o.email == row.email.value
    ensures o.registrationDate == row.createdAt && o.lastAccess == "" && o.tournamentsCreated == 0
  {
    Organizer(row.id.GetOr(""), row.fullName.GetOr(""), row.email.GetOr(""), row.createdAt, "", 0,
              if row.isActive then Active else Suspended)
  }

  /** The stored row an entry stands for. */
  function ToRow(o: Organizer): OrganizerRow
  {
    OrganizerRow(Some(o.id), Some(o.name), Some(o.email), o.registrationDate, o.status == Active)
  }

  /** The mapping loses nothing of a row whose text columns are all set. */
  lemma ToOrganizerRoundTrip(row: OrganizerRow)
    requires row.id.Some? && row.fullName.Some? && row.email.Some?
    ensures ToRow(ToOrganizer(row)) == row
  {
  }

  /** A null column and an empty one are listed alike. */
  lemma NullColumnsReadAsEmpty(row: OrganizerRow)
    requires row.id.None? && row.fullName.None? && row.email.None?
    ensures ToOrganizer(row) == ToOrganizer(row.(id := Some(""), fullName := Some(""), email := Some("")))
  {
  }

  function ToOrganizers(rows: seq<OrganizerRow>): (os: seq<Organizer>)
    ensures |os| == |rows|
    ensures forall i | 0 <= i < |rows| :: os[i] == ToOrganizer(rows[i])
  {
    seq(|rows|, i requires 0 <= i < |rows| => ToOrganizer(rows[i]))
  }

  datatype StatusFilter = All | Only(status: Status)

  /** The search test: the lower-cased name or email contains the lower-cased
      term. `lower` stands for `String.prototype.toLowerCase`. */
  predicate MatchesSearch(o: Organizer, term: string, lower: string -> string)
  {
    Contains(lower(o.name), lower(term)) || Contains(lower(o.email), lower(term))
  }

  predicate MatchesStatus(o: Organizer, f: StatusFilter)
  {
    f == All || o.status == f.status
  }

  /** `filteredOrganizers`. */
  function FilterOrganizers(os: seq<Organizer>, term: string, f: StatusFilter, lower: string -> string): (r: seq<Organizer>)
    ensures IsSubsequence(r, os)
    ensures forall o | o in r :: MatchesSearch(o, term, lower) && MatchesStatus(o, f)
    ensures forall o | o in os && MatchesSearch(o, term, lower) && MatchesStatus(o, f) :: o in r
    ensures forall i | 0 <= i < |os| && MatchesSearch(os[i], term, lower) && MatchesStatus(os[i], f) ::
              multiset(r)[os[i]] == multiset(os)[os[i]]
  {
    Filter(os, o => MatchesSearch(o, term, lower) && MatchesStatus(o, f))
  }

  /** Every string contains the empty string. */
  lemma ContainsEmpty(s: string)
    ensures Contains(s, "")
  {
    assert StartsWith(s, "");
  }

  /** With the 'all' filter and an empty term every organizer is listed, given
      that lower-casing keeps the empty string empty. */
  lemma EmptySearchListsAll(os: seq<Organizer>, lower: string -> string)
    requires lower("") == ""
    ensures FilterOrganizers(os, "", All, lower) == os
  {
    forall o | o in os
      ensures MatchesSearch(o, "", lower)
    {
      ContainsEmpty(lower(o.name));
    }
  }

  /** The page state that the modal handlers touch. */
  datatype OrganizersPage = OrganizersPage(organizers: seq<Organizer>, modalOpen: bool, selected: Option<Organizer>)

  /** The request sent to the store: set `isActive` of organizer `id`. */
  datatype ToggleRequest = ToggleRequest(id: string, isActive: bool)

  /** The list reload after a toggle: `getOrganizers` swallows its errors and
      then keeps the old list; a null response counts as no rows. */
  datatype Reload = ReloadFailed | Reloaded(rows: Option<seq<OrganizerRow>>)

  function ApplyReload(organizers: seq<Organizer>, reload: Reload): (r: seq<Organizer>)
    ensures reload.ReloadFailed? ==> r == organizers
    ensures reload.Reloaded? ==> r == ToOrganizers(reload.rows.GetOr([]))
  {
    match reload
    case ReloadFailed => organizers
    case Reloaded(rows) => ToOrganizers(rows.GetOr([]))
  }

  /** The toggle button of `o`: remember it and open the modal. */
  function ClickToggle(p: OrganizersPage, o: Organizer): (q: OrganizersPage)
    ensures q.modalOpen && q.selected == Some(o) && q.organizers == p.organizers
  {
    p.(modalOpen := true, selected := Some(o))
  }

  /** What confirming does: the page after it, and the request sent. */
  datatype Confirmed = Confirmed(page: OrganizersPage, request: Option<ToggleRequest>)

  /** `handleConfirmToggle`. Nothing happens without a selection. Otherwise
      the opposite status is requested; if that call throws, the handler
      stops there and the modal stays open; if it succeeds the list is
      reloaded and the modal closed. */
  function ConfirmToggle(p: OrganizersPage, toggleSucceeded: bool, reload: Reload): (c: Confirmed)
    ensures p.selected.None? ==> c == Confirmed(p, None)
    ensures p.selected.Some? ==>
              c.request == Some(ToggleRequest(p.selected.value.id, p.selected.value.status != Active))
    ensures p.selected.Some? && !toggleSucceeded ==> c.page == p
    ensures p.selected.Some? && toggleSucceeded ==>
              c.page == OrganizersPage(ApplyReload(p.organizers, reload), false, None)
  {
    match p.selected
    case None => Confirmed(p, None)
    case Some(o) =>
      var request := ToggleRequest(o.id, if o.status == Active then false else true);
      if !toggleSucceeded then Confirmed(p, Some(request))
      else Confirmed(OrganizersPage(ApplyReload(p.organizers, reload), false, None), Some(request))
  }

  /** `handleCancelToggle`. */
  function CancelToggle(p: OrganizersPage): (q: OrganizersPage)
    ensures !q.modalOpen && q.selected.None? && q.organizers == p.organizers
  {
    p.(modalOpen := false, selected := None)
  }

  /** The request inverts the selected organizer's status: an active one is
      suspended, a suspended one reactivated. */
  lemma ConfirmRequestsOpposite(p: OrganizersPage, o: Organizer, ok: bool, reload: Reload)
    ensures var c := ConfirmToggle(ClickToggle(p, o), ok, reload);
            c.request.Some? && c.request.value.id == o.id
            && (c.request.value.isActive <==> o.status == Suspended)
  {
  }

  /** Opening the modal and cancelling leaves the list as it was and the
      modal closed, whatever was selected before. */
  lemma ClickThenCancelRestores(p: OrganizersPage, o: Organizer)
    requires !p.modalOpen && p.selected.None?
    ensures CancelToggle(ClickToggle(p, o)) == p
  {
  }
}
