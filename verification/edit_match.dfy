/** The match editor (src/pages/matches/EditMatch.tsx): its form fields and
    the gate on registering a result. */
module EditMatch {
  import opened Wrappers
  import opened MatchStatus

  /** The loaded match, as far as the form reads it. */
  datatype MatchDetails = MatchDetails(id: string, scheduledDate: Option<string>, scheduledTime: Option<string>,
                                       status: Option<string>)

  /** The editable fields; `status` is undefined until one is chosen. */
  datatype EditForm = EditForm(date: string, time: string, status: Option<string>)

  /** The page: the loaded match, if any, and the form. */
  datatype EditPage = EditPage(loaded: Option<MatchDetails>, form: EditForm)

  /** `x || ''` on an optional string: empty for a missing or empty value. */
  function OrEmpty(s: Option<string>): (r: string)
    ensures s.Some? ==> r == s.value
    ensures s.None? ==> r == ""
  {
    s.GetOr("")
  }

  /** The fields' initial values, computed from the match known at the first
      render. */
  function InitialForm(m: Option<MatchDetails>): (f: EditForm)
    ensures m.None? ==> f == EditForm("", "", None)
    ensures m.Some? ==> f == EditForm(OrEmpty(m.value.scheduledDate), OrEmpty(m.value.scheduledTime), m.value.status)
  {
    match m
    case None => EditForm("", "", None)
    case Some(d) => EditForm(OrEmpty(d.scheduledDate), OrEmpty(d.scheduledTime), d.status)
  }

  /** The first render: no match is loaded yet, so the form starts empty. */
  function Mount(): (p: EditPage)
    ensures p.loaded.None? && p.form == EditForm("", "", None)
  {
    EditPage(None, InitialForm(None))
  }

  /** The lookup answer arrives; the form keeps its values, since initial
      state is read only once. */
  function MatchLoaded(p: EditPage, response: Option<MatchDetails>): (q: EditPage)
    ensures q.loaded == response && q.form == p.form
  {
    p.(loaded := response)
  }

  /** A status picked from the select, which offers exactly the four badges. */
  function ChooseStatus(p: EditPage, b: Badge): (q: EditPage)
    ensures q.form.status == Some(Key(b)) && q.form.date == p.form.date && q.form.time == p.form.time
    ensures q.loaded == p.loaded
  {
    p.(form := p.form.(status := Some(Key(b))))
  }

  /** `canRegisterResult`. */
  function CanRegisterResult(status: Option<string>): (r: bool)
    ensures r ==> status.Some?
    ensures r <==> status == Some("played") || status == Some("wo") || status == Some("suspended")
  {
    match status
    case None => false
    case Some(s) => s == "played" || s == "wo" || s == "suspended"
  }

  /** The badge shown for the form's status: an undefined status is looked up
      under no key and so falls back to the pending badge. */
  function FormBadge(status: Option<string>): (b: Badge)
    ensures status.None? ==> b == Pending
    ensures status.Some? ==> b == BadgeFor(status.value)
  {
    match status
    case None => Pending
    case Some(s) => BadgeFor(s)
  }

  /** A result can be registered exactly when the badge on screen is not the
      pending one. */
  lemma RegisterIffBadgeNotPending(status: Option<string>)
    ensures CanRegisterResult(status) <==> FormBadge(status) != Pending
  {
  }

  /** The register button and the hint under it. */
  datatype RegisterView = RegisterView(buttonDisabled: bool, hintShown: bool)

  function RegisterControls(p: EditPage): (v: RegisterView)
    ensures v.buttonDisabled <==> !CanRegisterResult(p.form.status)
    ensures v.hintShown <==> v.buttonDisabled
  {
    var can := CanRegisterResult(p.form.status);
    RegisterView(!can, !can)
  }

  /** Whatever the lookup answers, the page as first loaded shows the
      pending badge and does not let a result be registered. */
  lemma InitiallyCannotRegister(response: Option<MatchDetails>)
    ensures var p := MatchLoaded(Mount(), response);
            RegisterControls(p) == RegisterView(true, true) && FormBadge(p.form.status) == Pending
  {
  }

  /** Choosing a status enables registering exactly for the non-pending
      badges. */
  lemma ChosenStatusGate(p: EditPage, b: Badge)
    ensures !RegisterControls(ChooseStatus(p, b)).buttonDisabled <==> b != Pending
  {
  }
}
