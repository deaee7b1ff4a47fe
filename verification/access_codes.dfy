/** The access-code administration page (src/pages/superadmin/AccessCodes.tsx):
    mapping stored rows to list entries, the used/unused filter and its URL
    parameter, and the modal that shows a freshly generated code. */
module AccessCodes {
  import opened Wrappers
  import opened Seqs

  /** A stored access-code row, as far as the page reads it. */
  datatype CodeRow = CodeRow(id: Option<string>, code: Option<string>, createdAt: Option<string>,
                             isUsed: bool, usedByEmail: Option<string>)

  datatype CodeStatus = Unused | Used

  datatype AccessCode = AccessCode(id: string, code: string, status: CodeStatus, createdAt: string,
                                   usedBy: Option<string>)

  /** The row-to-entry mapping of the initial load. A missing creation date
      is replaced by the current time, passed in as `now`. */
  function ToAccessCode(row: CodeRow, now: string): (c: AccessCode)
    ensures c.status == Used <==> row.isUsed
    ensures row.id.None? ==> c.id == ""
    ensures row.id.Some? ==> c.id == row.id.value
    ensures row.code.None? ==> c.code == ""
    ensures row.code.Some? ==> c.code == row.code.value
    ensures row.createdAt.None? ==> c.createdAt == now
    ensures row.createdAt.Some? ==> c.createdAt == row.createdAt.value
    ensures c.usedBy == row.usedByEmail
  {
    AccessCode(row.id.GetOr(""), row.code.GetOr(""), if row.isUsed then Used else Unused,
               row.createdAt.GetOr(now), row.usedByEmail)
  }

  /** The stored row an entry stands for. */
  function ToRow(c: AccessCode): CodeRow
  {
    CodeRow(Some(c.id), Some(c.code), Some(c.createdAt), c.status == Used, c.usedBy)
  }

  /** A row with every column but the e-mail set is listed without loss,
      whatever the current time. */
  lemma ToAccessCodeRoundTrip(row: CodeRow, now: string)
    requires row.id.Some? && row.code.Some? && row.createdAt.Some?
    ensures ToRow(ToAccessCode(row, now)) == row
  {
  }

  function ToAccessCodes(rows: seq<CodeRow>, now: string): (cs: seq<AccessCode>)
    ensures |cs| == |rows|
    ensures forall i | 0 <= i < |rows| :: cs[i] == ToAccessCode(rows[i], now)
  {
    seq(|rows|, i requires 0 <= i < |rows| => ToAccessCode(rows[i], now))
  }

  datatype CodeFilter = AllCodes | OnlyStatus(status: CodeStatus)

  predicate Shown(c: AccessCode, f: CodeFilter)
  {
    f == AllCodes || c.status == f.status
  }

  /** `filteredCodes`. */
  function FilterCodes(codes: seq<AccessCode>, f: CodeFilter): (r: seq<AccessCode>)
    ensures IsSubsequence(r, codes)
    ensures forall c | c in r :: Shown(c, f)
    ensures forall c | c in codes && Shown(c, f) :: c in r
    ensures forall i | 0 <= i < |codes| && Shown(codes[i], f) :: multiset(r)[codes[i]] == multiset(codes)[codes[i]]
  {
    Filter(codes, c => Shown(c, f))
  }

  /** The 'all' filter lists every code. */
  lemma AllListsEverything(codes: seq<AccessCode>)
    ensures FilterCodes(codes, AllCodes) == codes
  {
  }

  /** Number of codes with the given status. */
  function CountStatus(codes: seq<AccessCode>, s: CodeStatus): nat
  {
    if codes == [] then 0
    else (if codes[0].status == s then 1 else 0) + CountStatus(codes[1..], s)
  }

  /** Each status filter lists exactly the codes of that status. */
  lemma {:induction false} FilterCountsStatus(codes: seq<AccessCode>, s: CodeStatus)
    ensures |FilterCodes(codes, OnlyStatus(s))| == CountStatus(codes, s)
  {
    if codes != [] {
      FilterCountsStatus(codes[1..], s);
      assert codes == [codes[0]] + codes[1..];
      FilterAppend(codes[..1], codes[1..], s);
    }
  }

  lemma FilterAppend(a: seq<AccessCode>, b: seq<AccessCode>, s: CodeStatus)
    ensures FilterCodes(a + b, OnlyStatus(s)) == FilterCodes(a, OnlyStatus(s)) + FilterCodes(b, OnlyStatus(s))
  {
    FilterConcat(a, b, c => Shown(c, OnlyStatus(s)));
  }

  /** The used and unused lists together account for every code. */
  lemma StatusFiltersPartition(codes: seq<AccessCode>)
    ensures |FilterCodes(codes, OnlyStatus(Used))| + |FilterCodes(codes, OnlyStatus(Unused))| == |codes|
  {
    FilterCountsStatus(codes, Used);
    FilterCountsStatus(codes, Unused);
    CountsSum(codes);
  }

  lemma {:induction false} CountsSum(codes: seq<AccessCode>)
    ensures CountStatus(codes, Used) + CountStatus(codes, Unused) == |codes|
  {
    if codes != [] {
      CountsSum(codes[1..]);
    }
  }

  /** The `filter` query parameter: only "used" and "unused" change the
      filter; anything else, or no parameter, keeps the current one. */
  function ApplyFilterParam(current: CodeFilter, param: Option<string>): (f: CodeFilter)
    ensures param == Some("used") ==> f == OnlyStatus(Used)
    ensures param == Some("unused") ==> f == OnlyStatus(Unused)
    ensures param != Some("used") && param != Some("unused") ==> f == current
  {
    match param
    case Some(p) =>
      if p == "used" then OnlyStatus(Used)
      else if p == "unused" then OnlyStatus(Unused)
      else current
    case None => current
  }

  /** The URL parameter can never select the 'all' filter by itself. */
  lemma FilterParamNeverWidens(param: Option<string>)
    ensures ApplyFilterParam(AllCodes, param) == AllCodes <==> param != Some("used") && param != Some("unused")
  {
  }

  /** The state the generate and close handlers touch. */
  datatype CodesPage = CodesPage(codes: seq<AccessCode>, modalOpen: bool, newGeneratedCode: string,
                                 copiedFromModal: bool)

  /** What the code generator answered: a new row, or an error. */
  datatype Generated = GenerateFailed | GeneratedCode(id: string, code: string, createdAt: string)

  /** `handleGenerateCode`: a new code goes in front of the list, unused, and
      is shown in the modal; on failure only an alert is raised. */
  function Generate(p: CodesPage, g: Generated): (q: CodesPage)
    ensures g.GenerateFailed? ==> q == p
    ensures g.GeneratedCode? ==>
              && |q.codes| == |p.codes| + 1 && q.codes[1..] == p.codes
              && q.codes[0] == AccessCode(g.id, g.code, Unused, g.createdAt, None)
              && q.modalOpen && q.newGeneratedCode == g.code && !q.copiedFromModal
  {
    match g
    case GenerateFailed => p
    case GeneratedCode(id, code, createdAt) =>
      CodesPage([AccessCode(id, code, Unused, createdAt, None)] + p.codes, true, code, false)
  }

  /** `handleCloseModal`. */
  function CloseModal(p: CodesPage): (q: CodesPage)
    ensures !q.modalOpen && q.newGeneratedCode == "" && !q.copiedFromModal && q.codes == p.codes
  {
    p.(modalOpen := false, newGeneratedCode := "", copiedFromModal := false)
  }

  /** A generated code is listed as unused straight away: the 'unused'
      filter shows one more code than before. */
  lemma GeneratedCodeIsUnused(p: CodesPage, id: string, code: string, createdAt: string)
    ensures var q := Generate(p, GeneratedCode(id, code, createdAt));
            FilterCodes(q.codes, OnlyStatus(Unused)) == [q.codes[0]] + FilterCodes(p.codes, OnlyStatus(Unused))
  {
    var q := Generate(p, GeneratedCode(id, code, createdAt));
    assert q.codes == [q.codes[0]] + p.codes;
    FilterAppend([q.codes[0]], p.codes, Unused);
  }

  /** Generating and then closing the modal leaves a closed modal and the
      longer list; closing twice is closing once. */
  lemma GenerateThenClose(p: CodesPage, g: Generated)
    requires !p.modalOpen && p.newGeneratedCode == "" && !p.copiedFromModal
    ensures var q := CloseModal(Generate(p, g));
            q.(codes := p.codes) == p && CloseModal(q) == q
  {
  }
}
