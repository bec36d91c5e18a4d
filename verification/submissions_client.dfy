/** The submissions screen: two tabs, each with a table of submissions or an empty-state
    message, and a count badge on the pending tab. Row clicks navigate and dates are
    formatted by the browser; neither is modelled (the date cell keeps the raw string). */
module SubmissionsClient {
  import opened Wrappers
  import opened Text
  import opened SubmissionsPage

  /** The badge styles. */
  datatype Variant = Default | Secondary | Destructive | Outline

  /** `getStatusVariant`: the lowercased status in English or Turkish picks the badge. */
  function StatusVariant(status: string): (v: Variant)
    ensures v == Default <==> Lower(status) == "approved" || Lower(status) == "onaylandı"
    ensures v == Destructive <==> Lower(status) == "rejected" || Lower(status) == "reddedildi"
    ensures v == Secondary <==> Lower(status) == "pending" || Lower(status) == "beklemede"
  {
    match Lower(status)
    case "approved" => Default
    case "onaylandı" => Default
    case "rejected" => Destructive
    case "reddedildi" => Destructive
    case "pending" => Secondary
    case "beklemede" => Secondary
    case _ => Outline
  }

  /** Matching ignores case: statuses that lowercase alike get the same badge. */
  lemma StatusIgnoresCase(a: string, b: string)
    requires Lower(a) == Lower(b)
    ensures StatusVariant(a) == StatusVariant(b)
  {
  }

  /** The capital I lowercases to a dotted i, so a status ending in I is never shown as
      approved: the upper-case spelling "ONAYLANDI" of "onaylandı" gets another badge. */
  lemma CapitalINeverApproved(u: string)
    ensures StatusVariant(u + "I") != Default
  {
    LowerAppend(u, "I");
    assert Lower("I") == "i";
    var low := Lower(u + "I");
    assert low[|low| - 1] == 'i';
  }

  datatype Column = FormName | FormNumber | SubmittedBy | SubmittedAt | Status

  /** The empty-state messages, by their translation keys. */
  datatype EmptyText = NoPendingApprovals | NoSubmissions

  /** A table row; `submitter` is there only in the pending table. */
  datatype RowView = RowView(id: int, formTitle: string, formNumber: string, submitter: Option<string>,
                             submittedAt: string, status: string, variant: Variant)

  datatype Table = Empty(text: EmptyText) | Rows(columns: seq<Column>, rows: seq<RowView>)

  /** The submitter cell: the full name, or "-" without a user. */
  function SubmitterName(user: Option<Submitter>): (r: string)
    ensures r == "-" <==> user.None?
    ensures user.Some? ==> r == user.value.firstName + " " + user.value.lastName
  {
    match user
    case None => "-"
    case Some(u) =>
      var r := u.firstName + " " + u.lastName;
      assert r[|u.firstName|] == ' ';
      r
  }

  function Columns(isPending: bool): (r: seq<Column>)
    ensures SubmittedBy in r <==> isPending
    ensures |r| == if isPending then 5 else 4
    ensures r[0] == FormName && r[1] == FormNumber && r[|r| - 2] == SubmittedAt && r[|r| - 1] == Status
  {
    [FormName, FormNumber] + (if isPending then [SubmittedBy] else []) + [SubmittedAt, Status]
  }

  function RenderRow(s: Submission, isPending: bool): (r: RowView)
    ensures r.id == s.id && r.formTitle == s.formTitle && r.formNumber == s.formNumber
    ensures r.submittedAt == s.submittedAt && r.status == s.status
    ensures r.variant == StatusVariant(s.status)
    ensures r.submitter.Some? <==> isPending
    ensures isPending ==> r.submitter == Some(SubmitterName(s.user))
  {
    RowView(s.id, s.formTitle, s.formNumber, if isPending then Some(SubmitterName(s.user)) else None,
            s.submittedAt, s.status, StatusVariant(s.status))
  }

  /** `renderTable`: the empty-state message of the tab for no submissions, otherwise a
      row per submission in the given order. */
  function RenderTable(subs: seq<Submission>, isPending: bool): (t: Table)
    ensures t.Empty? <==> subs == []
    ensures t.Empty? ==> (t.text == NoPendingApprovals <==> isPending)
    ensures t.Rows? ==> t.columns == Columns(isPending) && |t.rows| == |subs|
    ensures t.Rows? ==> forall i :: 0 <= i < |subs| ==> t.rows[i] == RenderRow(subs[i], isPending)
  {
    if |subs| == 0 then Empty(if isPending then NoPendingApprovals else NoSubmissions)
    else Rows(Columns(isPending), seq(|subs|, i requires 0 <= i < |subs| => RenderRow(subs[i], isPending)))
  }

  /** The screen: the count badge on the pending tab, and both tables. */
  datatype Screen = Screen(pendingBadge: Option<int>, mineTable: Table, pendingTable: Table)

  function Render(mine: seq<Submission>, pending: seq<Submission>): (v: Screen)
    ensures v.pendingBadge.Some? <==> |pending| > 0
    ensures v.pendingBadge.Some? ==> v.pendingBadge.value == |pending|
    ensures v.mineTable == RenderTable(mine, false) && v.pendingTable == RenderTable(pending, true)
  {
    Screen(if |pending| > 0 then Some(|pending|) else None, RenderTable(mine, false), RenderTable(pending, true))
  }

  /** Only the pending table shows who sent a submission. */
  lemma SubmitterOnlyWhenPending(mine: seq<Submission>, pending: seq<Submission>)
    ensures var v := Render(mine, pending);
            v.mineTable.Rows? ==> SubmittedBy !in v.mineTable.columns &&
                                  forall i :: 0 <= i < |v.mineTable.rows| ==> v.mineTable.rows[i].submitter.None?
    ensures var v := Render(mine, pending);
            v.pendingTable.Rows? ==> SubmittedBy in v.pendingTable.columns &&
                                     forall i :: 0 <= i < |v.pendingTable.rows| ==> v.pendingTable.rows[i].submitter.Some?
  {
  }
}
