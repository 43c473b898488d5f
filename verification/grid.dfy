/** What the record table shows: the header checkbox, one row per record, status labels and empty cells. */
module Grid {
  import opened Types

  /** Every record of the list has its id in the selection (true for an empty list). */
  function EverySelected(docs: seq<DocumentRecord>, selected: set<string>): (r: bool)
    ensures r <==> forall i :: 0 <= i < |docs| ==> docs[i].id in selected
  {
    docs == [] || (docs[0].id in selected && EverySelected(docs[1..], selected))
  }

  /** Some record of the list has its id in the selection (false for an empty list). */
  function AnySelected(docs: seq<DocumentRecord>, selected: set<string>): (r: bool)
    ensures r <==> exists i :: 0 <= i < |docs| && docs[i].id in selected
  {
    docs != [] && (docs[0].id in selected || AnySelected(docs[1..], selected))
  }

  /** The header checkbox is checked: at least one record shown, and every shown id selected. */
  function AllSelected(docs: seq<DocumentRecord>, selected: set<string>): (r: bool)
    ensures docs == [] ==> !r
    ensures docs != [] ==> (r <==> forall i :: 0 <= i < |docs| ==> docs[i].id in selected)
  {
    |docs| > 0 && EverySelected(docs, selected)
  }

  /** At least one shown id is selected. */
  function SomeSelected(docs: seq<DocumentRecord>, selected: set<string>): (r: bool)
    ensures r <==> exists i :: 0 <= i < |docs| && docs[i].id in selected
  {
    AnySelected(docs, selected)
  }

  /** The header checkbox: its checked flag and its indeterminate (dash) flag. */
  datatype HeaderBox = HeaderBox(checked: bool, indeterminate: bool)

  /** The header is indeterminate exactly when some, but not all, shown ids are selected. */
  function Header(docs: seq<DocumentRecord>, selected: set<string>): (h: HeaderBox)
    ensures h.checked <==> |docs| > 0 && forall i :: 0 <= i < |docs| ==> docs[i].id in selected
    ensures h.indeterminate <==>
              (exists i :: 0 <= i < |docs| && docs[i].id in selected) &&
              (exists j :: 0 <= j < |docs| && docs[j].id !in selected)
    ensures !(h.checked && h.indeterminate)
  {
    var all := AllSelected(docs, selected);
    HeaderBox(all, !all && SomeSelected(docs, selected))
  }

  /** On a table that shows anything, a checked header means some id is selected. */
  lemma AllImpliesSome(docs: seq<DocumentRecord>, selected: set<string>)
    requires AllSelected(docs, selected)
    ensures SomeSelected(docs, selected)
  {
    assert docs[0].id in selected;
  }

  /** What `getStatusConfig` shows; the icon and style class that go with it are presentation. */
  function StatusLabel(raw: string): (shown: string)
    ensures shown == "Aprovado" <==> raw == "aprovado"
    ensures shown == "Reprovado" <==> raw == "reprovado"
    ensures shown == "Aprovado" || shown == "Reprovado" || shown == "Pendente"
  {
    if raw == "aprovado" then "Aprovado"
    else if raw == "reprovado" then "Reprovado"
    else "Pendente"
  }

  /** Each status of a record gets its own label. */
  lemma StatusLabelOfStatus(s: Status)
    ensures StatusLabel(StatusName(s)) == match s
                                          case Pending => "Pendente"
                                          case Approved => "Aprovado"
                                          case Rejected => "Reprovado"
  {
  }

  /** A table cell: the dash shown for an absent value, a text, or a date to be formatted. */
  datatype Cell = Dash | Plain(text: string) | FormattedDate(iso: string)

  /** A text cell: an absent or empty text shows a dash, any other text is shown as it is. */
  function TextOrDash(v: Option<string>): (c: Cell)
    ensures c.Dash? <==> (v.None? || v.value == [])
    ensures c.Plain? ==> v.Some? && c.text == v.value
    ensures !c.FormattedDate?
  {
    match v
    case Some(s) => if s == [] then Dash else Plain(s)
    case None => Dash
  }

  /** A date cell: an absent or empty date shows a dash; anything else is formatted. */
  function DateOrDash(v: Option<string>): (c: Cell)
    ensures c.Dash? <==> (v.None? || v.value == [])
    ensures c.FormattedDate? ==> v.Some? && c.iso == v.value
    ensures !c.Plain?
  {
    match v
    case Some(s) => if s == [] then Dash else FormattedDate(s)
    case None => Dash
  }

  /** The cells of one row that the dashboard computes rather than copies. */
  datatype RowView = RowView(
    checked: bool,
    statusLabel: string,
    approver: Cell,
    sentAt: Cell,
    decidedAt: Cell,
    notes: Cell)

  function Row(d: DocumentRecord, selected: set<string>): (r: RowView)
    ensures r.checked <==> d.id in selected
    ensures r.statusLabel == StatusLabel(StatusName(d.status))
    ensures r.approver.Dash? <==> d.approver.None? || d.approver.value == []
    ensures r.sentAt.Dash? <==> d.sentAt.None? || d.sentAt.value == []
    ensures r.decidedAt.Dash? <==> d.decidedAt.None? || d.decidedAt.value == []
    ensures r.notes.Dash? <==> d.notes.None? || d.notes.value == []
  {
    RowView(
      d.id in selected,
      StatusLabel(StatusName(d.status)),
      TextOrDash(d.approver),
      DateOrDash(d.sentAt),
      DateOrDash(d.decidedAt),
      TextOrDash(d.notes))
  }

  /** The table body: a placeholder when nothing is shown, else one row per record in order. */
  datatype Body = EmptyState | Rows(rows: seq<RowView>)

  function TableBody(docs: seq<DocumentRecord>, selected: set<string>): (b: Body)
    ensures b.EmptyState? <==> docs == []
    ensures b.Rows? ==> |b.rows| == |docs|
    ensures b.Rows? ==> forall i :: 0 <= i < |docs| ==> (b.rows[i].checked <==> docs[i].id in selected)
    ensures b.Rows? ==> forall i :: 0 <= i < |docs| ==> b.rows[i] == Row(docs[i], selected)
  {
    if docs == [] then EmptyState
    else Rows(seq(|docs|, i requires 0 <= i < |docs| => Row(docs[i], selected)))
  }
}
