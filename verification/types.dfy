/** The record shapes of the dashboard: approval status and the document record. */
module Types {

  /** An optional value; `None` stands for a field the record leaves undefined. */
  datatype Option<+T> = None | Some(value: T)

  /** The three approval states a document can be in. */
  datatype Status = Pending | Approved | Rejected

  /** The spelling each status has in the records and in the status selector. */
  function StatusName(s: Status): (name: string)
    ensures |name| > 0
  {
    match s
    case Pending => "pendente"
    case Approved => "aprovado"
    case Rejected => "reprovado"
  }

  /** Different statuses are spelled differently, so a status is recovered from its name. */
  lemma StatusNameInjective(s: Status, t: Status)
    ensures StatusName(s) == StatusName(t) <==> s == t
  {
  }

  /**
   * One financial document.  `posted` is the posting time in milliseconds since the
   * Unix epoch; the three other dates are only ever displayed, so they keep their
   * ISO text.  `amount` is an exact decimal rather than a float.
   */
  datatype DocumentRecord = DocumentRecord(
    id: string,
    posted: int,
    documentType: string,
    vendor: string,
    amount: real,
    status: Status,
    approver: Option<string>,
    sentAt: Option<string>,
    decidedAt: Option<string>,
    notes: Option<string>)

  /** No two records of the list share an id. */
  predicate DistinctIds(docs: seq<DocumentRecord>)
  {
    forall i, j :: 0 <= i < j < |docs| ==> docs[i].id != docs[j].id
  }
}
