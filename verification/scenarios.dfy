/** Concrete runs of the filter and the selection over records shaped like the demo data. */
module Scenarios {
  import opened Types
  import opened DocumentFilter
  import opened Selection
  import opened Grid

  /** A record with the given shape and no approver, dates or notes. */
  function Doc(id: string, posted: int, kind: string, vendor: string, amount: real, s: Status): DocumentRecord
  {
    DocumentRecord(id, posted, kind, vendor, amount, s, None, None, None, None)
  }

  /** A minimum of 1000 and an empty maximum keep only the 1250.00 invoice of the three. */
  lemma AmountScenario()
    ensures var docs := [Doc("1", 0, "Energia", "CPFL", 450.50, Pending),
                         Doc("2", 0, "Energia", "Cemig", 1250.00, Approved),
                         Doc("3", 0, "Energia", "Energisa", 890.30, Rejected)];
            Filter(docs, Unfiltered.(min := Num(1000.0))) == [docs[1]]
  {
  }

  /** Three records of the demo data with different vendors and types. */
  function Shops(): seq<DocumentRecord>
  {
    [Doc("1", 0, "Energia", "CPFL", 450.50, Pending),
     Doc("2", 0, "Telefonia", "Vivo", 199.90, Pending),
     Doc("3", 0, "Diversos", "Papelaria Central", 85.50, Pending)]
  }

  /** The lower-cased vendor of the third record begins with the lower-cased term. */
  lemma PapelariaStartsWithTerm()
    ensures Text.StartsWith(Text.Lower("Papelaria Central"), Text.Lower("PAPELARIA"))
  {
    var hay, term := Text.Lower("Papelaria Central"), Text.Lower("PAPELARIA");
    assert forall i :: 0 <= i < 9 ==> hay[i] == term[i];
    assert hay[..9] == term;
  }

  /** The search ignores case: an upper-case term finds the vendor it names and nothing else. */
  lemma SearchScenario()
    ensures Filter(Shops(), Unfiltered.(search := "PAPELARIA")) == [Shops()[2]]
  {
    var docs := Shops();
    var c := Unfiltered.(search := "PAPELARIA");
    var term := Text.Lower("PAPELARIA");
    Text.LongerNeverIncluded(Text.Lower("CPFL"), term);
    Text.LongerNeverIncluded(Text.Lower("Energia"), term);
    Text.LongerNeverIncluded(Text.Lower("Vivo"), term);
    Text.LongerNeverIncluded(Text.Lower("Telefonia")[1..], term);
    assert !Text.StartsWith(Text.Lower("Telefonia"), term) by {
      assert Text.Lower("Telefonia")[0] == 't' && term[0] == 'p';
    }
    assert !Text.Includes(Text.Lower("Telefonia"), term);
    PapelariaStartsWithTerm();
    assert !Keep(c, docs[0]) && !Keep(c, docs[1]) && Keep(c, docs[2]);
    assert docs[..1] == [docs[0]] && docs[..2][..1] == docs[..1] && docs[..3] == docs;
    assert Filter(docs[..1], c) == [];
    assert Filter(docs[..2], c) == [];
  }

  /** The record posted `daysAgo` days before day `today`, at noon. */
  function PostedDaysAgo(today: int, daysAgo: int): (d: DocumentRecord)
    ensures d.posted / DAY == today - daysAgo
  {
    Doc("d", (today - daysAgo) * DAY + DAY / 2, "Energia", "CPFL", 1.0, Pending)
  }

  /** From six days ago to yesterday, inclusive: postings 1, 2, 3 and 5 days old pass; 7 and older do not. */
  lemma DateScenario(today: int, daysAgo: int)
    requires daysAgo in {1, 2, 3, 5, 7, 10, 12, 15, 20}
    ensures Keep(Unfiltered.(dateStart := Some(today - 6), dateEnd := Some(today - 1)), PostedDaysAgo(today, daysAgo))
            <==> daysAgo <= 5
  {
  }

  /** Three records of the demo data: two pending and one approved. */
  function Sample(): seq<DocumentRecord>
  {
    [Doc("1", 0, "Energia", "CPFL", 450.50, Pending),
     Doc("2", 0, "Energia", "Cemig", 1250.00, Approved),
     Doc("3", 0, "Telefonia", "Vivo", 199.90, Pending)]
  }

  /** Choosing the pending status keeps the two pending records, in order. */
  lemma PendingViewScenario()
    ensures Filter(Sample(), Unfiltered.(status := Only(Pending))) == [Sample()[0], Sample()[2]]
  {
    var docs := Sample();
    var c := Unfiltered.(status := Only(Pending));
    assert Keep(c, docs[0]) && !Keep(c, docs[1]) && Keep(c, docs[2]);
    assert docs[..1] == [docs[0]] && docs[..2][..1] == docs[..1] && docs[..1][..0] == [];
    assert Filter(docs[..1], c) == [docs[0]];
    assert Filter(docs[..2], c) == [docs[0]];
    assert docs[..3] == docs;
  }

  /** Clicking select-all on the pending view, with nothing selected, selects exactly the pending ids. */
  lemma PendingSelectAllScenario()
    ensures var view := Filter(Sample(), Unfiltered.(status := Only(Pending)));
            ToggleAll({}, view) == {"1", "3"} && AllSelected(view, ToggleAll({}, view))
  {
    PendingViewScenario();
    var view := [Sample()[0], Sample()[2]];
    assert view[..1] == [view[0]];
    assert IdsOf(view) == {"1", "3"};
  }
}
