/** The selection handlers: the selection is a set of record ids. */
module Selection {
  import opened Types

  /** The ids of the records of a list, added one record at a time. */
  function IdsOf(docs: seq<DocumentRecord>): (r: set<string>)
    ensures forall i :: 0 <= i < |docs| ==> docs[i].id in r
    ensures forall x :: x in r ==> exists i :: 0 <= i < |docs| && docs[i].id == x
  {
    if docs == [] then {}
    else
      var n := |docs| - 1;
      IdsOf(docs[..n]) + {docs[n].id}
  }

  /** A list of records with distinct ids has as many ids as records. */
  lemma {:induction false} IdsOfDistinctCount(docs: seq<DocumentRecord>)
    requires DistinctIds(docs)
    ensures |IdsOf(docs)| == |docs|
  {
    if docs != [] {
      var n := |docs| - 1;
      IdsOfDistinctCount(docs[..n]);
      assert docs[n].id !in IdsOf(docs[..n]);
    }
  }

  /** Clicking one row's checkbox: that id changes membership, every other id keeps it. Any id is accepted. */
  function Toggle(selected: set<string>, id: string): (r: set<string>)
    ensures id in r <==> id !in selected
    ensures forall x :: x != id ==> (x in r <==> x in selected)
  {
    if id in selected then selected - {id} else selected + {id}
  }

  /** Clicking the same checkbox twice restores the selection. */
  lemma ToggleTwice(selected: set<string>, id: string)
    ensures Toggle(Toggle(selected, id), id) == selected
  {
  }

  /** The test the select-all handler makes: as many ids selected as records shown, and at least one shown. */
  predicate ClearsOnToggleAll(selected: set<string>, view: seq<DocumentRecord>)
  {
    |selected| == |view| && |view| > 0
  }

  /**
   * Clicking the header checkbox: when the test passes the selection becomes empty;
   * otherwise it becomes exactly the ids of the view, whatever their status, and ids
   * selected outside the view are dropped.
   */
  function ToggleAll(selected: set<string>, view: seq<DocumentRecord>): (r: set<string>)
    ensures ClearsOnToggleAll(selected, view) ==> r == {}
    ensures !ClearsOnToggleAll(selected, view) ==>
              forall x :: x in r <==> exists i :: 0 <= i < |view| && view[i].id == x
  {
    if ClearsOnToggleAll(selected, view) then {} else IdsOf(view)
  }

  /** Select-all leaves nothing selected exactly when the size test passes or the view is empty. */
  lemma ToggleAllEmptyIff(selected: set<string>, view: seq<DocumentRecord>)
    ensures ToggleAll(selected, view) == {} <==> ClearsOnToggleAll(selected, view) || view == []
  {
    if !ClearsOnToggleAll(selected, view) && view != [] {
      assert view[0].id in ToggleAll(selected, view);
    }
  }

  /** A selected id that no record of the view carries does not survive a select-all. */
  lemma ToggleAllDropsHiddenIds(selected: set<string>, view: seq<DocumentRecord>, x: string)
    requires x in selected
    requires forall i :: 0 <= i < |view| ==> view[i].id != x
    ensures x !in ToggleAll(selected, view)
  {
  }
}
