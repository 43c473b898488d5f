/**
 * How the header checkbox of the table relates to what clicking it does.  The header is
 * checked when every shown id is selected, but the click handler decides by comparing the
 * selection's size with the number of records shown.
 */
module HeaderAgreement {
  import opened Types
  import opened Selection
  import opened Grid

  /** A record that carries only an id; the other fields play no part here. */
  function Bare(id: string): DocumentRecord
  {
    DocumentRecord(id, 0, [], [], 0.0, Pending, None, None, None, None)
  }

  /** A subset of a finite set with as many elements is the whole set. */
  lemma SubsetOfSameSize<T>(a: set<T>, b: set<T>)
    requires a <= b
    requires |a| == |b|
    ensures a == b
  {
    assert b * a == a;
    assert |b - a| == 0;
    assert b - a == {};
  }

  /**
   * With distinct ids in the view and nothing selected outside it, the header is checked
   * exactly when clicking it clears the selection.
   */
  lemma HeaderCheckedIffToggleAllClears(selected: set<string>, view: seq<DocumentRecord>)
    requires DistinctIds(view)
    requires selected <= IdsOf(view)
    ensures AllSelected(view, selected) <==> ClearsOnToggleAll(selected, view)
  {
    var ids := IdsOf(view);
    IdsOfDistinctCount(view);
    if AllSelected(view, selected) {
      forall x | x in ids
        ensures x in selected
      {
        var i :| 0 <= i < |view| && view[i].id == x;
      }
      assert selected == ids;
    }
    if ClearsOnToggleAll(selected, view) {
      SubsetOfSameSize(selected, ids);
      assert forall i :: 0 <= i < |view| ==> view[i].id in ids;
    }
  }

  /**
   * Without the subset assumption the two disagree: an id selected under an earlier filter
   * makes the sizes match, so the unchecked header clears the selection when clicked.
   */
  lemma HiddenSelectionMakesHeaderDisagree()
    ensures var view := [Bare("c"), Bare("d")];
            var selected := {"a", "b"};
            !AllSelected(view, selected) && ClearsOnToggleAll(selected, view)
            && ToggleAll(selected, view) == {} && !AllSelected(view, ToggleAll(selected, view))
  {
    var view := [Bare("c"), Bare("d")];
    assert view[0].id !in {"a", "b"};
    assert |{"a", "b"}| == 2;
  }

  /**
   * Without distinct ids they disagree the other way: the header is checked but the click
   * selects the same ids again, so the header stays checked.
   */
  lemma DuplicateIdsMakeHeaderDisagree()
    ensures var view := [Bare("a"), Bare("a")];
            AllSelected(view, {"a"}) && !ClearsOnToggleAll({"a"}, view)
            && AllSelected(view, ToggleAll({"a"}, view))
  {
  }

  /** Select-all decided by the header itself: clear when it is checked, else select the view. */
  function ToggleAllByHeader(selected: set<string>, view: seq<DocumentRecord>): (r: set<string>)
    ensures AllSelected(view, selected) ==> r == {}
    ensures !AllSelected(view, selected) ==>
              forall x :: x in r <==> exists i :: 0 <= i < |view| && view[i].id == x
  {
    if AllSelected(view, selected) then {} else IdsOf(view)
  }

  /** With the header deciding, a click always flips a header that shows any record. */
  lemma ToggleAllByHeaderFlipsHeader(selected: set<string>, view: seq<DocumentRecord>)
    requires view != []
    ensures AllSelected(view, ToggleAllByHeader(selected, view)) <==> !AllSelected(view, selected)
  {
    if !AllSelected(view, selected) {
      var r := ToggleAllByHeader(selected, view);
      forall i | 0 <= i < |view|
        ensures view[i].id in r
      {
      }
    } else {
      assert view[0].id !in ToggleAllByHeader(selected, view);
    }
  }

  /** Wherever the size test is sound, the header-decided click does what the handler does. */
  lemma ToggleAllByHeaderAgrees(selected: set<string>, view: seq<DocumentRecord>)
    requires DistinctIds(view)
    requires selected <= IdsOf(view)
    ensures ToggleAllByHeader(selected, view) == ToggleAll(selected, view)
  {
    HeaderCheckedIffToggleAllClears(selected, view);
  }
}
