/**
 * The filter the dashboard applies to the loaded record list: a record stays when it
 * passes the search, status, amount and date checks, and the survivors keep their order.
 */
module DocumentFilter {
  import opened Types
  import opened Text

  /** The status selector: one status, or every status. */
  datatype StatusChoice = All | Only(status: Status)

  /**
   * An amount bound as typed: an empty field, a field that does not parse as a number
   * (its value is NaN), or a number.
   */
  datatype Bound = Blank | NotANumber | Num(value: real)

  /** The date bounds are day numbers counted from 1970-01-01; `None` is an empty field. */
  datatype Criteria = Criteria(
    search: string,
    status: StatusChoice,
    min: Bound,
    max: Bound,
    dateStart: Option<int>,
    dateEnd: Option<int>)

  /** The criteria the dashboard starts with and returns to when every field is cleared. */
  const Unfiltered := Criteria([], All, Blank, Blank, None, None)

  /** Milliseconds in a day. */
  const DAY: int := 86_400_000

  /** The lower end used when only the end date is set: the epoch itself. */
  const EPOCH_START: int := 0

  /** The upper end used when only the start date is set: midnight opening 9999-12-31. */
  const FAR_END: int := 2_932_896 * DAY

  function StartOfDay(day: int): (t: int)
    ensures t % DAY == 0 && t / DAY == day
  {
    day * DAY
  }

  /** The last millisecond of the day. */
  function EndOfDay(day: int): (t: int)
    ensures t + 1 == StartOfDay(day + 1)
  {
    day * DAY + DAY - 1
  }

  /** Every instant of a day lies between its start and its end. */
  lemma DayBoundsCoverTheDay(day: int, t: int)
    ensures StartOfDay(day) <= t <= EndOfDay(day) <==> t / DAY == day
  {
  }

  /** Search: an empty term matches; otherwise the lower-cased term occurs in the lower-cased vendor or type. */
  predicate MatchesSearch(c: Criteria, d: DocumentRecord)
  {
    || c.search == []
    || Includes(Lower(d.vendor), Lower(c.search))
    || Includes(Lower(d.documentType), Lower(c.search))
  }

  predicate MatchesStatus(c: Criteria, d: DocumentRecord)
  {
    match c.status
    case All => true
    case Only(s) => d.status == s
  }

  /** `amount < min`; a blank bound is minus infinity and NaN compares false. */
  predicate BelowMin(amount: real, b: Bound)
  {
    match b
    case Blank => false
    case NotANumber => false
    case Num(m) => amount < m
  }

  /** `amount > max`; a blank bound is plus infinity and NaN compares false. */
  predicate AboveMax(amount: real, b: Bound)
  {
    match b
    case Blank => false
    case NotANumber => false
    case Num(m) => amount > m
  }

  predicate InAmountRange(c: Criteria, d: DocumentRecord)
  {
    !(BelowMin(d.amount, c.min) || AboveMax(d.amount, c.max))
  }

  predicate HasDateBound(c: Criteria)
  {
    c.dateStart.Some? || c.dateEnd.Some?
  }

  function IntervalStart(c: Criteria): int
  {
    match c.dateStart
    case Some(day) => StartOfDay(day)
    case None => EPOCH_START
  }

  function IntervalEnd(c: Criteria): int
  {
    match c.dateEnd
    case Some(day) => EndOfDay(day)
    case None => FAR_END
  }

  /** Dates are only checked when a bound is set; then the interval is closed at both ends. */
  predicate InDateRange(c: Criteria, d: DocumentRecord)
  {
    HasDateBound(c) ==> IntervalStart(c) <= d.posted <= IntervalEnd(c)
  }

  /** The filter callback: all four checks pass. */
  predicate Keep(c: Criteria, d: DocumentRecord)
  {
    MatchesSearch(c, d) && MatchesStatus(c, d) && InAmountRange(c, d) && InDateRange(c, d)
  }

  /** The records that pass `Keep`, in list order. */
  function Filter(docs: seq<DocumentRecord>, c: Criteria): (r: seq<DocumentRecord>)
    ensures |r| <= |docs|
  {
    if docs == [] then []
    else
      var last := docs[|docs| - 1];
      Filter(docs[..|docs| - 1], c) + (if Keep(c, last) then [last] else [])
  }

  /** The positions of the records that pass `Keep`. */
  function KeptIndices(docs: seq<DocumentRecord>, c: Criteria): (r: seq<nat>)
    ensures forall k :: 0 <= k < |r| ==> r[k] < |docs| && Keep(c, docs[r[k]])
    ensures forall k, l :: 0 <= k < l < |r| ==> r[k] < r[l]
    ensures forall i :: 0 <= i < |docs| && Keep(c, docs[i]) ==> i in r
  {
    if docs == [] then []
    else
      var n := |docs| - 1;
      KeptIndices(docs[..n], c) + (if Keep(c, docs[n]) then [n] else [])
  }

  /** A record is in the output exactly when it is in the input and passes all four checks. */
  lemma {:induction false} FilterMembership(docs: seq<DocumentRecord>, c: Criteria, d: DocumentRecord)
    ensures d in Filter(docs, c) <==> d in docs && Keep(c, d)
  {
    if docs != [] {
      var n := |docs| - 1;
      FilterMembership(docs[..n], c, d);
      assert docs == docs[..n] + [docs[n]];
    }
  }

  /**
   * The filter is order preserving and exact: its output is the records at the kept
   * positions, taken in increasing order of position.
   */
  lemma {:induction false} FilterIsKeptPositionsInOrder(docs: seq<DocumentRecord>, c: Criteria)
    ensures |Filter(docs, c)| == |KeptIndices(docs, c)|
    ensures forall k :: 0 <= k < |Filter(docs, c)| ==> Filter(docs, c)[k] == docs[KeptIndices(docs, c)[k]]
  {
    if docs != [] {
      var n := |docs| - 1;
      var prefix := docs[..n];
      FilterIsKeptPositionsInOrder(prefix, c);
      var f, k := Filter(prefix, c), KeptIndices(prefix, c);
      var fTail: seq<DocumentRecord> := if Keep(c, docs[n]) then [docs[n]] else [];
      var kTail: seq<nat> := if Keep(c, docs[n]) then [n] else [];
      assert Filter(docs, c) == f + fTail;
      assert KeptIndices(docs, c) == k + kTail;
      assert |fTail| == |kTail|;
      forall j | 0 <= j < |f + fTail|
        ensures (f + fTail)[j] == docs[(k + kTail)[j]]
      {
        if j < |f| {
          assert prefix[k[j]] == docs[k[j]];
        }
      }
    }
  }

  /** Counting in a concatenation is adding the counts of the parts. */
  lemma CountAppend<T>(a: seq<T>, b: seq<T>, x: T)
    ensures multiset(a + b)[x] == multiset(a)[x] + multiset(b)[x]
  {
  }

  /** A record occurs in the output exactly as often as in the input when it passes, and never otherwise. */
  lemma {:induction false} FilterCounts(docs: seq<DocumentRecord>, c: Criteria, d: DocumentRecord)
    ensures multiset(Filter(docs, c))[d] == if Keep(c, d) then multiset(docs)[d] else 0
  {
    if docs != [] {
      var n := |docs| - 1;
      var prefix, last := docs[..n], docs[n];
      FilterCounts(prefix, c, d);
      var tail: seq<DocumentRecord> := if Keep(c, last) then [last] else [];
      assert docs == prefix + [last];
      assert Filter(docs, c) == Filter(prefix, c) + tail;
      CountAppend(prefix, [last], d);
      CountAppend(Filter(prefix, c), tail, d);
    }
  }

  /** Filtering a list whose records all pass changes nothing. */
  lemma {:induction false} FilterOfPassingIsIdentity(docs: seq<DocumentRecord>, c: Criteria)
    requires forall i :: 0 <= i < |docs| ==> Keep(c, docs[i])
    ensures Filter(docs, c) == docs
  {
    if docs != [] {
      var n := |docs| - 1;
      FilterOfPassingIsIdentity(docs[..n], c);
      assert docs == docs[..n] + [docs[n]];
    }
  }

  /** With every field cleared, the view is the whole list. */
  lemma UnfilteredIsIdentity(docs: seq<DocumentRecord>)
    ensures Filter(docs, Unfiltered) == docs
  {
    FilterOfPassingIsIdentity(docs, Unfiltered);
  }

  /** Filtering the view again with the same criteria returns the view. */
  lemma FilterIdempotent(docs: seq<DocumentRecord>, c: Criteria)
    ensures Filter(Filter(docs, c), c) == Filter(docs, c)
  {
    var r := Filter(docs, c);
    forall i | 0 <= i < |r|
      ensures Keep(c, r[i])
    {
      FilterMembership(docs, c, r[i]);
    }
    FilterOfPassingIsIdentity(r, c);
  }

  /** Filtering distributes over concatenation, so the list can be filtered piece by piece. */
  lemma {:induction false} FilterAppend(a: seq<DocumentRecord>, b: seq<DocumentRecord>, c: Criteria)
    ensures Filter(a + b, c) == Filter(a, c) + Filter(b, c)
    decreases |b|
  {
    if b == [] {
      assert a + b == a;
    } else {
      var n := |b| - 1;
      var tail := if Keep(c, b[n]) then [b[n]] else [];
      assert (a + b)[..|a + b| - 1] == a + b[..n];
      assert (a + b)[|a + b| - 1] == b[n];
      FilterAppend(a, b[..n], c);
      calc {
        Filter(a + b, c);
        Filter(a + b[..n], c) + tail;
        (Filter(a, c) + Filter(b[..n], c)) + tail;
        Filter(a, c) + (Filter(b[..n], c) + tail);
        Filter(a, c) + Filter(b, c);
      }
    }
  }

  /** A one-record list is kept or dropped whole. */
  lemma FilterSingleton(d: DocumentRecord, c: Criteria)
    ensures Filter([d], c) == if Keep(c, d) then [d] else []
  {
    assert [d][..0] == [];
  }

  /**
   * Search: with a non-empty term, a record passes only if the lower-cased term occurs in its
   * lower-cased vendor or type, and a record in which it occurs in neither is dropped.
   */
  lemma SearchIsCaseInsensitiveSubstring(docs: seq<DocumentRecord>, c: Criteria, d: DocumentRecord)
    requires c.search != []
    requires d in docs
    ensures d in Filter(docs, c) ==>
              IsSubstring(Lower(c.search), Lower(d.vendor)) || IsSubstring(Lower(c.search), Lower(d.documentType))
    ensures (!IsSubstring(Lower(c.search), Lower(d.vendor)) && !IsSubstring(Lower(c.search), Lower(d.documentType)))
            ==> d !in Filter(docs, c)
  {
    FilterMembership(docs, c, d);
    IncludesIsSubstring(Lower(d.vendor), Lower(c.search));
    IncludesIsSubstring(Lower(d.documentType), Lower(c.search));
  }

  /** Status and amount: a kept record has the chosen status and an amount inside the typed bounds. */
  lemma KeptMatchStatusAndAmount(docs: seq<DocumentRecord>, c: Criteria, d: DocumentRecord)
    requires d in Filter(docs, c)
    ensures c.status.Only? ==> d.status == c.status.status
    ensures c.min.Num? ==> c.min.value <= d.amount
    ensures c.max.Num? ==> d.amount <= c.max.value
  {
    FilterMembership(docs, c, d);
  }

  /**
   * An empty amount field bounds nothing: emptying either field never drops a kept record.
   * A field that does not parse as a number behaves exactly like an empty one.
   */
  lemma UnparsableBoundIsNoBound(c: Criteria, d: DocumentRecord)
    ensures Keep(c, d) ==> Keep(c.(min := Blank), d) && Keep(c.(max := Blank), d)
    ensures Keep(c.(min := NotANumber), d) == Keep(c.(min := Blank), d)
    ensures Keep(c.(max := NotANumber), d) == Keep(c.(max := Blank), d)
  {
  }

  /** The search check in terms of substring occurrence rather than the scan. */
  lemma MatchesSearchMeaning(c: Criteria, d: DocumentRecord)
    ensures MatchesSearch(c, d) <==>
              || c.search == []
              || IsSubstring(Lower(c.search), Lower(d.vendor))
              || IsSubstring(Lower(c.search), Lower(d.documentType))
  {
    IncludesIsSubstring(Lower(d.vendor), Lower(c.search));
    IncludesIsSubstring(Lower(d.documentType), Lower(c.search));
  }

  /**
   * The status check as the dashboard performs it, by comparing spellings: any status under
   * "all", else a record whose status is spelled like the chosen one.
   */
  lemma MatchesStatusMeaning(c: Criteria, d: DocumentRecord)
    ensures MatchesStatus(c, d) <==> c.status.All? || StatusName(d.status) == StatusName(c.status.status)
  {
    if c.status.Only? {
      StatusNameInjective(d.status, c.status.status);
    }
  }

  /** The amount check: the amount lies within each numeric bound, inclusive; other bounds impose nothing. */
  lemma InAmountRangeMeaning(c: Criteria, d: DocumentRecord)
    ensures InAmountRange(c, d) <==>
              (c.min.Num? ==> c.min.value <= d.amount) && (c.max.Num? ==> d.amount <= c.max.value)
  {
  }

  /**
   * The date check by calendar day: with no date field set every record passes; otherwise a
   * record passes exactly when the day it was posted on lies between the first and the last
   * day, inclusive, an empty field standing for the epoch or the far end.
   */
  lemma InDateRangeMeaning(c: Criteria, d: DocumentRecord)
    ensures !HasDateBound(c) ==> InDateRange(c, d)
    ensures c.dateStart.Some? && c.dateEnd.Some? ==>
              (InDateRange(c, d) <==> c.dateStart.value <= d.posted / DAY <= c.dateEnd.value)
    ensures c.dateStart.Some? && c.dateEnd.None? ==>
              (InDateRange(c, d) <==> c.dateStart.value <= d.posted / DAY && d.posted <= FAR_END)
    ensures c.dateStart.None? && c.dateEnd.Some? ==>
              (InDateRange(c, d) <==> 0 <= d.posted && d.posted / DAY <= c.dateEnd.value)
  {
    if c.dateStart.Some? {
      OnOrAfterDay(c.dateStart.value, d.posted);
    }
    if c.dateEnd.Some? {
      OnOrBeforeDay(c.dateEnd.value, d.posted);
    }
  }

  /** An instant is at or after the start of a day exactly when it falls on that day or later. */
  lemma OnOrAfterDay(day: int, t: int)
    ensures StartOfDay(day) <= t <==> day <= t / DAY
  {
    DayBoundsCoverTheDay(t / DAY, t);
    if day <= t / DAY {
      assert StartOfDay(day) <= StartOfDay(t / DAY);
    } else {
      assert StartOfDay(t / DAY + 1) <= StartOfDay(day);
    }
  }

  /** An instant is at or before the end of a day exactly when it falls on that day or earlier. */
  lemma OnOrBeforeDay(day: int, t: int)
    ensures t <= EndOfDay(day) <==> t / DAY <= day
  {
    OnOrAfterDay(day + 1, t);
  }

  /**
   * Dates: with a bound set, a kept record was posted inside the closed interval from the
   * start of the first day (or the epoch) to the end of the last day (or the far end).
   */
  lemma KeptWithinDateInterval(docs: seq<DocumentRecord>, c: Criteria, d: DocumentRecord)
    requires HasDateBound(c)
    requires d in Filter(docs, c)
    ensures c.dateStart.Some? ==> c.dateStart.value * DAY <= d.posted
    ensures c.dateStart.None? ==> 0 <= d.posted
    ensures c.dateEnd.Some? ==> d.posted < (c.dateEnd.value + 1) * DAY
    ensures c.dateEnd.None? ==> d.posted <= FAR_END
  {
    FilterMembership(docs, c, d);
  }

  /** Without date bounds, a record's posting time never decides whether it is kept. */
  lemma NoDateBoundIgnoresDates(c: Criteria, d: DocumentRecord, t: int)
    requires !HasDateBound(c)
    ensures Keep(c, d) == Keep(c, d.(posted := t))
  {
  }

  /** The view computed in one pass from the first record to the last, appending each record that passes. */
  method FilteredDocuments(docs: seq<DocumentRecord>, c: Criteria) returns (r: seq<DocumentRecord>)
    ensures r == Filter(docs, c)
  {
    r := [];
    var i := 0;
    while i < |docs|
      invariant 0 <= i <= |docs|
      invariant r == Filter(docs[..i], c)
    {
      assert docs[..i + 1][..i] == docs[..i];
      if Keep(c, docs[i]) {
        r := r + [docs[i]];
      }
      i := i + 1;
    }
    assert docs[..|docs|] == docs;
  }
}
