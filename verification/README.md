# Document approval dashboard — Dafny model

A model of the logic of a browser dashboard that lists financial documents
(invoices and expenses), filters them, lets the user select rows and sends the
selection for approval through a simulated request. The model covers:

- the record shapes: a three-valued approval status (`pendente`, `aprovado`,
  `reprovado`) and a document record with an optional approver, send date,
  approval date and notes (`Types`);
- the filter the top-level component applies to the loaded list: a
  case-insensitive substring search over vendor and document type, a status
  choice (one status or all of them), an inclusive amount range whose empty or
  non-numeric ends bound nothing, and an inclusive date range by calendar day
  (`Text`, `DocumentFilter`);
- the two selection handlers: toggling one id, and the header's select-all
  (`Selection`);
- the send flow with its two timers as events (`SendFlow`);
- what the table shows: the header checkbox's checked and indeterminate flags,
  each row's checkbox, the status label and the dash shown for absent values
  (`Grid`);
- how the header checkbox relates to what clicking it does (`HeaderAgreement`),
  and a handful of concrete runs over records shaped like the demo data
  (`Scenarios`).

The model has only what the code does. In particular:

- nothing is sorted or paginated;
- selection is not restricted to pending records;
- select-all does not add to the selection: it replaces it with the ids of the
  filtered view, or clears all of it;
- select-all decides by comparing the selection's size with the view's length,
  not by looking at which ids are selected.

Representation choices:

- a posting time is an integer number of milliseconds since the epoch;
- a date bound is a day number, with `StartOfDay(d) = d * DAY` and
  `EndOfDay(d) = d * DAY + DAY - 1`;
- the lower end used when only the end date is set is the epoch (time 0);
- the upper end used when only the start date is set is midnight at the start
  of 9999-12-31 (`FAR_END`), not the end of that day;
- amounts are exact `real`s;
- an amount bound is `Blank`, `NotANumber` or `Num(value)`;
- lower-casing is ASCII.

## Model

| member | source | states |
|---|---|---|
| Types.StatusName | src/types.ts:1 | every status has a non-empty spelling |
| Types.StatusNameInjective | src/types.ts:1 | the three status spellings are pairwise different, so a record's status is determined by its spelling |
| Text.LowerChar | src/App.tsx:40-41 | the result is never an upper-case letter; only upper-case letters change, each to its lower-case letter |
| Text.Lower | src/App.tsx:40-41 | lower-casing keeps the length and lower-cases each character in place |
| Text.Includes | src/App.tsx:40-41 | the `includes` scan; its meaning, an occurrence at some position, is stated by `Text.IncludesIsSubstring` |
| Text.IncludesIsSubstring | src/App.tsx:40-41 | the left-to-right `includes` scan answers true exactly when the term occurs at some position of the text (both directions) |
| Text.LongerNeverIncluded | src/App.tsx:40-41 | a search term longer than the text is never found in it |
| Text.LowerIdempotent | src/App.tsx:40-41 | lower-casing an already lower-cased string changes nothing |
| Text.EmptyIsIncluded | src/App.tsx:39-41 | the empty term is found in every text, so the explicit empty-search test agrees with the substring test |
| DocumentFilter.StartOfDay | src/App.tsx:57 | the start of day d is a multiple of the day length whose quotient is d |
| DocumentFilter.EndOfDay | src/App.tsx:58 | the end of day d is one millisecond before the start of day d+1 |
| DocumentFilter.DayBoundsCoverTheDay | src/App.tsx:57-58 | an instant lies between the start and the end of day d exactly when it falls on day d |
| DocumentFilter.MatchesSearch | src/App.tsx:39-41 | the search check; `DocumentFilter.MatchesSearchMeaning` states its meaning |
| DocumentFilter.MatchesSearchMeaning | src/App.tsx:39-41 | a record passes the search exactly when the term is empty or the lower-cased term occurs in the lower-cased vendor or type |
| DocumentFilter.MatchesStatus | src/App.tsx:46 | the status check; `DocumentFilter.MatchesStatusMeaning` states its meaning |
| DocumentFilter.MatchesStatusMeaning | src/App.tsx:46 | the check compares spellings, as the code does: a record passes exactly when "todos" is chosen or its status is spelled like the chosen one, which by `Types.StatusNameInjective` is the chosen status itself |
| DocumentFilter.BelowMin | src/App.tsx:50-52 | the `amount < min` test with an empty field as minus infinity and NaN comparing false; meaning in `DocumentFilter.InAmountRangeMeaning` |
| DocumentFilter.AboveMax | src/App.tsx:51-52 | the `amount > max` test with an empty field as plus infinity and NaN comparing false; meaning in `DocumentFilter.InAmountRangeMeaning` |
| DocumentFilter.InAmountRange | src/App.tsx:48-52 | the amount check; `DocumentFilter.InAmountRangeMeaning` states its meaning |
| DocumentFilter.InAmountRangeMeaning | src/App.tsx:48-52 | a record passes the amount check exactly when it lies within each numeric bound, inclusive; empty and NaN bounds impose nothing |
| DocumentFilter.IntervalStart | src/App.tsx:57 | the start of the first day when a start date is set, else the epoch; meaning in `DocumentFilter.InDateRangeMeaning` |
| DocumentFilter.IntervalEnd | src/App.tsx:58 | the end of the last day when an end date is set, else midnight opening 9999-12-31; meaning in `DocumentFilter.InDateRangeMeaning` |
| DocumentFilter.InDateRange | src/App.tsx:55-61 | the date check; `DocumentFilter.InDateRangeMeaning` states its meaning |
| DocumentFilter.InDateRangeMeaning | src/App.tsx:55-61 | the range is inclusive by calendar day: with no date field set every record passes; with both set a record passes exactly when the day it was posted on is between the first and the last day; with one set, the missing end is the epoch or the far end |
| DocumentFilter.OnOrAfterDay | src/App.tsx:57 | an instant is at or after the start of a day exactly when it falls on that day or a later one |
| DocumentFilter.OnOrBeforeDay | src/App.tsx:58 | an instant is at or before the end of a day exactly when it falls on that day or an earlier one |
| DocumentFilter.Keep | src/App.tsx:37-63 | the filter callback, the conjunction of the four checks; its role in the view is stated by `DocumentFilter.FilterMembership` |
| DocumentFilter.Filter | src/App.tsx:37-64 | the view is never longer than the loaded list |
| DocumentFilter.FilterMembership | src/App.tsx:37-64 | a record is in the view exactly when it is in the loaded list and passes the search, status, amount and date checks |
| DocumentFilter.FilterSingleton | src/App.tsx:37-64 | a one-record list is kept whole when its record passes and emptied when it does not |
| DocumentFilter.KeptIndices | src/App.tsx:37-64 | the positions are in range, strictly increasing, all pass the four checks, and include every passing position |
| DocumentFilter.FilterIsKeptPositionsInOrder | src/App.tsx:37-64 | the output is exactly the input records at the passing positions, in increasing position order (order preserving, nothing extra) |
| DocumentFilter.FilterCounts | src/App.tsx:37-64 | a passing record occurs in the output as often as in the input; a failing one never occurs |
| DocumentFilter.FilterOfPassingIsIdentity | src/App.tsx:37-64 | a list whose records all pass comes out unchanged |
| DocumentFilter.UnfilteredIsIdentity | src/App.tsx:39-61 | with empty search, status "todos", no amount bounds and no date bounds the view is the whole list |
| DocumentFilter.FilterIdempotent | src/App.tsx:37-64 | filtering the view again with the same criteria returns the view |
| DocumentFilter.FilterAppend | src/App.tsx:37-64 | filtering a concatenation is concatenating the filtered parts |
| DocumentFilter.SearchIsCaseInsensitiveSubstring | src/App.tsx:39-43 | with a non-empty term, a kept record has the lower-cased term in its lower-cased vendor or type; a record with it in neither is dropped |
| DocumentFilter.KeptMatchStatusAndAmount | src/App.tsx:45-52 | a kept record has the chosen status when one is chosen, and `min <= amount <= max` for each numeric bound |
| DocumentFilter.UnparsableBoundIsNoBound | src/App.tsx:50-52 | emptying the minimum or the maximum field never drops a kept record; a bound that does not parse (NaN) keeps and drops exactly the records an empty bound does |
| DocumentFilter.KeptWithinDateInterval | src/App.tsx:55-61 | with a date bound set, a kept record was posted no earlier than the start of the first day (or the epoch) and no later than the end of the last day (or the far end) |
| DocumentFilter.NoDateBoundIgnoresDates | src/App.tsx:55 | with neither date bound set, changing a record's posting time never changes whether it is kept |
| DocumentFilter.FilteredDocuments | src/App.tsx:37 | the one-pass `Array.filter` traversal computes the same list as the filter definition |
| Selection.IdsOf | src/App.tsx:81 | every view record's id is in the set, and every id in the set belongs to some view record |
| Selection.IdsOfDistinctCount | src/App.tsx:81 | with distinct ids, the id set has as many elements as the view has records |
| Selection.Toggle | src/App.tsx:67-75 | the toggled id changes membership; every other id keeps its membership; any id is accepted |
| Selection.ToggleTwice | src/App.tsx:67-75 | toggling the same id twice restores the selection |
| Selection.ClearsOnToggleAll | src/App.tsx:78 | the select-all size test; `Selection.ToggleAllEmptyIff` states what it decides |
| Selection.ToggleAllEmptyIff | src/App.tsx:77-84 | select-all leaves nothing selected exactly when the size test passes or the view is empty |
| Selection.ToggleAll | src/App.tsx:77-84 | when the selection size equals the view length and the view is non-empty the result is empty; otherwise it is exactly the ids of the view |
| Selection.ToggleAllDropsHiddenIds | src/App.tsx:80-82 | a selected id that no view record carries is gone after a select-all |
| Grid.EverySelected | src/components/DocumentGrid.tsx:22 | true exactly when every shown id is selected |
| Grid.AnySelected | src/components/DocumentGrid.tsx:23 | true exactly when some shown id is selected |
| Grid.AllSelected | src/components/DocumentGrid.tsx:22 | false for an empty table; on a non-empty one, true exactly when every shown id is selected |
| Grid.SomeSelected | src/components/DocumentGrid.tsx:23 | true exactly when at least one shown id is selected |
| Grid.Header | src/components/DocumentGrid.tsx:52-55 | checked iff the table is non-empty and all shown ids are selected; indeterminate iff some shown id is selected and some is not; never both |
| Grid.AllImpliesSome | src/components/DocumentGrid.tsx:22-23 | a checked header implies some shown id is selected |
| Grid.StatusLabel | src/components/DocumentGrid.tsx:34-44 | "Aprovado" exactly for `aprovado`, "Reprovado" exactly for `reprovado`, and "Pendente" for anything else |
| Grid.StatusLabelOfStatus | src/components/DocumentGrid.tsx:34-44 | pending, approved and rejected records are labelled Pendente, Aprovado and Reprovado |
| Grid.TextOrDash | src/components/DocumentGrid.tsx:106 | an absent or empty text shows a dash; any other text is shown as is |
| Grid.DateOrDash | src/components/DocumentGrid.tsx:25-28 | an absent or empty date shows a dash; any other date is formatted |
| Grid.Row | src/components/DocumentGrid.tsx:82-110 | a row's checkbox is checked iff its id is selected; its status label follows its status; approver, send date, approval date and notes show a dash exactly when absent or empty |
| Grid.TableBody | src/components/DocumentGrid.tsx:72-113 | an empty list shows the placeholder; otherwise one row per record, in order, row i being exactly the `Grid.Row` of record i (checkbox, status label, dash cells) |
| HeaderAgreement.HeaderCheckedIffToggleAllClears | src/App.tsx:78 | with distinct view ids and nothing selected outside the view, the header is checked exactly when clicking it clears the selection |
| HeaderAgreement.HiddenSelectionMakesHeaderDisagree | src/App.tsx:78 | with two ids selected outside a two-record view, the header is unchecked yet clicking it clears the selection, and the header stays unchecked |
| HeaderAgreement.DuplicateIdsMakeHeaderDisagree | src/App.tsx:78-82 | with a repeated id in the view, the header is checked yet clicking it does not clear, and it stays checked |
| HeaderAgreement.ToggleAllByHeader | src/App.tsx:77-84 | clears when the header is checked; otherwise selects exactly the ids of the view |
| HeaderAgreement.ToggleAllByHeaderFlipsHeader | src/components/DocumentGrid.tsx:54-56 | on a non-empty view, clicking the header always flips whether it is checked |
| HeaderAgreement.ToggleAllByHeaderAgrees | src/App.tsx:77-84 | with distinct view ids and nothing selected outside the view, the header-decided click gives the same selection as the handler |
| SendFlow.SendEnabled | src/App.tsx:129 | the send button's enable condition; `SendFlow.ClickStartsSendIffEnabled` states its effect |
| SendFlow.ClickStartsSendIffEnabled | src/App.tsx:127-129 | when no send is in flight, a click starts one exactly when the button is enabled; a click on a disabled button changes nothing |
| SendFlow.Step | src/App.tsx:86-98 | a selection change replaces the selection and touches nothing else; a click sends only when something is selected and nothing is in flight, and changes nothing else; completion ends the send, shows the toast, empties the selection and starts an auto-hide timer; an auto-hide only hides the toast; a toast on screen always has a pending timer afterwards if it had before |
| SendFlow.RunKeepsToastBacked | src/App.tsx:89-97 | along any run of events a toast on screen always has an auto-hide timer pending |
| SendFlow.NoSendDoneKeepsSelection | src/App.tsx:86-93 | without a selection change or a completed request, the selection is unchanged; clicking send does not clear it |
| SendFlow.ReachableToastBacked | src/App.tsx:26-27 | from the initial state, every reachable toast has a pending auto-hide timer |
| SendFlow.SendScenario | src/App.tsx:86-98 | select three ids and send: sending and disabled; on completion the selection is empty and the toast shows; after the timeout the toast is hidden |
| SendFlow.OverlappingToastScenario | src/App.tsx:96 | with two sends in a row, the first auto-hide timer hides the second toast while the second timer is still pending |
| Scenarios.AmountScenario | src/App.tsx:48-52 | minimum 1000 with an empty maximum keeps only the 1250.00 record of 450.50, 1250.00 and 890.30 |
| Scenarios.PapelariaStartsWithTerm | src/App.tsx:40 | the lower-cased vendor "Papelaria Central" begins with the lower-cased term "PAPELARIA" |
| Scenarios.SearchScenario | src/App.tsx:39-43 | the upper-case term "PAPELARIA" keeps only the record whose vendor is "Papelaria Central" |
| Scenarios.DateScenario | src/App.tsx:55-61 | from six days ago to yesterday, records posted 1, 2, 3 and 5 days ago pass and those posted 7, 10, 12, 15 and 20 days ago do not |
| Scenarios.PendingViewScenario | src/App.tsx:45-46 | choosing the pending status keeps the two pending records of three, in order, and drops the approved one |
| Scenarios.PendingSelectAllScenario | src/App.tsx:81-82 | select-all on that view with nothing selected selects exactly the two pending ids and checks the header |

## Findings

| source | as written | input that shows it | evidently intended | confidence | as-written member | corrected member |
|---|---|---|---|---|---|---|
| src/App.tsx:78 | select-all clears when the selection's size equals the number of records shown | select ids a and b; change the filter so that the view is records c and d; the header is unchecked; clicking it empties the selection instead of selecting c and d | clear exactly when the header shows checked, that is when every shown id is selected | medium, not executed | HeaderAgreement.HiddenSelectionMakesHeaderDisagree | HeaderAgreement.ToggleAllByHeaderFlipsHeader |

The selection survives filter changes, so ids outside the view can make the
sizes match. `HeaderAgreement.ToggleAllByHeader` is the corrected handler. It
agrees with the handler wherever the size test is sound
(`HeaderAgreement.ToggleAllByHeaderAgrees`).

## Left out

- Sorting and pagination: the code has neither.
- Restricting selection to pending records: the code has no such restriction.
- Rendering: layout, styles, icons and CSS classes of the status badge, the
  loading spinner and the toast animation. Only the values the table computes
  are modelled.
- The filter controls component: it only forwards raw field values.
- Loading the records: the initial load effect, the loading flag and the mock
  data provider (random ids, dates relative to the current time, a delayed
  promise). The filter and the selection take the loaded list as a parameter.
- Timer durations (500, 1500 and 3000 ms): the timers are events, not elapsed time.
- Text parsing of numbers: `parseFloat` is reduced to three outcomes (empty,
  NaN, a number). Inputs such as "Infinity" or "12abc" are not modelled.
- Text parsing of dates: ISO parsing and the local time zone are not modelled.
  Day numbers and millisecond timestamps are UTC.
- Invalid date texts: the date inputs yield either an empty string or a valid
  date, and the model covers only those two.
- DocumentFilter.InDateRange: an interval whose start is after its end keeps
  nothing. This covers a start date later than the end date, and also a
  default end: an end date before 1970 with no start date (the start is then
  the epoch), or a start date after 9999-12-31 with no end date. Whether the
  date library throws or swaps the two ends depends on its version, which is
  not visible.
- Date and currency formatting: a date to be shown is kept as its ISO text
  (`FormattedDate`). Currency formatting is left out.
- Unicode lower-casing: ASCII lower-casing stands in for it.
- The send request itself: it is a timer with no transport and no failure
  path, so the model has none either.
- Selection changes in the send flow: either selection handler is one
  `ChangeSelection` event there.
