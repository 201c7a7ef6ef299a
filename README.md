# EduLog learning tracker — list, editor and aggregate logic

EduLog's front end keeps a list of learning items. Each item is a course,
tutorial, skill, book or other material, with a title, a status (Started,
In Progress or Completed), an optional link and optional notes. The
dashboard page owns the list. It derives a filtered view from a search term,
a status filter and a type filter. After the server answers a create, edit,
delete or quick status update, it updates the list in memory. An editor modal
keeps a working copy of one item's fields. Two display components derive
numbers from the full list: four summary cards, and a chart made of a status
pie, per-type stacked bars and four counters.

This project models that logic in Dafny and proves what it promises:

- `text.dfy` (module `Text`): the three string operations the logic relies
  on. These are `trim` with the ECMAScript whitespace set, `toLowerCase`
  (ASCII letters) and `includes`.
- `items.dfy` (module `Items`): the item record, the option lists, counting by
  attribute, exact percentages and the unique-id invariant.
- `dashboard.dfy` (module `Dashboard`) covers `src/pages/Dashboard.jsx`:
  - the filter predicate, and the three list updates as functions with lemmas;
  - the page's state as the class `DashboardState`, whose handler methods
    change its fields.
- `learning_modal.dfy` (module `LearningModal`) covers
  `src/components/LearningModal.jsx`:
  - form initialisation, the one-field update and the submit guard as
    functions;
  - the component's props and `formData` state as the class `Modal`.
- `stats_cards.dfy` (module `StatsCards`) covers
  `src/components/StatsCards.jsx`: the counts and the completion rate.
- `progress_chart.dfy` (module `ProgressChart`) covers
  `src/components/ProgressChart.jsx`:
  - the `reduce` into an object, modelled as a histogram whose entries keep
    insertion order, as `Object.entries` returns them;
  - the pie slices, the per-type bars, the empty-list branch and the summary
    counters.

Server replies, the user's answer to the delete confirmation, and whether a
request succeeded are all inputs to the handler methods. A failed request is
`None`. The model does no I/O.

The field `_id` is called `id` and the field `type` is called `itemType`,
because `type` is a Dafny keyword.

## Model

| member | source | states |
|---|---|---|
| Text.TrimStart | src/components/LearningModal.jsx:38 | leading whitespace removal: the result is a suffix of the input, every dropped character is whitespace, and the result is empty or starts with a non-whitespace character |
| Text.TrimEnd | src/components/LearningModal.jsx:38 | trailing whitespace removal: the result is a prefix of the input, every dropped character is whitespace, and the result is empty or ends with a non-whitespace character |
| Text.Trim | src/components/LearningModal.jsx:38 | `title.trim()` removes the leading, then the trailing whitespace; its shape is stated by TrimIsSlice and TrimEnds |
| Text.IsBlank | src/components/LearningModal.jsx:38 | `!formData.title.trim()`: the trimmed title is empty; BlankIff states it holds exactly when every character is whitespace |
| Text.BlankIff | src/components/LearningModal.jsx:38 | `!s.trim()` holds exactly when every character of `s` is whitespace, including when `s` is empty |
| Text.TrimIsSlice | src/components/LearningModal.jsx:38 | `trim` keeps one contiguous slice of the string, starting where the leading whitespace ends |
| Text.TrimEnds | src/components/LearningModal.jsx:38 | a non-empty trimmed string starts and ends with a non-whitespace character |
| Text.LowerChar | src/pages/Dashboard.jsx:99-101 | lower-casing one character: the result is never an upper-case ASCII letter; an upper-case letter moves up by 32; every other character is unchanged |
| Text.ToLower | src/pages/Dashboard.jsx:99-101 | `toLowerCase` keeps the length and lower-cases each position independently |
| Text.ToLowerIdempotent | src/pages/Dashboard.jsx:99-101 | lower-casing twice is the same as lower-casing once |
| Text.IncludesIff | src/pages/Dashboard.jsx:99-101 | `s.includes(t)` holds exactly when some window of `s` as long as `t` equals `t` |
| Text.IncludesEmpty | src/pages/Dashboard.jsx:99-101 | every string includes the empty string |
| Text.Includes | src/pages/Dashboard.jsx:99-101 | `s.includes(t)`: `t` is a prefix of `s` or of one of its suffixes; an included string is never longer than the one that includes it |
| Items.CountBy | src/components/StatsCards.jsx:6-8 | `filter(item => item[a] === k).length` never exceeds the list length |
| Items.CountByExtremes | src/components/StatsCards.jsx:6-8 | a count is 0 exactly when no item has the key, and equals the list length exactly when every item has it |
| Items.StatusCountsPartition | src/components/StatsCards.jsx:6-8 | the Started, In Progress and Completed counts add up to at most the list length, and to exactly it when every status is one of the three |
| Items.PercentageBounds | src/components/StatsCards.jsx:10 | `(part / whole) * 100` for a part of a whole lies in [0, 100]; it is 100 exactly when the part is the whole and the whole is non-zero, above 0 exactly when the part is, and times the whole it equals the part times 100 |
| Items.Percentage.Value | src/components/StatsCards.jsx:10 | `(part / whole) * 100`, with 0 for an empty whole; PercentageBounds states its range |
| Items.SumValuesScaled | src/components/ProgressChart.jsx:11-15 | percentages of one whole add up to the sum of their parts times 100 over the whole |
| Items.PartitionSumsToHundred | src/components/ProgressChart.jsx:11-15 | percentages of one whole whose parts make up the whole add up to exactly 100 |
| Items.UniqueIdsCountAtMostOne | src/pages/Dashboard.jsx:56 | with unique ids an id occurs at most once |
| Items.SubsequenceKeepsUniqueIds | src/pages/Dashboard.jsx:56 | dropping items from a list with unique ids keeps the ids unique and adds no item |
| Dashboard.Filter | src/pages/Dashboard.jsx:98-106 | `filteredItems` is an order-preserving subsequence of the list; it holds only matching items (search on lower-cased title, type or notes, status filter unless All, type filter unless All), and each matching item appears as often as in the list; a set status or type filter holds for every kept item |
| Dashboard.MatchesSearch | src/pages/Dashboard.jsx:99-101 | the lower-cased search term occurs in the lower-cased title, else in the type, else in the notes (read only when title and type fail) |
| Dashboard.Matches | src/pages/Dashboard.jsx:99-105 | an item is shown when it matches the search, its status equals the status filter unless that is All, and its type equals the type filter unless that is All |
| Dashboard.FilterIdempotent | src/pages/Dashboard.jsx:98-106 | filtering the filtered list again with the same settings gives the same list |
| Dashboard.FilterDefaultsKeepAll | src/pages/Dashboard.jsx:98-106 | with search `''` and both filters All the view is the whole list, in order, and no item's notes are read |
| Dashboard.RemoveById | src/pages/Dashboard.jsx:56 | delete keeps exactly the items whose id differs, in their order, and shrinks the list by the number of items with that id |
| Dashboard.ReplaceById | src/pages/Dashboard.jsx:69-71 | the replace-by-id `map` keeps the length, puts the reply at every position whose id matches, and leaves every other position unchanged |
| Dashboard.Prepend | src/pages/Dashboard.jsx:75 | create puts the reply at index 0 and shifts the old list by one |
| Dashboard.RemoveWithUniqueIds | src/pages/Dashboard.jsx:56 | with unique ids, delete shrinks the list by one when the id is present and by none otherwise, and the ids stay unique |
| Dashboard.RemoveAbsentId | src/pages/Dashboard.jsx:56 | deleting an id no item has leaves the list unchanged |
| Dashboard.CreateThenDelete | src/pages/Dashboard.jsx:75 | deleting the id of a freshly created record whose id is new gives back the earlier list |
| Dashboard.CreateKeepsUniqueIds | src/pages/Dashboard.jsx:75 | creating a record with a new id keeps the ids unique |
| Dashboard.ReplaceWithUniqueIds | src/pages/Dashboard.jsx:69-71 | with unique ids, an edit changes exactly the one position with that id and keeps the ids unique; editing back with the old record restores the list |
| Dashboard.ReplaceAbsentId | src/pages/Dashboard.jsx:88-90 | replacing by an id no item has leaves the list unchanged |
| Dashboard.StatusUpdateChangesOnlyStatus | src/pages/Dashboard.jsx:85-90 | a quick status update whose reply is the old record with the new status changes only that item's status; other items and that item's other fields are untouched |
| Dashboard.DashboardState.constructor | src/pages/Dashboard.jsx:12-18 | the initial state: empty list, loading, search `''`, both filters All, editor closed on no item |
| Dashboard.DashboardState.FilteredItems | src/pages/Dashboard.jsx:98-106 | the list the page shows is an order-preserving subsequence of `learningItems`, each of its items matching the current search and filters |
| Dashboard.DashboardState.IsFiltered | src/pages/Dashboard.jsx:190 | the "(filtered)" flag is on when a status or type filter is set or the search term is non-empty |
| Dashboard.DashboardState.UnfilteredShowsAll | src/pages/Dashboard.jsx:190 | when the "(filtered)" flag is off, the page shows the whole list |
| Dashboard.DashboardState.FetchLearningItems | src/pages/Dashboard.jsx:30-40 | a successful fetch replaces the list with the reply; a failed one leaves it; loading ends either way |
| Dashboard.DashboardState.HandleCreateItem | src/pages/Dashboard.jsx:42-45 | the editor opens on no item |
| Dashboard.DashboardState.HandleEditItem | src/pages/Dashboard.jsx:47-50 | the editor opens on the given item |
| Dashboard.DashboardState.CloseModal | src/pages/Dashboard.jsx:380 | the editor's `onClose` closes it and changes nothing else |
| Dashboard.DashboardState.HandleDeleteItem | src/pages/Dashboard.jsx:52-63 | the list loses the id's items only when the user confirmed and the server accepted; otherwise nothing changes |
| Dashboard.DashboardState.HandleSaveItem | src/pages/Dashboard.jsx:65-83 | a successful save replaces by the edited item's id, or prepends when creating, and closes the editor; a failed save changes neither the list nor the editor |
| Dashboard.DashboardState.HandleStatusUpdate | src/pages/Dashboard.jsx:85-96 | a successful quick update replaces by id with the reply; a failed one leaves the list |
| Dashboard.DashboardState.SetSearchTerm | src/pages/Dashboard.jsx:227 | typing sets the search term and nothing else |
| Dashboard.DashboardState.SetStatusFilter | src/pages/Dashboard.jsx:236 | choosing a status sets the status filter and nothing else |
| Dashboard.DashboardState.SetTypeFilter | src/pages/Dashboard.jsx:251 | choosing a type sets the type filter and nothing else |
| Dashboard.DashboardState.ClearFilters | src/pages/Dashboard.jsx:263-267 | search `''` and both filters All; then the "(filtered)" flag is off and the page shows the whole list |
| LearningModal.InitialForm | src/components/LearningModal.jsx:16-34 | opening on an item copies title, type and status, and link and notes when present, `''` otherwise; opening on no item gives `''`, Course, `''`, Started, `''` |
| LearningModal.OrEmpty | src/components/LearningModal.jsx:21-23 | `value \|\| ''` for an optional link or notes: the stored string when present, `''` when absent |
| LearningModal.WithField | src/components/LearningModal.jsx:44-49 | `handleChange` sets the named field to the value and leaves every other field unchanged |
| LearningModal.WithFieldLaws | src/components/LearningModal.jsx:44-49 | writing a field its own value changes nothing; of two writes to one field the last wins; writes to different fields commute |
| LearningModal.SubmitPayload | src/components/LearningModal.jsx:36-42 | `onSave` is called exactly when the title has a non-whitespace character, and then with the form as it is, title untrimmed |
| LearningModal.DefaultFormIsNotSubmitted | src/components/LearningModal.jsx:38-40 | submitting a fresh create form does not call `onSave` |
| LearningModal.Modal.constructor | src/components/LearningModal.jsx:16-34 | on mount the effect fills the form from the `item` prop |
| LearningModal.Modal.ReceiveProps | src/components/LearningModal.jsx:34 | new props re-initialise the form exactly when `item` or `isOpen` changed; otherwise the edits stay |
| LearningModal.Modal.HandleChange | src/components/LearningModal.jsx:44-49 | the form becomes the old form with the one field replaced |
| LearningModal.Modal.HandleSubmit | src/components/LearningModal.jsx:36-42 | returns the one `onSave` argument, or nothing for a blank title; it changes no state and so never closes the modal |
| LearningModal.Modal.View | src/components/LearningModal.jsx:51-60 | renders nothing when closed; otherwise shows the current form, with the edit heading exactly when an item is being edited |
| StatsCards.Compute | src/components/StatsCards.jsx:5-10 | total is the list length; the completed, in-progress and started cards are exactly the numbers of items with status Completed, In Progress and Started; each is at most the total, and they add up to it when all statuses are known; the rate is completed over total; the progress bar shows only when the total is positive |
| StatsCards.CompletionRateBounds | src/components/StatsCards.jsx:10 | the completion rate is 0 for an empty list, lies in [0, 100], and is 100 exactly when the list is non-empty and every item is Completed |
| StatsCards.AddingOneItem | src/components/StatsCards.jsx:5-6 | one more item raises the total by one, and the completed count by one exactly when that item is Completed |
| StatsCards.CardsMatchChart | src/components/StatsCards.jsx:6-8 | the three status cards show the same numbers as the chart's `statusCounts` lookups for Completed, In Progress and Started |
| ProgressChart.LookupFindsEntry | src/components/ProgressChart.jsx:7 | in a histogram with distinct keys, `acc[k]` finds the count stored under `k` |
| ProgressChart.BumpLookup | src/components/ProgressChart.jsx:7 | `acc[k] = (acc[k] \|\| 0) + 1` adds one to the count of `k` and to no other count |
| ProgressChart.BumpKeys | src/components/ProgressChart.jsx:7 | one step of the reduce adds `k` to the keys and one to the total |
| ProgressChart.BumpDistinct | src/components/ProgressChart.jsx:7 | one step of the reduce keeps the keys distinct |
| ProgressChart.BumpPositive | src/components/ProgressChart.jsx:7 | one step of the reduce keeps every count at least 1 |
| ProgressChart.TallyLookup | src/components/ProgressChart.jsx:6-9 | looking up any key in `statusCounts` (or `typeCounts`) gives the number of items with that key, 0 when absent |
| ProgressChart.TallyShape | src/components/ProgressChart.jsx:6-9 | the histogram's keys are distinct and are exactly the keys present; every count is at least 1; the counts add up to the list length |
| ProgressChart.TallyWellFormed | src/components/ProgressChart.jsx:6-9 | every step of the reduce keeps the histogram's keys distinct and its counts at least 1 |
| ProgressChart.TallyCoversKeys | src/components/ProgressChart.jsx:6-9 | the histogram's keys are exactly the keys present, and its counts add up to the list length |
| ProgressChart.EntryCounts | src/components/ProgressChart.jsx:18-21 | every entry of the histogram holds the number of items with its key, at least 1 |
| ProgressChart.TallyKeySet | src/components/ProgressChart.jsx:11 | the entries of `Object.entries(counts)` cover exactly the keys present |
| ProgressChart.PieSlices | src/components/ProgressChart.jsx:11-15 | the pie has one slice per distinct status present, and no two slices share a name |
| ProgressChart.PieValues | src/components/ProgressChart.jsx:11-15 | each slice's value is its status count, and its percentage is count over length times 100, which lies in (0, 100] |
| ProgressChart.PieSumsToHundred | src/components/ProgressChart.jsx:11-15 | the exact slice percentages of a non-empty list add up to 100 |
| ProgressChart.CountTypeStatus | src/components/ProgressChart.jsx:26-28 | the count of items of one type and one status is at most the type count and at most the status count |
| ProgressChart.TypeStatusPartition | src/components/ProgressChart.jsx:26-28 | within one type, the three status counts add up to at most the type count, and to exactly it when all statuses are known |
| ProgressChart.BarTypes | src/components/ProgressChart.jsx:23-29 | there is exactly one bar per distinct type present |
| ProgressChart.BarCounts | src/components/ProgressChart.jsx:23-29 | each bar's count is the type's count; its completed, in-progress and started values are that type's items with each status; they add up to at most the count, and to exactly it when all statuses are known |
| ProgressChart.Render | src/components/ProgressChart.jsx:51-57 | an empty list, and only an empty list, shows the "no data" message; otherwise the pie, the bars and the counters are shown, each counter being its status count |
| ProgressChart.SummaryCounters | src/components/ProgressChart.jsx:133-141 | a counter shows `statusCounts[s] \|\| 0`: 0 exactly when no item has that status, otherwise the count |
| ProgressChart.Lookup | src/components/ProgressChart.jsx:7 | `acc[k]` on the histogram, 0 standing for `undefined`; a positive result means `k` is one of its keys |
| ProgressChart.Bump | src/components/ProgressChart.jsx:7 | one step of the reduce: the histogram grows by one entry exactly when `k` was not yet a key, otherwise keeps its length |
| ProgressChart.Tally | src/components/ProgressChart.jsx:6-9 | the `reduce` that builds `statusCounts` or `typeCounts` left to right; it has at most one entry per item |
| ProgressChart.PieData | src/components/ProgressChart.jsx:11-15 | `pieData` has at most one slice per item, and every slice's percentage is taken of the list length, which is then non-zero |
| ProgressChart.BarData | src/components/ProgressChart.jsx:23-29 | `barData` has at most one bar per item |

## Left out

- The HTTP calls, `API_URL`, `toast`, `console.error` and `window.confirm` are I/O. Each handler takes the server reply, or the confirmation and the success flag, as an input instead.
- Several requests in flight at once, and the lost update that the stale `learningItems` closure allows, are concurrency. Each update is a function of the list and one reply.
- Authentication (`useAuth`, `logout`) is not part of this model.
- JSX markup, CSS classes, icons, colours, `getStatusColor`, `getTypeIcon` and the Recharts rendering (tooltip, legend, colour table) are presentation.
- `formatDate` and the `updatedAt` field depend on `Date` and the locale; records carry only the fields the modelled logic reads.
- The show/hide chart toggle is trivial UI state.
- Items.Percentage: percentages are exact ratios. The `toFixed(1)` string formatting is floating point and is not modelled.
- Text.ToLower: only the ASCII letters A–Z are lowered; the full Unicode case mapping is not modelled.
- Text.IsWhitespace: the ECMAScript whitespace set is written out from the standard, not derived from the Unicode database.
- Dashboard.Filter: requires that each item's search test be defined. `item.notes.toLowerCase()` runs only when neither the title nor the type matches, and then `notes` must be present. The TypeError the page raises otherwise is not modelled.
- LearningModal.Modal.ReceiveProps: compares the effect's dependencies by value. React compares them with `Object.is`, so a new object with equal fields also re-initialises the form there.
- LearningModal.Modal.HandleChange: `[e.target.name]` is limited to the form's five input names; an arbitrary name would add a new key.
- LearningModal.Modal.HandleSubmit: `e.preventDefault()` is a DOM call and is not modelled.
- ProgressChart.Tally: keys are compared as plain strings. In JavaScript a status or type named after an `Object.prototype` member (`constructor`, `toString`, `valueOf`, `hasOwnProperty` and the like) starts from that inherited function, so `(acc[k] || 0) + 1` concatenates text instead of counting; and `acc.__proto__ = …` does not create an own key, so `__proto__` is never listed. The model counts such keys like any other.
- ProgressChart.TallyLookup: holds for every key in the model; in JavaScript it fails for the `Object.prototype` member names and `__proto__` listed under ProgressChart.Tally, which the form's select boxes never produce.
- ProgressChart.TallyShape: as for ProgressChart.TallyLookup, the inherited-key names and `__proto__` are not excluded.
- ProgressChart.Tally: keys keep insertion order. JavaScript lists integer-like object keys first, in ascending order, which the model does not reproduce.
