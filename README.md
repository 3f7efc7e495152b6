# Admin dashboard of the civic complaint portal, in Dafny

This project models the logic of the administrator's dashboard of the
CitizenConnect complaint portal (`src/components/AdminDashboard.tsx`). The
dashboard holds the complaint list it fetched from the store and the selected
status filter. From these it derives:

- the list it shows: all complaints, or those of one status;
- the four figures on the statistics cards: the total and the counts of
  pending, in-progress and resolved complaints, always over the whole list;
- the department breakdown: a plain JavaScript object counts complaints per
  department, and `Object.entries` turns it into `{ name, count }` pairs;
- each status badge and the "Status Updated" notice, where
  `status.replace('-', ' ')` turns the stored value into a label;
- the two buttons on every complaint card, "Mark In Progress" and
  "Mark Resolved", each disabled when the complaint already has its status.

The model is split into modules:

- `Complaints`: the complaint record and its three statuses.
- `JsArray`: `Array.prototype.filter`.
- `JsString`: `String.prototype.replace` with a one-character string pattern.
  Only the first occurrence of the pattern is replaced.
- `JsObject`: a plain object used as a dictionary from strings to numbers. It
  keeps its values and the order in which its keys were created. Its
  `Object.entries` order follows section 10.1.11.1 of ECMA-262
  (OrdinaryOwnPropertyKeys): keys that are array indices (section 6.1.7)
  come first in ascending numeric order, then the other keys in creation order.
- `AdminDashboard`: the filter, the statistics, the department loop as a
  `method` with a `while` loop, the labels and notices, and the button rule
  with its transition table. The `Dashboard` class holds the component
  state: the complaints, the filter and the notices shown so far. Its methods
  are the state updates.

The store is not modelled. What `getComplaints()` returns, on mount and after
an update, is a parameter of the method that receives it.

Two points about the order and the text the code produces:

- A department breakdown might be expected in the order in which departments
  first occur. `Object.entries` lists array-index names (`"7"`, say) first,
  in ascending numeric order (`BreakdownIndicesFirst`), and the other names
  after them in the order in which their departments first occur
  (`BreakdownFirstSeenOrder`). The order is first-seen when no department
  name is an array index (`BreakdownWithoutIndexNames`).
- `replace('-', ' ')` replaces only the first hyphen
  (`ReplaceFirstRemovesOne`). Each status value has at most one, so the
  labels are `pending`, `in progress` and `resolved` (`PendingLabel`,
  `InProgressLabel`, `ResolvedLabel`).

The functions that define each source line:

- `FilteredComplaints` (with its predicate `Shown`) is `filteredComplaints`
  (lines 45-47).
- `GetStatusStats` is `getStatusStats` (lines 49-57).
- `CountOne` is the assignment in the `forEach` (line 62).
- `Tally` is the object the loop builds (lines 60-63), and `CountDepartments`
  is that loop.
- `DepartmentBreakdown` is what `getDepartmentStats` returns (lines 59-65),
  and `DepartmentStats` computes it.
- `StatusLabel` is the badge text (line 219).
- `StatusUpdatedNotice` is the toast (lines 39-42).
- `Disabled` is the `disabled` rule of the two buttons (lines 246 and 254).
- `Dashboard.Visible`, `Dashboard.Stats` and `Dashboard.Departments` read
  the list, the cards and the breakdown off the state. The cards and the
  breakdown use the whole list, not the shown one.

## Model

| member | source | states |
|---|---|---|
| AdminDashboard.SelectorOf | src/components/AdminDashboard.tsx:193-201 | a select value maps to the selector whose item carries that value, and a string no item carries maps to none |
| AdminDashboard.SelectorRoundTrip | src/components/AdminDashboard.tsx:193-201 | each of the four selectors is chosen by the value of its own item |
| AdminDashboard.FilteredComplaints | src/components/AdminDashboard.tsx:45-47 | the shown list is no longer than the full list, and each shown complaint is in the list and passes the filter |
| AdminDashboard.FilterAllShowsEverything | src/components/AdminDashboard.tsx:45-47 | under `all` the shown list is the full list |
| AdminDashboard.FilterByStatusIsExact | src/components/AdminDashboard.tsx:45-47 | under one status the shown list consists of the complaints at exactly the positions holding that status, in original order |
| AdminDashboard.FilterByStatusMembership | src/components/AdminDashboard.tsx:45-47 | a complaint is shown under a status if and only if it is in the list and has that status |
| AdminDashboard.NoComplaintsFound | src/components/AdminDashboard.tsx:208-265 | the empty-list message appears if and only if no complaint passes the filter |
| AdminDashboard.FilterIdempotent | src/components/AdminDashboard.tsx:45-47 | filtering the shown list again changes nothing |
| AdminDashboard.CountMatchesFilter | src/components/AdminDashboard.tsx:52-54 | each status count keeps the same complaints as the list filter for that status |
| AdminDashboard.StatusPartition | src/components/AdminDashboard.tsx:51-54 | the three status counts add up to the number of complaints |
| AdminDashboard.GetStatusStats | src/components/AdminDashboard.tsx:49-57 | total is the list length, the counts add up to it, and each count equals the length of the shown list under that status |
| AdminDashboard.TallyCount | src/components/AdminDashboard.tsx:61-63 | after the loop, each name holds the number of complaints of that department, an absent key counting as zero |
| AdminDashboard.CountOneKeys | src/components/AdminDashboard.tsx:62 | one increment creates the key of its department and no other |
| AdminDashboard.TallyKeys | src/components/AdminDashboard.tsx:61-63 | a key exists after the loop if and only if some complaint has that department |
| AdminDashboard.TallyEntry | src/components/AdminDashboard.tsx:61-63 | every stored count is the number of complaints of its department, and at least one |
| AdminDashboard.CountOneTotal | src/components/AdminDashboard.tsx:62 | one increment raises the sum of the stored counts by one |
| AdminDashboard.TallyTotal | src/components/AdminDashboard.tsx:61-63 | the stored counts add up to the number of complaints |
| AdminDashboard.CountOneKeepsOrder | src/components/AdminDashboard.tsx:62 | one increment keeps the keys in the order in which their departments first occur |
| AdminDashboard.TallyOrder | src/components/AdminDashboard.tsx:61-63 | keys are created in the order in which their departments first occur in the list |
| AdminDashboard.ToDepartmentCounts | src/components/AdminDashboard.tsx:64 | the `{ name, count }` list has one pair per entry, in entry order, with the same total |
| AdminDashboard.PairCounts | src/components/AdminDashboard.tsx:64 | converting the pairs of an object keeps its key order and pairs each name with its stored value |
| AdminDashboard.EntryCounts | src/components/AdminDashboard.tsx:64 | the names listed are the object's keys in `Object.entries` order, each with its stored value |
| AdminDashboard.BreakdownNames | src/components/AdminDashboard.tsx:59-65 | the breakdown lists the counted object's keys in `Object.entries` order, each with its stored count |
| AdminDashboard.BreakdownCounts | src/components/AdminDashboard.tsx:59-65 | every listed count is the number of complaints of that department, and at least one |
| AdminDashboard.BreakdownListsEachDepartmentOnce | src/components/AdminDashboard.tsx:59-65 | no name is listed twice, and a name is listed if and only if some complaint has that department |
| AdminDashboard.BreakdownTotal | src/components/AdminDashboard.tsx:59-65 | the listed counts add up to the number of complaints, so the breakdown partitions the list |
| AdminDashboard.BreakdownIndicesFirst | src/components/AdminDashboard.tsx:64 | names that are array indices come before all others, in ascending numeric order |
| AdminDashboard.FilteredFirstSeenOrder | src/components/AdminDashboard.tsx:64 | keeping only some of the keys keeps them in first-seen order |
| AdminDashboard.BreakdownFirstSeenOrder | src/components/AdminDashboard.tsx:59-65 | the other names are listed in the order in which their departments first occur |
| AdminDashboard.NamedKeysKept | src/components/AdminDashboard.tsx:64 | when every department name is a named key, selecting the named keys keeps them all |
| AdminDashboard.BreakdownWithoutIndexNames | src/components/AdminDashboard.tsx:59-65 | when no department name is an array index, the names are listed in first-seen order |
| AdminDashboard.TallyStep | src/components/AdminDashboard.tsx:61-62 | visiting one more complaint applies one increment to the object counted so far |
| AdminDashboard.CountDepartments | src/components/AdminDashboard.tsx:60-63 | the `forEach` loop builds exactly the object the tally describes |
| AdminDashboard.DepartmentStats | src/components/AdminDashboard.tsx:59-65 | the returned pairs are the breakdown, sum to the number of complaints, and each count is the number of complaints of that department |
| AdminDashboard.PendingLabel | src/components/AdminDashboard.tsx:219 | "pending" is shown unchanged |
| AdminDashboard.ResolvedLabel | src/components/AdminDashboard.tsx:219 | "resolved" is shown unchanged |
| AdminDashboard.HyphenReplaced | src/components/AdminDashboard.tsx:219 | replacing the first hyphen of "in-progress" gives "in progress" |
| AdminDashboard.InProgressLabel | src/components/AdminDashboard.tsx:219 | "in-progress" is shown as "in progress" |
| AdminDashboard.StatusLabelInjective | src/components/AdminDashboard.tsx:219 | different statuses get different labels |
| AdminDashboard.InProgressNotice | src/components/AdminDashboard.tsx:39-42 | marking a complaint in progress announces "Complaint status changed to in progress." |
| AdminDashboard.NoticeInjective | src/components/AdminDashboard.tsx:39-42 | different new statuses give different notices |
| AdminDashboard.Target | src/components/AdminDashboard.tsx:245-253 | a button's target status is never pending |
| AdminDashboard.EnabledActions | src/components/AdminDashboard.tsx:242-257 | "Mark In Progress" is enabled if and only if the complaint is not in progress, "Mark Resolved" if and only if it is not resolved |
| AdminDashboard.ButtonsFollowTransitions | src/components/AdminDashboard.tsx:242-257 | an enabled button reaches a status if and only if the transition table allows it: from pending to either other status, between in-progress and resolved, never back to pending |
| AdminDashboard.Dashboard.constructor | src/components/AdminDashboard.tsx:27-28 | the state starts with no complaints, the filter at `all` and no notices |
| AdminDashboard.Dashboard.Mount | src/components/AdminDashboard.tsx:31-33 | mounting stores the fetched list and changes nothing else |
| AdminDashboard.Dashboard.SetFilter | src/components/AdminDashboard.tsx:193 | choosing a selector sets the filter and changes nothing else |
| AdminDashboard.Dashboard.HandleStatusUpdate | src/components/AdminDashboard.tsx:35-43 | an update stores the refetched list and appends one notice naming the new status, and the filter is kept |
| AdminDashboard.Dashboard.Press | src/components/AdminDashboard.tsx:242-257 | a disabled button changes nothing; an enabled one runs the update to its target status |
| AdminDashboard.Dashboard.Visible | src/components/AdminDashboard.tsx:45-47 | the shown list is the full list under `all`, and otherwise holds only complaints of the list that pass the filter |
| AdminDashboard.Dashboard.Stats | src/components/AdminDashboard.tsx:49-57 | the cards count the whole list, not the shown one, and the counts add up to the total |
| AdminDashboard.Dashboard.Departments | src/components/AdminDashboard.tsx:59-65 | the breakdown is computed from the whole list: its counts add up to the number of complaints and each is the number of complaints of that department |
| AdminDashboard.TallySnoc | src/components/AdminDashboard.tsx:61-62 | counting a list with one more complaint applies one more increment |
| AdminDashboard.OneDepartmentTally | src/components/AdminDashboard.tsx:60-63 | counting one complaint gives `{d: 1}` for its department d |
| AdminDashboard.TwoDepartmentsTally | src/components/AdminDashboard.tsx:60-63 | two complaints of different departments give `{x: 1, y: 1}` in list order |
| AdminDashboard.TwoDepartments | src/components/AdminDashboard.tsx:59-65 | two complaints of different named departments are listed in list order, one each |
| AdminDashboard.PendingThenResolved | src/components/AdminDashboard.tsx:45-57 | with a pending and a resolved complaint, the pending filter shows the first and the cards read 2, 1, 0, 1 |
| AdminDashboard.RoadsAndWater | src/components/AdminDashboard.tsx:45-65 | a pending Roads complaint and a resolved Water complaint give the pending list `[roads]`, cards 2, 1, 0, 1, and the breakdown Roads 1 then Water 1 |
| JsArray.Filter | src/components/AdminDashboard.tsx:45-47 | `filter` keeps only elements of the array that pass the predicate, and never lengthens it |
| JsArray.FilterPositions | src/components/AdminDashboard.tsx:45-47 | the kept elements are those at exactly the positions that pass, in increasing position order |
| JsArray.FilterConcat | src/components/AdminDashboard.tsx:45-47 | filtering a concatenation filters each part |
| JsArray.FilterMembership | src/components/AdminDashboard.tsx:45-47 | an element is kept if and only if it is in the array and passes |
| JsArray.FilterKeepsAll | src/components/AdminDashboard.tsx:45-47 | when every element passes, `filter` returns the array unchanged |
| JsArray.FilterKeepsNone | src/components/AdminDashboard.tsx:45-47 | when no element passes, `filter` returns the empty array |
| JsArray.FilterAgree | src/components/AdminDashboard.tsx:52-54 | predicates that agree on the elements keep the same elements |
| JsArray.FilterComplement | src/components/AdminDashboard.tsx:64 | a predicate and its negation split the array: the kept elements together are the whole array |
| JsArray.FilterPair | src/components/AdminDashboard.tsx:45-54 | `filter` on a two-element array keeps each element that passes, in order |
| JsString.ReplaceFirst | src/components/AdminDashboard.tsx:41 | `replace` with a string pattern replaces its first occurrence only, keeps the length, and returns a string without the pattern unchanged |
| JsString.ReplaceFirstAt | src/components/AdminDashboard.tsx:41 | the occurrence replaced is the one after a stretch free of the pattern, and the rest is kept whatever it holds |
| JsString.ReplaceFirstRemovesOne | src/components/AdminDashboard.tsx:41 | exactly one occurrence of the pattern is removed; later ones stay |
| JsObject.SortBy | src/components/AdminDashboard.tsx:64 | sorting array-index keys rearranges them into ascending order |
| JsObject.Pairs | src/components/AdminDashboard.tsx:64 | each key is paired with its stored value, in key order |
| JsObject.Dict.Put | src/components/AdminDashboard.tsx:62 | assignment sets the value of one key and no other; a new key is created after all existing ones and an existing key keeps its place |
| JsObject.Dict.OwnKeys | src/components/AdminDashboard.tsx:64 | `Object.entries` order lists every created key once |
| JsObject.Dict.Entries | src/components/AdminDashboard.tsx:64 | `Object.entries` lists each own key with its value, one pair per key |
| JsObject.Empty | src/components/AdminDashboard.tsx:60 | `{}` holds no key |
| JsObject.SumOverConcat | src/components/AdminDashboard.tsx:64 | the sum over concatenated key lists is the sum of the sums |
| JsObject.SumOverUnlisted | src/components/AdminDashboard.tsx:62 | changing a key not listed leaves the sum alone |
| JsObject.SumOverUpdate | src/components/AdminDashboard.tsx:62 | changing a key listed once changes the sum by the difference of the values |
| JsObject.SumOverFilter | src/components/AdminDashboard.tsx:64 | splitting the keys into index and named keys splits the sum |
| JsObject.SumOverInsert | src/components/AdminDashboard.tsx:64 | inserting a key into a sorted list adds its value to the sum |
| JsObject.SumOverSort | src/components/AdminDashboard.tsx:64 | sorting the keys keeps the sum |
| JsObject.ValueSumPairs | src/components/AdminDashboard.tsx:64 | the values of the pairs add up to the sum over the keys |
| JsObject.PutTotal | src/components/AdminDashboard.tsx:62 | storing a value changes the total by that value minus the one it replaces |
| JsObject.EntriesTotal | src/components/AdminDashboard.tsx:64 | the values `Object.entries` lists add up to the total stored |
| JsObject.OwnKeysSplit | src/components/AdminDashboard.tsx:64 | `Object.entries` order is the ascending array indices followed by the named keys in creation order |
| JsObject.IndicesFirst | src/components/AdminDashboard.tsx:64 | array-index keys come first, by ascending value |
| JsObject.NamedKeysKeepCreationOrder | src/components/AdminDashboard.tsx:64 | named keys appear in creation order |
| JsObject.OwnKeysWithoutIndices | src/components/AdminDashboard.tsx:64 | without array-index keys, `Object.entries` follows creation order |
| JsObject.InsertByPermutes | src/components/AdminDashboard.tsx:64 | inserting a key adds it and loses nothing |
| JsObject.InsertBySorted | src/components/AdminDashboard.tsx:64 | inserting into an ascending list keeps it ascending |

## Left out

- The store (`getComplaints`, `updateComplaintStatus` in `src/utils/storage`) is not part of this model. The list it returns is a parameter. What the update writes is unknown here, so the model cannot state that the refetched list shows the new status.
- Dashboard.HandleStatusUpdate: the complaint identifier goes only to the store, which is not modelled, so the method takes it and does not use it.
- The `Complaint` and `User` types of `src/types` are not part of this model. `Complaint` is reduced to the fields the dashboard reads.
- React itself is not modelled: the render cycle, `useEffect` scheduling and state batching. Each state update is one method call that completes at once.
- The toast system is not modelled. A notice is recorded in the `notices` field of the state and its display is not modelled.
- The CSS `capitalize` class on the badge is presentation. The label is the string before styling.
- `formatDate`, icons, badge variants and layout are presentation and have no contract.
- The hard-coded analytics cards (resolution time, heatmap) hold constants and no logic.
- Logout only calls the parent's callback and is not modelled.
- Department names that are properties inherited from `Object.prototype` (`constructor`, `__proto__`, `toString`) are not modelled. The object is taken to hold only its own properties, which differ from what JavaScript does for those names.
- Counts are unbounded integers. JavaScript number precision (2^53) is not modelled.
- JsString.ReplaceFirst: only one-character patterns and replacements are modelled, which is what the dashboard passes.
- Dashboard.SetFilter: the select's value arrives through a `value as any` cast and may be any string. The method takes a `Selector`, and `SelectorOf` models reading the value, with `None` for a string no item carries.
