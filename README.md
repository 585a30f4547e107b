# Baby name picker: the filter-and-rank engine

This project models `Dataset`, the engine of the baby name picker
(`src/babynamepicker/Dataset.java`), and proves properties of the model.
The engine is single-threaded and keeps everything in memory.

- **Ingest.** It loads a catalog of names from per-year records (`addName`).
- **Finalize.** It fills in the years that have no record and builds an alphabetical working list (`finalList`).
- **Refresh.** It answers a query of five parameters: gender, sort mode, initial, year window and number of suggestions (`filterList`).
  - The work is skipped when the query equals the one applied last.
  - Otherwise the engine recomputes popularity totals when the window changed and re-sorts the working list: `A` by name, `P` by popularity from high to low, `p` from low to high.
  - It then emits `"name (popTotal sex)"` strings for the entries that pass the gender and initial filters, up to the limit.
- **Round trip.** It maps display strings back to entries (`convertNameToBabyNameList`).
- **Users.** It keeps two per-user lists and a current-user marker.

The model has three modules:

- `Orders` (`orders.dfy`) holds the name order.
  - `LexLe` is the order of `String.compareTo`, and `CompareTo` is the comparator itself.
  - `SortBy` is a sort specified by what it delivers: a permutation that is ordered. It stands for `Collections.sort`.
  - `Reversed` is what the engine's stack reversal delivers.
- `BabyNames` (`baby_names.dfy`) holds the catalog entry and the pure logic applied to entries:
  - the sex merge;
  - backfilling;
  - rendering an entry, and parsing the name back out;
  - the filters;
  - the popularity comparator.
- `NamePicker` (`dataset.dfy`) holds the steps of the engine as methods, and the class `Dataset`.
  - The class has the source's fields and its operations. Each operation has `modifies` clauses and states its whole new state.
  - The loops of the source (the backfill loops, the popularity sweep, the stack reversal and the emit loop) are `while` loops with invariants.
  - These loops run on the values of the fields. The class method then assigns the results to its fields.

Design decisions:

- **The working list holds keys.** `dataList` holds references to the catalog's own `BabyName` objects. An entry is never replaced in the map, and it is stored under its own name (`Valid`). So the working list is modelled as a sequence of keys into `dataMap`. An update of an entry, such as a new popularity total, is then seen through the list and the map alike, as with the shared objects of the source.
- **Queries are records.** The five `current*` fields form one `Query` record, `current`, and the five `prev*` fields form another, `prev`. The cache guard compares the two records; the source compares the five pairs of fields.
- **Throws become a result.** When the limit exceeds the number of matching entries, the emit loop reads past the end of the list and `dataList.get(i)` throws. `FilterList` then returns `ok == false`, after every match has been emitted, and the applied query is not recorded. When a string has no space, `substring(0, -1)` throws; `ConvertNameToBabyNameList` then returns `NoSpaceAt(i)`, the index of the first such string.
- **`null` becomes `None`.** A token with no catalog entry converts to `None`, as `getBabyName` returns `null` for it.
- **No validation.** `addName` checks neither the year nor the popularity; any pair is stored.
- **The order invariant.** `OrderInv` says that the working list is in the order of the last applied sort mode. `FilterList` keeps it whenever the requested mode is one of `A`, `P`, `p` and the refresh completes. Under it, the reverse-only path (sort `p` after `P`, same window) delivers an ascending list.

## Model

| member | source | states |
|---|---|---|
| Orders.LexLeTotal | src/babynamepicker/Dataset.java:240-247 | any two names are comparable under the name comparator's order |
| Orders.LexLeTransitive | src/babynamepicker/Dataset.java:240-247 | the name order is transitive |
| Orders.LexLeAntisymmetric | src/babynamepicker/Dataset.java:240-247 | names that compare both ways are equal |
| Orders.CompareTo | src/babynamepicker/Dataset.java:245 | `compareTo` returns the difference of the lengths when one name is a prefix of the other |
| Orders.CompareToIsLexLe | src/babynamepicker/Dataset.java:240-247 | `compareTo(a, b) <= 0` exactly when `a` is lexicographically at most `b`; it is 0 exactly for equal names; swapping the arguments negates it |
| Orders.NameOrderIsTotalPreorder | src/babynamepicker/Dataset.java:240-247 | the name comparator is a valid comparator for sorting (total and transitive) |
| Orders.SortBy | src/babynamepicker/Dataset.java:153-158 | `Collections.sort` with a total, transitive comparator gives a permutation of the list, ordered by the comparator |
| Orders.SortByName | src/babynamepicker/Dataset.java:109 | sorting with the name comparator gives a name-ordered permutation |
| Orders.NameSortedUnique | src/babynamepicker/Dataset.java:99-109 | two name-ordered lists with the same elements are equal, so the map's key order cannot show in the finalized list |
| Orders.Reversed | src/babynamepicker/Dataset.java:162-173 | the reversed list has the same length and the same elements, with position `k` holding the element at `n-1-k` |
| BabyNames.MergeSex | src/babynamepicker/Dataset.java:84-86 | a record keeps the entry's sex or makes it `"U"`; it is `"U"` exactly when the entry was already unisex or the record's sex differs |
| BabyNames.SexAfterRecordsClosedForm | src/babynamepicker/Dataset.java:84-86 | after any series of records, a name is unisex exactly when two of its records disagree on the sex; otherwise it has the sex they all report |
| BabyNames.UnisexIsPermanent | src/babynamepicker/Dataset.java:84-86 | a name promoted to `"U"` stays `"U"` whatever records follow |
| BabyNames.NatToDecimal | src/babynamepicker/Dataset.java:195 | the rendered popularity total is a non-empty string of decimal digits, has no leading zero and denotes the total |
| BabyNames.Render | src/babynamepicker/Dataset.java:195-199 | the display string starts with the name followed by a space, and ends with `)` |
| BabyNames.IndexOf | src/babynamepicker/Dataset.java:330 | `indexOf(' ')` is -1 exactly when there is no space, and otherwise gives the first space |
| BabyNames.Token | src/babynamepicker/Dataset.java:330 | the token is the prefix of the string up to its first space, and holds no space |
| BabyNames.RenderedTokenIsName | src/babynamepicker/Dataset.java:195-199 | the text before the first space of a rendered entry is the entry's name, for a name without spaces |
| BabyNames.Passes | src/babynamepicker/Dataset.java:191-194 | gender `"A"` with initial `'0'` lets every entry through; an entry that passes has the requested sex unless `"A"`, and the requested initial unless `'0'` |
| BabyNames.Emitted | src/babynamepicker/Dataset.java:188-207 | the display list is no longer than the working list, is as long as it when neither filter is set, and is empty when no entry passes |
| BabyNames.Selected | src/babynamepicker/Dataset.java:191-201 | the entries the filters select come from the list, pass both filters, and include every entry of the list that passes them |
| BabyNames.EmittedRendersSelected | src/babynamepicker/Dataset.java:191-201 | the display list is the selected entries rendered one by one, in list order |
| BabyNames.EmittedEntriesPass | src/babynamepicker/Dataset.java:191-201 | every display string renders an entry of the list that passes the gender and initial filters, and every such entry is rendered |
| BabyNames.PopCompare | src/babynamepicker/Dataset.java:267-276 | the popularity comparator returns -1, 0 or 1; it is at most 0 exactly when the first total is at least the second, and 0 exactly for equal totals |
| BabyNames.SortByPop | src/babynamepicker/Dataset.java:158 | sorting with the popularity comparator gives a permutation from high to low popularity |
| BabyNames.ReversedDescendingIsAscending | src/babynamepicker/Dataset.java:162-173 | reversing a list sorted from high to low popularity gives it from low to high |
| NamePicker.Window | src/babynamepicker/Dataset.java:143-144 | the window handed to `setPopTotal` is never 0: 0 stands for all years, and any other window is passed as is |
| NamePicker.Resolve | src/babynamepicker/Dataset.java:330-331 | a string resolves to a reference exactly when its token is a catalog key, and then to that token |
| NamePicker.ResolveEmitted | src/babynamepicker/Dataset.java:326-335 | when the listed names hold no space, converting the display list back yields, position by position, a reference to the very entry each string was rendered from |
| NamePicker.BackfillYears | src/babynamepicker/Dataset.java:101-105 | afterwards every year 1880-2014 is present; recorded years keep their values; only missing years in that range are added, with 0 |
| NamePicker.BackfillAndCollect | src/babynamepicker/Dataset.java:99-107 | every entry is backfilled and otherwise unchanged, and the working list gains exactly one occurrence of each catalog key |
| NamePicker.RecomputePopTotals | src/babynamepicker/Dataset.java:141-146 | every entry the working list refers to gets the total for the window from its history; every other entry, and every other field, is unchanged |
| NamePicker.ReverseByStack | src/babynamepicker/Dataset.java:162-173 | pushing the whole list onto an emptied stack and popping it back yields the reversed list |
| NamePicker.Reorder | src/babynamepicker/Dataset.java:148-175 | the list stays a permutation of itself; it is unchanged when neither the sort mode nor the window changed. Otherwise `A` gives name order, the sorting paths give high-to-low (`P`) or low-to-high (`p`) popularity, and the reverse-only path gives the reversal. The requested order holds whenever the window changed or the old list was in the old mode's order |
| NamePicker.StaleSortModeBreaksAscending | src/babynamepicker/Dataset.java:157-173 | with the applied mode left at `P` over a name-ordered list, a request for `p` over the same window only reverses the list, which then is not from low to high popularity |
| NamePicker.EmitMatches | src/babynamepicker/Dataset.java:177-207 | the output is all matching display strings for limit 0, the first `k` of them for a limit `k > 0` that does not exceed the matches, none for a negative limit; a larger limit throws, after every match has been emitted |
| NamePicker.Recompute | src/babynamepicker/Dataset.java:136-207 | the steps of a recomputation compose: totals recomputed when the window changed, the list reordered, and the output limited; the catalog keeps its keys and names |
| NamePicker.Dataset.constructor | src/babynamepicker/Dataset.java:31-49 | empty catalog, working list and display list; prev query `("A", "", '0', -1, -1)`; current query `("A", "A", '0', 0, 0)`; users 1 and 2 with empty lists |
| NamePicker.Dataset.GetBabyName | src/babynamepicker/Dataset.java:57-59 | finds an entry exactly when the name is in the catalog, and the entry found carries that name |
| NamePicker.Dataset.GetDataList | src/babynamepicker/Dataset.java:65-67 | the entries of the working list, in list order, each under its own name |
| NamePicker.Dataset.AddName | src/babynamepicker/Dataset.java:78-89 | the catalog gains `name` and nothing else changes. A new entry takes sex, initial and the one record from the call; an existing entry merges the sex (unisex on disagreement) and stores `pop` at `year` (last write wins). The order invariant is kept |
| NamePicker.Dataset.FinalList | src/babynamepicker/Dataset.java:98-110 | every entry is backfilled; the working list grows by exactly one occurrence of each catalog key and is name-ordered |
| NamePicker.Dataset.ClearList | src/babynamepicker/Dataset.java:116-118 | the working list becomes empty; the order invariant is kept |
| NamePicker.Dataset.FilterList | src/babynamepicker/Dataset.java:124-217 | when the query equals the applied one, nothing changes. Otherwise the catalog, working list and display list are recomputed as `Refreshed` describes, and the query is recorded as applied unless the emit loop threw. The order invariant is kept for a known sort mode |
| NamePicker.Dataset.ResetFilters | src/babynamepicker/Dataset.java:223-234 | sets the sentinel prev query and the default current query, which differ, so the next refresh recomputes; the order invariant holds |
| NamePicker.Dataset.SetCurrentInitial | src/babynamepicker/Dataset.java:289-291 | only the current initial changes, to the argument |
| NamePicker.Dataset.SetCurrentGender | src/babynamepicker/Dataset.java:296-298 | only the current gender changes, to the argument |
| NamePicker.Dataset.SetCurrentSort | src/babynamepicker/Dataset.java:303-305 | only the current sort mode changes, to the argument |
| NamePicker.Dataset.SetCurrentNYears | src/babynamepicker/Dataset.java:310-312 | only the current year window changes, to the argument |
| NamePicker.Dataset.SetCurrentNumSuggest | src/babynamepicker/Dataset.java:317-319 | only the current limit changes, to the argument |
| NamePicker.Dataset.ConvertNameToBabyNameList | src/babynamepicker/Dataset.java:326-335 | succeeds exactly when every string has a space, and otherwise reports the first string without one; on success it keeps length and order and resolves each string's first token in the catalog |
| NamePicker.Dataset.SetUserNameList | src/babynamepicker/Dataset.java:342-349 | user 1's or user 2's list is replaced and the other user is untouched; any other id changes nothing |
| NamePicker.Dataset.GetUserNameList | src/babynamepicker/Dataset.java:356-363 | the stored list for ids 1 and 2, and none (the source's `null`) for every other id |
| NamePicker.Dataset.SetCurrentUser | src/babynamepicker/Dataset.java:369-371 | the current-user marker becomes the argument |
| NamePicker.Dataset.GetCurrentUser | src/babynamepicker/Dataset.java:377-379 | the current-user marker |

## Left out

- `BabyName` and `User` are not part of this model. An entry is a value with a name, sex, initial, year-to-popularity history and popularity total; a user is an id with a stored list.
  - `setPopTotal` becomes `popTotalOf`, an uninterpreted function of the history and the window, given to the constructor.
  - The total a new entry starts with is taken to be 0.
  - A new user's list is taken to be empty.
  - `addPop` and `containsYear` are taken to be a map update and a key test.
- `getFinalRating` and `ratingComparator` are left out: the comparator is never used, and it works in floating point.
- `Collections.sort` is specified by the ordered permutation it delivers. TimSort and its stability are not modelled, and entries with equal popularity come out in no promised order.
- PopCompare: the subtraction is on unbounded integers. If `getPopTotal` returns a 32-bit `int`, non-negative totals cannot overflow the subtraction, but the model does not state that bound.
- BabyNames.NatToDecimal: assumes the popularity total is an integer rendered in decimal, as string concatenation of an `int` does; the type of `getPopTotal` is not part of this model.
- Characters are compared as Dafny `char` values. `String.compareTo` compares UTF-16 code units; the two orders differ only on characters outside the Basic Multilingual Plane.
- The key order of the `HashMap` in `finalList` is a nondeterministic choice. `NameSortedUnique` shows that the name sort which follows removes it.
- `getFilteredList`, and the aliasing of the internal lists that `getDataList`, `getFilteredList` and `getUserNameList` return, are not modelled. The model reads those lists, and a caller cannot change the engine's state through them.
- `sortingStack` is a field of the source. It is emptied before each reversal and empty again after it, so the model keeps it as the local stack of `ReverseByStack`.
- `filteredList.clear()` followed by the emit loop is modelled as building the display list afresh. When the emit loop throws, the model still returns the working list and popularity totals already updated, as the source leaves them.
- NamePicker.Dataset.FilterList: the order invariant is not promised after a refresh that throws, nor for an unknown sort mode. Both are what the source does.
  - A refresh that throws has already reordered the list but keeps the old applied mode. A later `p` can then reverse a list that is not high-to-low; `StaleSortModeBreaksAscending` gives such a case.
  - `finalList` after a refresh with sort `P` or `p` re-sorts by name while the applied mode stays `P` or `p`. `FinalList` keeps the invariant only when the applied mode is none of these.
- NamePicker.ResolveEmitted: the round trip is not promised for a name that holds a space, such as "Mary Ann". The source cuts its display string at the first space, so it resolves to the entry of "Mary", or to `null` if there is none.
- Parsing of the input files, the GUI and file loading lie outside the engine and are not modelled.
