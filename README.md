# Flight board — a Dafny model

This project models the core of a React departures/arrivals flight board:

- **the data service** (`flightService.js`). It holds two fixed tables of eight flights each. It copies the table selected by the `kind` argument. Each record is then redrawn independently: with probability about 0.2 it gets a status drawn from a list of five, which may equal its old one.
- **the board component** (`FlightBoard.jsx`). Its state is eight hooks:
  - the loaded `flights` and the shown `filteredFlights`;
  - `isLoading`, `error` and `view`;
  - `sortConfig`, `selectedFlight` and `filterOptions`.

  Handlers and effects change that state:
  - loading a table;
  - switching the view;
  - clicking a sortable header;
  - changing a filter;
  - searching;
  - selecting a row and closing its details.

  An effect reruns the three facet filters and a stable comparator sort whenever the flights, the filters or the sort change. Once an error is set, the board renders only the error. Otherwise it renders the header, the search box and the de-duplicated filter options, above a table body that is one of three things: the loading row while loading, the "No flights found" row when loading is done and the shown list is empty, or one row per shown flight.
- **the row component** (`FlightRow.jsx`). It maps a status to a CSS class by lowercased substring matching, formats the time, splits the flight number, and picks the location column.

The modules are:

- `Wrappers`: Option for JavaScript's `undefined`/`null`, and Result for a thrown exception.
- `JsString`: the JavaScript string operations the code uses. These are `<`, `toLowerCase`, `includes`, `trim`, and `split`/`join`.
- `Sequences`: `Array.prototype.filter` and de-duplication through a Set, with what each promises.
- `Flights`: the flight record and the sortable columns.
- `FlightService`: the seed tables, the status drift and `getFlights`. The random draws are an input.
- `FlightRow`: the row's pure helpers.
- `BoardPipeline`: the pure parts of the board. These are the filter options, the facet filters, the sort configuration, the comparator, the sort order it produces, the search filter, and the option lists.
- `FlightBoard`: the board itself, in two forms.
  - `BoardState` with `Apply`, `Search` and `Render` states the effect of each event on the whole state.
  - `Board` is a class whose fields are the hooks. Its handler methods update the fields in place and are proved to follow `Apply`/`Search`. `Board.Recompute` runs the effect: three conditional filters, then an in-place insertion sort of an array (`SortInPlace`), proved equal to the specification sort `SortFlights`.

The sort is modelled as a stable insertion sort (`SortFlights`). ES2019 requires `sort` to be stable. When the sort column is defined on every record or on none, the comparator is consistent, and `SortFlights` is the one order `Array.prototype.sort` must produce. When some records have the column and others do not (an `undefined` key compares false against everything), the comparator is inconsistent and ECMA-262 leaves the order implementation-defined; `SortFlights` is then one allowed order among several. The service never returns such a mixed table (`GetFlightsKeyUniform`).

## Model

| member | source | states |
|---|---|---|
| JsString.Less | src/components/FlightBoard.jsx:65 | String `<` is irreflexive, transitive, asymmetric and total on distinct strings, as stated by the four lemmas below. |
| JsString.LessIrreflexive | src/components/FlightBoard.jsx:65 | No string is below itself. |
| JsString.LessTransitive | src/components/FlightBoard.jsx:65 | String `<` is transitive. |
| JsString.LessTrichotomy | src/components/FlightBoard.jsx:65 | Any two strings are equal or one is below the other. |
| JsString.LessAsymmetric | src/components/FlightBoard.jsx:65 | String `<` never holds both ways. |
| JsString.Lower | src/components/FlightRow.jsx:10 | `toLowerCase`: each character lowercased, in place. Its laws are the two lemmas below. |
| JsString.LowerIdempotent | src/components/FlightRow.jsx:10 | Lowercasing twice is lowercasing once. |
| JsString.LowerAppend | src/components/FlightBoard.jsx:84-86 | Lowercasing distributes over concatenation. |
| JsString.Includes | src/components/FlightRow.jsx:11-15 | `includes`: some position of the haystack starts an occurrence of the needle. |
| JsString.IncludesMiddle | src/components/FlightRow.jsx:11-15 | A string is included in any string that has it in the middle. |
| JsString.NotIncludesMissingChar | src/components/FlightRow.jsx:11-15 | A needle with a character the haystack lacks is not included. |
| JsString.Trim | src/components/FlightBoard.jsx:78 | `trim`: white space removed from both ends. Its emptiness is characterised by the lemma below. |
| JsString.TrimEmptyIff | src/components/FlightBoard.jsx:78 | `trim()` is empty exactly when every character is ECMAScript white space. |
| JsString.Split | src/components/FlightRow.jsx:22 | A split has one more piece than there are separators, and no piece holds a separator. |
| JsString.JoinSplit | src/components/FlightRow.jsx:22-23 | Joining the pieces of a split with the separator gives back the string. |
| Sequences.Filter | src/components/FlightBoard.jsx:53-61 | A filter is never longer than its input. An element is in the result exactly when it is in the input and satisfies the predicate. |
| Sequences.FilterIsSubsequence | src/components/FlightBoard.jsx:53-61 | A filter keeps the input order. |
| Sequences.FilterCount | src/components/FlightBoard.jsx:53-61 | A filter keeps every copy of a satisfying element and no copy of another. |
| Sequences.Distinct | src/components/FlightBoard.jsx:119-121 | De-duplication leaves no duplicates and keeps exactly the input's values. |
| Sequences.DistinctFirstOccurrenceOrder | src/components/FlightBoard.jsx:119-121 | De-duplication lists values in the order of their first occurrences, as a Set iterates them. |
| Flights.Field | src/components/FlightBoard.jsx:65 | Reading the column `key` of a record: the value, or `undefined` (None) when the record lacks that field. `LocationShownForFetchedView` and `GetFlightsKeyUniform` state when it is defined. |
| FlightService.UpdateFlightStatuses | src/services/flightService.js:26-35 | Keeps the length. Changes only the status of each record. Each status is the old one or one of the five drift statuses. A record whose draw is `Keep` comes back unchanged. |
| FlightService.NoDrawsNoDrift | src/services/flightService.js:29-33 | When no draw exceeds 0.8, every record is returned unchanged. |
| FlightService.DrawnStatus | src/services/flightService.js:30-31 | A record whose draw succeeds gets the status at the drawn index of the five-status list. |
| FlightService.SeedTable | src/services/flightService.js:44 | The table `getFlights` reads: the departures seed (lines 4-11) for "departures", the arrivals seed (lines 14-21) for anything else. The seed contents are stated by the seed lemmas below. |
| FlightService.GetFlights | src/services/flightService.js:37-46 | Returns the selected seed table: departures for "departures" (the default), arrivals for anything else. Same length, and the same ids in the same order. |
| FlightService.ClockTimeOrder | src/services/flightService.js:4-21 | For "HH:MM" times, string `<` agrees with the order of minutes since midnight. |
| FlightService.AscendingFromMinutes | src/services/flightService.js:4-21 | A table whose clock times increase is in strict string order by time. |
| FlightService.MinutesIncrease | src/services/flightService.js:4-21 | Minutes that increase between neighbours increase between any two positions. |
| FlightService.DepartureSeedTimes | src/services/flightService.js:4-11 | Every departure time is an "HH:MM" clock time, and the times strictly increase. |
| FlightService.ArrivalSeedTimes | src/services/flightService.js:14-21 | Every arrival time is an "HH:MM" clock time, and the times strictly increase. |
| FlightService.DepartureSeedIds | src/services/flightService.js:4-11 | Departure ids are unique. |
| FlightService.ArrivalSeedIds | src/services/flightService.js:14-21 | Arrival ids are unique. |
| FlightService.DepartureSeedLocations | src/services/flightService.js:4-11 | Every departure has a destination and no origin. |
| FlightService.ArrivalSeedLocations | src/services/flightService.js:14-21 | Every arrival has an origin and no destination. |
| FlightService.DepartureSeedWellFormed | src/services/flightService.js:4-11 | The departures table is well formed: unique ids, ascending times, destinations only. |
| FlightService.ArrivalSeedWellFormed | src/services/flightService.js:14-21 | The arrivals table is well formed: unique ids, ascending times, origins only. |
| FlightService.DriftKeepsTableInvariants | src/services/flightService.js:26-35 | Status drift preserves every table invariant. |
| FlightService.GetFlightsWellFormed | src/services/flightService.js:37-46 | Every `getFlights` result is well formed for its kind, whatever the random draws. |
| FlightRow.StatusClass | src/components/FlightRow.jsx:9-17 | The class is one of the five status classes or the empty string. |
| FlightRow.StatusClassIgnoresCase | src/components/FlightRow.jsx:10 | The class ignores letter case. |
| FlightRow.OnTimeWins | src/components/FlightRow.jsx:11 | Any status containing "on time" in any case is classed on-time. |
| FlightRow.DelayedLosesOnlyToOnTime | src/components/FlightRow.jsx:11-12 | A status containing "delayed" is classed on-time if it also contains "on time", and delayed otherwise. |
| FlightRow.BoardingLosesOnlyToEarlierPhrases | src/components/FlightRow.jsx:11-13 | A status containing "boarding" is classed on-time if it contains "on time", else delayed if it contains "delayed", else boarding. |
| FlightRow.FinalCallPhrases | src/components/FlightRow.jsx:11-14 | A status containing "final call" or "gate closed" in any case is classed by the first of "on time", "delayed", "boarding" it contains, and final-call when it contains none of them. |
| FlightRow.LandedPhrases | src/components/FlightRow.jsx:11-15 | A status containing "landed" or "arrived" in any case is classed by the first earlier phrase it contains, and landed when it contains none of the five earlier phrases. |
| FlightRow.UnmatchedStatusHasNoClass | src/components/FlightRow.jsx:10-16 | The class is empty exactly when the lowercased status contains none of the seven phrases. |
| FlightRow.OnTimeClass | src/components/FlightRow.jsx:11 | "On Time" gets status-on-time. |
| FlightRow.DelayedClass | src/components/FlightRow.jsx:12 | "Delayed" gets status-delayed. |
| FlightRow.BoardingClass | src/components/FlightRow.jsx:13 | "Boarding" gets status-boarding. |
| FlightRow.FinalCallClass | src/components/FlightRow.jsx:14 | "Final Call" gets status-final-call. |
| FlightRow.GateClosedClass | src/components/FlightRow.jsx:14 | "Gate Closed" gets status-final-call. |
| FlightRow.LandedClass | src/components/FlightRow.jsx:15 | "Landed" gets status-landed. |
| FlightRow.ArrivedClass | src/components/FlightRow.jsx:15 | "Arrived" gets status-landed. |
| FlightRow.FinalCallAndGateClosed | src/components/FlightRow.jsx:14 | "Final Call" and "Gate Closed" share one class. |
| FlightRow.LandedAndArrived | src/components/FlightRow.jsx:15 | "Landed" and "Arrived" share one class. |
| FlightRow.OnTimeDelayedBoarding | src/components/FlightRow.jsx:11-13 | The three early phrases each get their own class. |
| FlightRow.FormatTime | src/components/FlightRow.jsx:20-24 | The time's first colon-separated field, a colon, and the second field or "undefined" when there is none. Its behaviour is stated by the four lemmas below. |
| FlightRow.FormatTimeOneColon | src/components/FlightRow.jsx:20-24 | A time with exactly one colon is displayed unchanged. |
| FlightRow.FormatTimeDropsExtraFields | src/components/FlightRow.jsx:20-24 | With two or more colons, the display is a strict prefix of the time. The dropped rest is the later fields. |
| FlightRow.FormatTimeNoColon | src/components/FlightRow.jsx:20-24 | A time without a colon is displayed followed by ":undefined". |
| FlightRow.ClockTimeHasOneColon | src/components/FlightRow.jsx:22 | An "HH:MM" time splits into exactly two fields. |
| FlightRow.ClockTimeDisplayedAsStored | src/components/FlightRow.jsx:35 | Every clock time is displayed exactly as stored. |
| FlightRow.SplitFlightNumber | src/components/FlightRow.jsx:38-39 | The code and the digits concatenate back to the flight number. The code is its first two characters, or all of it when shorter. |
| FlightRow.LocationKey | src/components/FlightRow.jsx:26 | The location column is the destination exactly in the departures view, the origin otherwise. |
| FlightRow.LocationShownForFetchedView | src/components/FlightRow.jsx:43 | Every row fetched for a view has a value in that view's location column. |
| BoardPipeline.FilterOptions.With | src/components/FlightBoard.jsx:107-112 | The named facet takes the new value. The other two keep theirs. |
| BoardPipeline.ResetClearsAllFilters | src/components/FilterOptions.jsx:80-84 | The reset button's three changes give the initial "all" filters from any filters. |
| BoardPipeline.FacetStep | src/components/FlightBoard.jsx:53-61 | One conditional step keeps exactly the records whose facet field equals the value, or all of them when the value is "all". |
| BoardPipeline.FacetFilter | src/components/FlightBoard.jsx:50-61 | A record is kept exactly when it is in the flights and matches all three facets. |
| BoardPipeline.FacetStepIsFilter | src/components/FlightBoard.jsx:53-61 | Each conditional step is a filter by "facet is all, or field equals value". |
| BoardPipeline.FacetStepsAreFacetFilter | src/components/FlightBoard.jsx:50-61 | The three conditional steps together are one filter by the conjunction of the facets. |
| BoardPipeline.FacetFilterSpec | src/components/FlightBoard.jsx:50-61 | The filtered list is a subsequence of the flights. Each record keeps all its copies if it matches every facet, none otherwise. |
| BoardPipeline.NoFiltersKeepsAll | src/components/FlightBoard.jsx:19-23 | With all three facets "all", nothing is filtered out. |
| BoardPipeline.NextSortConfig | src/components/FlightBoard.jsx:96-101 | The clicked column becomes the key. The direction is descending exactly when that column was already the key and ascending. |
| BoardPipeline.HeaderClickToggles | src/components/FlightBoard.jsx:96-101 | Clicking the current column flips the direction. Clicking another column sorts ascending. |
| BoardPipeline.HeaderClickTwice | src/components/FlightBoard.jsx:96-101 | Clicking the current column twice restores the sort configuration. |
| BoardPipeline.KeyLess | src/components/FlightBoard.jsx:65-68 | JavaScript `<` on two column values: false whenever either value is `undefined`, and string `<` otherwise. `CompareSpec` states its use in the comparator. |
| BoardPipeline.Compare | src/components/FlightBoard.jsx:64-72 | The comparator returns -1, 0 or 1, and 0 exactly when neither key is below the other. This includes an `undefined` key on either side. |
| BoardPipeline.CompareSpec | src/components/FlightBoard.jsx:64-72 | The comparator is antisymmetric. It returns at most 0 exactly when the pair is in the configured order. It returns 0 exactly when neither key is below the other. |
| BoardPipeline.TiedKeysEqual | src/components/FlightBoard.jsx:64-72 | Two defined keys that compare 0 are equal strings. |
| BoardPipeline.ComparedKeysDiffer | src/components/FlightBoard.jsx:64-72 | Records the comparator separates have different keys. |
| BoardPipeline.InOrderTransitive | src/components/FlightBoard.jsx:64-72 | The configured order is transitive on records whose keys are all defined or all undefined. |
| BoardPipeline.Insert | src/components/FlightBoard.jsx:64-72 | One insertion step adds one record. Its permutation, order and stability are stated by the lemmas below. |
| BoardPipeline.SortFlights | src/components/FlightBoard.jsx:64-72 | The stable order of the comparator has the length of its input. Its permutation, order and stability are stated by the lemmas below. |
| BoardPipeline.InsertPermutation | src/components/FlightBoard.jsx:64-72 | One insertion step adds exactly the inserted record. |
| BoardPipeline.SortPermutation | src/components/FlightBoard.jsx:64-72 | Sorting is a permutation. |
| BoardPipeline.InsertSorted | src/components/FlightBoard.jsx:64-72 | Inserting into a sorted list keeps it sorted. |
| BoardPipeline.SortSorted | src/components/FlightBoard.jsx:64-72 | The sorted list is in the configured order of the key and direction. |
| BoardPipeline.InsertStable | src/components/FlightBoard.jsx:64-72 | Among records with one key value, insertion puts the new record after the existing ones. |
| BoardPipeline.SortStable | src/components/FlightBoard.jsx:64-72 | Sorting is stable: records with equal keys keep their relative order. |
| BoardPipeline.SortedUnchanged | src/components/FlightBoard.jsx:64-72 | An already sorted list is left as it is. |
| BoardPipeline.SortIdempotent | src/components/FlightBoard.jsx:64-72 | Sorting twice is sorting once. |
| BoardPipeline.InsertBeforeAll | src/components/FlightBoard.jsx:64-72 | A record the comparator puts before every record of the list is inserted at the front. |
| BoardPipeline.DescendingReversesAscending | src/components/FlightBoard.jsx:64-72 | Sorting a strictly ascending list in descending order gives exactly its reverse. |
| BoardPipeline.AscendingSortIsStrict | src/components/FlightBoard.jsx:64-72 | With every key defined and no two equal, the ascending sort is strictly ascending. |
| BoardPipeline.ReversedDirectionReverses | src/components/FlightBoard.jsx:64-72 | With every key defined and no two equal, sorting the ascending result again descending gives exactly its reverse. |
| BoardPipeline.AbsentKeyKeepsOrder | src/components/FlightBoard.jsx:64-72 | Sorting by a column no record has leaves the order unchanged. For example, origin on the departures table. |
| BoardPipeline.Displayed | src/components/FlightBoard.jsx:48-75 | The shown list is never longer than the flights. Its contents and order are stated by the lemmas below. |
| BoardPipeline.DisplayedContents | src/components/FlightBoard.jsx:48-75 | The shown list holds each record as often as the flights do when it matches the facets, and never otherwise. |
| BoardPipeline.DisplayedUnfilteredIsPermutation | src/components/FlightBoard.jsx:48-75 | Without filters, the shown list is a permutation of the flights. |
| BoardPipeline.DisplayedSorted | src/components/FlightBoard.jsx:48-75 | The shown list is in the configured order. |
| BoardPipeline.DisplayedStable | src/components/FlightBoard.jsx:48-75 | Among shown records with one key value, the order is their order in the flights. |
| BoardPipeline.SearchMatches | src/components/FlightBoard.jsx:84-86 | The search callback: the lowercased term occurs in the lowercased destination, flight number or airline. `SearchOutcome` and `SearchResultSpec` state its use. |
| BoardPipeline.SearchFlights | src/components/FlightBoard.jsx:83-87 | A result lists only flights that match the term. A throw names a flight without a destination. |
| BoardPipeline.SearchOutcome | src/components/FlightBoard.jsx:83-87 | The search throws exactly when some record has no destination. Otherwise it is the filter by the search predicate. |
| BoardPipeline.SearchResultSpec | src/components/FlightBoard.jsx:83-87 | A search result is a subsequence of the flights. Each record appears as often as in the flights when it matches, and never otherwise. |
| BoardPipeline.ArrivalsSearchThrows | src/components/FlightBoard.jsx:84 | Searching any fetched arrivals table throws, since arrivals have no destination. |
| BoardPipeline.GetFlightsKeyUniform | src/services/flightService.js:37-46 | Every column of every table the service returns is defined on all its records or on none, so the comparator is consistent on service data. |
| BoardPipeline.BlankTermIsWhiteSpace | src/components/FlightBoard.jsx:78 | The term is blank exactly when it is all white space. |
| BoardPipeline.Project | src/components/FlightBoard.jsx:119-121 | The projection lists each record's facet value, position by position. |
| BoardPipeline.FacetOptions | src/components/FlightBoard.jsx:119-121 | The options have no duplicates. A value is an option exactly when some record has it. |
| BoardPipeline.FacetOptionsOrder | src/components/FlightBoard.jsx:119-121 | The options are listed in the order each value first occurs. |
| FlightBoard.Apply | src/components/FlightBoard.jsx:12-112 | Each event changes only its own hooks. Only a load changes the flights, only a failure the error, only the toggle the view, only a header click the sort, only a filter change the filters, and only select/close the selection. |
| FlightBoard.Recomputed | src/components/FlightBoard.jsx:48-75 | The effect changes only the shown list. A record is shown exactly when it is loaded and matches the filters. |
| FlightBoard.OtherView | src/components/FlightBoard.jsx:93 | The toggle always yields one of the two views, and a different one from a known view. |
| FlightBoard.Search | src/components/FlightBoard.jsx:77-90 | A search changes only the shown list. It can throw only for a non-blank term. |
| FlightBoard.Render | src/components/FlightBoard.jsx:114-197 | The error screen shows exactly when there is an error. Otherwise the body is one of three things: loading while loading, "no flights" when loaded and empty, or exactly the shown list. The detail is the selected flight. |
| FlightBoard.DisplayedWithin | src/components/FlightBoard.jsx:48-75 | The shown list never holds a record more often than the flights. |
| FlightBoard.ApplyKeepsValid | src/components/FlightBoard.jsx:12-112 | Every event keeps the board invariant: a known view, and a shown list within the flights. |
| FlightBoard.SearchKeepsValid | src/components/FlightBoard.jsx:77-90 | A search that does not throw keeps the board invariant. |
| FlightBoard.ErrorIsFinal | src/components/FlightBoard.jsx:33-37 | Only a failed fetch sets the error, and nothing clears it. Once the error screen shows, every event and search leaves it showing. |
| FlightBoard.LoadShowsFilteredData | src/components/FlightBoard.jsx:30-37 | A successful load stores the data and clears loading. The shown list is the data under the current filters, in the configured order. |
| FlightBoard.LoadFailureKeepsFlights | src/components/FlightBoard.jsx:33-37 | A failed load keeps the previous flights, clears loading, and renders the error message. |
| FlightBoard.ApplyKeepsConsistent | src/components/FlightBoard.jsx:48-75 | After a load, a sort or a filter change, the shown list is what the effect computes. Every other event keeps that. |
| FlightBoard.BlankSearchShowsRawFlights | src/components/FlightBoard.jsx:78-80 | A blank search shows the raw flights, unfiltered and unsorted. |
| FlightBoard.SearchShowsMatches | src/components/FlightBoard.jsx:83-89 | A non-blank search changes only the shown list. The shown list is the matching flights in their loaded order. |
| FlightBoard.ArrivalsBoardSearchThrows | src/components/FlightBoard.jsx:84 | A non-blank search on a loaded arrivals table throws. |
| FlightBoard.ResetShowsAllFlights | src/components/FilterOptions.jsx:80-84 | After the reset, the filters are "all" and the shown list is a permutation of the flights. |
| FlightBoard.SortHeaderTwice | src/components/FlightBoard.jsx:96-101 | On a consistent board, clicking the current sort column twice gives back the same state. |
| FlightBoard.ToggleViewTwice | src/components/FlightBoard.jsx:92-94 | Toggling the view twice restores it. |
| FlightBoard.FetchedRowsHaveLocation | src/components/FlightBoard.jsx:30-32 | After loading the current view's table, every shown row has a value in the location column. |
| FlightBoard.StaleResponseIsApplied | src/components/FlightBoard.jsx:26-46 | A departures response arriving after a switch to arrivals is stored under the arrivals view, and its rows have no origin. |
| FlightBoard.SortInPlace | src/components/FlightBoard.jsx:64-72 | The in-place sort leaves the array equal to the specification sort of its old contents. |
| FlightBoard.InsertInPlace | src/components/FlightBoard.jsx:64-72 | One insertion pass turns the prefix into the specification insertion of the next record. The rest of the array is untouched. |
| FlightBoard.ShiftLarger | src/components/FlightBoard.jsx:64-72 | The records the comparator puts after the inserted one move one place right. The returned hole is just after the last record that stays. |
| FlightBoard.InsertAt | src/components/FlightBoard.jsx:64-72 | Insertion places the record after the last record the comparator does not put after it. |
| FlightBoard.Board.constructor | src/components/FlightBoard.jsx:12-23 | The new board holds the initial hook values. |
| FlightBoard.Board.Recompute | src/components/FlightBoard.jsx:48-75 | The filter/sort effect sets the shown list to the filtered, sorted flights. |
| FlightBoard.Board.StartLoad | src/components/FlightBoard.jsx:29 | A refresh raises the loading flag. |
| FlightBoard.Board.ReceiveFlights | src/components/FlightBoard.jsx:30-37 | A resolved fetch stores the data, clears loading and reruns the effect. |
| FlightBoard.Board.ReceiveFailure | src/components/FlightBoard.jsx:33-37 | A rejected fetch sets the error message and clears loading. |
| FlightBoard.Board.ToggleView | src/components/FlightBoard.jsx:92-94 | Switches the view and starts a fetch. |
| FlightBoard.Board.HandleSort | src/components/FlightBoard.jsx:96-101 | Updates the sort configuration and reruns the effect. |
| FlightBoard.Board.HandleFilterChange | src/components/FlightBoard.jsx:107-112 | Sets one facet and reruns the effect. |
| FlightBoard.Board.ResetFilters | src/components/FilterOptions.jsx:80-84 | The whole new state is the three filter changes to "all" applied in turn. So all filters are cleared, every other hook is kept, and the shown list is the flights in the current sort order. |
| FlightBoard.Board.HandleFlightSelect | src/components/FlightBoard.jsx:103-105 | Selects the clicked flight. |
| FlightBoard.Board.CloseDetails | src/components/FlightBoard.jsx:195 | Clears the selection. |
| FlightBoard.Board.HandleSearch | src/components/FlightBoard.jsx:77-90 | Follows `Search`. When the filter throws, the state is unchanged and the error is returned. |

## Left out

- Timing is not modelled. This covers the 800 ms service delay, the 60 s refresh interval and its cleanup, and the 300 ms debounce of the search box. Events are applied one at a time in any order, so interleavings with a late response are covered (`StaleResponseIsApplied`).
- Racing requests are not modelled as concurrency. The code has no guard against a stale response, and the model has none either.
- The search box's 300 ms effect is not modelled. `handleSearch` is a new function on every board render, and the effect depends on it (SearchBar.jsx:11-17). So the effect fires 300 ms after every render. With an empty search box, that call shows the raw flights (`BlankSearchShowsRawFlights`) and replaces the filtered, sorted list the filter/sort effect just stored. In the running program the effect's result is therefore visible only briefly after any load, filter change or header click. The model treats each search as a separate event and does not schedule these calls.
- The random draws become the `Draw` input. The failure branch of the service is commented out in the source, so a rejected fetch is an input event (`LoadFailed`).
- `console.error` is not modelled.
- The theme context, the header component, the detail modal's contents, row expansion and all markup and CSS are not modelled. Only the values the board passes to them are.
- `JsString.Lower`: lowercases ASCII letters only. JavaScript's Unicode case mapping is left out. The status classes and the seed data are ASCII.
- Strings are sequences of Dafny characters, not UTF-16 code units. Comparisons and `substring` indices differ only outside the Basic Multilingual Plane.
- `BoardPipeline.SortSorted`, `BoardPipeline.DisplayedSorted` and `BoardPipeline.SortIdempotent`: they require the sort key to be defined on all records or on none. With `undefined` every comparison is false, so a mix of defined and undefined keys gives an inconsistent comparator. For such input ECMA-262 leaves the order implementation-defined, and `SortFlights` is only one of the orders a browser may produce. Tables from the service never mix them (`GetFlightsKeyUniform`).
- The code keeps the previously loaded flights after a failed refresh (`LoadFailureKeepsFlights`).
- The code never clears the error, so the error screen is final (`ErrorIsFinal`).
- Search reads `destination` in both views, so any non-blank search of the arrivals board throws (`ArrivalsBoardSearchThrows`).
