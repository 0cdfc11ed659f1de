/**
 * The flight board component: its hook state, the events that change it, the
 * filter/sort effect, and what it renders. `BoardState` and `Apply` state each
 * event's effect on the whole state; `Board` is the same state as fields that
 * the handlers update in place, each handler proved to follow `Apply`.
 */
module FlightBoard {
  import opened Wrappers
  import opened JsString
  import opened Sequences
  import opened Flights
  import opened FlightService
  import opened FlightRow
  import opened BoardPipeline

  const Departures: string := "departures"
  const Arrivals: string := "arrivals"

  /** The message stored when a fetch fails. */
  const LoadErrorMessage: string := "Unable to load flight information. Please try again later."

  /** A snapshot of the eight state hooks. */
  datatype BoardState = BoardState(
    flights: seq<Flight>,
    filteredFlights: seq<Flight>,
    isLoading: bool,
    error: Option<string>,
    view: string,
    sortConfig: SortConfig,
    selectedFlight: Option<Flight>,
    filterOptions: FilterOptions)

  /** The hooks' initial values. */
  const Initial: BoardState :=
    BoardState([], [], true, None, Departures, InitialSort, None, NoFilters)

  /**
   * The board's invariant: the view is one of the two tables, and the shown
   * list never holds a record more often than the loaded list does.
   */
  ghost predicate BoardValid(st: BoardState)
  {
    (st.view == Departures || st.view == Arrivals)
    && multiset(st.filteredFlights) <= multiset(st.flights)
  }

  /** The shown list is what the filter/sort effect computes from the current state. */
  predicate Consistent(st: BoardState)
  {
    st.filteredFlights == Displayed(st.flights, st.filterOptions, st.sortConfig)
  }

  /** Everything that changes the board except a search. */
  datatype Event =
    | StartLoad                               // a refresh tick: the loading flag is raised before the await
    | LoadSucceeded(data: seq<Flight>)        // the awaited fetch resolved with `data`
    | LoadFailed                              // the awaited fetch rejected
    | ToggleView                              // the header's view switch
    | Sort(key: SortKey)                      // a click on a sortable column header
    | FilterChange(facet: Facet, value: string)
    | Select(flight: Flight)                  // a click on a row
    | Close                                   // the detail view's close action

  /** The filter/sort effect, run whenever `flights`, `filterOptions` or `sortConfig` change. */
  function Recomputed(st: BoardState): (r: BoardState)
    ensures r == st.(filteredFlights := r.filteredFlights)
    ensures forall f {:trigger f in r.filteredFlights} :: f in r.filteredFlights <==> f in st.flights && MatchesFacets(f, st.filterOptions)
  {
    DisplayedContents(st.flights, st.filterOptions, st.sortConfig);
    st.(filteredFlights := Displayed(st.flights, st.filterOptions, st.sortConfig))
  }

  function OtherView(view: string): (r: string)
    ensures r == Departures || r == Arrivals
    ensures r != view || view !in {Departures, Arrivals}
  {
    if view == Departures then Arrivals else Departures
  }

  /**
   * The state after one event, with the effects it triggers: a new `flights`,
   * `sortConfig` or `filterOptions` reruns the filter/sort effect, and a new
   * `view` starts a fetch.
   */
  function Apply(st: BoardState, ev: Event): (r: BoardState)
    ensures r.flights == st.flights || ev.LoadSucceeded?
    ensures r.error == st.error || ev.LoadFailed?
    ensures r.view == st.view || ev.ToggleView?
    ensures r.sortConfig == st.sortConfig || ev.Sort?
    ensures r.filterOptions == st.filterOptions || ev.FilterChange?
    ensures r.selectedFlight == st.selectedFlight || ev.Select? || ev.Close?
  {
    match ev
    case StartLoad => st.(isLoading := true)
    case LoadSucceeded(data) => Recomputed(st.(flights := data, filteredFlights := data, isLoading := false))
    case LoadFailed => st.(error := Some(LoadErrorMessage), isLoading := false)
    case ToggleView => st.(view := OtherView(st.view), isLoading := true)
    case Sort(key) => Recomputed(st.(sortConfig := NextSortConfig(st.sortConfig, key)))
    case FilterChange(facet, value) => Recomputed(st.(filterOptions := st.filterOptions.With(facet, value)))
    case Select(f) => st.(selectedFlight := Some(f))
    case Close => st.(selectedFlight := None)
  }

  /**
   * `handleSearch`: a blank term shows the raw flights; otherwise the search
   * result over the raw flights is shown, unless the search throws, in which
   * case nothing changes.
   */
  function Search(st: BoardState, term: string): (r: Result<BoardState, SearchError>)
    ensures r.Success? ==> r.value == st.(filteredFlights := r.value.filteredFlights)
    ensures r.Failure? ==> !AllWhiteSpace(term)
  {
    TrimEmptyIff(term);
    if Trim(term) == [] then Success(st.(filteredFlights := st.flights))
    else
      match SearchFlights(st.flights, term)
      case Success(found) => Success(st.(filteredFlights := found))
      case Failure(e) => Failure(e)
  }

  // ---------------------------------------------------------------------------
  // What the board renders.
  // ---------------------------------------------------------------------------

  datatype TableBody = Loading | NoFlights | Rows(rows: seq<Flight>)

  datatype Screen =
    | ErrorScreen(message: string)
    | BoardScreen(view: string, locationKey: SortKey, body: TableBody,
                  airlines: seq<string>, statuses: seq<string>, terminals: seq<string>,
                  detail: Option<Flight>)

  /** The rendered board: the error alone once there is one, else the table and its controls. */
  function Render(st: BoardState): (r: Screen)
    ensures r.ErrorScreen? <==> st.error.Some?
    ensures r.BoardScreen? ==>
      && (r.body == Loading <==> st.isLoading)
      && (r.body == NoFlights <==> !st.isLoading && st.filteredFlights == [])
      && (r.body.Rows? ==> r.body.rows == st.filteredFlights)
      && r.detail == st.selectedFlight
  {
    if st.error.Some? then ErrorScreen(st.error.value)
    else
      var body :=
        if st.isLoading then Loading
        else if st.filteredFlights == [] then NoFlights
        else Rows(st.filteredFlights);
      BoardScreen(st.view, LocationKey(st.view), body,
                  FacetOptions(st.flights, AirlineFacet), FacetOptions(st.flights, StatusFacet),
                  FacetOptions(st.flights, TerminalFacet), st.selectedFlight)
  }

  // ---------------------------------------------------------------------------
  // Properties of the events.
  // ---------------------------------------------------------------------------

  lemma DisplayedWithin(flights: seq<Flight>, opts: FilterOptions, c: SortConfig)
    ensures multiset(Displayed(flights, opts, c)) <= multiset(flights)
  {
    DisplayedContents(flights, opts, c);
  }

  /** Every event keeps the board's invariant. */
  lemma ApplyKeepsValid(st: BoardState, ev: Event)
    requires BoardValid(st)
    ensures BoardValid(Apply(st, ev))
  {
    match ev
    case LoadSucceeded(data) => DisplayedWithin(data, st.filterOptions, st.sortConfig);
    case Sort(key) => DisplayedWithin(st.flights, st.filterOptions, NextSortConfig(st.sortConfig, key));
    case FilterChange(facet, value) =>
      DisplayedWithin(st.flights, st.filterOptions.With(facet, value), st.sortConfig);
    case _ =>
  }

  /** A search keeps the board's invariant. */
  lemma SearchKeepsValid(st: BoardState, term: string)
    requires BoardValid(st)
    ensures Search(st, term).Success? ==> BoardValid(Search(st, term).value)
  {
    if Trim(term) != [] && SearchFlights(st.flights, term).Success? {
      SearchResultSpec(st.flights, term);
    }
  }

  /**
   * `error` is set only by a failed fetch and never cleared: once the error
   * screen shows, every later event and search still shows it.
   */
  lemma ErrorIsFinal(st: BoardState, ev: Event, term: string)
    ensures Apply(st, ev).error == if ev.LoadFailed? then Some(LoadErrorMessage) else st.error
    ensures Render(st).ErrorScreen? ==> Render(Apply(st, ev)).ErrorScreen?
    ensures Render(st).ErrorScreen? && Search(st, term).Success? ==>
      Render(Search(st, term).value) == Render(st)
  {
  }

  /**
   * A successful fetch stores the data, clears the loading flag and shows
   * exactly the records the facets allow, each as often as in the data.
   */
  lemma LoadShowsFilteredData(st: BoardState, data: seq<Flight>)
    ensures Apply(st, LoadSucceeded(data)).flights == data
    ensures !Apply(st, LoadSucceeded(data)).isLoading
    ensures forall x ::
      multiset(Apply(st, LoadSucceeded(data)).filteredFlights)[x] ==
      (if MatchesFacets(x, st.filterOptions) then multiset(data)[x] else 0)
    ensures KeyUniform(data, st.sortConfig.key) ==>
      SortedBy(Apply(st, LoadSucceeded(data)).filteredFlights, st.sortConfig)
  {
    DisplayedContents(data, st.filterOptions, st.sortConfig);
    if KeyUniform(data, st.sortConfig.key) {
      DisplayedSorted(data, st.filterOptions, st.sortConfig);
    }
  }

  /** A failed fetch keeps the loaded and the shown flights. */
  lemma LoadFailureKeepsFlights(st: BoardState)
    ensures Apply(st, LoadFailed).flights == st.flights
    ensures Apply(st, LoadFailed).filteredFlights == st.filteredFlights
    ensures !Apply(st, LoadFailed).isLoading && Render(Apply(st, LoadFailed)) == ErrorScreen(LoadErrorMessage)
  {
  }

  /**
   * The shown list is the effect's output after every event that reruns the
   * effect, and stays so under every other event.
   */
  lemma ApplyKeepsConsistent(st: BoardState, ev: Event)
    requires Consistent(st) || ev.LoadSucceeded? || ev.Sort? || ev.FilterChange?
    ensures Consistent(Apply(st, ev))
  {
  }

  /** A blank (empty or white-space) search shows the raw flights, unfiltered and unsorted. */
  lemma BlankSearchShowsRawFlights(st: BoardState, term: string)
    requires AllWhiteSpace(term)
    ensures Search(st, term) == Success(st.(filteredFlights := st.flights))
  {
    TrimEmptyIff(term);
  }

  /**
   * A non-blank search that does not throw shows an order-preserving sublist
   * of the raw flights: every copy of each matching record and nothing else,
   * whatever the facet filters are.
   */
  lemma SearchShowsMatches(st: BoardState, term: string)
    requires !AllWhiteSpace(term) && Search(st, term).Success?
    ensures Search(st, term).value == st.(filteredFlights := Search(st, term).value.filteredFlights)
    ensures IsSubsequence(Search(st, term).value.filteredFlights, st.flights)
    ensures forall x ::
      multiset(Search(st, term).value.filteredFlights)[x] ==
      (if SearchMatches(x, term) then multiset(st.flights)[x] else 0)
  {
    TrimEmptyIff(term);
    SearchResultSpec(st.flights, term);
  }

  /** On a board holding a fetched arrivals table, every non-blank search throws. */
  lemma ArrivalsBoardSearchThrows(st: BoardState, draws: seq<Draw>, term: string)
    requires |draws| == |ArrivalSeed| && st.flights == GetFlights(draws, Arrivals)
    requires !AllWhiteSpace(term)
    ensures Search(st, term).Failure?
  {
    TrimEmptyIff(term);
    ArrivalsSearchThrows(draws, term);
  }

  /** Resetting the three facets to "all" shows every loaded flight, each as often as loaded. */
  lemma ResetShowsAllFlights(st: BoardState)
    ensures
      var reset := Apply(Apply(Apply(st, FilterChange(AirlineFacet, All)), FilterChange(StatusFacet, All)),
                         FilterChange(TerminalFacet, All));
      reset.filterOptions == NoFilters && multiset(reset.filteredFlights) == multiset(st.flights)
  {
    ResetClearsAllFilters(st.filterOptions);
    DisplayedUnfilteredIsPermutation(st.flights, st.sortConfig);
  }

  /** Clicking the active column header twice gives back a consistent board unchanged. */
  lemma SortHeaderTwice(st: BoardState)
    requires Consistent(st)
    ensures Apply(Apply(st, Sort(st.sortConfig.key)), Sort(st.sortConfig.key)) == st
  {
    HeaderClickTwice(st.sortConfig);
  }

  /** Toggling the view twice gives back the view. */
  lemma ToggleViewTwice(st: BoardState)
    requires BoardValid(st)
    ensures Apply(Apply(st, ToggleView), ToggleView).view == st.view
  {
  }

  /**
   * After the current view's table is fetched, every shown row has the field
   * its location column displays.
   */
  lemma FetchedRowsHaveLocation(st: BoardState, draws: seq<Draw>)
    requires |draws| == |SeedTable(st.view)|
    ensures forall f :: f in Apply(st, LoadSucceeded(GetFlights(draws, st.view))).filteredFlights ==>
      Field(f, LocationKey(st.view)).Some?
  {
    var data := GetFlights(draws, st.view);
    DisplayedContents(data, st.filterOptions, st.sortConfig);
    forall f | f in Apply(st, LoadSucceeded(data)).filteredFlights
      ensures Field(f, LocationKey(st.view)).Some?
    {
      var i :| 0 <= i < |data| && data[i] == f;
      LocationShownForFetchedView(draws, st.view, i);
    }
  }

  /**
   * No stale-response guard: a departures table that resolves after the view
   * was switched to arrivals is stored and shown under the arrivals view.
   */
  lemma StaleResponseIsApplied(st: BoardState, draws: seq<Draw>)
    requires st.view == Departures && |draws| == |DepartureSeed|
    ensures
      var late := Apply(Apply(st, ToggleView), LoadSucceeded(GetFlights(draws, Departures)));
      late.view == Arrivals && late.flights == GetFlights(draws, Departures)
      && (forall i :: 0 <= i < |late.flights| ==> late.flights[i].origin.None?)
  {
    GetFlightsWellFormed(draws, Departures);
  }

  // ---------------------------------------------------------------------------
  // `result.sort(compare)`: in-place insertion sort of an array.
  // ---------------------------------------------------------------------------

  /** Sorts `a` in place into the stable order of the comparator. */
  method SortInPlace(a: array<Flight>, c: SortConfig)
    modifies a
    ensures a[..] == SortFlights(old(a[..]), c)
  {
    ghost var input := a[..];
    var i := 0;
    while i < a.Length
      invariant 0 <= i <= a.Length
      invariant a[..i] == SortFlights(input[..i], c)
      invariant a[i..] == input[i..]
    {
      assert input[..i + 1] == input[..i] + [input[i]];
      InsertInPlace(a, i, c);
      i := i + 1;
    }
    assert a[..] == a[..a.Length] && input == input[..a.Length];
  }

  /** Moves `a[i]` left into the sorted prefix `a[..i]`, shifting larger records right. */
  method InsertInPlace(a: array<Flight>, i: nat, c: SortConfig)
    requires i < a.Length
    modifies a
    ensures a[..i + 1] == Insert(old(a[..i]), old(a[i]), c)
    ensures a[i + 1..] == old(a[i + 1..])
  {
    ghost var sorted := a[..i];
    var x := a[i];
    var j := ShiftLarger(a, i, x, c);
    InsertAt(sorted, x, j, c);
    a[j] := x;
    Placed(a[..], old(a[..]), sorted, x, i, j);
  }

  /**
   * The shifting loop: the records at the end of `a[..i]` that the comparator
   * puts after `x` move one place right; returns the hole left where `x` belongs.
   */
  method ShiftLarger(a: array<Flight>, i: nat, x: Flight, c: SortConfig) returns (j: nat)
    requires i < a.Length
    modifies a
    ensures j <= i
    ensures forall k :: 0 <= k < j ==> a[k] == old(a[k])
    ensures forall k :: j < k <= i ==> a[k] == old(a[k - 1])
    ensures forall k :: i < k < a.Length ==> a[k] == old(a[k])
    ensures forall k :: j <= k < i ==> Compare(old(a[k]), x, c) > 0
    ensures j == 0 || Compare(old(a[j - 1]), x, c) <= 0
  {
    j := i;
    while j > 0 && Compare(a[j - 1], x, c) > 0
      invariant 0 <= j <= i
      invariant forall k :: 0 <= k < j ==> a[k] == old(a[k])
      invariant forall k :: j < k <= i ==> a[k] == old(a[k - 1])
      invariant forall k :: i < k < a.Length ==> a[k] == old(a[k])
      invariant forall k :: j <= k < i ==> Compare(old(a[k]), x, c) > 0
    {
      a[j] := a[j - 1];
      j := j - 1;
    }
  }

  /**
   * Insertion puts `x` after the last record the comparator does not put after
   * it, when every record from there on is put after it.
   */
  lemma {:induction false} InsertAt(sorted: seq<Flight>, x: Flight, j: nat, c: SortConfig)
    requires j <= |sorted|
    requires forall k {:trigger Compare(sorted[k], x, c)} :: j <= k < |sorted| ==> Compare(sorted[k], x, c) > 0
    requires j == 0 || Compare(sorted[j - 1], x, c) <= 0
    ensures Insert(sorted, x, c) == sorted[..j] + [x] + sorted[j..]
    decreases |sorted|
  {
    if j < |sorted| {
      var n := |sorted| - 1;
      var init := sorted[..n];
      assert forall k :: j <= k < |init| ==> init[k] == sorted[k];
      InsertAt(init, x, j, c);
      assert init[..j] == sorted[..j];
      assert sorted[j..] == init[j..] + [sorted[n]];
    } else {
      assert sorted[..j] == sorted;
    }
  }

  /** The array after the shifts, read as a sequence. */
  lemma Placed(b: seq<Flight>, before: seq<Flight>, sorted: seq<Flight>, x: Flight, i: nat, j: nat)
    requires j <= i < |b| == |before| && |sorted| == i
    requires forall k :: 0 <= k < j ==> b[k] == sorted[k]
    requires b[j] == x
    requires forall k :: j < k <= i ==> b[k] == sorted[k - 1]
    requires forall k :: i < k < |b| ==> b[k] == before[k]
    ensures b[..i + 1] == sorted[..j] + [x] + sorted[j..]
    ensures b[i + 1..] == before[i + 1..]
  {
  }

  // ---------------------------------------------------------------------------
  // The component as an object whose handlers update its hook state.
  // ---------------------------------------------------------------------------

  class Board {
    var flights: seq<Flight>
    var filteredFlights: seq<Flight>
    var isLoading: bool
    var error: Option<string>
    var view: string
    var sortConfig: SortConfig
    var selectedFlight: Option<Flight>
    var filterOptions: FilterOptions

    function State(): BoardState
      reads this
    {
      BoardState(flights, filteredFlights, isLoading, error, view, sortConfig, selectedFlight, filterOptions)
    }

    ghost predicate Valid()
      reads this
    {
      BoardValid(State())
    }

    constructor()
      ensures State() == Initial && Valid()
    {
      flights := [];
      filteredFlights := [];
      isLoading := true;
      error := None;
      view := Departures;
      sortConfig := InitialSort;
      selectedFlight := None;
      filterOptions := NoFilters;
    }

    /** The filter/sort effect: three conditional facet filters, then an in-place sort. */
    method Recompute()
      modifies this
      ensures State() == Recomputed(old(State()))
    {
      var result := flights;
      if filterOptions.airline != All {
        result := Filter(result, HasFacetValue(AirlineFacet, filterOptions.airline));
      }
      if filterOptions.status != All {
        result := Filter(result, HasFacetValue(StatusFacet, filterOptions.status));
      }
      if filterOptions.terminal != All {
        result := Filter(result, HasFacetValue(TerminalFacet, filterOptions.terminal));
      }
      FacetStepsAreFacetFilter(flights, filterOptions);
      var a := new Flight[|result|](i requires 0 <= i < |result| => result[i]);
      assert a[..] == result;
      SortInPlace(a, sortConfig);
      filteredFlights := a[..];
    }

    /** A refresh tick: the fetch starts. */
    method StartLoad()
      requires Valid()
      modifies this
      ensures State() == Apply(old(State()), Event.StartLoad) && Valid()
    {
      isLoading := true;
    }

    /** The fetch resolved: store the data, clear the flag, then the effect reruns. */
    method ReceiveFlights(data: seq<Flight>)
      requires Valid()
      modifies this
      ensures State() == Apply(old(State()), LoadSucceeded(data)) && Valid()
    {
      ApplyKeepsValid(State(), LoadSucceeded(data));
      flights := data;
      filteredFlights := data;
      isLoading := false;
      Recompute();
    }

    /** The fetch rejected: store the fixed message and clear the flag. */
    method ReceiveFailure()
      requires Valid()
      modifies this
      ensures State() == Apply(old(State()), LoadFailed) && Valid()
    {
      error := Some(LoadErrorMessage);
      isLoading := false;
    }

    /** Switch view; the load effect then starts a fetch for it. */
    method ToggleView()
      requires Valid()
      modifies this
      ensures State() == Apply(old(State()), Event.ToggleView) && Valid()
    {
      view := OtherView(view);
      isLoading := true;
    }

    method HandleSort(key: SortKey)
      requires Valid()
      modifies this
      ensures State() == Apply(old(State()), Sort(key)) && Valid()
    {
      ApplyKeepsValid(State(), Sort(key));
      sortConfig := NextSortConfig(sortConfig, key);
      Recompute();
    }

    method HandleFilterChange(facet: Facet, value: string)
      requires Valid()
      modifies this
      ensures State() == Apply(old(State()), FilterChange(facet, value)) && Valid()
    {
      ApplyKeepsValid(State(), FilterChange(facet, value));
      filterOptions := filterOptions.With(facet, value);
      Recompute();
    }

    /** The reset button of the filter controls: each facet set back to "all" in turn. */
    method ResetFilters()
      requires Valid()
      modifies this
      ensures State() == Apply(Apply(Apply(old(State()), FilterChange(AirlineFacet, All)),
                                     FilterChange(StatusFacet, All)),
                               FilterChange(TerminalFacet, All))
      ensures filterOptions == NoFilters && multiset(filteredFlights) == multiset(flights)
      ensures flights == old(flights) && error == old(error) && view == old(view) && Valid()
    {
      ResetShowsAllFlights(State());
      HandleFilterChange(AirlineFacet, All);
      HandleFilterChange(StatusFacet, All);
      HandleFilterChange(TerminalFacet, All);
    }

    method HandleFlightSelect(f: Flight)
      requires Valid()
      modifies this
      ensures State() == Apply(old(State()), Select(f)) && Valid()
    {
      selectedFlight := Some(f);
    }

    method CloseDetails()
      requires Valid()
      modifies this
      ensures State() == Apply(old(State()), Close) && Valid()
    {
      selectedFlight := None;
    }

    /**
     * `handleSearch`; `thrown` is the TypeError the filter raises on a record
     * without a destination, in which case the state is unchanged.
     */
    method HandleSearch(term: string) returns (thrown: Option<SearchError>)
      requires Valid()
      modifies this
      ensures Search(old(State()), term).Success? ==>
        thrown == None && State() == Search(old(State()), term).value
      ensures Search(old(State()), term).Failure? ==>
        thrown == Some(Search(old(State()), term).error) && State() == old(State())
      ensures Valid()
    {
      SearchKeepsValid(State(), term);
      if Trim(term) == [] {
        filteredFlights := flights;
        return None;
      }
      var outcome := SearchFlights(flights, term);
      match outcome {
        case Success(found) =>
          filteredFlights := found;
          thrown := None;
        case Failure(e) =>
          thrown := Some(e);
      }
    }
  }
}
