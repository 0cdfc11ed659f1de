/**
 * The value-level parts of the flight board: the facet filter, the sort
 * comparator and the order a stable sort must produce with it, the search,
 * the distinct option lists, and the two state updaters (sort header click
 * and filter change).
 */
module BoardPipeline {
  import opened Wrappers
  import opened JsString
  import opened Sequences
  import opened Flights
  import opened FlightService

  // ---------------------------------------------------------------------------
  // Facet filter state.
  // ---------------------------------------------------------------------------

  /** The facet value meaning "no restriction". */
  const All: string := "all"

  datatype Facet = AirlineFacet | StatusFacet | TerminalFacet

  /** The selected value of each facet: "all" or a value to match exactly. */
  datatype FilterOptions = FilterOptions(airline: string, status: string, terminal: string)
  {
    function Get(facet: Facet): string
    {
      match facet
      case AirlineFacet => airline
      case StatusFacet => status
      case TerminalFacet => terminal
    }

    /** The filter-change updater: the named facet takes the new value, the others keep theirs. */
    function With(facet: Facet, value: string): (r: FilterOptions)
      ensures r.Get(facet) == value
      ensures forall g :: g != facet ==> r.Get(g) == Get(g)
    {
      match facet
      case AirlineFacet => this.(airline := value)
      case StatusFacet => this.(status := value)
      case TerminalFacet => this.(terminal := value)
    }
  }

  const NoFilters: FilterOptions := FilterOptions(All, All, All)

  /** Setting the three facets to "all" in turn, as the reset button does, clears every filter. */
  lemma ResetClearsAllFilters(opts: FilterOptions)
    ensures opts.With(AirlineFacet, All).With(StatusFacet, All).With(TerminalFacet, All) == NoFilters
  {
    var r := opts.With(AirlineFacet, All).With(StatusFacet, All).With(TerminalFacet, All);
    assert r.Get(AirlineFacet) == All && r.Get(StatusFacet) == All && r.Get(TerminalFacet) == All;
  }

  function FacetValue(f: Flight, facet: Facet): string
  {
    match facet
    case AirlineFacet => f.airline
    case StatusFacet => f.status
    case TerminalFacet => f.terminal
  }

  /** One facet lets a record through: it is "all", or the record's field equals it exactly. */
  predicate FacetAllows(f: Flight, opts: FilterOptions, facet: Facet)
  {
    opts.Get(facet) == All || FacetValue(f, facet) == opts.Get(facet)
  }

  /** The three facets combine with AND. */
  predicate MatchesFacets(f: Flight, opts: FilterOptions)
  {
    FacetAllows(f, opts, AirlineFacet) && FacetAllows(f, opts, StatusFacet)
    && FacetAllows(f, opts, TerminalFacet)
  }

  function Allows(opts: FilterOptions, facet: Facet): Flight -> bool
  {
    f => FacetAllows(f, opts, facet)
  }

  function Matches(opts: FilterOptions): Flight -> bool
  {
    f => MatchesFacets(f, opts)
  }

  function HasFacetValue(facet: Facet, value: string): Flight -> bool
  {
    f => FacetValue(f, facet) == value
  }

  /** One conditional step of the effect: unless the facet is "all", keep the records whose field equals it. */
  function FacetStep(flights: seq<Flight>, facet: Facet, value: string): (r: seq<Flight>)
    ensures forall f {:trigger f in r} :: f in r <==> f in flights && (value == All || FacetValue(f, facet) == value)
  {
    if value == All then flights else Filter(flights, HasFacetValue(facet, value))
  }

  /** The facet filter as specified: the records all three facets allow, in order. */
  function FacetFilter(flights: seq<Flight>, opts: FilterOptions): (r: seq<Flight>)
    ensures forall f {:trigger f in r} :: f in r <==> f in flights && MatchesFacets(f, opts)
  {
    Filter(flights, Matches(opts))
  }

  /** One conditional filter step keeps exactly the records that facet allows. */
  lemma FacetStepIsFilter(flights: seq<Flight>, opts: FilterOptions, facet: Facet)
    ensures FacetStep(flights, facet, opts.Get(facet)) == Filter(flights, Allows(opts, facet))
  {
    if opts.Get(facet) == All {
      FilterAll(flights, Allows(opts, facet));
    } else {
      FilterCongruent(flights, HasFacetValue(facet, opts.Get(facet)), Allows(opts, facet));
    }
  }

  /** The three steps of the effect, airline then status then terminal, are the facet filter. */
  lemma FacetStepsAreFacetFilter(flights: seq<Flight>, opts: FilterOptions)
    ensures FacetStep(FacetStep(FacetStep(flights, AirlineFacet, opts.airline),
                                StatusFacet, opts.status),
                      TerminalFacet, opts.terminal)
            == FacetFilter(flights, opts)
  {
    var a, s, t := Allows(opts, AirlineFacet), Allows(opts, StatusFacet), Allows(opts, TerminalFacet);
    var airlineStatus: Flight -> bool := f => FacetAllows(f, opts, AirlineFacet) && FacetAllows(f, opts, StatusFacet);
    FacetStepIsFilter(flights, opts, AirlineFacet);
    var r1 := Filter(flights, a);
    FacetStepIsFilter(r1, opts, StatusFacet);
    FilterFilter(flights, a, s, airlineStatus);
    var r2 := Filter(flights, airlineStatus);
    FacetStepIsFilter(r2, opts, TerminalFacet);
    FilterFilter(flights, airlineStatus, t, Matches(opts));
  }

  /** The facet filter keeps every copy of a matching record and nothing else, in input order. */
  lemma FacetFilterSpec(flights: seq<Flight>, opts: FilterOptions)
    ensures IsSubsequence(FacetFilter(flights, opts), flights)
    ensures forall x ::
      multiset(FacetFilter(flights, opts))[x] ==
      (if MatchesFacets(x, opts) then multiset(flights)[x] else 0)
  {
    FilterIsSubsequence(flights, Matches(opts));
    forall x ensures multiset(FacetFilter(flights, opts))[x] ==
      if MatchesFacets(x, opts) then multiset(flights)[x] else 0
    {
      FilterCount(flights, Matches(opts), x);
    }
  }

  /** With every facet "all" the facet filter returns its input. */
  lemma NoFiltersKeepsAll(flights: seq<Flight>)
    ensures FacetFilter(flights, NoFilters) == flights
  {
    FilterAll(flights, Matches(NoFilters));
  }

  // ---------------------------------------------------------------------------
  // Sorting.
  // ---------------------------------------------------------------------------

  datatype Direction = Asc | Desc

  datatype SortConfig = SortConfig(key: SortKey, direction: Direction)

  const InitialSort: SortConfig := SortConfig(Time, Asc)

  /**
   * The sort-header updater: the clicked key becomes the sort key, descending
   * only when it was already the key and ascending, ascending otherwise.
   */
  function NextSortConfig(prev: SortConfig, key: SortKey): (r: SortConfig)
    ensures r.key == key
    ensures r.direction == Desc <==> prev.key == key && prev.direction == Asc
  {
    SortConfig(key, if prev.key == key && prev.direction == Asc then Desc else Asc)
  }

  /** Clicking the active header flips the direction; clicking another header starts ascending. */
  lemma HeaderClickToggles(prev: SortConfig, key: SortKey)
    ensures prev.key == key ==> NextSortConfig(prev, key).direction != prev.direction
    ensures prev.key != key ==> NextSortConfig(prev, key).direction == Asc
  {
  }

  /** Clicking the active header twice restores the sort configuration. */
  lemma HeaderClickTwice(prev: SortConfig)
    ensures NextSortConfig(NextSortConfig(prev, prev.key), prev.key) == prev
  {
  }

  /** JavaScript `<` on two field values; `undefined` compares false against anything. */
  predicate KeyLess(a: Option<string>, b: Option<string>)
  {
    a.Some? && b.Some? && Less(a.value, b.value)
  }

  /** The comparator passed to `result.sort`. */
  function Compare(a: Flight, b: Flight, c: SortConfig): (r: int)
    ensures r == -1 || r == 0 || r == 1
    ensures r == 0 <==> !KeyLess(Field(a, c.key), Field(b, c.key)) && !KeyLess(Field(b, c.key), Field(a, c.key))
  {
    var x, y := Field(a, c.key), Field(b, c.key);
    if KeyLess(x, y) then (if c.direction == Asc then -1 else 1)
    else if KeyLess(y, x) then (if c.direction == Asc then 1 else -1)
    else 0
  }

  /** `a` may stand before `b`: non-decreasing keys for Asc, non-increasing for Desc. */
  predicate InOrder(a: Flight, b: Flight, c: SortConfig)
  {
    var x, y := Field(a, c.key), Field(b, c.key);
    if c.direction == Asc then !KeyLess(y, x) else !KeyLess(x, y)
  }

  predicate SortedBy(s: seq<Flight>, c: SortConfig)
  {
    forall i, j :: 0 <= i < j < |s| ==> InOrder(s[i], s[j], c)
  }

  /** Either every record has the sort field or none has: the comparator is then consistent. */
  predicate KeyUniform(s: seq<Flight>, key: SortKey)
  {
    (forall f :: f in s ==> Field(f, key).Some?) || (forall f :: f in s ==> Field(f, key).None?)
  }

  /** The comparator is antisymmetric, and it returns 0 exactly for equal or absent keys. */
  lemma CompareSpec(a: Flight, b: Flight, c: SortConfig)
    ensures Compare(a, b, c) == -Compare(b, a, c)
    ensures Compare(a, b, c) <= 0 <==> InOrder(a, b, c)
    ensures Compare(a, b, c) == 0 <==> !KeyLess(Field(a, c.key), Field(b, c.key)) && !KeyLess(Field(b, c.key), Field(a, c.key))
  {
    var x, y := Field(a, c.key), Field(b, c.key);
    if KeyLess(x, y) {
      LessAsymmetric(x.value, y.value);
    }
  }

  /** Two present keys that are not ordered either way are equal. */
  lemma TiedKeysEqual(x: Option<string>, y: Option<string>)
    requires x.Some? && y.Some? && !KeyLess(x, y) && !KeyLess(y, x)
    ensures x == y
  {
    LessTrichotomy(x.value, y.value);
  }

  lemma InOrderTransitive(a: Flight, b: Flight, d: Flight, c: SortConfig)
    requires KeyUniform([a, b, d], c.key)
    requires InOrder(a, b, c) && InOrder(b, d, c)
    ensures InOrder(a, d, c)
  {
    assert a in [a, b, d] && b in [a, b, d] && d in [a, b, d];
    var x, y, z := Field(a, c.key), Field(b, c.key), Field(d, c.key);
    if x.Some? {
      if c.direction == Asc {
        NotLessTransitive(x.value, y.value, z.value);
      } else {
        NotLessTransitive(z.value, y.value, x.value);
      }
    }
  }

  /** "Not below" on strings is transitive: `!(b < a)` and `!(c < b)` give `!(c < a)`. */
  lemma NotLessTransitive(a: string, b: string, c: string)
    requires !Less(b, a) && !Less(c, b)
    ensures !Less(c, a)
  {
    LessTrichotomy(a, b);
    LessTrichotomy(b, c);
    if Less(c, a) && a != b && b != c {
      LessTransitive(a, b, c);
      LessAsymmetric(a, c);
    }
  }

  /**
   * One insertion step: `x` moves left past every record the comparator puts
   * strictly after it, and stops behind the first one it does not.
   */
  function Insert(sorted: seq<Flight>, x: Flight, c: SortConfig): (r: seq<Flight>)
    ensures |r| == |sorted| + 1
  {
    if sorted == [] then [x]
    else if Compare(sorted[|sorted| - 1], x, c) > 0 then
      Insert(sorted[..|sorted| - 1], x, c) + [sorted[|sorted| - 1]]
    else sorted + [x]
  }

  /**
   * The order `Array.prototype.sort` must produce with the comparator: it is
   * stable (section 23.1.3.30 of ECMA-262), and for a consistent comparator
   * the stable order is unique, so insertion sort gives it.
   */
  function SortFlights(s: seq<Flight>, c: SortConfig): (r: seq<Flight>)
    ensures |r| == |s|
  {
    if s == [] then [] else Insert(SortFlights(s[..|s| - 1], c), s[|s| - 1], c)
  }

  lemma {:induction false} InsertPermutation(sorted: seq<Flight>, x: Flight, c: SortConfig)
    ensures multiset(Insert(sorted, x, c)) == multiset(sorted) + multiset{x}
    decreases |sorted|
  {
    if sorted != [] {
      var n := |sorted| - 1;
      InsertPermutation(sorted[..n], x, c);
      assert sorted == sorted[..n] + [sorted[n]];
    }
  }

  /** Sorting rearranges the records and neither adds nor drops any. */
  lemma {:induction false} SortPermutation(s: seq<Flight>, c: SortConfig)
    ensures multiset(SortFlights(s, c)) == multiset(s)
    decreases |s|
  {
    if s != [] {
      var n := |s| - 1;
      SortPermutation(s[..n], c);
      InsertPermutation(SortFlights(s[..n], c), s[n], c);
      assert s == s[..n] + [s[n]];
    }
  }

  lemma {:induction false} InsertSorted(sorted: seq<Flight>, x: Flight, c: SortConfig)
    requires SortedBy(sorted, c) && KeyUniform(sorted + [x], c.key)
    ensures SortedBy(Insert(sorted, x, c), c)
    decreases |sorted|
  {
    if sorted != [] {
      var n := |sorted| - 1;
      var init := sorted[..n];
      if Compare(sorted[n], x, c) > 0 {
        assert KeyUniform(init + [x], c.key) by {
          assert forall f :: f in init + [x] ==> f in sorted + [x];
        }
        InsertSorted(init, x, c);
        MovedPastLast(init, sorted[n], x, c);
        assert sorted == init + [sorted[n]];
      } else {
        StaysAfterLast(sorted, x, c);
      }
    }
  }

  /** The record that `x` moved past still comes after the sorted result. */
  lemma MovedPastLast(init: seq<Flight>, last: Flight, x: Flight, c: SortConfig)
    requires SortedBy(init + [last], c) && SortedBy(Insert(init, x, c), c)
    requires Compare(last, x, c) > 0
    ensures SortedBy(Insert(init, x, c) + [last], c)
  {
    var ins := Insert(init, x, c);
    InsertPermutation(init, x, c);
    CompareSpec(x, last, c);
    forall i | 0 <= i < |ins| ensures InOrder(ins[i], last, c) {
      assert ins[i] in multiset(ins);
      if ins[i] != x {
        assert ins[i] in init;
        var k :| 0 <= k < |init| && init[k] == ins[i];
        assert (init + [last])[k] == init[k] && (init + [last])[|init|] == last;
      }
    }
  }

  /** A record the comparator does not put before the last one may follow the whole sorted list. */
  lemma StaysAfterLast(sorted: seq<Flight>, x: Flight, c: SortConfig)
    requires sorted != [] && SortedBy(sorted, c) && KeyUniform(sorted + [x], c.key)
    requires Compare(sorted[|sorted| - 1], x, c) <= 0
    ensures SortedBy(sorted + [x], c)
  {
    var n := |sorted| - 1;
    var last := sorted[n];
    CompareSpec(last, x, c);
    forall i | 0 <= i < n ensures InOrder(sorted[i], x, c) {
      assert KeyUniform([sorted[i], last, x], c.key) by {
        assert sorted[i] in sorted + [x] && last in sorted + [x] && x in sorted + [x];
      }
      InOrderTransitive(sorted[i], last, x, c);
    }
  }

  /** With a consistent comparator the result is ordered by the key in the chosen direction. */
  lemma {:induction false} SortSorted(s: seq<Flight>, c: SortConfig)
    requires KeyUniform(s, c.key)
    ensures SortedBy(SortFlights(s, c), c)
    decreases |s|
  {
    if s != [] {
      var n := |s| - 1;
      assert forall f :: f in s[..n] ==> f in s;
      SortSorted(s[..n], c);
      var sorted := SortFlights(s[..n], c);
      SortPermutation(s[..n], c);
      assert forall f :: f in sorted + [s[n]] ==> f in s by {
        forall f | f in sorted + [s[n]] ensures f in s {
          if f != s[n] {
            assert f in multiset(sorted);
          }
        }
      }
      InsertSorted(sorted, s[n], c);
    }
  }

  function HasKeyValue(key: SortKey, v: Option<string>): Flight -> bool
  {
    f => Field(f, key) == v
  }

  /** Insertion only moves `x` past records with a different key value. */
  lemma {:induction false} InsertStable(sorted: seq<Flight>, x: Flight, c: SortConfig, v: Option<string>)
    ensures Filter(Insert(sorted, x, c), HasKeyValue(c.key, v))
            == Filter(sorted, HasKeyValue(c.key, v)) + Filter([x], HasKeyValue(c.key, v))
    decreases |sorted|
  {
    var h := HasKeyValue(c.key, v);
    if sorted == [] {
      assert Filter([x], h) == Filter([], h) + Filter([x], h);
    } else {
      var n := |sorted| - 1;
      var last := sorted[n];
      if Compare(last, x, c) > 0 {
        InsertStable(sorted[..n], x, c, v);
        InsertStableStep(sorted[..n], last, x, c, v);
        assert sorted == sorted[..n] + [last];
      } else {
        FilterAppend(sorted, [x], h);
      }
    }
  }

  lemma InsertStableStep(init: seq<Flight>, last: Flight, x: Flight, c: SortConfig, v: Option<string>)
    requires Compare(last, x, c) > 0
    requires Filter(Insert(init, x, c), HasKeyValue(c.key, v))
             == Filter(init, HasKeyValue(c.key, v)) + Filter([x], HasKeyValue(c.key, v))
    ensures Filter(Insert(init + [last], x, c), HasKeyValue(c.key, v))
            == Filter(init + [last], HasKeyValue(c.key, v)) + Filter([x], HasKeyValue(c.key, v))
  {
    assert (init + [last])[..|init|] == init;
    assert Insert(init + [last], x, c) == Insert(init, x, c) + [last];
    ComparedKeysDiffer(last, x, c);
    FilterPastSingleton(Insert(init, x, c), init, last, x, HasKeyValue(c.key, v));
  }

  /** Records the comparator does not tie have different sort-key values. */
  lemma ComparedKeysDiffer(a: Flight, b: Flight, c: SortConfig)
    requires Compare(a, b, c) != 0
    ensures Field(a, c.key) != Field(b, c.key)
  {
    var k := Field(a, c.key);
    if k == Field(b, c.key) && k.Some? {
      LessIrreflexive(k.value);
    }
  }

  /** Ties keep their input order: the records with one key value appear as in the input. */
  lemma {:induction false} SortStable(s: seq<Flight>, c: SortConfig, v: Option<string>)
    ensures Filter(SortFlights(s, c), HasKeyValue(c.key, v)) == Filter(s, HasKeyValue(c.key, v))
    decreases |s|
  {
    if s != [] {
      var n := |s| - 1;
      SortStable(s[..n], c, v);
      InsertStable(SortFlights(s[..n], c), s[n], c, v);
      assert s == s[..n] + [s[n]];
      FilterAppend(s[..n], [s[n]], HasKeyValue(c.key, v));
    }
  }

  /** A sequence already in order is left as it is. */
  lemma {:induction false} SortedUnchanged(s: seq<Flight>, c: SortConfig)
    requires SortedBy(s, c)
    ensures SortFlights(s, c) == s
    decreases |s|
  {
    if s != [] {
      var n := |s| - 1;
      SortedUnchanged(s[..n], c);
      assert s == s[..n] + [s[n]];
      if n > 0 {
        CompareSpec(s[n - 1], s[n], c);
      }
    }
  }

  /** Sorting twice with the same configuration is sorting once. */
  lemma SortIdempotent(s: seq<Flight>, c: SortConfig)
    requires KeyUniform(s, c.key)
    ensures SortFlights(SortFlights(s, c), c) == SortFlights(s, c)
  {
    SortSorted(s, c);
    SortedUnchanged(SortFlights(s, c), c);
  }

  /** Every record has the sort field, and no two records share its value. */
  predicate DistinctKeys(s: seq<Flight>, key: SortKey)
  {
    && (forall i :: 0 <= i < |s| ==> Field(s[i], key).Some?)
    && (forall i, j :: 0 <= i < j < |s| ==> Field(s[i], key) != Field(s[j], key))
  }

  /** Every key strictly increases along `t`. */
  predicate StrictlyAscending(t: seq<Flight>, key: SortKey)
  {
    && (forall i :: 0 <= i < |t| ==> Field(t[i], key).Some?)
    && (forall i, j :: 0 <= i < j < |t| ==> Less(Field(t[i], key).value, Field(t[j], key).value))
  }

  /** A record the comparator puts before every record of the list is inserted at the front. */
  lemma {:induction false} InsertBeforeAll(sorted: seq<Flight>, x: Flight, c: SortConfig)
    requires forall k :: 0 <= k < |sorted| ==> Compare(sorted[k], x, c) > 0
    ensures Insert(sorted, x, c) == [x] + sorted
    decreases |sorted|
  {
    if sorted != [] {
      var n := |sorted| - 1;
      InsertBeforeAll(sorted[..n], x, c);
      assert sorted == sorted[..n] + [sorted[n]];
    }
  }

  /** Sorting a strictly ascending list in descending order reverses it. */
  lemma {:induction false} DescendingReversesAscending(t: seq<Flight>, key: SortKey)
    requires StrictlyAscending(t, key)
    ensures SortFlights(t, SortConfig(key, Desc)) == Rev(t)
    decreases |t|
  {
    if t != [] {
      var c := SortConfig(key, Desc);
      var n := |t| - 1;
      DescendingReversesAscending(t[..n], key);
      var r := Rev(t[..n]);
      forall k | 0 <= k < |r| ensures Compare(r[k], t[n], c) > 0 {
        assert r[k] == t[n - 1 - k];
      }
      InsertBeforeAll(r, t[n], c);
    }
  }

  /** A list with distinct keys holds each record at most once. */
  lemma {:induction false} DistinctKeysOnce(s: seq<Flight>, key: SortKey, x: Flight)
    requires DistinctKeys(s, key)
    ensures multiset(s)[x] <= 1
    decreases |s|
  {
    if s != [] {
      var n := |s| - 1;
      DistinctKeysOnce(s[..n], key, x);
      assert s == s[..n] + [s[n]];
      if s[n] == x {
        assert x !in s[..n];
      }
    }
  }

  /** Sorting a list with distinct keys ascending gives a strictly ascending list. */
  lemma AscendingSortIsStrict(s: seq<Flight>, key: SortKey)
    requires DistinctKeys(s, key)
    ensures StrictlyAscending(SortFlights(s, SortConfig(key, Asc)), key)
  {
    var c := SortConfig(key, Asc);
    var t := SortFlights(s, c);
    assert KeyUniform(s, key);
    SortSorted(s, c);
    SortPermutation(s, c);
    forall i | 0 <= i < |t| ensures t[i] in s && Field(t[i], key).Some? {
      assert t[i] in multiset(t);
    }
    forall i, j | 0 <= i < j < |t| ensures Less(Field(t[i], key).value, Field(t[j], key).value) {
      assert t[i] in multiset(t) && t[j] in multiset(t);
      var p :| 0 <= p < |s| && s[p] == t[i];
      var q :| 0 <= q < |s| && s[q] == t[j];
      if Field(t[i], key) == Field(t[j], key) {
        assert p == q;
        RepeatedTwice(t, i, j);
        DistinctKeysOnce(s, key, t[i]);
        assert false;
      }
      assert InOrder(t[i], t[j], c);
      LessTrichotomy(Field(t[i], key).value, Field(t[j], key).value);
    }
  }

  /**
   * With distinct keys, sorting the ascending order again in descending
   * order gives exactly its reverse.
   */
  lemma ReversedDirectionReverses(s: seq<Flight>, key: SortKey)
    requires DistinctKeys(s, key)
    ensures SortFlights(SortFlights(s, SortConfig(key, Asc)), SortConfig(key, Desc))
            == Rev(SortFlights(s, SortConfig(key, Asc)))
  {
    AscendingSortIsStrict(s, key);
    DescendingReversesAscending(SortFlights(s, SortConfig(key, Asc)), key);
  }

  /** Sorting by a field no record has (every comparison is 0) keeps the input order. */
  lemma AbsentKeyKeepsOrder(s: seq<Flight>, c: SortConfig)
    requires forall f :: f in s ==> Field(f, c.key).None?
    ensures SortFlights(s, c) == s
  {
    assert SortedBy(s, c) by {
      forall i, j | 0 <= i < j < |s| ensures InOrder(s[i], s[j], c) {
        assert s[i] in s;
      }
    }
    SortedUnchanged(s, c);
  }

  // ---------------------------------------------------------------------------
  // The recomputed list: facet filter, then sort.
  // ---------------------------------------------------------------------------

  /** What the filter/sort effect stores in `filteredFlights`. */
  function Displayed(flights: seq<Flight>, opts: FilterOptions, c: SortConfig): (r: seq<Flight>)
    ensures |r| <= |flights|
  {
    SortFlights(FacetFilter(flights, opts), c)
  }

  /** The recomputed list holds every copy of each matching flight and nothing else. */
  lemma DisplayedContents(flights: seq<Flight>, opts: FilterOptions, c: SortConfig)
    ensures forall x ::
      multiset(Displayed(flights, opts, c))[x] ==
      (if MatchesFacets(x, opts) then multiset(flights)[x] else 0)
    ensures forall x :: x in Displayed(flights, opts, c) <==> x in flights && MatchesFacets(x, opts)
  {
    FacetFilterSpec(flights, opts);
    SortPermutation(FacetFilter(flights, opts), c);
    forall x ensures x in Displayed(flights, opts, c) <==> x in flights && MatchesFacets(x, opts) {
      assert x in Displayed(flights, opts, c) <==> x in multiset(Displayed(flights, opts, c));
    }
  }

  /** With every facet "all" the recomputed list is a permutation of the flights. */
  lemma DisplayedUnfilteredIsPermutation(flights: seq<Flight>, c: SortConfig)
    ensures multiset(Displayed(flights, NoFilters, c)) == multiset(flights)
  {
    NoFiltersKeepsAll(flights);
    SortPermutation(flights, c);
  }

  /** The recomputed list is ordered by the sort key when the flights all have it. */
  lemma DisplayedSorted(flights: seq<Flight>, opts: FilterOptions, c: SortConfig)
    requires KeyUniform(flights, c.key)
    ensures SortedBy(Displayed(flights, opts, c), c)
  {
    var filtered := FacetFilter(flights, opts);
    assert KeyUniform(filtered, c.key);
    SortSorted(filtered, c);
  }

  /** Among flights with the same sort-key value, the recomputed list keeps the flights' order. */
  lemma DisplayedStable(flights: seq<Flight>, opts: FilterOptions, c: SortConfig, v: Option<string>)
    ensures Filter(Displayed(flights, opts, c), HasKeyValue(c.key, v))
            == Filter(flights, f => MatchesFacets(f, opts) && Field(f, c.key) == v)
  {
    SortStable(FacetFilter(flights, opts), c, v);
    FilterFilter(flights, Matches(opts), HasKeyValue(c.key, v),
                 f => MatchesFacets(f, opts) && Field(f, c.key) == v);
  }

  // ---------------------------------------------------------------------------
  // Search.
  // ---------------------------------------------------------------------------

  /** The TypeError raised by lowercasing the destination of a record that has none. */
  datatype SearchError = DestinationUndefined(id: int)

  /**
   * The filter predicate of `handleSearch`: the lowercased term is a substring
   * of the lowercased destination, flight number or airline.
   */
  predicate SearchMatches(f: Flight, term: string)
  {
    var t := Lower(term);
    (f.destination.Some? && Includes(Lower(f.destination.value), t))
    || Includes(Lower(f.flightNumber), t)
    || Includes(Lower(f.airline), t)
  }

  function Searcher(term: string): Flight -> bool
  {
    f => SearchMatches(f, term)
  }

  /**
   * `flights.filter(...)` with the search predicate, evaluated record by record:
   * the first record without a destination throws.
   */
  function SearchFlights(flights: seq<Flight>, term: string): (r: Result<seq<Flight>, SearchError>)
    ensures r.Success? ==> |r.value| <= |flights| && forall f :: f in r.value ==> f in flights && SearchMatches(f, term)
    ensures r.Failure? ==> exists i :: 0 <= i < |flights| && flights[i].destination.None? && flights[i].id == r.error.id
  {
    if flights == [] then Success([])
    else if flights[0].destination.None? then Failure(DestinationUndefined(flights[0].id))
    else
      match SearchFlights(flights[1..], term)
      case Failure(e) => Failure(e)
      case Success(rest) =>
        Success((if SearchMatches(flights[0], term) then [flights[0]] else []) + rest)
  }

  /**
   * The search throws exactly when some flight lacks a destination; otherwise
   * it is the filter by the search predicate.
   */
  lemma {:induction false} SearchOutcome(flights: seq<Flight>, term: string)
    ensures SearchFlights(flights, term).Failure? <==>
      exists i :: 0 <= i < |flights| && flights[i].destination.None?
    ensures SearchFlights(flights, term).Success? ==>
      SearchFlights(flights, term).value == Filter(flights, Searcher(term))
  {
    if flights != [] {
      SearchOutcome(flights[1..], term);
      if exists i :: 0 <= i < |flights[1..]| && flights[1..][i].destination.None? {
        var i :| 0 <= i < |flights[1..]| && flights[1..][i].destination.None?;
        assert flights[i + 1].destination.None?;
      }
      if exists i :: 0 <= i < |flights| && flights[i].destination.None? {
        var i :| 0 <= i < |flights| && flights[i].destination.None?;
        if i > 0 {
          assert flights[1..][i - 1].destination.None?;
        }
      }
    }
  }

  /**
   * A successful search is an order-preserving sublist of the flights holding
   * every copy of each matching record and nothing else.
   */
  lemma SearchResultSpec(flights: seq<Flight>, term: string)
    requires SearchFlights(flights, term).Success?
    ensures IsSubsequence(SearchFlights(flights, term).value, flights)
    ensures forall x ::
      multiset(SearchFlights(flights, term).value)[x] ==
      (if SearchMatches(x, term) then multiset(flights)[x] else 0)
  {
    SearchOutcome(flights, term);
    FilterIsSubsequence(flights, Searcher(term));
    forall x ensures multiset(SearchFlights(flights, term).value)[x] ==
      if SearchMatches(x, term) then multiset(flights)[x] else 0
    {
      FilterCount(flights, Searcher(term), x);
    }
  }

  /** Any search of a non-empty arrivals list throws: arrival records have no destination. */
  lemma ArrivalsSearchThrows(draws: seq<Draw>, term: string)
    requires |draws| == |ArrivalSeed|
    ensures SearchFlights(GetFlights(draws, "arrivals"), term).Failure?
  {
    GetFlightsWellFormed(draws, "arrivals");
    SearchOutcome(GetFlights(draws, "arrivals"), term);
    assert GetFlights(draws, "arrivals")[0].destination.None?;
  }

  /**
   * Every table the service returns has every sort column defined on all its
   * records or on none, so the comparator is consistent on it and the sort
   * order is the one `SortFlights` gives.
   */
  lemma GetFlightsKeyUniform(draws: seq<Draw>, kind: string, key: SortKey)
    requires |draws| == |SeedTable(kind)|
    ensures KeyUniform(GetFlights(draws, kind), key)
  {
    var t := GetFlights(draws, kind);
    GetFlightsWellFormed(draws, kind);
    assert forall f :: f in t ==> HasLocationOf(f, kind == "departures");
    if key == Destination || key == Origin {
      if (kind == "departures") == (key == Destination) {
        assert forall f :: f in t ==> Field(f, key).Some?;
      } else {
        assert forall f :: f in t ==> Field(f, key).None?;
      }
    }
  }

  /** The search term is blank (its trim is falsy) exactly when it is all white space. */
  lemma BlankTermIsWhiteSpace(term: string)
    ensures (Trim(term) == []) == AllWhiteSpace(term)
  {
    TrimEmptyIff(term);
  }

  // ---------------------------------------------------------------------------
  // The option lists of the filter selects: the distinct values of one field.
  // ---------------------------------------------------------------------------

  function Project(flights: seq<Flight>, facet: Facet): (r: seq<string>)
    ensures |r| == |flights|
    ensures forall i :: 0 <= i < |flights| ==> r[i] == FacetValue(flights[i], facet)
  {
    if flights == [] then [] else [FacetValue(flights[0], facet)] + Project(flights[1..], facet)
  }

  /** The distinct values of one facet, without duplicates, exactly those occurring. */
  function FacetOptions(flights: seq<Flight>, facet: Facet): (r: seq<string>)
    ensures NoDuplicates(r)
    ensures forall v :: v in r <==> exists i :: 0 <= i < |flights| && FacetValue(flights[i], facet) == v
  {
    var values := Project(flights, facet);
    assert forall v :: v in values <==> exists i :: 0 <= i < |flights| && FacetValue(flights[i], facet) == v by {
      forall v | v in values ensures exists i :: 0 <= i < |flights| && FacetValue(flights[i], facet) == v {
        var i :| 0 <= i < |values| && values[i] == v;
      }
    }
    Distinct(values)
  }

  /** The option list follows the order in which the values first occur among the flights. */
  lemma FacetOptionsOrder(flights: seq<Flight>, facet: Facet)
    ensures forall i, j :: 0 <= i < j < |FacetOptions(flights, facet)| ==>
      FirstIndex(Project(flights, facet), FacetOptions(flights, facet)[i])
      < FirstIndex(Project(flights, facet), FacetOptions(flights, facet)[j])
  {
    DistinctFirstOccurrenceOrder(Project(flights, facet));
  }
}
