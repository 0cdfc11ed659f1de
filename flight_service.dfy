/**
 * The simulated flight data source: two seed tables, a random status drift
 * applied to a copy of the selected table on every call, and the lookup by
 * view type. The random draws are an input here (one Draw per record).
 */
module FlightService {
  import opened Wrappers
  import opened JsString
  import opened Flights

  function Dep(id: int, time: string, flightNumber: string, destination: string,
               status: string, terminal: string, gate: string, airline: string): Flight
  {
    Flight(id, time, flightNumber, Some(destination), None, status, terminal, gate, airline)
  }

  function Arr(id: int, time: string, flightNumber: string, origin: string,
               status: string, terminal: string, gate: string, airline: string): Flight
  {
    Flight(id, time, flightNumber, None, Some(origin), status, terminal, gate, airline)
  }

  /** `mockFlights.departures`. */
  const DepartureSeed: seq<Flight> := [
    Dep(1, "08:15", "BA2490", "New York", "On Time", "5", "A22", "British Airways"),
    Dep(2, "09:30", "LH1010", "Berlin", "Boarding", "2", "B15", "Lufthansa"),
    Dep(3, "10:45", "AF1680", "Paris", "Delayed", "4", "C10", "Air France"),
    Dep(4, "11:20", "EK031", "Dubai", "On Time", "3", "D25", "Emirates"),
    Dep(5, "12:00", "QR183", "Doha", "Gate Closed", "1", "E12", "Qatar Airways"),
    Dep(6, "13:15", "SQ321", "Singapore", "On Time", "2", "F08", "Singapore Airlines"),
    Dep(7, "14:30", "UA988", "Chicago", "Delayed", "3", "G17", "United Airlines"),
    Dep(8, "15:45", "DL216", "Atlanta", "On Time", "4", "H22", "Delta Air Lines")
  ]

  /** `mockFlights.arrivals`. */
  const ArrivalSeed: seq<Flight> := [
    Arr(101, "08:00", "LX318", "Zurich", "Landed", "2", "B10", "Swiss"),
    Arr(102, "09:15", "IB3166", "Madrid", "On Time", "5", "A15", "Iberia"),
    Arr(103, "10:30", "TK1980", "Istanbul", "Delayed", "2", "C22", "Turkish Airlines"),
    Arr(104, "11:45", "CX250", "Hong Kong", "On Time", "3", "D08", "Cathay Pacific"),
    Arr(105, "12:30", "JL043", "Tokyo", "Arrived", "4", "E17", "Japan Airlines"),
    Arr(106, "13:40", "EY019", "Abu Dhabi", "On Time", "1", "F12", "Etihad Airways"),
    Arr(107, "14:15", "AY1332", "Helsinki", "Delayed", "5", "G09", "Finnair"),
    Arr(108, "15:20", "AC860", "Toronto", "On Time", "2", "H14", "Air Canada")
  ]

  /** The five statuses a drifting record can be given. */
  const DriftStatuses: seq<string> := ["On Time", "Delayed", "Boarding", "Final Call", "Gate Closed"]

  /** The second random draw, scaled and floored: an index into DriftStatuses. */
  type StatusPick = i: int | 0 <= i < 5

  /**
   * The random draws for one record: the first draw did not exceed 0.8 (Keep), or
   * it succeeded and the second draw picked a status (Reassign).
   */
  datatype Draw = Keep | Reassign(pick: StatusPick)

  /** `updateFlightStatuses`: a map that replaces the status of the records whose draw says so. */
  function UpdateFlightStatuses(flights: seq<Flight>, draws: seq<Draw>): (r: seq<Flight>)
    requires |draws| == |flights|
    ensures |r| == |flights|
    ensures forall i :: 0 <= i < |r| ==> r[i] == flights[i].(status := r[i].status)
    ensures forall i :: 0 <= i < |r| ==>
      r[i].status == flights[i].status || r[i].status in DriftStatuses
    ensures forall i :: 0 <= i < |r| && draws[i] == Keep ==> r[i] == flights[i]
  {
    seq(|flights|, i requires 0 <= i < |flights| =>
      match draws[i]
      case Keep => flights[i]
      case Reassign(k) => flights[i].(status := DriftStatuses[k]))
  }

  /** The table `getFlights(kind)` reads: departures for "departures", arrivals for anything else. */
  function SeedTable(kind: string): seq<Flight>
  {
    if kind == "departures" then DepartureSeed else ArrivalSeed
  }

  /**
   * `getFlights(kind)`, once its delay has elapsed: the selected table, copied,
   * with status drift. The kind defaults to "departures".
   */
  function GetFlights(draws: seq<Draw>, kind: string := "departures"): (r: seq<Flight>)
    requires |draws| == |SeedTable(kind)|
    ensures |r| == |SeedTable(kind)|
    ensures forall i :: 0 <= i < |r| ==> r[i].id == SeedTable(kind)[i].id
  {
    UpdateFlightStatuses(SeedTable(kind), draws)
  }

  /** With no record drawn for a change, the call returns the seed table as it is. */
  lemma {:induction false} NoDrawsNoDrift(flights: seq<Flight>, draws: seq<Draw>)
    requires |draws| == |flights|
    requires forall i :: 0 <= i < |draws| ==> draws[i] == Keep
    ensures UpdateFlightStatuses(flights, draws) == flights
  {
    var r := UpdateFlightStatuses(flights, draws);
    assert forall i :: 0 <= i < |r| ==> r[i] == flights[i];
  }

  /** A drawn record always gets the status the draw picked, whatever its seed status. */
  lemma DrawnStatus(flights: seq<Flight>, draws: seq<Draw>, i: int)
    requires |draws| == |flights| && 0 <= i < |flights| && draws[i].Reassign?
    ensures UpdateFlightStatuses(flights, draws)[i].status == DriftStatuses[draws[i].pick]
  {
  }

  // ---------------------------------------------------------------------------
  // The invariants of the seed tables.
  // ---------------------------------------------------------------------------

  predicate IsDigit(c: char) { '0' <= c <= '9' }

  function DigitValue(c: char): int requires IsDigit(c) { c as int - '0' as int }

  /** A fixed-width 24-hour clock time "HH:MM". */
  predicate IsClockTime(t: string)
  {
    |t| == 5 && IsDigit(t[0]) && IsDigit(t[1]) && t[2] == ':' && IsDigit(t[3]) && IsDigit(t[4])
    && DigitValue(t[0]) * 10 + DigitValue(t[1]) < 24
    && DigitValue(t[3]) < 6
  }

  /** Minutes since midnight of a clock time. */
  function ClockMinutes(t: string): int
    requires IsClockTime(t)
  {
    (DigitValue(t[0]) * 10 + DigitValue(t[1])) * 60 + DigitValue(t[3]) * 10 + DigitValue(t[4])
  }

  /**
   * For fixed-width "HH:MM" times the string order `<` the board sorts with is
   * the chronological order.
   */
  lemma ClockTimeOrder(a: string, b: string)
    requires IsClockTime(a) && IsClockTime(b)
    ensures Less(a, b) <==> ClockMinutes(a) < ClockMinutes(b)
  {
    var a1, b1 := a[1..], b[1..];
    var a2, b2 := a1[1..], b1[1..];
    var a3, b3 := a2[1..], b2[1..];
    var a4, b4 := a3[1..], b3[1..];
    assert a4 == [a[4]] && b4 == [b[4]] && a4[1..] == [] && b4[1..] == [];
    assert Less(a4, b4) <==> a[4] < b[4];
    assert Less(a3, b3) <==> a[3] < b[3] || (a[3] == b[3] && Less(a4, b4));
    assert Less(a2, b2) <==> Less(a3, b3);
    assert Less(a1, b1) <==> a[1] < b[1] || (a[1] == b[1] && Less(a2, b2));
    assert Less(a, b) <==> a[0] < b[0] || (a[0] == b[0] && Less(a1, b1));
  }

  predicate UniqueIds(t: seq<Flight>)
  {
    forall i, j :: 0 <= i < j < |t| ==> t[i].id != t[j].id
  }

  /** The records are in strictly increasing time order. */
  predicate AscendingByTime(t: seq<Flight>)
  {
    forall i, j :: 0 <= i < j < |t| ==> Less(t[i].time, t[j].time)
  }

  /** A departure has a destination and no origin; an arrival the reverse. */
  predicate HasLocationOf(f: Flight, departures: bool)
  {
    if departures then f.destination.Some? && f.origin.None?
    else f.origin.Some? && f.destination.None?
  }

  /** The invariants of a table: unique ids, "HH:MM" times, the right location field, time order. */
  predicate WellFormedTable(t: seq<Flight>, departures: bool)
  {
    && UniqueIds(t)
    && (forall i :: 0 <= i < |t| ==> IsClockTime(t[i].time))
    && (forall i :: 0 <= i < |t| ==> HasLocationOf(t[i], departures))
    && AscendingByTime(t)
  }

  /** Clock times in increasing minutes give a table in `<` order. */
  lemma AscendingFromMinutes(t: seq<Flight>)
    requires forall i :: 0 <= i < |t| ==> IsClockTime(t[i].time)
    requires forall i :: 0 <= i < |t| - 1 ==> ClockMinutes(t[i].time) < ClockMinutes(t[i + 1].time)
    ensures AscendingByTime(t)
  {
    forall i, j | 0 <= i < j < |t| ensures Less(t[i].time, t[j].time) {
      MinutesIncrease(t, i, j);
      ClockTimeOrder(t[i].time, t[j].time);
    }
  }

  lemma {:induction false} MinutesIncrease(t: seq<Flight>, i: int, j: int)
    requires forall i :: 0 <= i < |t| ==> IsClockTime(t[i].time)
    requires forall i :: 0 <= i < |t| - 1 ==> ClockMinutes(t[i].time) < ClockMinutes(t[i + 1].time)
    requires 0 <= i < j < |t|
    ensures ClockMinutes(t[i].time) < ClockMinutes(t[j].time)
    decreases j - i
  {
    if i + 1 < j {
      MinutesIncrease(t, i + 1, j);
    }
  }

  /** The departure times are "HH:MM" clock times, increasing row by row. */
  lemma DepartureSeedTimes()
    ensures forall i :: 0 <= i < |DepartureSeed| ==> IsClockTime(DepartureSeed[i].time)
    ensures forall i :: 0 <= i < |DepartureSeed| - 1 ==>
      ClockMinutes(DepartureSeed[i].time) < ClockMinutes(DepartureSeed[i + 1].time)
  {
    DepartureSeedClockTimes();
  }

  lemma DepartureSeedClockTimes()
    ensures forall i :: 0 <= i < |DepartureSeed| ==> IsClockTime(DepartureSeed[i].time)
  {
  }

  /** The arrival times are "HH:MM" clock times, increasing row by row. */
  lemma ArrivalSeedTimes()
    ensures forall i :: 0 <= i < |ArrivalSeed| ==> IsClockTime(ArrivalSeed[i].time)
    ensures forall i :: 0 <= i < |ArrivalSeed| - 1 ==>
      ClockMinutes(ArrivalSeed[i].time) < ClockMinutes(ArrivalSeed[i + 1].time)
  {
    ArrivalSeedClockTimes();
  }

  lemma ArrivalSeedClockTimes()
    ensures forall i :: 0 <= i < |ArrivalSeed| ==> IsClockTime(ArrivalSeed[i].time)
  {
  }

  /** The departures table satisfies the table invariants. */
  lemma DepartureSeedWellFormed()
    ensures WellFormedTable(DepartureSeed, true)
  {
    DepartureSeedTimes();
    AscendingFromMinutes(DepartureSeed);
    DepartureSeedIds();
    DepartureSeedLocations();
  }

  /** The departures ids are pairwise distinct. */
  lemma DepartureSeedIds()
    ensures UniqueIds(DepartureSeed)
  {
  }

  /** Every departure record carries the location field of its kind. */
  lemma DepartureSeedLocations()
    ensures forall i :: 0 <= i < |DepartureSeed| ==> HasLocationOf(DepartureSeed[i], true)
  {
  }

  /** The arrivals table satisfies the table invariants. */
  lemma ArrivalSeedWellFormed()
    ensures WellFormedTable(ArrivalSeed, false)
  {
    ArrivalSeedTimes();
    AscendingFromMinutes(ArrivalSeed);
    ArrivalSeedIds();
    ArrivalSeedLocations();
  }

  /** The arrivals ids are pairwise distinct. */
  lemma ArrivalSeedIds()
    ensures UniqueIds(ArrivalSeed)
  {
  }

  /** Every arrival record carries the location field of its kind. */
  lemma ArrivalSeedLocations()
    ensures forall i :: 0 <= i < |ArrivalSeed| ==> HasLocationOf(ArrivalSeed[i], false)
  {
  }

  /** Status drift keeps every table invariant: only `status` ever changes. */
  lemma DriftKeepsTableInvariants(t: seq<Flight>, departures: bool, draws: seq<Draw>)
    requires WellFormedTable(t, departures) && |draws| == |t|
    ensures WellFormedTable(UpdateFlightStatuses(t, draws), departures)
  {
    var r := UpdateFlightStatuses(t, draws);
    assert forall i :: 0 <= i < |r| ==> r[i].time == t[i].time && r[i].id == t[i].id;
  }

  /** Every call of `getFlights` returns a table with the seed invariants. */
  lemma GetFlightsWellFormed(draws: seq<Draw>, kind: string)
    requires |draws| == |SeedTable(kind)|
    ensures WellFormedTable(GetFlights(draws, kind), kind == "departures")
  {
    DepartureSeedWellFormed();
    ArrivalSeedWellFormed();
    DriftKeepsTableInvariants(SeedTable(kind), kind == "departures", draws);
  }
}
