/**
 * The flight record shared by the data service, the board and the rows.
 * A departure carries `destination` and no `origin`; an arrival the reverse.
 * A field the record does not have reads as JavaScript's `undefined` (None).
 */
module Flights {
  import opened Wrappers

  datatype Flight = Flight(
    id: int,
    time: string,
    flightNumber: string,
    destination: Option<string>,
    origin: Option<string>,
    status: string,
    terminal: string,
    gate: string,
    airline: string)

  /** The columns a header click can sort by. */
  datatype SortKey = Time | FlightNumber | Destination | Origin | Status | Terminal | Gate

  /** `flight[key]`: the value of a column, None when the record lacks that field. */
  function Field(f: Flight, key: SortKey): Option<string>
  {
    match key
    case Time => Some(f.time)
    case FlightNumber => Some(f.flightNumber)
    case Destination => f.destination
    case Origin => f.origin
    case Status => Some(f.status)
    case Terminal => Some(f.terminal)
    case Gate => Some(f.gate)
  }
}
