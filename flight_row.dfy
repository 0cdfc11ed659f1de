/**
 * The pure helpers of one board row: the CSS class chosen for a status, the
 * time formatting, the split of a flight number into airline code and digits,
 * and which location column the row shows.
 */
module FlightRow {
  import opened Wrappers
  import opened JsString
  import opened Flights
  import opened FlightService

  const StatusClasses: set<string> :=
    {"status-on-time", "status-delayed", "status-boarding", "status-final-call", "status-landed", ""}

  /**
   * `getStatusClass`: the status is lowercased, then matched by substring
   * against the phrases in a fixed order; the first match wins.
   */
  function StatusClass(status: string): (r: string)
    ensures r in StatusClasses
  {
    var s := Lower(status);
    if Includes(s, "on time") then "status-on-time"
    else if Includes(s, "delayed") then "status-delayed"
    else if Includes(s, "boarding") then "status-boarding"
    else if Includes(s, "final call") || Includes(s, "gate closed") then "status-final-call"
    else if Includes(s, "landed") || Includes(s, "arrived") then "status-landed"
    else ""
  }

  /** The classification ignores letter case: a lowercased status gets the same class. */
  lemma StatusClassIgnoresCase(status: string)
    ensures StatusClass(Lower(status)) == StatusClass(status)
  {
    LowerIdempotent(status);
  }

  /** "on time" anywhere in the status, in any letter case, beats every other phrase. */
  lemma OnTimeWins(p: string, phrase: string, q: string)
    requires Lower(phrase) == "on time"
    ensures StatusClass(p + phrase + q) == "status-on-time"
  {
    LowerAppend(p + phrase, q);
    LowerAppend(p, phrase);
    IncludesMiddle(Lower(p), "on time", Lower(q));
  }

  /** A status containing "delayed" is classed delayed unless it also says "on time". */
  lemma DelayedLosesOnlyToOnTime(p: string, phrase: string, q: string)
    requires Lower(phrase) == "delayed"
    ensures StatusClass(p + phrase + q) ==
      if Includes(Lower(p + phrase + q), "on time") then "status-on-time" else "status-delayed"
  {
    LowerAppend(p + phrase, q);
    LowerAppend(p, phrase);
    IncludesMiddle(Lower(p), "delayed", Lower(q));
  }

  /**
   * A status containing "boarding" is classed boarding unless it also says
   * "on time" or "delayed", the two phrases tested before it.
   */
  lemma BoardingLosesOnlyToEarlierPhrases(p: string, phrase: string, q: string)
    requires Lower(phrase) == "boarding"
    ensures StatusClass(p + phrase + q) ==
      var s := Lower(p + phrase + q);
      if Includes(s, "on time") then "status-on-time"
      else if Includes(s, "delayed") then "status-delayed"
      else "status-boarding"
  {
    LowerAppend(p + phrase, q);
    LowerAppend(p, phrase);
    IncludesMiddle(Lower(p), "boarding", Lower(q));
  }

  /**
   * A status containing "final call" or "gate closed" is classed final-call
   * unless it also says one of the three phrases tested before them.
   */
  lemma FinalCallPhrases(p: string, phrase: string, q: string)
    requires Lower(phrase) == "final call" || Lower(phrase) == "gate closed"
    ensures StatusClass(p + phrase + q) ==
      var s := Lower(p + phrase + q);
      if Includes(s, "on time") then "status-on-time"
      else if Includes(s, "delayed") then "status-delayed"
      else if Includes(s, "boarding") then "status-boarding"
      else "status-final-call"
  {
    LowerAppend(p + phrase, q);
    LowerAppend(p, phrase);
    IncludesMiddle(Lower(p), Lower(phrase), Lower(q));
  }

  /**
   * A status containing "landed" or "arrived" is classed landed unless it
   * also says one of the five phrases tested before them.
   */
  lemma LandedPhrases(p: string, phrase: string, q: string)
    requires Lower(phrase) == "landed" || Lower(phrase) == "arrived"
    ensures StatusClass(p + phrase + q) ==
      var s := Lower(p + phrase + q);
      if Includes(s, "on time") then "status-on-time"
      else if Includes(s, "delayed") then "status-delayed"
      else if Includes(s, "boarding") then "status-boarding"
      else if Includes(s, "final call") || Includes(s, "gate closed") then "status-final-call"
      else "status-landed"
  {
    LowerAppend(p + phrase, q);
    LowerAppend(p, phrase);
    IncludesMiddle(Lower(p), Lower(phrase), Lower(q));
  }

  /** A status with none of the seven phrases gets the empty class, and only such a status does. */
  lemma UnmatchedStatusHasNoClass(status: string)
    ensures StatusClass(status) == "" <==>
      var s := Lower(status);
      !Includes(s, "on time") && !Includes(s, "delayed") && !Includes(s, "boarding")
      && !Includes(s, "final call") && !Includes(s, "gate closed")
      && !Includes(s, "landed") && !Includes(s, "arrived")
  {
  }

  /** "Final Call" and "Gate Closed" share the final-call class. */
  lemma FinalCallAndGateClosed()
    ensures StatusClass("Final Call") == StatusClass("Gate Closed") == "status-final-call"
  {
    FinalCallClass();
    GateClosedClass();
  }

  /** "Landed" and "Arrived" share the landed class. */
  lemma LandedAndArrived()
    ensures StatusClass("Landed") == StatusClass("Arrived") == "status-landed"
  {
    LandedClass();
    ArrivedClass();
  }

  /** "On Time", "Delayed" and "Boarding" each get their own class. */
  lemma OnTimeDelayedBoarding()
    ensures StatusClass("On Time") == "status-on-time"
    ensures StatusClass("Delayed") == "status-delayed"
    ensures StatusClass("Boarding") == "status-boarding"
  {
    OnTimeClass();
    DelayedClass();
    BoardingClass();
  }

  lemma OnTimeClass()
    ensures StatusClass("On Time") == "status-on-time"
  {
    var s := "on time";
    assert Lower("On Time") == s;
    assert OccursAt(s, s, 0);
  }

  lemma DelayedClass()
    ensures StatusClass("Delayed") == "status-delayed"
  {
    var s := "delayed";
    assert Lower("Delayed") == s;
    assert !Includes(s, "on time") by { NotIncludesMissingChar(s, "on time", 'o'); }
    assert OccursAt(s, s, 0);
  }

  lemma BoardingClass()
    ensures StatusClass("Boarding") == "status-boarding"
  {
    var s := "boarding";
    assert Lower("Boarding") == s;
    assert !Includes(s, "on time") by { NotIncludesMissingChar(s, "on time", 't'); }
    assert !Includes(s, "delayed") by { NotIncludesMissingChar(s, "delayed", 'e'); }
    assert OccursAt(s, s, 0);
  }

  lemma FinalCallClass()
    ensures StatusClass("Final Call") == "status-final-call"
  {
    var s := "final call";
    assert Lower("Final Call") == s;
    FinalCallMissesEarlierPhrases();
    assert OccursAt(s, s, 0);
  }

  /** "final call" contains none of the phrases tested before its own. */
  lemma FinalCallMissesEarlierPhrases()
    ensures !Includes("final call", "on time") && !Includes("final call", "delayed") && !Includes("final call", "boarding")
  {
    var s := "final call";
    assert !Includes(s, "on time") by { NotIncludesMissingChar(s, "on time", 'o'); }
    assert !Includes(s, "delayed") by { NotIncludesMissingChar(s, "delayed", 'd'); }
    assert !Includes(s, "boarding") by { NotIncludesMissingChar(s, "boarding", 'b'); }
  }

  lemma GateClosedClass()
    ensures StatusClass("Gate Closed") == "status-final-call"
  {
    var s := "gate closed";
    assert Lower("Gate Closed") == s;
    GateClosedMissesEarlierPhrases();
    assert OccursAt(s, s, 0);
  }

  /** "gate closed" contains none of the phrases tested before its own. */
  lemma GateClosedMissesEarlierPhrases()
    ensures !Includes("gate closed", "on time") && !Includes("gate closed", "delayed") && !Includes("gate closed", "boarding") && !Includes("gate closed", "final call")
  {
    var s := "gate closed";
    assert !Includes(s, "on time") by { NotIncludesMissingChar(s, "on time", 'n'); }
    assert !Includes(s, "delayed") by { NotIncludesMissingChar(s, "delayed", 'y'); }
    assert !Includes(s, "boarding") by { NotIncludesMissingChar(s, "boarding", 'b'); }
    assert !Includes(s, "final call") by { NotIncludesMissingChar(s, "final call", 'f'); }
  }

  lemma LandedClass()
    ensures StatusClass("Landed") == "status-landed"
  {
    var s := "landed";
    assert Lower("Landed") == s;
    LandedMissesEarlierPhrases();
    assert OccursAt(s, s, 0);
  }

  /** "landed" contains none of the phrases tested before its own. */
  lemma LandedMissesEarlierPhrases()
    ensures !Includes("landed", "on time") && !Includes("landed", "delayed") && !Includes("landed", "boarding") && !Includes("landed", "final call") && !Includes("landed", "gate closed")
  {
    var s := "landed";
    assert !Includes(s, "on time") by { NotIncludesMissingChar(s, "on time", 'o'); }
    assert !Includes(s, "delayed") by { NotIncludesMissingChar(s, "delayed", 'y'); }
    assert !Includes(s, "boarding") by { NotIncludesMissingChar(s, "boarding", 'b'); }
    assert !Includes(s, "final call") by { NotIncludesMissingChar(s, "final call", 'f'); }
    assert !Includes(s, "gate closed") by { NotIncludesMissingChar(s, "gate closed", 'g'); }
  }

  lemma ArrivedClass()
    ensures StatusClass("Arrived") == "status-landed"
  {
    var s := "arrived";
    assert Lower("Arrived") == s;
    ArrivedMissesEarlierPhrases();
    assert OccursAt(s, s, 0);
  }

  /** "arrived" contains none of the phrases tested before its own. */
  lemma ArrivedMissesEarlierPhrases()
    ensures !Includes("arrived", "on time") && !Includes("arrived", "delayed") && !Includes("arrived", "boarding") && !Includes("arrived", "final call") && !Includes("arrived", "gate closed") && !Includes("arrived", "landed")
  {
    var s := "arrived";
    assert !Includes(s, "on time") by { NotIncludesMissingChar(s, "on time", 'o'); }
    assert !Includes(s, "delayed") by { NotIncludesMissingChar(s, "delayed", 'l'); }
    assert !Includes(s, "boarding") by { NotIncludesMissingChar(s, "boarding", 'b'); }
    assert !Includes(s, "final call") by { NotIncludesMissingChar(s, "final call", 'f'); }
    assert !Includes(s, "gate closed") by { NotIncludesMissingChar(s, "gate closed", 'g'); }
    assert !Includes(s, "landed") by { NotIncludesMissingChar(s, "landed", 'l'); }
  }

  // ---------------------------------------------------------------------------
  // `formatTime`: split at the colons, rejoin the first two fields.
  // ---------------------------------------------------------------------------

  /**
   * The first two `:`-separated fields rejoined with a colon. A missing second
   * field is `undefined`, which the template literal renders as "undefined".
   */
  function FormatTime(time: string): string
  {
    var parts := Split(time, ':');
    var minutes := if |parts| > 1 then parts[1] else "undefined";
    parts[0] + ":" + minutes
  }

  /** A time with exactly one colon is returned unchanged. */
  lemma FormatTimeOneColon(time: string)
    requires Count(time, ':') == 1
    ensures FormatTime(time) == time
  {
    JoinSplit(time, ':');
    var parts := Split(time, ':');
    assert Join(parts, ':') == parts[0] + [':'] + Join(parts[1..], ':');
  }

  /** With two or more colons, the colon and everything after the second field are dropped. */
  lemma FormatTimeDropsExtraFields(time: string)
    requires Count(time, ':') >= 2
    ensures time == FormatTime(time) + ":" + Join(Split(time, ':')[2..], ':')
    ensures |FormatTime(time)| < |time|
  {
    JoinSplit(time, ':');
    var parts := Split(time, ':');
    assert Join(parts, ':') == parts[0] + [':'] + Join(parts[1..], ':');
    assert parts[1..][1..] == parts[2..];
    assert Join(parts[1..], ':') == parts[1] + [':'] + Join(parts[2..], ':');
  }

  /** A time without a colon gets ":undefined" appended. */
  lemma FormatTimeNoColon(time: string)
    requires Count(time, ':') == 0
    ensures FormatTime(time) == time + ":undefined"
  {
    JoinSplit(time, ':');
  }

  /** An "HH:MM" clock time has exactly one colon. */
  lemma ClockTimeHasOneColon(time: string)
    requires IsClockTime(time)
    ensures Count(time, ':') == 1
  {
    assert time[1..][1..] == time[2..] && time[2..][1..] == time[3..];
    assert time[3..][1..] == time[4..] && time[4..][1..] == [];
    assert Count(time[4..], ':') == 0;
    assert Count(time[3..], ':') == 0;
    assert Count(time[2..], ':') == 1;
  }

  /** Every seed time, "HH:MM", is displayed exactly as stored. */
  lemma ClockTimeDisplayedAsStored(time: string)
    requires IsClockTime(time)
    ensures FormatTime(time) == time
  {
    ClockTimeHasOneColon(time);
    FormatTimeOneColon(time);
  }

  // ---------------------------------------------------------------------------
  // The flight number cell: airline code and digits.
  // ---------------------------------------------------------------------------

  /**
   * The airline code (the first two characters, fewer if the number is shorter)
   * and the digits (the rest). `substring` clamps its indices to the length.
   */
  function SplitFlightNumber(flightNumber: string): (r: (string, string))
    ensures r.0 + r.1 == flightNumber
    ensures |r.0| == if |flightNumber| < 2 then |flightNumber| else 2
  {
    var cut := if |flightNumber| < 2 then |flightNumber| else 2;
    (flightNumber[..cut], flightNumber[cut..])
  }

  // ---------------------------------------------------------------------------
  // The location column.
  // ---------------------------------------------------------------------------

  /** `locationKey`: the destination column in departures view, the origin column otherwise. */
  function LocationKey(view: string): (r: SortKey)
    ensures r == Destination || r == Origin
    ensures r == Destination <==> view == "departures"
  {
    if view == "departures" then Destination else Origin
  }

  /**
   * The location cell is never empty for a record fetched for the same view:
   * departures carry a destination, arrivals an origin.
   */
  lemma LocationShownForFetchedView(draws: seq<Draw>, view: string, i: int)
    requires |draws| == |SeedTable(view)|
    requires 0 <= i < |GetFlights(draws, view)|
    ensures Field(GetFlights(draws, view)[i], LocationKey(view)).Some?
  {
    GetFlightsWellFormed(draws, view);
  }
}
