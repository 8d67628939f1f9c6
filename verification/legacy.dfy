/**
 * The earlier decoder of the library crate: a `Journey` with the same six
 * columns but no validation, and `fetch_and_parse`, which reads the rows of
 * one fetched body in order and stops at the first row that fails to decode.
 */
module Legacy {
  import opened Wrappers
  import opened Timestamps
  import opened Digits
  import opened Numbers
  import opened Fields
  import Journeys

  /** The unvalidated journey; its numeric fields are `f64` in the source. */
  datatype Journey = Journey(
    departureTime: Timestamp,
    returnTime: Timestamp,
    departureStationId: string,
    returnStationId: string,
    distanceM: real,
    durationSec: real)

  /** Deserialize a row; the first field that is missing or malformed fails the row. */
  function Decode(row: Row): (r: Result<Journey, DecodeError>)
    ensures r.Success? ==> Valid(r.value.departureTime) && Valid(r.value.returnTime)
    ensures (exists c :: c in JOURNEY_COLUMNS && c !in row) ==> r.Failure?
  {
    var departure :- DateTimeField(row, DEPARTURE);
    var return_ :- DateTimeField(row, RETURN);
    var departureStation :- Column(row, DEPARTURE_STATION_ID);
    var returnStation :- Column(row, RETURN_STATION_ID);
    var distance :- DefaultIfEmpty(row, COVERED_DISTANCE);
    var duration :- DefaultIfEmpty(row, DURATION);
    Success(Journey(departure, return_, departureStation, returnStation, distance, duration))
  }

  /** Both decoders accept the same rows, fail with the same error, and read the same field values. */
  lemma {:induction false} DecodeAgreesWithValidatedDecoder(row: Row)
    ensures Decode(row).Success? <==> Journeys.Decode(row).Success?
    ensures Decode(row).Failure? ==> Decode(row).error == Journeys.Decode(row).error
    ensures Decode(row).Success? ==>
      var (j, v) := (Decode(row).value, Journeys.Decode(row).value);
      && j.departureTime == v.departureTime && j.returnTime == v.returnTime
      && j.departureStationId == v.departureStationId && j.returnStationId == v.returnStationId
      && j.distanceM == v.distanceM && j.durationSec == v.durationSec
  {
  }

  /**
   * Nothing is validated: any station-id texts, any numbers and any pair of
   * instants (even a return before the departure) decode as written.
   */
  lemma {:induction false} DecodeAcceptsUnvalidatedValues(departure: Timestamp, return_: Timestamp,
                                                          departureStation: string, returnStation: string,
                                                          distance: nat, distanceScale: nat,
                                                          duration: nat, durationScale: nat)
    requires Valid(departure) && Valid(return_)
    ensures Decode(JourneyRow(FormatDateTime(departure), FormatDateTime(return_), departureStation, returnStation,
                              FormatFixed(distance, distanceScale), FormatFixed(duration, durationScale)))
         == Success(Journey(departure, return_, departureStation, returnStation,
                            Scaled(distance, distanceScale),
                            Scaled(duration, durationScale)))
  {
    var row := JourneyRow(FormatDateTime(departure), FormatDateTime(return_), departureStation, returnStation,
                          FormatFixed(distance, distanceScale), FormatFixed(duration, durationScale));
    Journeys.DecodeWrittenRow(departure, false, return_, false, departureStation, returnStation,
                              false, distance, distanceScale, false, duration, durationScale);
    DecodeAgreesWithValidatedDecoder(row);
  }

  /**
   * The timestamp columns go through `parse_naive_date_time`: a row decodes
   * only if both are full date-times or bare dates, and each field is the
   * instant its text denotes (midnight for a bare date).
   */
  lemma {:induction false} DecodeTimestampColumns(row: Row)
    requires Decode(row).Success?
    ensures var j := Decode(row).value;
      && (row[DEPARTURE] == FormatDateTime(j.departureTime)
          || (IsMidnight(j.departureTime) && row[DEPARTURE] == FormatDate(j.departureTime)))
      && (row[RETURN] == FormatDateTime(j.returnTime)
          || (IsMidnight(j.returnTime) && row[RETURN] == FormatDate(j.returnTime)))
  {
    var j := Decode(row).value;
    assert ParseNaiveDateTime(row[DEPARTURE]) == Some(j.departureTime) by {
      assert DateTimeField(row, DEPARTURE) == Success(j.departureTime);
    }
    assert ParseNaiveDateTime(row[RETURN]) == Some(j.returnTime) by {
      assert DateTimeField(row, RETURN) == Success(j.returnTime);
    }
    ParsedIsFormatted(row[DEPARTURE]);
    ParsedIsFormatted(row[RETURN]);
  }

  /** The numeric columns go through `default_if_empty`: empty reads as 0, anything else as its number. */
  lemma {:induction false} DecodeNumericColumns(row: Row)
    requires Decode(row).Success?
    ensures var j := Decode(row).value;
      && (row[COVERED_DISTANCE] == "" ==> j.distanceM == 0.0)
      && (row[COVERED_DISTANCE] != "" ==> ParseNumber(row[COVERED_DISTANCE]) == Some(j.distanceM))
      && (row[DURATION] == "" ==> j.durationSec == 0.0)
      && (row[DURATION] != "" ==> ParseNumber(row[DURATION]) == Some(j.durationSec))
  {
  }

  datatype FetchError = FetchFailed | DecodeFailed(error: DecodeError)

  /** The journeys a run prints, and what it returns. */
  datatype Run = Run(printed: seq<Journey>, outcome: Outcome<FetchError>)

  /** The decoding of each fetched row, in order. */
  function DecodeAll(rows: seq<Row>): (results: seq<Result<Journey, DecodeError>>)
    ensures |results| == |rows|
    ensures forall i :: 0 <= i < |rows| ==> results[i] == Decode(rows[i])
  {
    seq(|rows|, i requires 0 <= i < |rows| => Decode(rows[i]))
  }

  /** The position of the first failed decoding, or the number of rows when all succeed. */
  function FirstFailure(results: seq<Result<Journey, DecodeError>>): (k: nat)
    ensures k <= |results|
    ensures forall i :: 0 <= i < k ==> results[i].Success?
    ensures k < |results| ==> results[k].Failure?
  {
    if results == [] then 0
    else if results[0].Failure? then 0
    else 1 + FirstFailure(results[1..])
  }

  /** What the row loop prints and returns: the journeys before the first failed row, then that row's error. */
  function Collect(results: seq<Result<Journey, DecodeError>>): Run
  {
    if results == [] then Run([], Pass)
    else
      match results[0]
      case Failure(e) => Run([], Fail(DecodeFailed(e)))
      case Success(j) =>
        var rest := Collect(results[1..]);
        Run([j] + rest.printed, rest.outcome)
  }

  /** The loop prints one journey per row before the first row that fails to decode. */
  lemma {:induction false} CollectPrintsPrefix(results: seq<Result<Journey, DecodeError>>)
    ensures |Collect(results).printed| == FirstFailure(results)
  {
    if results != [] && results[0].Success? {
      CollectPrintsPrefix(results[1..]);
    }
  }

  /** The `i`-th printed journey is the decoding of the `i`-th row: rows are processed in order. */
  lemma {:induction false} CollectPrintsInOrder(results: seq<Result<Journey, DecodeError>>, i: nat)
    requires i < FirstFailure(results)
    ensures |Collect(results).printed| == FirstFailure(results)
    ensures results[i] == Success(Collect(results).printed[i])
  {
    CollectPrintsPrefix(results);
    if i > 0 {
      assert results[1..][i - 1] == results[i];
      CollectPrintsInOrder(results[1..], i - 1);
    }
  }

  /** The loop returns the error of the first row that fails to decode, or success when every row decodes. */
  lemma {:induction false} CollectReturnsFirstError(results: seq<Result<Journey, DecodeError>>)
    ensures var k := FirstFailure(results);
      Collect(results).outcome == if k < |results| then Fail(DecodeFailed(results[k].error)) else Pass
  {
    if results != [] && results[0].Success? {
      CollectReturnsFirstError(results[1..]);
      if FirstFailure(results) < |results| {
        assert results[1..][FirstFailure(results) - 1] == results[FirstFailure(results)];
      }
    }
  }

  /** One step of the row loop: the run from row `i` on is that row's outcome followed by the run from row `i + 1` on. */
  lemma CollectFrom(results: seq<Result<Journey, DecodeError>>, i: nat)
    requires i < |results|
    ensures results[i].Failure? ==> Collect(results[i..]) == Run([], Fail(DecodeFailed(results[i].error)))
    ensures results[i].Success? ==>
      Collect(results[i..]) == Run([results[i].value] + Collect(results[i + 1..]).printed, Collect(results[i + 1..]).outcome)
  {
    assert results[i..][0] == results[i] && results[i..][1..] == results[i + 1..];
  }

  /**
   * `fetch_and_parse`: the fetched body (`None` when the request failed) is
   * decoded row by row; every decoded journey is printed, and the first row
   * that fails to decode ends the loop with its error. The printed journeys
   * are returned in place of the output.
   */
  method FetchAndParse(fetched: Option<seq<Row>>) returns (printed: seq<Journey>, r: Outcome<FetchError>)
    ensures fetched.None? ==> printed == [] && r == Fail(FetchFailed)
    ensures fetched.Some? ==> Run(printed, r) == Collect(DecodeAll(fetched.value))
  {
    printed := [];
    if fetched.None? {
      return [], Fail(FetchFailed);
    }
    var rows := fetched.value;
    ghost var results := DecodeAll(rows);
    var i := 0;
    while i < |rows|
      invariant i <= |rows|
      invariant Collect(results) == Run(printed + Collect(results[i..]).printed, Collect(results[i..]).outcome)
    {
      var result := Decode(rows[i]);
      assert result == results[i];
      CollectFrom(results, i);
      if result.Failure? {
        return printed, Fail(DecodeFailed(result.error));
      }
      printed := printed + [result.value];
      i := i + 1;
    }
    assert results[i..] == [];
    r := Pass;
  }
}
