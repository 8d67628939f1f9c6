/**
 * Field-level decoding of one CSV row, shared by both `Journey` structs:
 * columns are bound by header name, timestamps go through
 * `parse_naive_date_time` and the numeric fields through `default_if_empty`.
 */
module Fields {
  import opened Wrappers
  import opened Timestamps
  import opened Numbers

  /** One CSV data row, keyed by the names in the header row; other columns are simply not looked up. */
  type Row = map<string, string>

  const DEPARTURE := "Departure"
  const RETURN := "Return"
  const DEPARTURE_STATION_ID := "Departure station id"
  const RETURN_STATION_ID := "Return station id"
  const COVERED_DISTANCE := "Covered distance (m)"
  const DURATION := "Duration (sec.)"

  /** The six columns a journey is decoded from. */
  const JOURNEY_COLUMNS: set<string> :=
    {DEPARTURE, RETURN, DEPARTURE_STATION_ID, RETURN_STATION_ID, COVERED_DISTANCE, DURATION}

  datatype DecodeError =
    | MissingField(column: string)
    | InvalidDateTime(column: string, text: string)
    | InvalidNumber(column: string, text: string)

  /** The text of a named column; a column the header lacks is a missing field. */
  function Column(row: Row, name: string): (r: Result<string, DecodeError>)
    ensures r.Success? <==> name in row
    ensures r.Success? ==> r.value == row[name]
    ensures r.Failure? ==> r.error == MissingField(name)
  {
    if name in row then Success(row[name]) else Failure(MissingField(name))
  }

  /** A timestamp column read by `parse_naive_date_time`. */
  function DateTimeField(row: Row, name: string): (r: Result<Timestamp, DecodeError>)
    ensures r.Success? <==> name in row && ParseNaiveDateTime(row[name]).Some?
    ensures r.Success? ==> r.value == ParseNaiveDateTime(row[name]).value && Valid(r.value)
  {
    var text :- Column(row, name);
    match ParseNaiveDateTime(text)
    case Some(t) => Success(t)
    case None => Failure(InvalidDateTime(name, text))
  }

  /**
   * A numeric column read by `default_if_empty`: an empty field is an absent
   * value and becomes 0; any other text must be a number.
   */
  function DefaultIfEmpty(row: Row, name: string): (r: Result<real, DecodeError>)
    ensures name in row && row[name] == "" ==> r == Success(0.0)
    ensures name in row && row[name] != "" ==> r.Success? == ParseNumber(row[name]).Some?
    ensures name in row && row[name] != "" && r.Success? ==> r.value == ParseNumber(row[name]).value
    ensures name !in row ==> r == Failure(MissingField(name))
  {
    var text :- Column(row, name);
    if text == "" then
      Success(0.0)
    else
      match ParseNumber(text)
      case Some(v) => Success(v)
      case None => Failure(InvalidNumber(name, text))
  }

  /** A row with exactly the six journey columns, holding the given texts. */
  function JourneyRow(departure: string, return_: string, departureStation: string, returnStation: string,
                      distance: string, duration: string): (row: Row)
    ensures row.Keys == JOURNEY_COLUMNS
  {
    map[DEPARTURE := departure, RETURN := return_, DEPARTURE_STATION_ID := departureStation,
        RETURN_STATION_ID := returnStation, COVERED_DISTANCE := distance, DURATION := duration]
  }

  /** Each column of a written row holds the text it was written with. */
  lemma JourneyRowColumns(departure: string, return_: string, departureStation: string, returnStation: string,
                          distance: string, duration: string)
    ensures var row := JourneyRow(departure, return_, departureStation, returnStation, distance, duration);
      && row[DEPARTURE] == departure && row[RETURN] == return_
      && row[DEPARTURE_STATION_ID] == departureStation && row[RETURN_STATION_ID] == returnStation
      && row[COVERED_DISTANCE] == distance && row[DURATION] == duration
  {
  }
}
