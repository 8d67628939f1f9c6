/**
 * One bicycle journey as decoded from a CSV row and checked by the
 * `Validate` derive: both station ids must be three digits, distance and
 * duration at least 10, and departure strictly before return.
 */
module Journeys {
  import opened Wrappers
  import opened Digits
  import opened Timestamps
  import opened Numbers
  import opened Fields

  datatype Journey = Journey(
    departureTime: Timestamp,
    returnTime: Timestamp,
    departureStationId: string,
    returnStationId: string,
    distanceM: real,
    durationSec: real)

  // ---------------------------------------------------------------------------
  // Decoding

  /** Deserialize a row into a `Journey`; the first field that is missing or malformed fails the row. */
  function Decode(row: Row): (r: Result<Journey, DecodeError>)
    ensures r.Success? ==> Valid(r.value.departureTime) && Valid(r.value.returnTime)
    ensures (exists c :: c in JOURNEY_COLUMNS && c !in row) ==> r.Failure?
  {
    var departure :- DateTimeField(row, DEPARTURE);
    var return_ :- DateTimeField(row, RETURN);
    var departureStation :- Column(row, DEPARTURE_STATION_ID);
    var returnStation :- Column(row, RETURN_STATION_ID);
    var distance :- DefaultIfEmpty(row, COVERED_DISTANCE);
    var duration :- DefaultIfEmpty(row, DURATION);
    Success(Journey(departure, return_, departureStation, returnStation, distance, duration))
  }

  /** Only the six named columns matter: reordered, renamed-away or extra columns change nothing. */
  lemma DecodeReadsColumnsByName(row: Row, other: Row)
    requires forall c :: c in JOURNEY_COLUMNS ==> (c in row <==> c in other)
    requires forall c :: c in JOURNEY_COLUMNS && c in row ==> row[c] == other[c]
    ensures Decode(row) == Decode(other)
  {
    assert DEPARTURE in JOURNEY_COLUMNS && RETURN in JOURNEY_COLUMNS;
    assert DEPARTURE_STATION_ID in JOURNEY_COLUMNS && RETURN_STATION_ID in JOURNEY_COLUMNS;
    assert COVERED_DISTANCE in JOURNEY_COLUMNS && DURATION in JOURNEY_COLUMNS;
  }

  /** The text of a timestamp column: the full date-time, or only its date. */
  function TimestampText(t: Timestamp, dateOnly: bool): string {
    if dateOnly then FormatDate(t) else FormatDateTime(t)
  }

  /** The instant such a column stands for: a bare date means midnight of that date. */
  function TimestampRead(t: Timestamp, dateOnly: bool): Timestamp {
    if dateOnly then Timestamp(t.year, t.month, t.day, 0, 0, 0) else t
  }

  /** The text of a number column: blank, or a fixed-point number. */
  function NumberText(blank: bool, n: nat, scale: nat): string {
    if blank then "" else FormatFixed(n, scale)
  }

  /** The value such a column stands for: a blank means 0. */
  function NumberRead(blank: bool, n: nat, scale: nat): real {
    if blank then 0.0 else Scaled(n, scale)
  }

  /** A timestamp column written from a valid instant reads back as that instant, or its midnight for a bare date. */
  lemma TimestampColumnReads(row: Row, name: string, t: Timestamp, dateOnly: bool)
    requires Valid(t) && name in row && row[name] == TimestampText(t, dateOnly)
    ensures DateTimeField(row, name) == Success(TimestampRead(t, dateOnly))
  {
    if dateOnly {
      ParseFormattedDateOnly(t);
    } else {
      ParseFormattedDateTime(t);
    }
  }

  /** A number column written blank or as a fixed-point number reads back as 0 or that number. */
  lemma NumberColumnReads(row: Row, name: string, blank: bool, n: nat, scale: nat)
    requires name in row && row[name] == NumberText(blank, n, scale)
    ensures DefaultIfEmpty(row, name) == Success(NumberRead(blank, n, scale))
  {
    if !blank {
      ParseFormattedFixed(n, scale);
    }
  }

  /**
   * A row written from two valid instants (each as a full date-time or a
   * bare date), two station texts and two numbers (each fixed-point or
   * blank) decodes to exactly those values, with midnight for a bare date
   * and 0 for a blank number.
   */
  lemma {:induction false} DecodeWrittenRow(departure: Timestamp, departureDateOnly: bool,
                                            return_: Timestamp, returnDateOnly: bool,
                                            departureStation: string, returnStation: string,
                                            distanceBlank: bool, distance: nat, distanceScale: nat,
                                            durationBlank: bool, duration: nat, durationScale: nat)
    requires Valid(departure) && Valid(return_)
    ensures Decode(JourneyRow(TimestampText(departure, departureDateOnly), TimestampText(return_, returnDateOnly),
                              departureStation, returnStation,
                              NumberText(distanceBlank, distance, distanceScale),
                              NumberText(durationBlank, duration, durationScale)))
         == Success(Journey(TimestampRead(departure, departureDateOnly), TimestampRead(return_, returnDateOnly),
                            departureStation, returnStation,
                            NumberRead(distanceBlank, distance, distanceScale),
                            NumberRead(durationBlank, duration, durationScale)))
  {
    var departureText, returnText := TimestampText(departure, departureDateOnly), TimestampText(return_, returnDateOnly);
    var distanceText := NumberText(distanceBlank, distance, distanceScale);
    var durationText := NumberText(durationBlank, duration, durationScale);
    var row := JourneyRow(departureText, returnText, departureStation, returnStation, distanceText, durationText);
    JourneyRowColumns(departureText, returnText, departureStation, returnStation, distanceText, durationText);
    TimestampColumnReads(row, DEPARTURE, departure, departureDateOnly);
    TimestampColumnReads(row, RETURN, return_, returnDateOnly);
    NumberColumnReads(row, COVERED_DISTANCE, distanceBlank, distance, distanceScale);
    NumberColumnReads(row, DURATION, durationBlank, duration, durationScale);
  }

  /** The first row of the well-formed integration data decodes to the tests' sample journey. */
  lemma WellFormedRowExample()
    ensures Decode(JourneyRow("2021-05-31T23:57:25", "2021-06-01T00:05:46", "094", "100", "2043", "500"))
         == Success(SampleJourney())
  {
    var row := JourneyRow("2021-05-31T23:57:25", "2021-06-01T00:05:46", "094", "100", "2043", "500");
    JourneyRowColumns("2021-05-31T23:57:25", "2021-06-01T00:05:46", "094", "100", "2043", "500");
    var j := SampleJourney();
    DepartureExampleFormatted();
    ReturnExampleFormatted();
    ParseFormattedDateTime(j.departureTime);
    ParseFormattedDateTime(j.returnTime);
    DistanceExample();
    DurationExample();
    assert DateTimeField(row, DEPARTURE) == Success(j.departureTime);
    assert DateTimeField(row, RETURN) == Success(j.returnTime);
    assert DefaultIfEmpty(row, COVERED_DISTANCE) == Success(2043.0);
    assert DefaultIfEmpty(row, DURATION) == Success(500.0);
  }

  // ---------------------------------------------------------------------------
  // Validation

  /** The pattern `^[0-9]{3}$`: exactly three ASCII digits and nothing else. */
  predicate IsStationId(s: string) {
    |s| == 3 && AllDigits(s)
  }

  const MIN_DISTANCE_M: real := 10.0
  const MIN_DURATION_SEC: real := 10.0

  /** The validation rules, each named after the field or the check it belongs to. */
  datatype Rule = DepartureStationId | ReturnStationId | DistanceM | DurationSec | DepartureBeforeReturn

  /** Whether `j` satisfies one rule, rule by rule. */
  predicate Holds(rule: Rule, j: Journey) {
    match rule
    case DepartureStationId => IsStationId(j.departureStationId)
    case ReturnStationId => IsStationId(j.returnStationId)
    case DistanceM => j.distanceM >= MIN_DISTANCE_M
    case DurationSec => j.durationSec >= MIN_DURATION_SEC
    case DepartureBeforeReturn => Before(j.departureTime, j.returnTime)
  }

  /** The per-field checks: the two station-id patterns and the two ranges. */
  function FieldErrors(j: Journey): set<Rule> {
    (if IsStationId(j.departureStationId) then {} else {DepartureStationId})
    + (if IsStationId(j.returnStationId) then {} else {ReturnStationId})
    + (if j.distanceM >= MIN_DISTANCE_M then {} else {DistanceM})
    + (if j.durationSec >= MIN_DURATION_SEC then {} else {DurationSec})
  }

  /** `validate_departure_prior_to_return`, the schema-level check. */
  function SchemaErrors(j: Journey): set<Rule> {
    if Before(j.departureTime, j.returnTime) then {} else {DepartureBeforeReturn}
  }

  /**
   * The derived `validate()`: field checks first; the schema check runs unless
   * `skipOnFieldErrors` is set and a field check already failed.
   */
  function ValidateWith(j: Journey, skipOnFieldErrors: bool): Outcome<set<Rule>> {
    var fieldErrors := FieldErrors(j);
    var errors := if skipOnFieldErrors && fieldErrors != {} then fieldErrors else fieldErrors + SchemaErrors(j);
    if errors == {} then Pass else Fail(errors)
  }

  /** The struct is declared with `skip_on_field_errors = false`. */
  const SKIP_ON_FIELD_ERRORS := false

  function Validate(j: Journey): Outcome<set<Rule>> {
    ValidateWith(j, SKIP_ON_FIELD_ERRORS)
  }

  predicate IsValid(j: Journey) {
    Validate(j).Pass?
  }

  /** `validate()` fails exactly when some rule is broken, and then reports every broken rule and no other. */
  lemma ValidateReportsBrokenRules(j: Journey)
    ensures Validate(j).Pass? <==> forall rule :: Holds(rule, j)
    ensures Validate(j).Fail? ==> forall rule :: rule in Validate(j).error <==> !Holds(rule, j)
  {
    var errors := FieldErrors(j) + SchemaErrors(j);
    forall rule
      ensures rule in errors <==> !Holds(rule, j)
    {
    }
    if Validate(j).Pass? {
      assert errors == {};
    } else {
      assert Validate(j).error == errors;
    }
  }

  /** A journey is valid iff both ids are three digits, both quantities are at least 10 and it ends after it starts. */
  lemma IsValidIffAllRules(j: Journey)
    ensures IsValid(j) <==>
      && IsStationId(j.departureStationId) && IsStationId(j.returnStationId)
      && j.distanceM >= 10.0 && j.durationSec >= 10.0
      && Before(j.departureTime, j.returnTime)
  {
    ValidateReportsBrokenRules(j);
    if Holds(DepartureStationId, j) && Holds(ReturnStationId, j) && Holds(DistanceM, j)
       && Holds(DurationSec, j) && Holds(DepartureBeforeReturn, j)
    {
      assert forall rule :: Holds(rule, j);
    }
  }

  /**
   * The departure-before-return check is reported even when field checks have
   * already failed; with `skip_on_field_errors = true` it would be hidden.
   */
  lemma ScheduleCheckedDespiteFieldErrors(j: Journey)
    requires !Before(j.departureTime, j.returnTime)
    ensures Validate(j).Fail? && DepartureBeforeReturn in Validate(j).error
    ensures FieldErrors(j) != {} ==> ValidateWith(j, true) == Fail(FieldErrors(j))
  {
  }

  // ---------------------------------------------------------------------------
  // Decode, then validate

  /** The journey a row yields when it both decodes and validates. */
  function Accept(row: Row): (r: Option<Journey>)
    ensures r.Some? ==> Decode(row) == Success(r.value) && IsValid(r.value)
    ensures r.None? ==> Decode(row).Failure? || !IsValid(Decode(row).value)
  {
    match Decode(row)
    case Success(j) => if IsValid(j) then Some(j) else None
    case Failure(_) => None
  }

  /** A row with a blank distance or duration is never accepted: its 0 fails the minimum of 10. */
  lemma BlankNumberNeverAccepted(row: Row)
    requires COVERED_DISTANCE in row && DURATION in row
    requires row[COVERED_DISTANCE] == "" || row[DURATION] == ""
    ensures Accept(row) == None
  {
    if Decode(row).Success? {
      var j := Decode(row).value;
      assert row[COVERED_DISTANCE] == "" ==> j.distanceM == 0.0;
      assert row[DURATION] == "" ==> j.durationSec == 0.0;
      IsValidIffAllRules(j);
    }
  }

  // ---------------------------------------------------------------------------
  // The validator's test cases

  /** The well-formed journey of the tests: 2021-05-31T23:57:25 to 2021-06-01T00:05:46, 094 to 100. */
  function SampleJourney(): Journey {
    Journey(Timestamp(2021, 5, 31, 23, 57, 25), Timestamp(2021, 6, 1, 0, 5, 46), "094", "100", 2043.0, 500.0)
  }

  lemma SampleJourneyIsValid()
    ensures IsValid(SampleJourney())
  {
    IsValidIffAllRules(SampleJourney());
  }

  /** Departing after returning, a malformed id, or 9.9 m or 9.9 s each makes the sample invalid. */
  lemma SampleVariantsAreInvalid()
    ensures !IsValid(SampleJourney().(departureTime := Timestamp(2021, 6, 2, 0, 5, 46)))
    ensures !IsValid(SampleJourney().(departureStationId := "xxx"))
    ensures !IsValid(SampleJourney().(departureStationId := "0459"))
    ensures !IsValid(SampleJourney().(distanceM := 9.9))
    ensures !IsValid(SampleJourney().(durationSec := 9.9))
  {
    StationIdExamples();
    IsValidIffAllRules(SampleJourney().(departureTime := Timestamp(2021, 6, 2, 0, 5, 46)));
    IsValidIffAllRules(SampleJourney().(departureStationId := "xxx"));
    IsValidIffAllRules(SampleJourney().(departureStationId := "0459"));
    IsValidIffAllRules(SampleJourney().(distanceM := 9.9));
    IsValidIffAllRules(SampleJourney().(durationSec := 9.9));
  }

  /** The station-id pattern on the tests' ids: "094" and "100" pass, "xxx" and "0459" do not. */
  lemma StationIdExamples()
    ensures IsStationId("094") && IsStationId("100")
    ensures !IsStationId("xxx") && !IsStationId("0459")
  {
    assert !IsDigit("xxx"[0]);
  }
}
