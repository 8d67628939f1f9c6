# Helsinki city-bike journeys: ingestion model

This project models how the Helsinki bike app ingests journey data, and proves
properties of that model. The data is CSV published per month, one row per
bicycle journey: departure and return instants, departure and return station
ids, covered distance in metres and duration in seconds.

The modelled pipeline of `src/journey.rs` has three stages:

- **Decoding.** Each row is decoded by column name. Timestamps go through
  `parse_naive_date_time`, which accepts a full date-time or a bare date
  meaning midnight. Numbers go through `default_if_empty`, which reads an
  empty field as 0.
- **Validation.** The derived validator checks the rows: station ids of three
  digits, distance and duration of at least 10, and departure strictly before
  return.
- **Loading.** `insert_into_db` drops every row that fails to decode or
  validate, keeps the rest in order, and cuts them into chunks of 8192. Each
  chunk is transposed into six column arrays and inserted with one
  insert-or-ignore statement keyed on all six fields. The first failing
  statement ends the load.

The earlier decoder of `src/lib.rs` is modelled beside it. It has the same
columns and no validation. Its `fetch_and_parse` loop prints every decoded
row and stops at the first row that fails to decode.

Modules, one file each:

- `Wrappers` (`wrappers.dfy`): `Option`, `Result` (usable with `:-`) and `Outcome`.
- `Digits` (`digits.dfy`): fixed-width decimal digit strings: reading, padding, round trips.
- `Timestamps` (`timestamps.dfy`): the `NaiveDateTime` record, its order, its two written forms, `parse_naive_date_time`.
- `Numbers` (`numbers.dfy`): the decimal number grammar of the numeric fields, read as exact reals.
- `Fields` (`fields.dfy`): a row as a map from header name to text; the column, timestamp and `default_if_empty` field decoders shared by both decoders.
- `Journeys` (`journeys.dfy`): the validated `Journey` of `src/journey.rs`: decoder, rules, `validate()`, the unit tests' journeys.
- `Loader` (`loader.dfy`): filtering, chunking, transposing, the `Store` class, and the chunk loop of `insert_into_db`.
- `Legacy` (`legacy.dfy`): the unvalidated `Journey` of `src/lib.rs` and the `fetch_and_parse` loop.

The store is a class whose `rows: set<Journey>` is the journeys table. One
`Journey` value stands for one six-field key of the `u_stats` constraint.
Each insert statement either fails and changes nothing, or adds the rows of
its chunk. Adding to a set is what "on conflict do nothing" does for
duplicate keys. Whether the `i`-th statement fails is a parameter, the set
`faults` of chunk indices. The fetch in `fetch_and_parse` is an
`Option<seq<Row>>` parameter, `None` when the request failed. The `println!`
output is the returned sequence `printed`.

## Model

| member | source | states |
|---|---|---|
| Timestamps.BeforeIsStrictTotalOrder | src/journey.rs:47 | the `<` on `NaiveDateTime` that the schema check uses is irreflexive, transitive, asymmetric and total, so "not before" means "same instant or later" |
| Timestamps.ParseNaiveDateTimeExactly | src/journey.rs:62-73 | a string parses to `t` if and only if `t` is a real calendar instant and the string is its `YYYY-MM-DDThh:mm:ss` form, or `t` is a midnight and the string is its `YYYY-MM-DD` form; every other string is rejected |
| Timestamps.ParseFormattedDateTime | src/journey.rs:67 | a full date-time written from a valid instant parses back to exactly that instant |
| Timestamps.ParseFormattedDateOnly | src/journey.rs:68-71 | a bare date parses to midnight of that date (`NaiveTime::default()`) |
| Timestamps.ParsedIsFormatted | src/journey.rs:66-72 | every accepted string is one of the two written forms of the instant it parsed to |
| Timestamps.ParseNaiveDateTime | src/journey.rs:62-73 | whatever is accepted is a valid calendar instant |
| Timestamps.DateOnlyExample | tests/integration/parse_journey.rs:66-74 | "2021-05-31" parses to 2021-05-31T00:00:00 |
| Timestamps.DepartureExampleFormatted | tests/integration/parse_journey.rs:8 | 2021-05-31T23:57:25 is written as the test row's departure text |
| Timestamps.ReturnExampleFormatted | tests/integration/parse_journey.rs:8 | 2021-06-01T00:05:46 is written as the test row's return text |
| Timestamps.NonexistentDateExample | src/journey.rs:67-72 | "2021-02-29" is rejected: both forms require a real calendar date |
| Timestamps.MalformedExamples | src/journey.rs:67-72 | a space instead of `T`, a trailing offset and the empty string are all rejected |
| Numbers.ParseNumber | src/journey.rs:59 | the empty text is not a number, and only a text starting with `-` reads as a negative number |
| Numbers.ParseFormattedFixed | src/journey.rs:59 | any non-negative number written in fixed-point notation reads back as exactly its value |
| Numbers.ParseSignedFixed | src/journey.rs:59 | a leading `-` negates the number and a leading `+` keeps it |
| Numbers.ShortDistanceExample | src/journey.rs:194-200 | the value 9.9 of the too-short-distance test, written as the text "9.9", reads as exactly 9.9 |
| Numbers.DistanceExample | tests/integration/parse_journey.rs:8 | "2043" reads as 2043 |
| Numbers.DurationExample | tests/integration/parse_journey.rs:8 | "500" reads as 500 |
| Numbers.MalformedNumberExamples | src/journey.rs:59 | "abc", a lone "." and a lone "-" are not numbers |
| Numbers.TwoDotsExample | src/journey.rs:59 | "1.2.3" is not a number |
| Fields.DateTimeField | src/journey.rs:62-73 | a timestamp field succeeds exactly when the column exists and its text parses, and then holds the parsed valid instant |
| Fields.DefaultIfEmpty | src/journey.rs:54-60 | an empty field reads as 0; a non-empty one succeeds exactly when it is a number and then holds that number; a missing column fails |
| Journeys.Decode | src/journey.rs:22-42 | a decoded journey holds valid instants, and a row missing any of the six columns never decodes |
| Journeys.DecodeReadsColumnsByName | src/journey.rs:23-40 | two rows that agree on the six named columns decode alike, whatever other columns they have |
| Journeys.DecodeWrittenRow | src/journey.rs:22-41 | a row written from two valid instants (each as a full date-time or a bare date), two station texts and two numbers (each fixed-point or blank) decodes to exactly those values, with midnight for a bare date and 0 for a blank number |
| Journeys.WellFormedRowExample | tests/integration/parse_journey.rs:6-24 | the first row of the well-formed test data decodes to the expected journey |
| Journeys.TimestampColumnReads | tests/integration/parse_journey.rs:63-118 | a timestamp column written from a valid instant reads back as that instant, or as midnight of its date when only the date is written |
| Journeys.NumberColumnReads | tests/integration/parse_journey.rs:121-164 | a blank number column reads as 0, and one written as a fixed-point number reads back as that number |
| Journeys.ValidateReportsBrokenRules | src/journey.rs:17-52 | `validate()` passes if and only if every rule holds, and on failure reports exactly the broken rules |
| Journeys.IsValidIffAllRules | src/journey.rs:13-52 | a journey is valid if and only if both ids are three digits, distance and duration are at least 10, and departure is strictly before return |
| Journeys.ScheduleCheckedDespiteFieldErrors | src/journey.rs:18-21 | a journey that does not depart before it returns is rejected with that rule reported, whatever its other fields; with `skip_on_field_errors = true` field errors would hide it |
| Journeys.Accept | src/journey.rs:83-90 | a row yields a journey exactly when it decodes and the journey validates |
| Journeys.BlankNumberNeverAccepted | src/journey.rs:33-41 | a row with a blank distance or duration is never accepted |
| Journeys.SampleJourneyIsValid | src/journey.rs:147-165 | the tests' journey (094 to 100, 2043 m, 500 s) is valid |
| Journeys.SampleVariantsAreInvalid | src/journey.rs:167-209 | departing after returning, the ids "xxx" or "0459", a distance of 9.9 or a duration of 9.9 each make it invalid |
| Journeys.StationIdExamples | src/journey.rs:14 | "094" and "100" match `^[0-9]{3}$`; "xxx" and "0459" do not |
| Loader.FilterMap | src/journey.rs:86-90 | filtering keeps at most as many values as there are rows, each produced by some row |
| Loader.Accepted | src/journey.rs:83-90 | every accepted journey is valid |
| Loader.AcceptedMembers | src/journey.rs:83-90 | a journey is accepted if and only if some row decodes to it and it validates |
| Loader.AcceptedAppend | src/journey.rs:86-90 | filtering a concatenation gives the concatenation of the filtered parts: row order is kept |
| Loader.DroppedRowDoesNotStopLaterRows | src/journey.rs:86 | a dropped row leaves the accepted journeys before and after it as they would be without it |
| Loader.Chunks | src/journey.rs:91 | no chunk is empty, every chunk but the last holds exactly the chunk size, and there are no chunks exactly when there are no journeys |
| Loader.FlattenChunks | src/journey.rs:91 | the chunks concatenate back to the accepted sequence |
| Loader.ChunksOf8193 | src/journey.rs:80-91 | 8193 journeys make a chunk of 8192 and a chunk of 1 |
| Loader.Transpose | src/journey.rs:94-106 | the six columns of a chunk all have the chunk's length |
| Loader.UnnestTranspose | src/journey.rs:94-110 | unnesting the six columns gives the chunk back, so entry `k` of each column is that field of journey `k` |
| Loader.TransposeUnnest | src/journey.rs:94-110 | transposing unnested columns gives the columns back |
| Loader.Store.InsertOrIgnore | src/journey.rs:108-118 | a failing statement changes nothing; otherwise the store becomes the old store united with the chunk's rows |
| Loader.Applied | src/journey.rs:93-119 | the number of statements that run is the index of the first failing one, or all of them |
| Loader.InsertChunks | src/journey.rs:93-121 | the loop succeeds exactly when no statement fails, and the store then holds the old rows plus the rows of the chunks applied before the first failure |
| Loader.InsertIntoDb | src/journey.rs:79-122 | the same for the chunks of the accepted rows; a complete load leaves the old rows plus exactly the accepted journeys |
| Loader.ReloadIsIdempotent | src/journey.rs:108-111 | loading the same data twice leaves the same store as loading it once |
| Loader.LoadWithoutFaultsCompletes | src/journey.rs:118-121 | without failing statements every chunk is applied |
| Loader.ReloadAfterFailure | src/journey.rs:108-118 | after a load stopped at any chunk, a complete reload gives the same store as one complete load |
| Loader.DistinctElemsCount | src/journey.rs:108-111 | distinct journeys each add one row: nothing is lost to the uniqueness key |
| Legacy.Decode | src/lib.rs:7-24 | a decoded journey holds valid instants, and a row missing any of the six columns never decodes |
| Legacy.DecodeAgreesWithValidatedDecoder | src/lib.rs:7-45 | this decoder accepts the same rows as the validated one's decoder, fails with the same error, and reads the same values |
| Legacy.DecodeAcceptsUnvalidatedValues | src/lib.rs:7-24 | any station-id texts, any fixed-point numbers and any two instants, even a return before the departure, decode as written |
| Legacy.DecodeTimestampColumns | src/lib.rs:34-45 | each timestamp column is the full date-time form of its value, or the bare date of a midnight |
| Legacy.DecodeNumericColumns | src/lib.rs:26-32 | an empty numeric column reads as 0, any other as the number it spells |
| Legacy.FirstFailure | src/lib.rs:51-54 | every row before the returned position decodes and the row at it does not |
| Legacy.CollectPrintsPrefix | src/lib.rs:51-54 | the loop prints exactly as many journeys as there are rows before the first failing one |
| Legacy.CollectPrintsInOrder | src/lib.rs:51-53 | the `i`-th printed journey is the decoding of the `i`-th row |
| Legacy.CollectReturnsFirstError | src/lib.rs:51-56 | the loop returns the error of the first failing row, or success when every row decodes |
| Legacy.FetchAndParse | src/lib.rs:47-57 | a failed fetch prints nothing and fails; otherwise what is printed and returned is the row-by-row fold of the decoded rows |

## Left out

- HTTP fetching (`fetch_journey_data`, the request in `fetch_and_parse`) and the per-URL loop of `data_worker`: network I/O. The fetch result is a parameter.
- The routes, server start-up, configuration, telemetry and database migration code: they have no logic of their own to model.
- Postgres itself: SQL semantics, the surrogate key, the real `unnest` of arrays of unequal length (the model only unnests equal-length columns, which is all the loader builds), connection pools and async execution. The store is an abstract set of six-field rows.
- Loader.InsertChunks: why a statement fails is not modelled. The `faults` parameter names the failing statements.
- The CSV lexical layer: quoting, delimiters, the header line and per-record length errors. A row is already a map from header name to text. Only that map's six journey columns are read.
- Journeys.Decode: precedence among several bad fields in one row is not modelled as the csv deserializer orders it. The model reports the first bad field in declaration order. Which rows fail and which succeed, and with what values, is unaffected.
- Timestamps.ParseNaiveDateTime: chrono's leniencies are not modelled; the model accepts exactly `full-date "T" partial-time` of section 5.6 of RFC 3339 without fraction or offset, or a bare `full-date`, each field with its full number of digits. chrono accepts more, among them fields with fewer digits (`2021-5-31`, `2021-05-31T7:05:46`, and `21-05-31` as the year 21), fractional seconds, leap seconds (second 60), years outside 0000-9999 and signed years. Such rows load in the source and fail to decode in the model.
- Numbers.ParseNumber: `f32`/`f64` are not modelled. The numbers are exact reals, so there is no rounding. Only signs, digits and one decimal point are read. Rust's float parser also accepts exponents (`2.043e3`), `inf`, `infinity` and `NaN`. Infinity passes `range(min = 10.0)`, and NaN does too when the minimum is checked with `<`, so `src/journey.rs` loads such rows while the model fails to decode them.
- Legacy.DecodeAcceptsUnvalidatedValues: the numeric columns are stated for non-negative fixed-point texts. Signed numbers are covered separately by Numbers.ParseSignedFixed.
- `println!` formatting: the printed journeys are returned as a sequence.
- The repository does not build as one crate: `src/lib.rs` declares no `journey` module, yet the tests import it. `src/journey.rs` is the authoritative pipeline. The `src/lib.rs` decoder is modelled as a separate, earlier variant.
