# Air-quality dashboard: data shaping, modelled in Dafny

The dashboard fetches a flat batch of measurements. Each record holds a
timestamp, a parameter such as `NO2` or `PM2.5`, a value and a unit. The
dashboard turns the batch into three things:

- a parameter-to-unit mapping, filled first-come, except that a falsy stored unit can be replaced;
- the list of distinct parameters, in order of first appearance;
- the chart rows: one row per day, keyed by the part of the timestamp before the first `T`
  (the date/time separator of RFC 3339, section 5.6). Within a day, the last value per parameter wins.
  The rows are sorted by day.

A label formatter shows every ASCII digit of a parameter name as the
Unicode subscript glyph U+2080 to U+2089. The chart also makes two small
lookups: the colour of series `index`, and the tooltip's unit for a
series.

The project has four modules:

- `Labels` (labels.dfy): the formatter, a pure function.
- `DayKeys` (day_keys.dfy): the day key of a timestamp, and the order used to sort rows. The
  rows are sorted by comparing keys code point by code point. For well-formed `YYYY-MM-DD`
  keys this is proved to be calendar order.
- `Aggregation` (aggregation.dfy): the record and row datatypes, and each derived structure as
  a function of the whole batch (`Units`, `Distinct`, `Grouped`, `Rows`; `ParameterNames` is
  `data.map(item => item.parameter)`). It also holds the
  lemmas that state what these structures mean.
- `Dashboard` (dashboard.dfy): the loops that fill the mutable dictionaries
  (`CollectUnits`, `CollectRows`), each proved equal to its function. It also holds the
  component state as a class whose `OnData` handler replaces all three fields, and the
  colour and tooltip lookups.

Three behaviours of the code are easy to misread; the model follows the code:

- Units are not strictly first-write-wins. `!mapping[p]` lets a later record replace a falsy
  stored unit. So a parameter's unit is the unit of the first record bearing it that has a
  non-empty unit, and `""` when there is none.
- A timestamp without a `T` is not an error. Its whole string is the day key.
- An empty or non-array batch raises no error. The previous state is kept, and the batch is only
  reported.

In the model, `""` stands for every falsy unit (missing, `null` or empty).

## Model

| member | source | states |
|---|---|---|
| `Labels.FormatChar` | frontend/src/AirQualityDashboard.jsx:23-35 | an ASCII digit d becomes the character with code point 0x2080 + d; any other character is kept; the result is never an ASCII digit |
| `Labels.FormatParameter` | frontend/src/AirQualityDashboard.jsx:22-36 | the output has the input's length; each ASCII digit at position i becomes U+2080 + digit at position i; every other character is unchanged; the output has no ASCII digit |
| `Labels.FormatFixpointIff` | frontend/src/AirQualityDashboard.jsx:35 | formatting leaves a name unchanged if and only if the name has no ASCII digit |
| `Labels.FormatIdempotent` | frontend/src/AirQualityDashboard.jsx:35 | formatting an already formatted name changes nothing |
| `Labels.FormatAt` | frontend/src/AirQualityDashboard.jsx:35 | each position of the label holds the replacement of the name's character at that position |
| `Labels.FormatConcat` | frontend/src/AirQualityDashboard.jsx:35 | the formatter works per character: formatting a concatenation concatenates the formatted parts |
| `Labels.FormatExamples` | frontend/src/AirQualityDashboard.jsx:20-21 | "NO2" gives "NO₂", "PM2.5" gives "PM₂.₅", "O3" gives "O₃", "ABC" and "" are unchanged |
| `DayKeys.DayKey` | frontend/src/AirQualityDashboard.jsx:60 | the key is a prefix of the timestamp, contains no "T", and ends where the timestamp ends or at its first "T" |
| `DayKeys.DayKeyUnique` | frontend/src/AirQualityDashboard.jsx:60 | those three properties determine the key, so they specify `split("T")[0]` completely |
| `DayKeys.DayKeyOfTimestamp` | frontend/src/AirQualityDashboard.jsx:60 | the key of day + "T" + time is day, whenever day has no "T" |
| `DayKeys.DayKeyIdempotent` | frontend/src/AirQualityDashboard.jsx:60 | the key of a key is the key itself |
| `DayKeys.LexIrreflexive` | frontend/src/AirQualityDashboard.jsx:66-68 | no key sorts before itself |
| `DayKeys.LexTransitive` | frontend/src/AirQualityDashboard.jsx:66-68 | the sort order of keys is transitive |
| `DayKeys.LexTotal` | frontend/src/AirQualityDashboard.jsx:66-68 | of two different keys, one sorts before the other |
| `DayKeys.LexAsymmetric` | frontend/src/AirQualityDashboard.jsx:66-68 | two keys never sort before each other |
| `DayKeys.DigitsLexIsNumeric` | frontend/src/AirQualityDashboard.jsx:67 | for digit fields of one width, string order is numeric order and string equality is numeric equality |
| `DayKeys.WellFormedLexIsChronological` | frontend/src/AirQualityDashboard.jsx:66-68 | for YYYY-MM-DD keys, one key sorts before another if and only if its (year, month, day) comes first |
| `Aggregation.Units` | frontend/src/AirQualityDashboard.jsx:45-50 | the mapping has an entry for exactly the parameters that occur in the batch |
| `Aggregation.UnitsAllEmpty` | frontend/src/AirQualityDashboard.jsx:47-48 | if every record bearing p has a falsy unit, p's entry is falsy |
| `Aggregation.UnitsFirstNonEmptyWins` | frontend/src/AirQualityDashboard.jsx:45-50 | p's entry is the unit of the first record, in input order, that bears p and has a non-empty unit; later records never replace it |
| `Aggregation.Distinct` | frontend/src/AirQualityDashboard.jsx:54 | the list holds exactly the elements of the input, each once |
| `Aggregation.DistinctFirstAppearance` | frontend/src/AirQualityDashboard.jsx:54 | if a parameter is listed before another, it first appears in the batch before every occurrence of the other |
| `Aggregation.Grouped` | frontend/src/AirQualityDashboard.jsx:58-65 | the dictionary has an entry for exactly the day keys of the batch's records |
| `Aggregation.GroupedHas` | frontend/src/AirQualityDashboard.jsx:59-64 | a day's entry holds parameter p if and only if some record of that day has parameter p |
| `Aggregation.GroupedLastWins` | frontend/src/AirQualityDashboard.jsx:64 | a cell holds the value of the last record, in input order, with that day and parameter |
| `Aggregation.Insert` | frontend/src/AirQualityDashboard.jsx:66-68 | inserting a row with a new day into a sorted list gives a sorted list of the same rows plus the new one |
| `Aggregation.SortByDate` | frontend/src/AirQualityDashboard.jsx:66-68 | for rows with distinct days, the result is strictly increasing by day and is a permutation of the input |
| `Aggregation.DayRows` | frontend/src/AirQualityDashboard.jsx:66 | before sorting there is one row per distinct day key, each holding that day's cells, and no day appears twice |
| `Aggregation.Rows` | frontend/src/AirQualityDashboard.jsx:58-68 | the chart data is strictly increasing by day and has one row per distinct day key; a row is present if and only if it pairs a day of the batch with that day's cells |
| `Aggregation.RowsDistinctDates` | frontend/src/AirQualityDashboard.jsx:61-63 | no two rows share a day key |
| `Aggregation.RowForEveryRecord` | frontend/src/AirQualityDashboard.jsx:59-63 | every record's day has a row |
| `Aggregation.RowHasParameter` | frontend/src/AirQualityDashboard.jsx:59-64 | a row holds p if and only if some record of its day has p, so an unseen parameter is absent, not zero |
| `Aggregation.RowValueIsLast` | frontend/src/AirQualityDashboard.jsx:64 | a row's value for p is the value of the last record of that day with p |
| `Aggregation.RowParametersAreKnown` | frontend/src/AirQualityDashboard.jsx:46-64 | every parameter held by a row is in the parameter list and has an entry in the unit mapping |
| `Aggregation.TwoDaysScenario` | frontend/src/AirQualityDashboard.jsx:43-69 | for any two days d1 < d2 and any distinct parameters p and q: two p readings on d1 and one q reading on d2 give rows [(d1, {p: second value}), (d2, {q: value})], parameters [p, q] and a unit for each |
| `Aggregation.NitrogenOzoneScenario` | frontend/src/AirQualityDashboard.jsx:43-69 | NO2 12 and 18 on 2024-01-01 plus O3 30 on 2024-01-02 give rows [("2024-01-01", {NO2: 18}), ("2024-01-02", {O3: 30})], parameters ["NO2", "O3"] and µg/m³ for both |
| `Dashboard.CollectUnits` | frontend/src/AirQualityDashboard.jsx:45-50 | the in-place loop over the batch builds exactly `Units` of the batch |
| `Dashboard.CollectRows` | frontend/src/AirQualityDashboard.jsx:58-68 | the in-place loop, `Object.values` and the sort build exactly `Rows` of the batch |
| `Dashboard.SeriesColor` | frontend/src/AirQualityDashboard.jsx:175 | every series gets a palette colour; the first six series get the palette's colours in order |
| `Dashboard.SeriesColorSharedIff` | frontend/src/AirQualityDashboard.jsx:175 | two series share a colour if and only if their indices are equal modulo the palette size of 6 |
| `Dashboard.TooltipUnit` | frontend/src/AirQualityDashboard.jsx:93 | the tooltip shows the mapped unit of a known series and "" for an unknown one |
| `Dashboard.TooltipShowsFirstUnit` | frontend/src/AirQualityDashboard.jsx:93 | after a batch, the tooltip shows p's first non-empty unit in input order, and "" for a parameter the batch lacks |
| `Dashboard.Dashboard.constructor` | frontend/src/AirQualityDashboard.jsx:15-17 | the component starts with no rows, no parameters and no units, which satisfies its invariant |
| `Dashboard.Dashboard.OnData` | frontend/src/AirQualityDashboard.jsx:43-72 | a non-empty array replaces the unit mapping, parameter list and rows with `Units`, `Distinct` and `Rows` of the batch; any other payload leaves all three unchanged; the invariant is kept (sorted rows, distinct parameters, every row value listed and with a unit) |

## Left out

- Rendering is not modelled: the JSX markup, chart and legend components, tooltip layout, animation,
  styling and the pointer-following background (frontend/src/AirQualityDashboard.jsx:77-203).
  Only the two lookups the chart makes (colour, tooltip unit) are modelled.
- The `fetch` and `response.json()` chain, the `.catch` handler and `console.error` are asynchronous
  I/O. The model starts from the parsed body, a `Payload` that is either an array of records or
  something else. A failed fetch never reaches the handler, so the state stays unchanged.
- `new Date(a.date) - new Date(b.date)` is not modelled. `SortByDate` compares day keys code point
  by code point instead, with `DayKeys.LexLess`. `WellFormedLexIsChronological` proves this is calendar order for
  `YYYY-MM-DD` keys. Keys not of that form are sorted lexically by the model. The source may
  instead give NaN, or ties that keep the dictionary's order (as for "2024-01" and "2024-01-01",
  the same instant), or another order (expanded years such as "+010000-01-01"). None of that is
  modelled. Whether a well-formed key names a real calendar day is not checked either.
- `Aggregation.SortByDate`: requires distinct day keys. This is all the handler ever passes it: the
  rows come from a dictionary. Stability among equal keys is therefore not stated.
- In the source, each row object carries its date under the property `date`, next to the parameter
  values. A parameter literally named `date` would overwrite the row's key. The model keeps the key
  apart from the values, so that collision is not modelled.
- Parameter names or day keys that coincide with properties inherited from `Object.prototype`
  (`constructor`, `toString`, `__proto__`) behave differently in the source's plain objects. The
  model treats both dictionaries as plain maps.
- Integer-like object keys, which `Object.values` enumerates first, are not modelled. The model uses
  insertion order. For `YYYY-MM-DD` keys that name real calendar days, that order cannot show in
  the result: such keys are never integer-like, and the comparator never ties two distinct ones.
  For other keys it can, through the ties and NaN results described above.
- A record without a string `date` makes `split` throw after the unit mapping and parameter list
  are set. The model's records always carry a string date, so that partial update is not modelled.
- Values are JSON numbers, modelled as `real`. They are only copied, never computed with.
- Strings are sequences of code points rather than UTF-16 units. A character outside the Basic
  Multilingual Plane is one element here but two units in the source, so lengths and positions
  differ for such names. The formatter still agrees, because a digit is never part of a surrogate
  pair. A lone surrogate, which JSON can carry, has no representation in the model.
- React's state setters are modelled as direct field assignments made together at the end of the
  handler. React's batching and re-rendering are not modelled.
- data_ingestion.py (HTTP calls to the measurement service, environment key, clock) and app.py (the
  web server route) are not part of this model.
