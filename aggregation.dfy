/** The data shaping done when a batch of measurements arrives: the
    parameter-to-unit mapping, the list of distinct parameters and the chart
    rows (one per day, values pivoted by parameter, sorted by date).
    Each is given here as a function of the whole batch; the loops that build
    them in place are in module Dashboard and are proved equal to these. */
module Aggregation {
  import opened DayKeys

  /** One measurement as the endpoint delivers it. A falsy unit (missing,
      null or empty) is represented by "". */
  datatype Record = Record(date: string, parameter: string, value: real, unit: string)

  /** One chart row: its day key and the value of each parameter measured that day. */
  datatype Row = Row(date: string, values: map<string, real>)

  /** `data.map(item => item.parameter)` */
  function ParameterNames(data: seq<Record>): seq<string> {
    seq(|data|, i requires 0 <= i < |data| => data[i].parameter)
  }

  /** The day key of every record, in input order. */
  function DayKeysOf(data: seq<Record>): seq<string> {
    seq(|data|, i requires 0 <= i < |data| => DayKey(data[i].date))
  }

  lemma NamesAndKeysOfSnoc(data: seq<Record>)
    requires data != []
    ensures ParameterNames(data) == ParameterNames(data[..|data| - 1]) + [data[|data| - 1].parameter]
    ensures DayKeysOf(data) == DayKeysOf(data[..|data| - 1]) + [DayKey(data[|data| - 1].date)]
  {
  }

  /** Two records that write the same cell of the chart: same day, same parameter. */
  predicate SameCell(a: Record, b: Record) {
    DayKey(a.date) == DayKey(b.date) && a.parameter == b.parameter
  }

  // ---------------------------------------------------------------------
  // Unit mapping

  /** The unit mapping after a left-to-right pass: a record's unit is stored
      when its parameter has no entry yet or its entry is falsy. */
  function Units(data: seq<Record>): (units: map<string, string>)
    ensures forall p :: p in units <==> p in ParameterNames(data)
  {
    if data == [] then map[]
    else
      var units := Units(data[..|data| - 1]);
      var item := data[|data| - 1];
      NamesAndKeysOfSnoc(data);
      if item.parameter !in units || units[item.parameter] == "" then units[item.parameter := item.unit]
      else units
  }

  /** While every record bearing p has a falsy unit, p's entry stays falsy. */
  lemma {:induction false} UnitsAllEmpty(data: seq<Record>, p: string)
    requires forall j :: 0 <= j < |data| && data[j].parameter == p ==> data[j].unit == ""
    ensures p in Units(data) ==> Units(data)[p] == ""
  {
    if data != [] {
      UnitsAllEmpty(data[..|data| - 1], p);
    }
  }

  /** A parameter's unit is that of the first record bearing it whose unit is
      not falsy; later records never replace it. */
  lemma {:induction false} UnitsFirstNonEmptyWins(data: seq<Record>, i: nat)
    requires i < |data| && data[i].unit != ""
    requires forall j :: 0 <= j < i && data[j].parameter == data[i].parameter ==> data[j].unit == ""
    ensures data[i].parameter in Units(data) && Units(data)[data[i].parameter] == data[i].unit
  {
    assert ParameterNames(data)[i] == data[i].parameter;
    var prefix := data[..|data| - 1];
    if i == |data| - 1 {
      UnitsAllEmpty(prefix, data[i].parameter);
    } else {
      UnitsFirstNonEmptyWins(prefix, i);
    }
  }

  // ---------------------------------------------------------------------
  // Distinct parameters

  /** `Array.from(new Set(xs))`: the distinct elements of xs in order of first appearance. */
  function Distinct<T(==,!new)>(xs: seq<T>): (ds: seq<T>)
    ensures forall x :: x in ds <==> x in xs
    ensures forall i, j :: 0 <= i < j < |ds| ==> ds[i] != ds[j]
  {
    if xs == [] then []
    else
      var ds := Distinct(xs[..|xs| - 1]);
      var x := xs[|xs| - 1];
      assert xs == xs[..|xs| - 1] + [x];
      if x in ds then ds else ds + [x]
  }

  /** An element listed before another first appears in xs before it. */
  lemma {:induction false} DistinctFirstAppearance<T(!new)>(xs: seq<T>, a: nat, b: nat)
    requires a < b < |Distinct(xs)|
    ensures forall j :: 0 <= j < |xs| && xs[j] == Distinct(xs)[b] ==> Distinct(xs)[a] in xs[..j]
  {
    var prefix := xs[..|xs| - 1];
    var ds := Distinct(prefix);
    var x := xs[|xs| - 1];
    assert xs == prefix + [x];
    if b < |ds| {
      DistinctFirstAppearance(prefix, a, b);
      assert Distinct(xs)[a] == ds[a] && Distinct(xs)[b] == ds[b];
      forall j | 0 <= j < |xs| && xs[j] == ds[b]
        ensures ds[a] in xs[..j]
      {
        if j < |prefix| {
          assert xs[..j] == prefix[..j];
        } else {
          assert xs[..j] == prefix;
        }
      }
    } else {
      assert x !in ds && Distinct(xs) == ds + [x] && b == |ds|;
      forall j | 0 <= j < |xs| && xs[j] == x
        ensures ds[a] in xs[..j]
      {
        assert xs[..j] == prefix;
      }
    }
  }

  // ---------------------------------------------------------------------
  // Grouping by day

  /** The `aggregated` dictionary after a left-to-right pass: day key to the
      row's parameter values, the last record of a cell overwriting earlier ones. */
  function Grouped(data: seq<Record>): (days: map<string, map<string, real>>)
    ensures forall k :: k in days <==> k in DayKeysOf(data)
  {
    if data == [] then map[]
    else
      var days := Grouped(data[..|data| - 1]);
      var item := data[|data| - 1];
      var key := DayKey(item.date);
      var row := if key in days then days[key] else map[];
      NamesAndKeysOfSnoc(data);
      days[key := row[item.parameter := item.value]]
  }

  /** One more record: how the dictionary and the order of its keys change. */
  lemma GroupedStep(data: seq<Record>, i: nat, days: map<string, map<string, real>>, order: seq<string>)
    requires i < |data| && days == Grouped(data[..i]) && order == Distinct(DayKeysOf(data[..i]))
    ensures var key := DayKey(data[i].date);
            var row := if key in days then days[key] else map[];
            && Grouped(data[..i + 1]) == days[key := row[data[i].parameter := data[i].value]]
            && Distinct(DayKeysOf(data[..i + 1])) == if key in days then order else order + [key]
  {
    assert data[..i + 1][..i] == data[..i];
    NamesAndKeysOfSnoc(data[..i + 1]);
  }

  /** Some record of the batch falls on day `key` and has parameter p. */
  predicate HasCell(data: seq<Record>, key: string, p: string) {
    exists i :: 0 <= i < |data| && DayKey(data[i].date) == key && data[i].parameter == p
  }

  lemma HasCellSnoc(data: seq<Record>, key: string, p: string)
    requires data != []
    ensures var last := data[|data| - 1];
            HasCell(data, key, p) <==>
              HasCell(data[..|data| - 1], key, p) || (DayKey(last.date) == key && last.parameter == p)
  {
    var n := |data| - 1;
    if HasCell(data, key, p) {
      var i :| 0 <= i < |data| && DayKey(data[i].date) == key && data[i].parameter == p;
      if i < n {
        assert data[..n][i] == data[i];
      }
    }
  }

  /** A day's row holds p exactly when some record of that day has parameter p. */
  lemma {:induction false} GroupedHas(data: seq<Record>, key: string, p: string)
    requires key in Grouped(data)
    ensures p in Grouped(data)[key] <==> HasCell(data, key, p)
  {
    var n := |data| - 1;
    var prefix := data[..n];
    HasCellSnoc(data, key, p);
    if key in Grouped(prefix) {
      GroupedHas(prefix, key, p);
    } else {
      assert !HasCell(prefix, key, p) by {
        forall i | 0 <= i < n
          ensures DayKey(prefix[i].date) != key
        {
          assert DayKeysOf(prefix)[i] == DayKey(prefix[i].date);
        }
      }
    }
  }

  /** The value in a cell is the value of the last record for that cell. */
  lemma {:induction false} GroupedLastWins(data: seq<Record>, i: nat)
    requires i < |data|
    requires forall j :: i < j < |data| ==> !SameCell(data[j], data[i])
    ensures DayKey(data[i].date) in Grouped(data)
    ensures data[i].parameter in Grouped(data)[DayKey(data[i].date)]
    ensures Grouped(data)[DayKey(data[i].date)][data[i].parameter] == data[i].value
  {
    assert DayKeysOf(data)[i] == DayKey(data[i].date);
    if i < |data| - 1 {
      GroupedLastWins(data[..|data| - 1], i);
    }
  }

  // ---------------------------------------------------------------------
  // Sorting the rows

  predicate StrictlySorted(rows: seq<Row>) {
    forall i, j :: 0 <= i < j < |rows| ==> LexLess(rows[i].date, rows[j].date)
  }

  predicate DistinctDates(rows: seq<Row>) {
    forall i, j :: 0 <= i < j < |rows| ==> rows[i].date != rows[j].date
  }

  /** A row dated before the head of a sorted list may be put in front of it. */
  lemma InsertInFront(row: Row, sorted: seq<Row>)
    requires StrictlySorted(sorted) && sorted != []
    requires LexLess(row.date, sorted[0].date)
    ensures StrictlySorted([row] + sorted)
  {
    forall j | 0 < j < |sorted| ensures LexLess(row.date, sorted[j].date) {
      LexTransitive(row.date, sorted[0].date, sorted[j].date);
    }
  }

  /** A row dated after the head of a sorted list goes into its tail. */
  lemma InsertBehind(row: Row, sorted: seq<Row>, rest: seq<Row>)
    requires StrictlySorted(sorted) && sorted != []
    requires !LexLess(row.date, sorted[0].date) && row.date != sorted[0].date
    requires StrictlySorted(rest) && multiset(rest) == multiset(sorted[1..]) + multiset{row}
    ensures StrictlySorted([sorted[0]] + rest)
    ensures multiset([sorted[0]] + rest) == multiset(sorted) + multiset{row}
  {
    LexTotal(row.date, sorted[0].date);
    forall j | 0 <= j < |rest| ensures LexLess(sorted[0].date, rest[j].date) {
      assert rest[j] in multiset(rest);
    }
    assert sorted == [sorted[0]] + sorted[1..];
  }

  /** Inserts a row with a new date into rows sorted by date. */
  function Insert(row: Row, sorted: seq<Row>): (r: seq<Row>)
    requires StrictlySorted(sorted)
    requires forall other :: other in sorted ==> other.date != row.date
    ensures StrictlySorted(r)
    ensures multiset(r) == multiset(sorted) + multiset{row}
  {
    if sorted == [] then [row]
    else if LexLess(row.date, sorted[0].date) then
      InsertInFront(row, sorted);
      [row] + sorted
    else
      var rest := Insert(row, sorted[1..]);
      InsertBehind(row, sorted, rest);
      [sorted[0]] + rest
  }

  lemma NewDateAfterSort(rows: seq<Row>, sorted: seq<Row>)
    requires rows != [] && DistinctDates(rows)
    requires multiset(sorted) == multiset(rows[1..])
    ensures forall other :: other in sorted ==> other.date != rows[0].date
  {
    forall other | other in sorted ensures other.date != rows[0].date {
      assert other in multiset(rows[1..]);
      var k :| 0 <= k < |rows[1..]| && rows[1..][k] == other;
      assert rows[k + 1] == other;
    }
  }

  /** `sort((a, b) => new Date(a.date) - new Date(b.date))` on rows with
      distinct day keys: the rows in increasing order of their keys. */
  function SortByDate(rows: seq<Row>): (r: seq<Row>)
    requires DistinctDates(rows)
    ensures StrictlySorted(r)
    ensures multiset(r) == multiset(rows)
  {
    if rows == [] then []
    else
      var sorted := SortByDate(rows[1..]);
      NewDateAfterSort(rows, sorted);
      assert rows == [rows[0]] + rows[1..];
      Insert(rows[0], sorted)
  }

  // ---------------------------------------------------------------------
  // The chart rows

  /** `Object.values(aggregated)`: one row per day key, in order of first appearance. */
  function DayRows(data: seq<Record>): (rows: seq<Row>)
    ensures DistinctDates(rows)
    ensures |rows| == |Distinct(DayKeysOf(data))|
    ensures forall row :: row in rows <==> row.date in Grouped(data) && row.values == Grouped(data)[row.date]
  {
    var keys := Distinct(DayKeysOf(data));
    var days := Grouped(data);
    var rows := seq(|keys|, i requires 0 <= i < |keys| => Row(keys[i], days[keys[i]]));
    assert forall row: Row :: row.date in days && row.values == days[row.date] ==> row in rows by {
      forall row: Row | row.date in days && row.values == days[row.date] ensures row in rows {
        var i :| 0 <= i < |keys| && keys[i] == row.date;
        assert rows[i] == row;
      }
    }
    rows
  }

  /** The chart data: one row per distinct day key of the batch, holding
      that day's cells, sorted by day key. */
  function Rows(data: seq<Record>): (rows: seq<Row>)
    ensures StrictlySorted(rows)
    ensures |rows| == |Distinct(DayKeysOf(data))|
    ensures forall row :: row in rows <==> row.date in Grouped(data) && row.values == Grouped(data)[row.date]
  {
    var unsorted := DayRows(data);
    var rows := SortByDate(unsorted);
    assert forall row :: row in rows <==> row in unsorted by {
      forall row ensures row in rows <==> row in unsorted {
        assert row in rows <==> row in multiset(rows);
      }
    }
    assert |rows| == |multiset(rows)| == |multiset(unsorted)| == |unsorted|;
    rows
  }

  /** No two rows share a day key. */
  lemma RowsDistinctDates(data: seq<Record>, i: nat, j: nat)
    requires i < j < |Rows(data)|
    ensures Rows(data)[i].date != Rows(data)[j].date
  {
    LexIrreflexive(Rows(data)[i].date);
  }

  /** Every record's day has a row. */
  lemma RowForEveryRecord(data: seq<Record>, i: nat)
    requires i < |data|
    ensures exists row :: row in Rows(data) && row.date == DayKey(data[i].date)
  {
    var days := Grouped(data);
    var key := DayKey(data[i].date);
    assert DayKeysOf(data)[i] == key;
    assert Row(key, days[key]) in Rows(data);
  }

  /** A row holds parameter p exactly when some record of its day has
      parameter p: days without a reading lack the entry, they do not read as zero. */
  lemma RowHasParameter(data: seq<Record>, row: Row, p: string)
    requires row in Rows(data)
    ensures p in row.values <==> HasCell(data, row.date, p)
  {
    GroupedHas(data, row.date, p);
  }

  /** A row's value for a parameter is the value of the last record, in input
      order, for that day and parameter. */
  lemma RowValueIsLast(data: seq<Record>, row: Row, i: nat)
    requires row in Rows(data) && i < |data| && DayKey(data[i].date) == row.date
    requires forall j :: i < j < |data| ==> !SameCell(data[j], data[i])
    ensures data[i].parameter in row.values && row.values[data[i].parameter] == data[i].value
  {
    GroupedLastWins(data, i);
  }

  /** Every parameter a row holds is listed and has a unit entry. */
  lemma RowParametersAreKnown(data: seq<Record>, row: Row, p: string)
    requires row in Rows(data) && p in row.values
    ensures p in Distinct(ParameterNames(data)) && p in Units(data)
  {
    GroupedHas(data, row.date, p);
    var i :| 0 <= i < |data| && DayKey(data[i].date) == row.date && data[i].parameter == p;
    assert ParameterNames(data)[i] == p;
  }

  /** Three readings over two days, two of them for parameter p on the first day. */
  function TwoDayBatch(day1: string, day2: string, time1: string, time2: string, time3: string,
                       p: string, q: string, v1: real, v2: real, v3: real, unit: string): seq<Record>
  {
    [Record(day1 + "T" + time1, p, v1, unit),
     Record(day1 + "T" + time2, p, v2, unit),
     Record(day2 + "T" + time3, q, v3, unit)]
  }

  lemma TwoDayBatchNames(day1: string, day2: string, time1: string, time2: string, time3: string,
                         p: string, q: string, v1: real, v2: real, v3: real, unit: string)
    requires p != q
    ensures var data := TwoDayBatch(day1, day2, time1, time2, time3, p, q, v1, v2, v3, unit);
      && Distinct(ParameterNames(data)) == [p, q]
      && Units(data) == map[p := unit, q := unit]
  {
    var data := TwoDayBatch(day1, day2, time1, time2, time3, p, q, v1, v2, v3, unit);
    assert data[..2][..1] == data[..1] && data[..1][..0] == [];
    var names := ParameterNames(data);
    assert names == [p, p, q];
    DistinctOfRepeat(p, q);
    assert Units(data[..1]) == map[p := unit];
    assert Units(data[..2]) == map[p := unit];
  }

  lemma TwoDayBatchKeys(day1: string, day2: string, time1: string, time2: string, time3: string,
                        p: string, q: string, v1: real, v2: real, v3: real, unit: string)
    requires 'T' !in day1 && 'T' !in day2
    ensures var data := TwoDayBatch(day1, day2, time1, time2, time3, p, q, v1, v2, v3, unit);
      && DayKey(data[0].date) == day1 && DayKey(data[1].date) == day1 && DayKey(data[2].date) == day2
      && DayKeysOf(data) == [day1, day1, day2]
  {
    DayKeyOfTimestamp(day1, time1);
    DayKeyOfTimestamp(day1, time2);
    DayKeyOfTimestamp(day2, time3);
  }

  lemma DistinctOfRepeat<T(!new)>(a: T, b: T)
    requires a != b
    ensures Distinct([a, a, b]) == [a, b]
  {
    var xs := [a, a, b];
    assert xs[..2][..1] == xs[..1] && xs[..1][..0] == [];
    assert Distinct(xs[..1]) == [a];
    assert Distinct(xs[..2]) == [a];
  }

  lemma TwoDayBatchGrouped(day1: string, day2: string, time1: string, time2: string, time3: string,
                           p: string, q: string, v1: real, v2: real, v3: real, unit: string)
    requires 'T' !in day1 && 'T' !in day2 && day1 != day2
    ensures var data := TwoDayBatch(day1, day2, time1, time2, time3, p, q, v1, v2, v3, unit);
      && Grouped(data) == map[day1 := map[p := v2], day2 := map[q := v3]]
  {
    var data := TwoDayBatch(day1, day2, time1, time2, time3, p, q, v1, v2, v3, unit);
    TwoDayBatchKeys(day1, day2, time1, time2, time3, p, q, v1, v2, v3, unit);
    assert data[..2][..1] == data[..1] && data[..1][..0] == [];
    assert Grouped(data[..1]) == map[day1 := map[p := v1]];
    assert map[p := v1][p := v2] == map[p := v2];
    assert Grouped(data[..2]) == map[day1 := map[p := v2]];
  }

  /** A batch whose records fall on two days gives two rows, earlier day first. */
  lemma RowsOfTwoDays(data: seq<Record>, day1: string, day2: string,
                      values1: map<string, real>, values2: map<string, real>)
    requires LexLess(day1, day2)
    requires Distinct(DayKeysOf(data)) == [day1, day2]
    requires Grouped(data) == map[day1 := values1, day2 := values2]
    ensures Rows(data) == [Row(day1, values1), Row(day2, values2)]
  {
    var rows := Rows(data);
    LexAsymmetric(day1, day2);
    LexIrreflexive(day1);
    assert rows[0] in rows && rows[1] in rows;
  }

  /** The first day's p readings collapse to the later one, q's reading gets
      the second day's row, and both parameters take the common unit. */
  lemma TwoDaysScenario(day1: string, day2: string, time1: string, time2: string, time3: string,
                        p: string, q: string, v1: real, v2: real, v3: real, unit: string)
    requires 'T' !in day1 && 'T' !in day2 && LexLess(day1, day2) && p != q
    ensures var data := TwoDayBatch(day1, day2, time1, time2, time3, p, q, v1, v2, v3, unit);
      && Rows(data) == [Row(day1, map[p := v2]), Row(day2, map[q := v3])]
      && Distinct(ParameterNames(data)) == [p, q]
      && Units(data) == map[p := unit, q := unit]
  {
    var data := TwoDayBatch(day1, day2, time1, time2, time3, p, q, v1, v2, v3, unit);
    LexIrreflexive(day1);
    TwoDayBatchNames(day1, day2, time1, time2, time3, p, q, v1, v2, v3, unit);
    TwoDayBatchKeys(day1, day2, time1, time2, time3, p, q, v1, v2, v3, unit);
    DistinctOfRepeat(day1, day2);
    TwoDayBatchGrouped(day1, day2, time1, time2, time3, p, q, v1, v2, v3, unit);
    RowsOfTwoDays(data, day1, day2, map[p := v2], map[q := v3]);
  }

  lemma NewYearOrder()
    ensures LexLess("2024-01-01", "2024-01-02")
  {
    LexConcat("2024-01-0", "1", "2024-01-0", "2");
    LexIrreflexive("2024-01-0");
    assert "2024-01-0" + "1" == "2024-01-01";
    assert "2024-01-0" + "2" == "2024-01-02";
  }

  /** Two NO2 readings on 2024-01-01 and one O3 reading on 2024-01-02. */
  lemma NitrogenOzoneScenario()
    ensures var data := TwoDayBatch("2024-01-01", "2024-01-02", "10:00:00Z", "14:00:00Z", "09:00:00Z",
                                    "NO2", "O3", 12.0, 18.0, 30.0, "\U{00B5}g/m\U{00B3}");
      && Rows(data) == [Row("2024-01-01", map["NO2" := 18.0]), Row("2024-01-02", map["O3" := 30.0])]
      && Distinct(ParameterNames(data)) == ["NO2", "O3"]
      && Units(data) == map["NO2" := "\U{00B5}g/m\U{00B3}", "O3" := "\U{00B5}g/m\U{00B3}"]
  {
    NewYearOrder();
    assert 'T' !in "2024-01-01" && 'T' !in "2024-01-02";
    assert "NO2"[0] != "O3"[0];
    TwoDaysScenario("2024-01-01", "2024-01-02", "10:00:00Z", "14:00:00Z", "09:00:00Z",
                    "NO2", "O3", 12.0, 18.0, 30.0, "\U{00B5}g/m\U{00B3}");
  }
}
