/** The dashboard component's data side: the handler that runs when a batch
    of records arrives and replaces the component's state, the loops it runs
    over mutable dictionaries, and the two lookups the chart makes per series. */
module Dashboard {
  import opened DayKeys
  import opened Aggregation

  /** The parsed response body: a JSON array of records, or any other value
      (for instance the error object the endpoint returns on failure). */
  datatype Payload = Records(items: seq<Record>) | NotAnArray

  /** First `forEach`: fills the unit mapping in place. */
  method CollectUnits(data: seq<Record>) returns (mapping: map<string, string>)
    ensures mapping == Units(data)
  {
    mapping := map[];
    for i := 0 to |data|
      invariant mapping == Units(data[..i])
    {
      var item := data[i];
      if item.parameter !in mapping || mapping[item.parameter] == "" {
        mapping := mapping[item.parameter := item.unit];
      }
      assert data[..i + 1][..i] == data[..i];
    }
    assert data[..|data|] == data;
  }

  /** Second `forEach`, then `Object.values` and `sort`: the chart rows.
      `order` is the insertion order of the dictionary's keys. */
  method CollectRows(data: seq<Record>) returns (chartData: seq<Row>)
    ensures chartData == Rows(data)
  {
    var aggregated: map<string, map<string, real>> := map[];
    var order: seq<string> := [];
    for i := 0 to |data|
      invariant aggregated == Grouped(data[..i])
      invariant order == Distinct(DayKeysOf(data[..i]))
    {
      var item := data[i];
      var key := DayKey(item.date);
      var row := if key in aggregated then aggregated[key] else map[];
      GroupedStep(data, i, aggregated, order);
      if key !in aggregated {
        order := order + [key];
      }
      aggregated := aggregated[key := row[item.parameter := item.value]];
    }
    assert data[..|data|] == data;
    var values := seq(|order|, j requires 0 <= j < |order| => Row(order[j], aggregated[order[j]]));
    chartData := SortByDate(values);
  }

  /** The palette; series `index` is drawn in `COLORS[index % COLORS.length]`. */
  const COLORS: seq<string> := ["#FF5733", "#33FFCE", "#FF33F6", "#33A1FF", "#FFBD33", "#75FF33"]

  function SeriesColor(index: nat): (color: string)
    ensures color in COLORS
    ensures index < |COLORS| ==> color == COLORS[index]
  {
    COLORS[index % |COLORS|]
  }

  /** Two series share a colour exactly when their indices agree modulo the palette size. */
  lemma SeriesColorSharedIff(i: nat, j: nat)
    ensures SeriesColor(i) == SeriesColor(j) <==> i % |COLORS| == j % |COLORS|
  {
    assert forall a, b :: 0 <= a < b < |COLORS| ==> COLORS[a] != COLORS[b];
  }

  /** The tooltip's unit for a series: `unitsMapping[key] || ""`. */
  function TooltipUnit(units: map<string, string>, key: string): (unit: string)
    ensures key in units ==> unit == units[key]
    ensures key !in units ==> unit == ""
  {
    if key in units then units[key] else ""
  }

  /** After a batch, the tooltip shows for p the unit of the first record
      bearing p whose unit is not falsy, and nothing for an unknown p. */
  lemma TooltipShowsFirstUnit(data: seq<Record>, p: string)
    ensures forall i :: 0 <= i < |data| && data[i].parameter == p && data[i].unit != "" &&
                        (forall j :: 0 <= j < i && data[j].parameter == p ==> data[j].unit == "") ==>
                          TooltipUnit(Units(data), p) == data[i].unit
    ensures p !in ParameterNames(data) ==> TooltipUnit(Units(data), p) == ""
  {
    forall i | 0 <= i < |data| && data[i].parameter == p && data[i].unit != "" &&
               (forall j :: 0 <= j < i && data[j].parameter == p ==> data[j].unit == "")
      ensures TooltipUnit(Units(data), p) == data[i].unit
    {
      UnitsFirstNonEmptyWins(data, i);
    }
  }

  /** The component's state: `chartData`, `parameters` and `unitsMapping`. */
  class Dashboard {
    var chartData: seq<Row>
    var parameters: seq<string>
    var unitsMapping: map<string, string>

    /** Rows are one per day and sorted, every series is listed once, and every
        value in a row belongs to a listed series with a unit entry. */
    ghost predicate Valid()
      reads this
    {
      && StrictlySorted(chartData)
      && (forall i, j :: 0 <= i < j < |parameters| ==> parameters[i] != parameters[j])
      && (forall row, p :: row in chartData && p in row.values ==> p in parameters && p in unitsMapping)
    }

    /** The initial state: no rows, no parameters, no units. */
    constructor ()
      ensures Valid()
      ensures chartData == [] && parameters == [] && unitsMapping == map[]
    {
      chartData := [];
      parameters := [];
      unitsMapping := map[];
    }

    /** The `.then((data) => …)` handler: a non-empty array replaces the whole
        state; anything else keeps the previous state (and is only reported). */
    method OnData(data: Payload)
      requires Valid()
      modifies this
      ensures Valid()
      ensures if data.Records? && |data.items| > 0 then
                && unitsMapping == Units(data.items)
                && parameters == Distinct(ParameterNames(data.items))
                && chartData == Rows(data.items)
              else
                && unitsMapping == old(unitsMapping)
                && parameters == old(parameters)
                && chartData == old(chartData)
    {
      if data.Records? && |data.items| > 0 {
        var mapping := CollectUnits(data.items);
        var distinctParameters := Distinct(ParameterNames(data.items));
        var rows := CollectRows(data.items);
        forall row, p | row in rows && p in row.values
          ensures p in distinctParameters && p in mapping
        {
          RowParametersAreKnown(data.items, row, p);
        }
        unitsMapping := mapping;
        parameters := distinctParameters;
        chartData := rows;
      }
    }
  }
}
