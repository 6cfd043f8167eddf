/** The dashboard as a whole: the state built once at start-up (src/app.py:57-62), the two
    radio selectors (src/app.py:71-81), and how the map callback and the table callback answer
    the same choice of selectors. */
module Dashboard {
  import opened Seqs
  import opened Records
  import opened Cleaning
  import opened Expansion
  import opened Filters
  import opened Grid
  import opened Trend

  /** The value parts of the radio options; the last one of each list is the "all" choice. */
  const LevelChoices: seq<string> := ["极紧急", "紧急", "较急", "全部"]
  const TypeChoices: seq<string> := ["重病", "疾病", "物资", "孕妇", "其它", "全部"]
  const Everything: string := "全部"

  /** Start-up: `data = clean(data)`, then `data_af = preprocess(data)` on the cleaned rows. The
      table shows `data`; the map is drawn from `data_af`. */
  method LoadState(raw: seq<RawRow>, areas: seq<string>) returns (data: seq<Event>, af: IndicatorFrame)
    ensures data == Cleaned(raw, areas)
    ensures af == Expand(data)
    ensures |af.rows| == |data| <= |raw|
    ensures forall i :: 0 <= i < |data| ==> data[i].county in areas && af.rows[i] == ExpandRow(data[i], af.columns)
    ensures OneHot(af.rows)
  {
    data := Clean(raw, areas);
    af := Preprocess(data);
    if data != [] {
      ExpandOneHot(data, HelpLevel, 0);
    }
  }

  /** `display_choropleth` up to the figure: the two indicator filters, then the cumulative
      12-hour grid. `None` is the `KeyError` of a selector whose column the frame lacks. */
  function DisplayChoropleth(af: IndicatorFrame, level: string, kind: string): (grid: Option<seq<seq<Cell>>>)
    ensures grid.None? <==> (level != AllLevels && level !in af.columns) || (kind != AllTypes && kind !in af.columns)
    ensures grid.Some? ==>
      var byLevel := if level == AllLevels then af.rows else Keep(af.rows, level);
      var byType := if kind == AllTypes then byLevel else Keep(byLevel, kind);
      grid.value == BuildGrid(IndicatorFrame(af.columns, byType))
  {
    match MapFilter(af, level, kind)
    case None => None
    case Some(frame) => Some(BuildGrid(frame))
  }

  /** Each radio option splits at `_` into its field and its value. */
  lemma ChoicesHaveNoUnderscore(v: string)
    requires v in LevelChoices || v in TypeChoices
    ensures '_' !in v
  {
  }

  /** The "all" sentinels are the options built from the "all" choice. */
  lemma SentinelsAreChoices()
    ensures AllLevels == Indicator(HelpLevel, Everything)
    ensures AllTypes == Indicator(TypeField, Everything)
  {
  }

  /** One selector step in both views: on `rows` (drawn from `data`), the table step never
      fails; the map step, on the same rows in indicator form, fails exactly when the option
      names a column `data` never produced, and then the table step keeps no row; otherwise
      it keeps the indicator form of the very rows the table step keeps. */
  lemma StepAgrees(data: seq<Event>, rows: seq<Event>, field: string, v: string, all: string)
    requires IsField(field) && (v in LevelChoices || v in TypeChoices)
    requires all == Indicator(field, Everything)
    requires forall i :: 0 <= i < |rows| ==> rows[i] in data
    ensures
      var sel := Indicator(field, v);
      var shown := SelectRows(IndicatorFrame(Columns(data), ExpandRows(rows, Columns(data))), sel, all);
      var table := DisplaySelect(rows, sel, all);
      && table.Some?
      && (forall i :: 0 <= i < |table.value| ==> table.value[i] in data)
      && (shown.None? ==> table.value == [])
      && (shown.Some? ==> shown.value == IndicatorFrame(Columns(data), ExpandRows(table.value, Columns(data))))
  {
    var sel := Indicator(field, v);
    if v != Everything {
      IndicatorInjective(field, field, v, Everything);
      ChoicesHaveNoUnderscore(v);
      SelectorsAgree(data, rows, field, v, all);
      MatchingSubset(rows, field, v);
    }
  }

  /** For every choice of the two radio selectors, the map and the table agree: the table
      callback always answers; where the map callback fails, the table is empty; otherwise
      the map is drawn from the indicator form of exactly the rows the table shows. */
  lemma ViewsAgree(data: seq<Event>, lv: string, tv: string)
    requires lv in LevelChoices && tv in TypeChoices
    ensures
      var level, kind := Indicator(HelpLevel, lv), Indicator(TypeField, tv);
      var table := TableFilter(data, level, kind);
      var shown := MapFilter(Expand(data), level, kind);
      && table.Some?
      && (shown.None? ==> table.value == [])
      && (shown.Some? ==> shown.value == IndicatorFrame(Columns(data), ExpandRows(table.value, Columns(data))))
  {
    var level, kind := Indicator(HelpLevel, lv), Indicator(TypeField, tv);
    SentinelsAreChoices();
    StepAgrees(data, data, HelpLevel, lv, AllLevels);
    var rows := DisplaySelect(data, level, AllLevels).value;
    StepAgrees(data, rows, TypeField, tv, AllTypes);
    if SelectRows(Expand(data), level, AllLevels).None? {
      assert rows == [];
      StepAgrees(data, [], TypeField, tv, AllTypes);
    }
  }

  /** Every row in indicator form is one-hot, whatever rows and columns it is built from. */
  lemma ExpandRowsOneHot(rows: seq<Event>, columns: seq<string>)
    ensures OneHot(ExpandRows(rows, columns))
  {
  }

  /** On the same non-empty rows, the grid and the county histogram agree: one series per
      county bar, in the same order, each series ending at that bar's height. */
  lemma GridMatchesHistogram(table: seq<Event>, columns: seq<string>)
    requires table != []
    ensures
      var grid := BuildGrid(IndicatorFrame(columns, ExpandRows(table, columns)));
      var bars := UpdateHistogram(table).value.byCounty;
      && |grid| == |bars.values|
      && forall ci :: 0 <= ci < |grid| ==>
           && |grid[ci]| >= 1
           && grid[ci][0].county == bars.values[ci]
           && grid[ci][|grid[ci]| - 1].total == bars.counts[ci]
  {
    var frame := IndicatorFrame(columns, ExpandRows(table, columns));
    assert Counties(frame.rows) == CountyColumn(table);
    forall ci | 0 <= ci < |BuildGrid(frame)|
      ensures
        var series := BuildGrid(frame)[ci];
        && |series| >= 1
        && series[0].county == Distinct(CountyColumn(table))[ci]
        && series[|series| - 1].total == Count(CountyColumn(table), Distinct(CountyColumn(table))[ci])
    {
      SeriesMatchesBar(table, columns, ci);
    }
    HistogramSpec(CountyColumn(table));
  }

  lemma SeriesMatchesBar(table: seq<Event>, columns: seq<string>, ci: nat)
    requires table != [] && ci < |Distinct(Counties(ExpandRows(table, columns)))|
    ensures
      var rows := ExpandRows(table, columns);
      var series := BuildGrid(IndicatorFrame(columns, rows))[ci];
      && |series| >= 1
      && series[0].county == Distinct(Counties(rows))[ci]
      && series[|series| - 1].total == Count(Counties(rows), Distinct(Counties(rows))[ci])
  {
    var frame := IndicatorFrame(columns, ExpandRows(table, columns));
    ExpandRowsOneHot(table, columns);
    GridShape(frame);
    GridFinal(frame, ci);
  }

  /** The last frame of the map and the county histogram of the table agree for every choice
      of the radio selectors: when the table shows a non-empty set of rows, the map callback
      answers, with one series per county bar of the histogram of those rows, in the same
      order, each series ending at that bar's height. */
  lemma MapMatchesHistogram(data: seq<Event>, lv: string, tv: string)
    requires lv in LevelChoices && tv in TypeChoices
    ensures
      var level, kind := Indicator(HelpLevel, lv), Indicator(TypeField, tv);
      var table := TableFilter(data, level, kind);
      var grid := DisplayChoropleth(Expand(data), level, kind);
      && table.Some?
      && (table.value != [] ==>
        && grid.Some?
        && var bars := UpdateHistogram(table.value).value.byCounty;
        && |grid.value| == |bars.values|
        && forall ci :: 0 <= ci < |grid.value| ==>
             && |grid.value[ci]| >= 1
             && grid.value[ci][0].county == bars.values[ci]
             && grid.value[ci][|grid.value[ci]| - 1].total == bars.counts[ci])
  {
    var level, kind := Indicator(HelpLevel, lv), Indicator(TypeField, tv);
    ViewsAgree(data, lv, tv);
    var table := TableFilter(data, level, kind).value;
    if table != [] {
      GridMatchesHistogram(table, Columns(data));
    }
  }
}
