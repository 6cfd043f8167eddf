/** The rows the dashboard works on. Timestamps are minutes since the epoch; the spreadsheet's
    other columns are kept as plain strings. */
module Records {
  import opened Seqs

  /** A spreadsheet row as loaded: `createdAt` is `None` where the cell is empty. */
  datatype RawRow = RawRow(
    createdAt: Option<int>,
    county: string,
    helpLevel: string,
    kind: string,          // the `type` column
    tags: Option<string>,
    contentText: string)

  /** A cleaned row in display form: the columns `createdAt, county, helpLevel, type, tags,
      contentText` shown by the table. */
  datatype Event = Event(
    createdAt: int,
    county: string,
    helpLevel: string,
    kind: string,
    tags: Option<string>,
    contentText: string)

  /** A row of the indicator form: `date` is the parsed `createdAt`, `flags` maps each
      indicator column `field_value` to 0 or 1, and `total` is the unit of counting. */
  datatype IndicatorRow = IndicatorRow(
    date: int,
    county: string,
    tags: Option<string>,
    contentText: string,
    flags: map<string, int>,
    total: int)

  /** The indicator frame: its indicator columns, in creation order, and its rows. */
  datatype IndicatorFrame = IndicatorFrame(columns: seq<string>, rows: seq<IndicatorRow>)

  const HelpLevel: string := "helpLevel"
  const TypeField: string := "type"

  /** The two categorical fields that are expanded into indicators. */
  predicate IsField(field: string)
  {
    field == HelpLevel || field == TypeField
  }

  function FieldValue(e: Event, field: string): string
    requires IsField(field)
  {
    if field == HelpLevel then e.helpLevel else e.kind
  }

  /** The name of the indicator column of `value` in `field`: `field + "_" + value`. */
  function Indicator(field: string, value: string): string
  {
    field + "_" + value
  }

  /** Distinct (field, value) pairs name distinct columns. */
  lemma IndicatorInjective(f: string, g: string, v: string, w: string)
    requires IsField(f) && IsField(g)
    ensures Indicator(f, v) == Indicator(g, w) <==> f == g && v == w
  {
    if Indicator(f, v) == Indicator(g, w) {
      assert Indicator(f, v)[0] == f[0] && Indicator(g, w)[0] == g[0];
      assert f == g;
      assert Indicator(f, v)[|f| + 1..] == v;
      assert Indicator(g, w)[|g| + 1..] == w;
    }
  }

  /** The two indicator columns that are 1 on the row made from `e`. */
  function OwnIndicators(e: Event): set<string>
  {
    {Indicator(HelpLevel, e.helpLevel), Indicator(TypeField, e.kind)}
  }

  /** `field_value` is one of a row's own indicators exactly when the row's `field` is `value`. */
  lemma OwnIndicator(e: Event, field: string, value: string)
    requires IsField(field)
    ensures Indicator(field, value) in OwnIndicators(e) <==> FieldValue(e, field) == value
  {
    IndicatorInjective(field, HelpLevel, value, e.helpLevel);
    IndicatorInjective(field, TypeField, value, e.kind);
  }

  /** A numeric column: `total` or one indicator. */
  datatype Measure = Total | Flag(name: string)

  /** The value of a numeric column on a row; an absent indicator reads as 0 (pandas `fillna(0)`). */
  function Value(r: IndicatorRow, m: Measure): int
  {
    match m
    case Total => r.total
    case Flag(name) => if name in r.flags then r.flags[name] else 0
  }

  /** The column sum over all rows. */
  function ColumnTotal(rows: seq<IndicatorRow>, m: Measure): int
  {
    if rows == [] then 0 else ColumnTotal(rows[..|rows| - 1], m) + Value(rows[|rows| - 1], m)
  }

  lemma {:induction false} ColumnTotalAppend(xs: seq<IndicatorRow>, ys: seq<IndicatorRow>, m: Measure)
    ensures ColumnTotal(xs + ys, m) == ColumnTotal(xs, m) + ColumnTotal(ys, m)
  {
    if ys == [] {
      assert xs + ys == xs;
    } else {
      assert (xs + ys)[..|xs + ys| - 1] == xs + ys[..|ys| - 1];
      ColumnTotalAppend(xs, ys[..|ys| - 1], m);
    }
  }

  /** Every numeric cell is 0 or 1, and `total` is 1, as after the category expansion. */
  ghost predicate OneHot(rows: seq<IndicatorRow>)
  {
    forall i :: 0 <= i < |rows| ==>
      && rows[i].total == 1
      && forall n :: n in rows[i].flags ==> rows[i].flags[n] == 0 || rows[i].flags[n] == 1
  }
}
