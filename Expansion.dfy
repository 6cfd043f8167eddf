/** `preprocess` (src/app.py:42-53): one 0/1 indicator column `field_value` per observed value
    of `helpLevel` and of `type`, the two categorical columns dropped, and `total = 1`. */
module Expansion {
  import opened Seqs
  import opened Records

  /** The column of `field`, one value per row. */
  function FieldValues(data: seq<Event>, field: string): seq<string>
    requires IsField(field)
  {
    seq(|data|, i requires 0 <= i < |data| => FieldValue(data[i], field))
  }

  function IndicatorNames(field: string, values: seq<string>): seq<string>
  {
    seq(|values|, i requires 0 <= i < |values| => Indicator(field, values[i]))
  }

  lemma IndicatorNamesSnoc(field: string, values: seq<string>, j: nat)
    requires j < |values|
    ensures IndicatorNames(field, values[..j + 1]) == IndicatorNames(field, values[..j]) + [Indicator(field, values[j])]
  {
  }

  /** The indicator columns of one field, in the order `pd.unique` meets the values. */
  function FieldColumns(data: seq<Event>, field: string): seq<string>
    requires IsField(field)
  {
    IndicatorNames(field, Distinct(FieldValues(data, field)))
  }

  /** The indicator columns of the given fields, field after field. */
  function ColumnsOf(data: seq<Event>, fields: seq<string>): seq<string>
    requires forall i :: 0 <= i < |fields| ==> IsField(fields[i])
  {
    if fields == [] then []
    else ColumnsOf(data, fields[..|fields| - 1]) + FieldColumns(data, fields[|fields| - 1])
  }

  /** All indicator columns: those of `helpLevel`, then those of `type`. */
  function Columns(data: seq<Event>): seq<string>
  {
    FieldColumns(data, HelpLevel) + FieldColumns(data, TypeField)
  }

  /** The indicator cells of the row made from `e`: 1 on its own two indicators, 0 elsewhere. */
  function Flags(e: Event, columns: seq<string>): map<string, int>
  {
    map n | n in columns :: if n in OwnIndicators(e) then 1 else 0
  }

  function ExpandRow(e: Event, columns: seq<string>): IndicatorRow
  {
    IndicatorRow(e.createdAt, e.county, e.tags, e.contentText, Flags(e, columns), 1)
  }

  /** Every event in indicator form over the same columns: row `i` stays row `i`. */
  function ExpandRows(data: seq<Event>, columns: seq<string>): seq<IndicatorRow>
  {
    seq(|data|, i requires 0 <= i < |data| => ExpandRow(data[i], columns))
  }

  /** The indicator frame `data_af`. */
  function Expand(data: seq<Event>): (frame: IndicatorFrame)
    ensures |frame.rows| == |data|
    ensures forall i :: 0 <= i < |data| ==>
      && frame.rows[i].date == data[i].createdAt
      && frame.rows[i].county == data[i].county
      && frame.rows[i].total == 1
      && frame.rows[i].flags.Keys == set n | n in frame.columns
  {
    IndicatorFrame(Columns(data), ExpandRows(data, Columns(data)))
  }

  /** A row part-way through the loop: the indicators created so far and no `total` yet. */
  function Partial(e: Event, columns: seq<string>): IndicatorRow
  {
    IndicatorRow(e.createdAt, e.county, e.tags, e.contentText, Flags(e, columns), 0)
  }

  /** The column `field_value` added to every row (the vectorised `apply` of src/app.py:48). */
  function AddColumn(rows: seq<IndicatorRow>, data: seq<Event>, field: string, value: string): seq<IndicatorRow>
    requires IsField(field) && |rows| == |data|
  {
    seq(|rows|, i requires 0 <= i < |rows| =>
      rows[i].(flags := rows[i].flags[Indicator(field, value) := if FieldValue(data[i], field) == value then 1 else 0]))
  }

  lemma AddColumnStep(rows: seq<IndicatorRow>, data: seq<Event>, columns: seq<string>, field: string, value: string)
    requires IsField(field) && |rows| == |data|
    requires forall i :: 0 <= i < |rows| ==> rows[i] == Partial(data[i], columns)
    ensures forall i :: 0 <= i < |rows| ==>
      AddColumn(rows, data, field, value)[i] == Partial(data[i], columns + [Indicator(field, value)])
  {
    var name := Indicator(field, value);
    forall i | 0 <= i < |rows|
      ensures AddColumn(rows, data, field, value)[i] == Partial(data[i], columns + [name])
    {
      OwnIndicator(data[i], field, value);
      var cell := if FieldValue(data[i], field) == value then 1 else 0;
      assert Flags(data[i], columns)[name := cell] == Flags(data[i], columns + [name]);
    }
  }

  /** The inner loop of `preprocess` for one field: one new column per distinct value. */
  method AddFieldIndicators(data: seq<Event>, field: string, rows: seq<IndicatorRow>, columns: seq<string>)
    returns (rows': seq<IndicatorRow>, columns': seq<string>)
    requires IsField(field) && |rows| == |data|
    requires forall i :: 0 <= i < |rows| ==> rows[i] == Partial(data[i], columns)
    ensures columns' == columns + FieldColumns(data, field)
    ensures |rows'| == |data|
    ensures forall i :: 0 <= i < |rows'| ==> rows'[i] == Partial(data[i], columns')
  {
    var values := Distinct(FieldValues(data, field));
    rows', columns' := rows, columns;
    for j := 0 to |values|
      invariant |rows'| == |data|
      invariant columns' == columns + IndicatorNames(field, values[..j])
      invariant forall i :: 0 <= i < |rows'| ==> rows'[i] == Partial(data[i], columns')
    {
      var value := values[j];
      AddColumnStep(rows', data, columns', field, value);
      rows' := AddColumn(rows', data, field, value);
      IndicatorNamesSnoc(field, values, j);
      columns' := columns' + [Indicator(field, value)];
    }
    assert values[..|values|] == values;
  }

  lemma ColumnsOfStep(data: seq<Event>, fields: seq<string>, f: nat)
    requires f < |fields| && forall i :: 0 <= i < |fields| ==> IsField(fields[i])
    ensures ColumnsOf(data, fields[..f + 1]) == ColumnsOf(data, fields[..f]) + FieldColumns(data, fields[f])
  {
    assert fields[..f + 1][..f] == fields[..f];
  }

  lemma ColumnsOfBoth(data: seq<Event>, fields: seq<string>)
    requires fields == [HelpLevel, TypeField]
    ensures ColumnsOf(data, fields[..|fields|]) == Columns(data)
  {
    assert fields[..|fields|] == fields;
    assert fields[..|fields| - 1] == [HelpLevel];
    assert [HelpLevel][..0] == [];
    assert ColumnsOf(data, [HelpLevel]) == FieldColumns(data, HelpLevel);
  }

  /** The last step of `preprocess`: `total = 1` on the finished rows. */
  lemma SetTotals(rows: seq<IndicatorRow>, data: seq<Event>, columns: seq<string>)
    requires |rows| == |data|
    requires forall i :: 0 <= i < |rows| ==> rows[i] == Partial(data[i], columns)
    ensures seq(|rows|, i requires 0 <= i < |rows| => rows[i].(total := 1)) == ExpandRows(data, columns)
  {
  }

  /** `preprocess` with its nested loop: for each field, for each observed value, the column
      `field_value` is added to every row; then `total` is set to 1. */
  method Preprocess(data: seq<Event>) returns (frame: IndicatorFrame)
    ensures frame == Expand(data)
  {
    var rows := seq(|data|, i requires 0 <= i < |data| => Partial(data[i], []));
    var columns: seq<string> := [];
    var fields := [HelpLevel, TypeField];
    for f := 0 to |fields|
      invariant |rows| == |data|
      invariant columns == ColumnsOf(data, fields[..f])
      invariant forall i :: 0 <= i < |rows| ==> rows[i] == Partial(data[i], columns)
    {
      assert IsField(fields[f]);
      rows, columns := AddFieldIndicators(data, fields[f], rows, columns);
      ColumnsOfStep(data, fields, f);
    }
    ColumnsOfBoth(data, fields);
    var expanded := seq(|rows|, i requires 0 <= i < |rows| => rows[i].(total := 1));
    SetTotals(rows, data, columns);
    frame := IndicatorFrame(columns, expanded);
  }

  /** The indicator columns are pairwise distinct. */
  lemma ColumnsDistinct(data: seq<Event>)
    ensures NoDup(Columns(data))
  {
    var lv := Distinct(FieldValues(data, HelpLevel));
    var tv := Distinct(FieldValues(data, TypeField));
    var cols := Columns(data);
    forall a, b | 0 <= a < b < |cols| ensures cols[a] != cols[b] {
      var fa := if a < |lv| then HelpLevel else TypeField;
      var va := if a < |lv| then lv[a] else tv[a - |lv|];
      var fb := if b < |lv| then HelpLevel else TypeField;
      var vb := if b < |lv| then lv[b] else tv[b - |lv|];
      assert cols[a] == Indicator(fa, va);
      assert cols[b] == Indicator(fb, vb);
      IndicatorInjective(fa, fb, va, vb);
    }
  }

  /** A field's columns are exactly the names `field_v` of the values `v` observed in that field. */
  lemma FieldColumnsObserved(data: seq<Event>, field: string)
    requires IsField(field)
    ensures forall i :: 0 <= i < |data| ==>
      Indicator(field, FieldValue(data[i], field)) in FieldColumns(data, field)
    ensures forall n :: n in FieldColumns(data, field) ==>
      exists i :: 0 <= i < |data| && n == Indicator(field, FieldValue(data[i], field))
  {
    var values := FieldValues(data, field);
    var d := Distinct(values);
    var cols := FieldColumns(data, field);
    DistinctMembers(values);
    forall i | 0 <= i < |data|
      ensures Indicator(field, FieldValue(data[i], field)) in cols
    {
      assert values[i] in d;
      var k :| 0 <= k < |d| && d[k] == values[i];
      assert cols[k] == Indicator(field, values[i]);
    }
    forall n | n in cols
      ensures exists i :: 0 <= i < |data| && n == Indicator(field, FieldValue(data[i], field))
    {
      var k :| 0 <= k < |d| && cols[k] == n;
      assert d[k] in values;
      var i :| 0 <= i < |values| && values[i] == d[k];
      assert n == Indicator(field, FieldValue(data[i], field));
    }
  }

  /** One-hot partition: on every row, of a field's columns exactly the one naming the row's own
      value is 1 and all others are 0; every row has `total` 1. */
  lemma ExpandOneHot(data: seq<Event>, field: string, i: nat)
    requires IsField(field) && i < |data|
    ensures Expand(data).rows[i].total == 1
    ensures Indicator(field, FieldValue(data[i], field)) in Expand(data).columns
    ensures forall n :: n in FieldColumns(data, field) ==>
      && n in Expand(data).rows[i].flags
      && Expand(data).rows[i].flags[n] == (if n == Indicator(field, FieldValue(data[i], field)) then 1 else 0)
    ensures OneHot(Expand(data).rows)
  {
    FieldColumnsObserved(data, field);
    var e := data[i];
    var own := Indicator(field, FieldValue(data[i], field));
    forall n | n in FieldColumns(data, field)
      ensures n in OwnIndicators(e) <==> n == own
    {
      var j :| 0 <= j < |data| && n == Indicator(field, FieldValue(data[j], field));
      OwnIndicator(e, field, FieldValue(data[j], field));
    }
  }

  /** Summed over all rows, the column `field_v` counts the rows whose `field` is `v`. */
  lemma {:induction false} IndicatorColumnTotal(data: seq<Event>, columns: seq<string>, field: string, v: string)
    requires IsField(field) && Indicator(field, v) in columns
    ensures ColumnTotal(ExpandRows(data, columns), Flag(Indicator(field, v))) == Count(FieldValues(data, field), v)
  {
    if data != [] {
      var init := data[..|data| - 1];
      IndicatorColumnTotal(init, columns, field, v);
      assert ExpandRows(data, columns)[..|data| - 1] == ExpandRows(init, columns);
      assert FieldValues(data, field)[..|data| - 1] == FieldValues(init, field);
      OwnIndicator(data[|data| - 1], field, v);
    }
  }

  /** Partition invariant: the indicator columns of one field, summed over all rows, add up to
      the number of rows. */
  lemma FieldTotal(data: seq<Event>, field: string)
    requires IsField(field)
    ensures
      var frame := Expand(data);
      var cols := FieldColumns(data, field);
      Sum(seq(|cols|, k requires 0 <= k < |cols| => ColumnTotal(frame.rows, Flag(cols[k])))) == |data|
  {
    var frame := Expand(data);
    var cols := FieldColumns(data, field);
    var values := FieldValues(data, field);
    var d := Distinct(values);
    var sums := seq(|cols|, k requires 0 <= k < |cols| => ColumnTotal(frame.rows, Flag(cols[k])));
    forall k | 0 <= k < |cols| ensures sums[k] == Tally(values, d)[k] {
      assert cols[k] == Indicator(field, d[k]);
      assert cols[k] in frame.columns;
      IndicatorColumnTotal(data, frame.columns, field, d[k]);
    }
    assert sums == Tally(values, d);
    DistinctMembers(values);
    TallyTotal(values, d);
  }
}
