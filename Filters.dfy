/** The selector filters: on indicator columns in `display_choropleth` (src/app.py:165-168)
    and on the original categorical values in `display_table` (src/app.py:230-234). */
module Filters {
  import opened Seqs
  import opened Records
  import opened Expansion
  import Text

  /** The "all levels" and "all types" sentinels of the two radio selectors. */
  const AllLevels: string := "helpLevel_全部"
  const AllTypes: string := "type_全部"

  /** `source[sel] == 1` on one row. */
  predicate Selected(r: IndicatorRow, sel: string)
  {
    sel in r.flags && r.flags[sel] == 1
  }

  /** The rows whose indicator `sel` is 1, in their original order. */
  function Keep(rows: seq<IndicatorRow>, sel: string): (kept: seq<IndicatorRow>)
    ensures |kept| <= |rows|
  {
    if rows == [] then []
    else
      var r := rows[|rows| - 1];
      Keep(rows[..|rows| - 1], sel) + (if Selected(r, sel) then [r] else [])
  }

  /** A row is kept exactly when it is an input row whose indicator is 1. */
  lemma {:induction false} KeepMembership(rows: seq<IndicatorRow>, sel: string, r: IndicatorRow)
    ensures r in Keep(rows, sel) <==> r in rows && Selected(r, sel)
  {
    if rows != [] {
      var init := rows[..|rows| - 1];
      KeepMembership(init, sel, r);
      assert rows == init + [rows[|rows| - 1]];
    }
  }

  /** Filtering distributes over concatenation, so the kept rows keep their relative order. */
  lemma {:induction false} KeepAppend(xs: seq<IndicatorRow>, ys: seq<IndicatorRow>, sel: string)
    ensures Keep(xs + ys, sel) == Keep(xs, sel) + Keep(ys, sel)
  {
    if ys == [] {
      assert xs + ys == xs;
    } else {
      assert (xs + ys)[..|xs + ys| - 1] == xs + ys[..|ys| - 1];
      KeepAppend(xs, ys[..|ys| - 1], sel);
    }
  }

  /** Applying the same indicator filter twice is the same as applying it once. */
  lemma {:induction false} KeepIdempotent(rows: seq<IndicatorRow>, sel: string)
    ensures Keep(Keep(rows, sel), sel) == Keep(rows, sel)
  {
    if rows != [] {
      var init := rows[..|rows| - 1];
      var r := rows[|rows| - 1];
      KeepIdempotent(init, sel);
      KeepAppend(Keep(init, sel), if Selected(r, sel) then [r] else [], sel);
      assert Keep([r], sel) == (if Selected(r, sel) then [r] else []) by {
        assert [r][..0] == [];
      }
    }
  }

  /** Two indicator filters commute. */
  lemma {:induction false} KeepCommute(rows: seq<IndicatorRow>, a: string, b: string)
    ensures Keep(Keep(rows, a), b) == Keep(Keep(rows, b), a)
  {
    if rows != [] {
      var init := rows[..|rows| - 1];
      var r := rows[|rows| - 1];
      KeepCommute(init, a, b);
      var ra := if Selected(r, a) then [r] else [];
      var rb := if Selected(r, b) then [r] else [];
      KeepAppend(Keep(init, a), ra, b);
      KeepAppend(Keep(init, b), rb, a);
      assert [r][..0] == [];
      assert Keep(ra, b) == Keep(rb, a);
    }
  }

  /** On 0/1 indicator columns, the number of kept rows is the column sum of `sel` over the
      input, and over the kept rows the column sums to their number. */
  lemma {:induction false} KeepCount(rows: seq<IndicatorRow>, sel: string)
    requires OneHot(rows)
    ensures |Keep(rows, sel)| == ColumnTotal(rows, Flag(sel))
    ensures ColumnTotal(Keep(rows, sel), Flag(sel)) == |Keep(rows, sel)|
  {
    if rows != [] {
      var init := rows[..|rows| - 1];
      var r := rows[|rows| - 1];
      assert OneHot(init) by {
        forall i | 0 <= i < |init| ensures init[i] == rows[i] { }
      }
      KeepCount(init, sel);
      var tail := if Selected(r, sel) then [r] else [];
      ColumnTotalAppend(Keep(init, sel), tail, Flag(sel));
      assert tail != [] ==> tail[..0] == [];
    }
  }

  /** One indicator selector on the frame: the sentinel keeps everything, a column the frame
      lacks raises `KeyError` (`None`), any other column keeps the rows where it is 1. */
  function SelectRows(frame: IndicatorFrame, sel: string, all: string): (r: Option<IndicatorFrame>)
    ensures r.Some? ==> r.value.columns == frame.columns && |r.value.rows| <= |frame.rows|
  {
    if sel == all then Some(frame)
    else if sel !in frame.columns then None
    else Some(frame.(rows := Keep(frame.rows, sel)))
  }

  /** A second selector after a first one that may have raised. */
  function AndThen(first: Option<IndicatorFrame>, sel: string, all: string): Option<IndicatorFrame>
  {
    match first
    case None => None
    case Some(frame) => SelectRows(frame, sel, all)
  }

  /** The two filter steps of `display_choropleth`: level, then type. */
  function MapFilter(frame: IndicatorFrame, level: string, kind: string): (r: Option<IndicatorFrame>)
    ensures r.None? <==> (level != AllLevels && level !in frame.columns) || (kind != AllTypes && kind !in frame.columns)
    ensures r.Some? ==>
      var byLevel := if level == AllLevels then frame.rows else Keep(frame.rows, level);
      var byType := if kind == AllTypes then byLevel else Keep(byLevel, kind);
      r.value == IndicatorFrame(frame.columns, byType)
  {
    AndThen(SelectRows(frame, level, AllLevels), kind, AllTypes)
  }

  /** A selector applied twice gives what it gives once (and fails where it fails once). */
  lemma SelectIdempotent(frame: IndicatorFrame, sel: string, all: string)
    ensures AndThen(SelectRows(frame, sel, all), sel, all) == SelectRows(frame, sel, all)
  {
    if sel != all && sel in frame.columns {
      KeepIdempotent(frame.rows, sel);
    }
  }

  /** The level and the type selector commute, also in where they fail. */
  lemma SelectCommute(frame: IndicatorFrame, a: string, allA: string, b: string, allB: string)
    ensures AndThen(SelectRows(frame, a, allA), b, allB) == AndThen(SelectRows(frame, b, allB), a, allA)
  {
    if a != allA && b != allB && a in frame.columns && b in frame.columns {
      KeepCommute(frame.rows, a, b);
    }
  }

  /** Display rows whose `field` equals `value`, in order. */
  function Matching(rows: seq<Event>, field: string, value: string): (m: seq<Event>)
    requires IsField(field)
    ensures |m| <= |rows|
    ensures forall i :: 0 <= i < |m| ==> FieldValue(m[i], field) == value
  {
    if rows == [] then []
    else
      var e := rows[|rows| - 1];
      Matching(rows[..|rows| - 1], field, value) + (if FieldValue(e, field) == value then [e] else [])
  }

  /** One selector of `display_table`: `sel.split("_")` names a column and a value; too few
      pieces raise `IndexError` and a column other than `helpLevel`/`type` is not modelled
      (`None` for both). */
  function DisplaySelect(rows: seq<Event>, sel: string, all: string): (r: Option<seq<Event>>)
    ensures r.Some? ==> |r.value| <= |rows|
  {
    if sel == all then Some(rows)
    else
      var pieces := Text.Split(sel, '_');
      if |pieces| < 2 || !IsField(pieces[0]) then None
      else Some(Matching(rows, pieces[0], pieces[1]))
  }

  /** The two filter steps of `display_table`: level on the whole table, then type. */
  function TableFilter(data: seq<Event>, level: string, kind: string): (r: Option<seq<Event>>)
    ensures r.Some? ==> |r.value| <= |data|
  {
    match DisplaySelect(data, level, AllLevels)
    case None => None
    case Some(rows) => DisplaySelect(rows, kind, AllTypes)
  }

  /** A selector `field_value` splits back into its field and value when the value has no `_`. */
  lemma SplitSelector(field: string, value: string)
    requires IsField(field) && '_' !in value
    ensures Text.Split(Indicator(field, value), '_') == [field, value]
  {
    assert Indicator(field, value) == field + ['_'] + value;
    Text.SplitAround(field, value, '_');
    NoUnderscoreInField(field);
    Text.SplitWithout(field, '_');
    Text.SplitWithout(value, '_');
  }

  lemma NoUnderscoreInField(field: string)
    requires IsField(field)
    ensures '_' !in field
  {
    if field == HelpLevel {
      assert HelpLevel == ['h', 'e', 'l', 'p', 'L', 'e', 'v', 'e', 'l'];
    } else {
      assert TypeField == ['t', 'y', 'p', 'e'];
    }
  }

  /** On rows in indicator form, keeping `field_value` selects the rows whose `field` is `value`. */
  lemma {:induction false} KeepExpanded(es: seq<Event>, columns: seq<string>, field: string, value: string)
    requires IsField(field) && Indicator(field, value) in columns
    ensures Keep(ExpandRows(es, columns), Indicator(field, value)) == ExpandRows(Matching(es, field, value), columns)
  {
    if es != [] {
      var init := es[..|es| - 1];
      var e := es[|es| - 1];
      KeepExpanded(init, columns, field, value);
      assert es == init + [e];
      ExpandRowsSnoc(init, e, columns);
      OwnIndicator(e, field, value);
      var m := Matching(init, field, value);
      if FieldValue(e, field) == value {
        ExpandRowsSnoc(m, e, columns);
      } else {
        assert m + [] == m;
      }
    }
  }

  lemma ExpandRowsSnoc(es: seq<Event>, e: Event, columns: seq<string>)
    ensures ExpandRows(es + [e], columns) == ExpandRows(es, columns) + [ExpandRow(e, columns)]
  {
  }

  /** The two forms of one selector agree: where the indicator column exists, the indicator
      filter keeps the expanded form of exactly the rows the display filter keeps; where it does
      not, the indicator filter raises while the display filter returns no rows. */
  lemma SelectorsAgree(data: seq<Event>, es: seq<Event>, field: string, value: string, all: string)
    requires IsField(field) && '_' !in value && Indicator(field, value) != all
    requires forall i :: 0 <= i < |es| ==> es[i] in data
    ensures DisplaySelect(es, Indicator(field, value), all) == Some(Matching(es, field, value))
    ensures
      var frame := IndicatorFrame(Columns(data), ExpandRows(es, Columns(data)));
      SelectRows(frame, Indicator(field, value), all) ==
        if Indicator(field, value) in Columns(data)
        then Some(frame.(rows := ExpandRows(Matching(es, field, value), Columns(data))))
        else None
    ensures Indicator(field, value) !in Columns(data) ==> Matching(es, field, value) == []
  {
    SplitSelector(field, value);
    var sel := Indicator(field, value);
    if sel in Columns(data) {
      KeepExpanded(es, Columns(data), field, value);
    } else {
      FieldColumnsObserved(data, field);
      forall i | 0 <= i < |es| ensures FieldValue(es[i], field) != value {
        var j :| 0 <= j < |data| && data[j] == es[i];
        assert Indicator(field, FieldValue(data[j], field)) in FieldColumns(data, field);
      }
      MatchingNone(es, field, value);
    }
  }

  lemma {:induction false} MatchingNone(es: seq<Event>, field: string, value: string)
    requires IsField(field)
    requires forall i :: 0 <= i < |es| ==> FieldValue(es[i], field) != value
    ensures Matching(es, field, value) == []
  {
    if es != [] {
      MatchingNone(es[..|es| - 1], field, value);
    }
  }

  /** A display row is shown exactly when it is an input row whose `field` equals `value`. */
  lemma {:induction false} MatchingMembership(es: seq<Event>, field: string, value: string, e: Event)
    requires IsField(field)
    ensures e in Matching(es, field, value) <==> e in es && FieldValue(e, field) == value
  {
    if es != [] {
      var init := es[..|es| - 1];
      MatchingMembership(init, field, value, e);
      assert es == init + [es[|es| - 1]];
    }
  }

  /** The display filter distributes over concatenation, so shown rows keep their order. */
  lemma {:induction false} MatchingAppend(xs: seq<Event>, ys: seq<Event>, field: string, value: string)
    requires IsField(field)
    ensures Matching(xs + ys, field, value) == Matching(xs, field, value) + Matching(ys, field, value)
  {
    if ys == [] {
      assert xs + ys == xs;
    } else {
      assert (xs + ys)[..|xs + ys| - 1] == xs + ys[..|ys| - 1];
      MatchingAppend(xs, ys[..|ys| - 1], field, value);
    }
  }

  /** Display rows that match keep their membership in the table. */
  lemma {:induction false} MatchingSubset(es: seq<Event>, field: string, value: string)
    requires IsField(field)
    ensures forall i :: 0 <= i < |Matching(es, field, value)| ==>
      Matching(es, field, value)[i] in es && FieldValue(Matching(es, field, value)[i], field) == value
  {
    if es != [] {
      var init := es[..|es| - 1];
      MatchingSubset(init, field, value);
      assert forall x :: x in init ==> x in es;
    }
  }
}
