/** The region x time grid of `display_choropleth` (src/app.py:170-175): a scaffold of every
    (county, date) pair of the filtered rows, the rows left-joined onto it and zero-filled,
    per-county 12-hour buckets summed, and running sums per county. */
module Grid {
  import opened Seqs
  import opened Records
  import opened Buckets

  const BucketMinutes: int := 720

  /** The join key of a row. */
  function Key(r: IndicatorRow): (string, int)
  {
    (r.county, r.date)
  }

  function Counties(rows: seq<IndicatorRow>): seq<string>
  {
    seq(|rows|, i requires 0 <= i < |rows| => rows[i].county)
  }

  function Dates(rows: seq<IndicatorRow>): seq<int>
  {
    seq(|rows|, i requires 0 <= i < |rows| => rows[i].date)
  }

  /** Every county paired with every date, county by county. */
  function Pairs(cs: seq<string>, ds: seq<int>): seq<(string, int)>
  {
    if cs == [] then []
    else
      var c := cs[|cs| - 1];
      Pairs(cs[..|cs| - 1], ds) + Block(c, ds)
  }

  /** One county's block of the scaffold: that county with every date. */
  function Block(c: string, ds: seq<int>): (block: seq<(string, int)>)
    ensures |block| == |ds|
  {
    seq(|ds|, j requires 0 <= j < |ds| => (c, ds[j]))
  }

  lemma BlockMembers(c: string, ds: seq<int>)
    ensures forall p :: p in Block(c, ds) <==> p.0 == c && p.1 in ds
  {
    var block := Block(c, ds);
    forall p: (string, int) | p.0 == c && p.1 in ds ensures p in block {
      var j :| 0 <= j < |ds| && ds[j] == p.1;
      assert block[j] == p;
    }
  }

  /** The cross product has every (county, date) pair and no other. */
  lemma {:induction false} PairsMembers(cs: seq<string>, ds: seq<int>)
    ensures forall p :: p in Pairs(cs, ds) <==> p.0 in cs && p.1 in ds
  {
    if cs != [] {
      var init, c := cs[..|cs| - 1], cs[|cs| - 1];
      PairsMembers(init, ds);
      BlockMembers(c, ds);
      assert Pairs(cs, ds) == Pairs(init, ds) + Block(c, ds);
      assert cs == init + [c];
    }
  }

  /** The cross product has |cs| * |ds| pairs. */
  lemma {:induction false} PairsLength(cs: seq<string>, ds: seq<int>)
    ensures |Pairs(cs, ds)| == |cs| * |ds|
  {
    if cs != [] {
      PairsLength(cs[..|cs| - 1], ds);
      assert |cs| * |ds| == (|cs| - 1) * |ds| + |ds|;
    }
  }

  /** Distinct counties and distinct dates give distinct pairs. */
  lemma {:induction false} PairsNoDup(cs: seq<string>, ds: seq<int>)
    requires NoDup(cs) && NoDup(ds)
    ensures NoDup(Pairs(cs, ds))
  {
    if cs != [] {
      var init, c := cs[..|cs| - 1], cs[|cs| - 1];
      NoDupInit(cs);
      PairsNoDup(init, ds);
      PairsMembers(init, ds);
      var block := Block(c, ds);
      assert NoDup(block);
      assert Pairs(cs, ds) == Pairs(init, ds) + block;
      forall i, j | 0 <= i < |Pairs(init, ds)| && 0 <= j < |block|
        ensures Pairs(init, ds)[i] != block[j]
      {
        assert Pairs(init, ds)[i] in Pairs(init, ds);
      }
      NoDupAppend(Pairs(init, ds), block);
    }
  }

  /** The scaffold `MultiIndex.from_product([set(county), set(date)])` of the filtered rows. */
  function Scaffold(rows: seq<IndicatorRow>): (ps: seq<(string, int)>)
    ensures |ps| == |Distinct(Counties(rows))| * |Distinct(Dates(rows))|
  {
    PairsLength(Distinct(Counties(rows)), Distinct(Dates(rows)));
    Pairs(Distinct(Counties(rows)), Distinct(Dates(rows)))
  }

  lemma ScaffoldSpec(rows: seq<IndicatorRow>)
    ensures NoDup(Scaffold(rows))
    ensures forall i :: 0 <= i < |rows| ==> Key(rows[i]) in Scaffold(rows)
    ensures forall p :: p in Scaffold(rows) <==> p.0 in Counties(rows) && p.1 in Dates(rows)
  {
    var cs, ds := Distinct(Counties(rows)), Distinct(Dates(rows));
    PairsMembers(cs, ds);
    PairsNoDup(cs, ds);
    DistinctMembers(Counties(rows));
    DistinctMembers(Dates(rows));
    forall p: (string, int) ensures p.0 in cs <==> p.0 in Counties(rows) {
      if p.0 in Counties(rows) {
        var i :| 0 <= i < |rows| && Counties(rows)[i] == p.0;
        assert Counties(rows)[i] in cs;
      }
    }
    forall p: (string, int) ensures p.1 in ds <==> p.1 in Dates(rows) {
      if p.1 in Dates(rows) {
        var i :| 0 <= i < |rows| && Dates(rows)[i] == p.1;
        assert Dates(rows)[i] in ds;
      }
    }
    forall i | 0 <= i < |rows| ensures Key(rows[i]) in Scaffold(rows) {
      assert Counties(rows)[i] == rows[i].county && Dates(rows)[i] == rows[i].date;
    }
  }

  /** The all-zero row a scaffold pair without events gets (`fillna(0)`); its text cells do not
      take part in any sum. */
  function ZeroRow(p: (string, int), columns: seq<string>): IndicatorRow
  {
    IndicatorRow(p.1, p.0, None, "", map n | n in columns :: 0, 0)
  }

  /** The rows whose key is `p`, in order. */
  function Matches(rows: seq<IndicatorRow>, p: (string, int)): seq<IndicatorRow>
  {
    if rows == [] then []
    else
      var r := rows[|rows| - 1];
      Matches(rows[..|rows| - 1], p) + (if Key(r) == p then [r] else [])
  }

  /** What a left join gives one scaffold pair: its matching rows, or one zero row. */
  function JoinPair(p: (string, int), rows: seq<IndicatorRow>, columns: seq<string>): seq<IndicatorRow>
  {
    var m := Matches(rows, p);
    if m == [] then [ZeroRow(p, columns)] else m
  }

  /** `pd.merge(scaffold, source, how='left').fillna(0)`. */
  function Merge(ps: seq<(string, int)>, rows: seq<IndicatorRow>, columns: seq<string>): (merged: seq<IndicatorRow>)
    ensures |merged| >= |ps|
  {
    if ps == [] then []
    else Merge(ps[..|ps| - 1], rows, columns) + JoinPair(ps[|ps| - 1], rows, columns)
  }

  lemma {:induction false} MatchesKey(rows: seq<IndicatorRow>, p: (string, int))
    ensures forall r :: r in Matches(rows, p) ==> Key(r) == p
    ensures (exists i :: 0 <= i < |rows| && Key(rows[i]) == p) ==> Matches(rows, p) != []
  {
    if rows != [] {
      var init := rows[..|rows| - 1];
      MatchesKey(init, p);
      if exists i :: 0 <= i < |rows| && Key(rows[i]) == p {
        var i :| 0 <= i < |rows| && Key(rows[i]) == p;
        if i < |init| {
          assert Key(init[i]) == p;
        }
      }
    }
  }

  /** The merged rows carry exactly the scaffold's keys: every merged row has a scaffold key and
      every scaffold pair has at least one merged row. So every county of the scaffold has
      every date, and all counties share one time range. */
  lemma {:induction false} MergeKeys(ps: seq<(string, int)>, rows: seq<IndicatorRow>, columns: seq<string>)
    ensures forall r :: r in Merge(ps, rows, columns) ==> Key(r) in ps
    ensures forall p :: p in ps ==> exists r :: r in Merge(ps, rows, columns) && Key(r) == p
  {
    if ps != [] {
      var init := ps[..|ps| - 1];
      var p := ps[|ps| - 1];
      MergeKeys(init, rows, columns);
      MatchesKey(rows, p);
      var joined := JoinPair(p, rows, columns);
      assert forall r :: r in joined ==> Key(r) == p;
      assert joined[0] in joined;
      assert ps == init + [p];
      forall q | q in ps ensures exists r :: r in Merge(ps, rows, columns) && Key(r) == q {
        if q == p {
          assert joined[0] in Merge(ps, rows, columns);
        } else {
          assert q in init;
          var r :| r in Merge(init, rows, columns) && Key(r) == q;
          assert r in Merge(ps, rows, columns);
        }
      }
    }
  }

  /** One cell of the time axis for one county: `origin`, county and bucket index. */
  datatype Slot = Slot(county: string, origin: int, bucket: int)

  predicate InSlot(r: IndicatorRow, s: Slot)
  {
    r.county == s.county && BucketOf(r.date, s.origin, BucketMinutes) == s.bucket
  }

  /** A row is in a slot exactly when it is of that county and its date lies in the slot's
      left-closed 12-hour interval. */
  lemma SlotInterval(r: IndicatorRow, s: Slot)
    ensures InSlot(r, s) <==>
      r.county == s.county && s.origin + s.bucket * BucketMinutes <= r.date < s.origin + s.bucket * BucketMinutes + BucketMinutes
  {
    BucketInterval(r.date, s.origin, BucketMinutes, s.bucket);
  }

  /** The `sum()` of one column over the rows that fall in one slot. */
  function SumAt(rows: seq<IndicatorRow>, s: Slot, m: Measure): int
  {
    if rows == [] then 0
    else
      var r := rows[|rows| - 1];
      SumAt(rows[..|rows| - 1], s, m) + (if InSlot(r, s) then Value(r, m) else 0)
  }

  lemma {:induction false} SumAtAppend(xs: seq<IndicatorRow>, ys: seq<IndicatorRow>, s: Slot, m: Measure)
    ensures SumAt(xs + ys, s, m) == SumAt(xs, s, m) + SumAt(ys, s, m)
  {
    if ys == [] {
      assert xs + ys == xs;
    } else {
      assert (xs + ys)[..|xs + ys| - 1] == xs + ys[..|ys| - 1];
      SumAtAppend(xs, ys[..|ys| - 1], s, m);
    }
  }

  /** A zero-filled scaffold row adds nothing to any sum. */
  lemma JoinPairSum(p: (string, int), rows: seq<IndicatorRow>, columns: seq<string>, s: Slot, m: Measure)
    ensures SumAt(JoinPair(p, rows, columns), s, m) == SumAt(Matches(rows, p), s, m)
  {
    if Matches(rows, p) == [] {
      var z := ZeroRow(p, columns);
      assert [z][..0] == [];
      assert Value(z, m) == 0;
    }
  }

  /** The rows whose key is one of `ps`, in order. */
  function Restrict(rows: seq<IndicatorRow>, ps: seq<(string, int)>): seq<IndicatorRow>
  {
    if rows == [] then []
    else
      var r := rows[|rows| - 1];
      Restrict(rows[..|rows| - 1], ps) + (if Key(r) in ps then [r] else [])
  }

  lemma {:induction false} RestrictNone(rows: seq<IndicatorRow>)
    ensures Restrict(rows, []) == []
  {
    if rows != [] {
      RestrictNone(rows[..|rows| - 1]);
    }
  }

  lemma {:induction false} RestrictAll(rows: seq<IndicatorRow>, ps: seq<(string, int)>)
    requires forall i :: 0 <= i < |rows| ==> Key(rows[i]) in ps
    ensures Restrict(rows, ps) == rows
  {
    if rows != [] {
      RestrictAll(rows[..|rows| - 1], ps);
      assert rows[..|rows| - 1] + [rows[|rows| - 1]] == rows;
    }
  }

  /** Adding a new pair to the key list adds the sum of that pair's rows. */
  lemma {:induction false} RestrictSnoc(rows: seq<IndicatorRow>, ps: seq<(string, int)>, p: (string, int), s: Slot, m: Measure)
    requires p !in ps
    ensures SumAt(Restrict(rows, ps + [p]), s, m) == SumAt(Restrict(rows, ps), s, m) + SumAt(Matches(rows, p), s, m)
  {
    if rows != [] {
      var init := rows[..|rows| - 1];
      var r := rows[|rows| - 1];
      RestrictSnoc(init, ps, p, s, m);
      SumAtAppend(Restrict(init, ps + [p]), if Key(r) in ps + [p] then [r] else [], s, m);
      SumAtAppend(Restrict(init, ps), if Key(r) in ps then [r] else [], s, m);
      SumAtAppend(Matches(init, p), if Key(r) == p then [r] else [], s, m);
      assert [r][..0] == [];
    }
  }

  /** Summing over the left join equals summing over the rows whose key is in the scaffold:
      each such row is joined exactly once, and zero rows add nothing. */
  lemma {:induction false} MergeSum(ps: seq<(string, int)>, rows: seq<IndicatorRow>, columns: seq<string>, s: Slot, m: Measure)
    requires NoDup(ps)
    ensures SumAt(Merge(ps, rows, columns), s, m) == SumAt(Restrict(rows, ps), s, m)
  {
    if ps == [] {
      RestrictNone(rows);
    } else {
      var init := ps[..|ps| - 1];
      var p := ps[|ps| - 1];
      NoDupInit(ps);
      MergeSum(init, rows, columns, s, m);
      SumAtAppend(Merge(init, rows, columns), JoinPair(p, rows, columns), s, m);
      JoinPairSum(p, rows, columns, s, m);
      RestrictSnoc(rows, init, p, s, m);
      assert init + [p] == ps;
    }
  }

  /** The per-bucket sums of one county over buckets `first .. first + count - 1`
      (`resample('12H').sum()`). */
  function Series(rows: seq<IndicatorRow>, county: string, origin: int, first: int, count: nat, m: Measure): (s: seq<int>)
    ensures |s| == count
  {
    seq(count, k requires 0 <= k < count => SumAt(rows, Slot(county, origin, first + k), m))
  }

  /** Summing one slot over the scaffolded, merged rows gives the sum over the filtered rows. */
  lemma MergeSlot(rows: seq<IndicatorRow>, columns: seq<string>, slot: Slot, m: Measure)
    ensures SumAt(Merge(Scaffold(rows), rows, columns), slot, m) == SumAt(rows, slot, m)
  {
    ScaffoldSpec(rows);
    RestrictAll(rows, Scaffold(rows));
    MergeSum(Scaffold(rows), rows, columns, slot, m);
  }

  /** Two row lists with the same per-slot sums have the same series. */
  lemma SeriesEqual(xs: seq<IndicatorRow>, ys: seq<IndicatorRow>, county: string, origin: int, first: int, count: nat, m: Measure)
    requires forall s :: SumAt(xs, s, m) == SumAt(ys, s, m)
    ensures Series(xs, county, origin, first, count, m) == Series(ys, county, origin, first, count, m)
  {
  }

  /** The scaffold-and-merge step leaves every per-bucket sum as it is on the filtered rows. */
  lemma SeriesOfMerge(rows: seq<IndicatorRow>, columns: seq<string>, county: string, origin: int, first: int, count: nat, m: Measure)
    ensures Series(Merge(Scaffold(rows), rows, columns), county, origin, first, count, m)
         == Series(rows, county, origin, first, count, m)
  {
    var merged := Merge(Scaffold(rows), rows, columns);
    forall s ensures SumAt(merged, s, m) == SumAt(rows, s, m) {
      MergeSlot(rows, columns, s, m);
    }
    SeriesEqual(merged, rows, county, origin, first, count, m);
  }

  /** The sum of one column over the rows of `county` whose bucket is in `lo .. hi - 1`. */
  function SumBetween(rows: seq<IndicatorRow>, county: string, origin: int, lo: int, hi: int, m: Measure): int
  {
    if rows == [] then 0
    else
      var r := rows[|rows| - 1];
      var b := BucketOf(r.date, origin, BucketMinutes);
      SumBetween(rows[..|rows| - 1], county, origin, lo, hi, m)
        + (if r.county == county && lo <= b < hi then Value(r, m) else 0)
  }

  /** The sum of one column over all rows of `county`. */
  function CountyTotal(rows: seq<IndicatorRow>, county: string, m: Measure): int
  {
    if rows == [] then 0
    else
      var r := rows[|rows| - 1];
      CountyTotal(rows[..|rows| - 1], county, m) + (if r.county == county then Value(r, m) else 0)
  }

  lemma {:induction false} SumBetweenEmpty(rows: seq<IndicatorRow>, county: string, origin: int, lo: int, m: Measure)
    ensures SumBetween(rows, county, origin, lo, lo, m) == 0
  {
    if rows != [] {
      SumBetweenEmpty(rows[..|rows| - 1], county, origin, lo, m);
    }
  }

  lemma {:induction false} SumBetweenSplit(rows: seq<IndicatorRow>, county: string, origin: int, lo: int, hi: int, m: Measure)
    requires lo <= hi
    ensures SumBetween(rows, county, origin, lo, hi + 1, m)
         == SumBetween(rows, county, origin, lo, hi, m) + SumAt(rows, Slot(county, origin, hi), m)
  {
    if rows != [] {
      SumBetweenSplit(rows[..|rows| - 1], county, origin, lo, hi, m);
    }
  }

  /** The bucket sums of a county add up to the sum over the covered buckets. */
  lemma {:induction false} SeriesSum(rows: seq<IndicatorRow>, county: string, origin: int, first: int, count: nat, m: Measure)
    ensures Sum(Series(rows, county, origin, first, count, m)) == SumBetween(rows, county, origin, first, first + count, m)
  {
    if count == 0 {
      SumBetweenEmpty(rows, county, origin, first, m);
    } else {
      var s := Series(rows, county, origin, first, count, m);
      assert s[..count - 1] == Series(rows, county, origin, first, count - 1, m);
      SeriesSum(rows, county, origin, first, count - 1, m);
      SumBetweenSplit(rows, county, origin, first, first + count - 1, m);
    }
  }

  /** When every row's bucket is in range, the in-range sum is the county's whole sum. */
  lemma {:induction false} SumBetweenAll(rows: seq<IndicatorRow>, county: string, origin: int, lo: int, hi: int, m: Measure)
    requires forall i :: 0 <= i < |rows| ==> lo <= BucketOf(rows[i].date, origin, BucketMinutes) < hi
    ensures SumBetween(rows, county, origin, lo, hi, m) == CountyTotal(rows, county, m)
  {
    if rows != [] {
      SumBetweenAll(rows[..|rows| - 1], county, origin, lo, hi, m);
    }
  }

  lemma {:induction false} SumAtNonNegative(rows: seq<IndicatorRow>, s: Slot, m: Measure)
    requires OneHot(rows)
    ensures SumAt(rows, s, m) >= 0
  {
    if rows != [] {
      var init := rows[..|rows| - 1];
      assert OneHot(init) by {
        forall i | 0 <= i < |init| ensures init[i] == rows[i] { }
      }
      SumAtNonNegative(init, s, m);
    }
  }

  /** With `total = 1` on every row, the `total` of a county counts its rows. */
  lemma {:induction false} CountyTotalCounts(rows: seq<IndicatorRow>, county: string)
    requires OneHot(rows)
    ensures CountyTotal(rows, county, Total) == Count(Counties(rows), county)
  {
    if rows != [] {
      var init := rows[..|rows| - 1];
      assert OneHot(init) by {
        forall i | 0 <= i < |init| ensures init[i] == rows[i] { }
      }
      CountyTotalCounts(init, county);
      assert Counties(rows)[..|rows| - 1] == Counties(init);
    }
  }

  /** The number of rows of county `s.county` in bucket `s.bucket`. */
  function CountAt(rows: seq<IndicatorRow>, s: Slot): nat
  {
    if rows == [] then 0
    else CountAt(rows[..|rows| - 1], s) + (if InSlot(rows[|rows| - 1], s) then 1 else 0)
  }

  /** With `total = 1` on every row, a slot's `total` counts its rows. */
  lemma {:induction false} SumAtCounts(rows: seq<IndicatorRow>, s: Slot)
    requires OneHot(rows)
    ensures SumAt(rows, s, Total) == CountAt(rows, s)
  {
    if rows != [] {
      var init := rows[..|rows| - 1];
      assert OneHot(init) by {
        forall i | 0 <= i < |init| ensures init[i] == rows[i] { }
      }
      SumAtCounts(init, s);
    }
  }

  /** One output row: county, bucket index, bucket start (the frame label), and the running
      sums of `total` and of every indicator column. */
  datatype Cell = Cell(county: string, bucket: int, start: int, total: int, flags: map<string, int>)

  /** The cells of one county: `groupby("county").cumsum()` of its bucket sums. */
  function CountyCells(rows: seq<IndicatorRow>, county: string, origin: int, first: int, count: nat, columns: seq<string>): (cells: seq<Cell>)
    ensures |cells| == count
  {
    var totals := PrefixSums(Series(rows, county, origin, first, count, Total));
    seq(count, k requires 0 <= k < count =>
      Cell(county, first + k, origin + (first + k) * BucketMinutes, totals[k],
        map name | name in columns :: PrefixSums(Series(rows, county, origin, first, count, Flag(name)))[k]))
  }

  /** The shared 12-hour index of the filtered rows. */
  function GridAxis(rows: seq<IndicatorRow>): (axis: Axis)
    requires rows != []
    ensures axis.count >= 1
    ensures forall i :: 0 <= i < |rows| ==>
      axis.first <= BucketOf(rows[i].date, axis.origin, BucketMinutes) < axis.first + axis.count
  {
    var dates := Dates(rows);
    var axis := AxisOf(dates, BucketMinutes);
    assert forall i :: 0 <= i < |rows| ==> dates[i] == rows[i].date;
    axis
  }

  /** The cumulative grid of the filtered frame, county by county (the frame's first index
      level); an empty frame gives an empty grid. */
  function BuildGrid(frame: IndicatorFrame): (grid: seq<seq<Cell>>)
    ensures |grid| == |Distinct(Counties(frame.rows))|
  {
    if frame.rows == [] then []
    else
      var axis := GridAxis(frame.rows);
      var merged := Merge(Scaffold(frame.rows), frame.rows, frame.columns);
      var counties := Distinct(Counties(frame.rows));
      seq(|counties|, ci requires 0 <= ci < |counties| =>
        CountyCells(merged, counties[ci], axis.origin, axis.first, axis.count, frame.columns))
  }

  /** Grid shape: one series per county present in the filtered rows (others are absent), each
      with one cell per 12-hour bucket from the earliest date's to the latest date's, labelled
      with the bucket's start. */
  lemma GridShape(frame: IndicatorFrame)
    ensures frame.rows == [] ==> BuildGrid(frame) == []
    ensures frame.rows != [] ==>
      var axis := GridAxis(frame.rows);
      var counties := Distinct(Counties(frame.rows));
      var grid := BuildGrid(frame);
      forall ci :: 0 <= ci < |grid| ==>
        && counties[ci] in Counties(frame.rows)
        && |grid[ci]| == axis.count
        && forall k :: 0 <= k < |grid[ci]| ==>
             && grid[ci][k].county == counties[ci]
             && grid[ci][k].bucket == axis.first + k
             && grid[ci][k].start == Start(axis, BucketMinutes, k)
    ensures forall i :: 0 <= i < |frame.rows| ==> frame.rows[i].county in Distinct(Counties(frame.rows))
  {
    DistinctMembers(Counties(frame.rows));
    forall i | 0 <= i < |frame.rows| ensures frame.rows[i].county in Distinct(Counties(frame.rows)) {
      assert Counties(frame.rows)[i] == frame.rows[i].county;
    }
    if frame.rows != [] {
      var axis := GridAxis(frame.rows);
      var counties := Distinct(Counties(frame.rows));
      var merged := Merge(Scaffold(frame.rows), frame.rows, frame.columns);
      forall ci | 0 <= ci < |counties| {
        CountyCellsShape(merged, counties[ci], axis, frame.columns);
      }
    }
  }

  lemma CountyCellsShape(rows: seq<IndicatorRow>, county: string, axis: Axis, columns: seq<string>)
    ensures
      var cells := CountyCells(rows, county, axis.origin, axis.first, axis.count, columns);
      forall k :: 0 <= k < |cells| ==>
        && cells[k].county == county
        && cells[k].bucket == axis.first + k
        && cells[k].start == Start(axis, BucketMinutes, k)
  {
  }

  /** The cell of county number `ci` at bucket number `k`, with its values expressed on the
      filtered rows alone: the scaffold rows contribute nothing. */
  lemma GridCell(frame: IndicatorFrame, ci: nat, k: nat)
    requires frame.rows != []
    requires ci < |Distinct(Counties(frame.rows))| && k < GridAxis(frame.rows).count
    ensures
      var axis := GridAxis(frame.rows);
      var county := Distinct(Counties(frame.rows))[ci];
      var cell := BuildGrid(frame)[ci][k];
      && cell.total == PrefixSums(Series(frame.rows, county, axis.origin, axis.first, axis.count, Total))[k]
      && cell.flags.Keys == set n | n in frame.columns
      && forall n :: n in frame.columns ==>
           cell.flags[n] == PrefixSums(Series(frame.rows, county, axis.origin, axis.first, axis.count, Flag(n)))[k]
  {
    var axis := GridAxis(frame.rows);
    var county := Distinct(Counties(frame.rows))[ci];
    SeriesOfMerge(frame.rows, frame.columns, county, axis.origin, axis.first, axis.count, Total);
    forall n | n in frame.columns
      ensures Series(Merge(Scaffold(frame.rows), frame.rows, frame.columns), county, axis.origin, axis.first, axis.count, Flag(n))
           == Series(frame.rows, county, axis.origin, axis.first, axis.count, Flag(n))
    {
      SeriesOfMerge(frame.rows, frame.columns, county, axis.origin, axis.first, axis.count, Flag(n));
    }
  }

  /** Per-bucket counts: from one bucket to the next, the running `total` of a county grows by
      the number of its rows whose date falls in that left-closed 12-hour bucket. With
      `GridCell` this is the `total` column of the grid. */
  lemma RunningCount(rows: seq<IndicatorRow>, county: string, axis: Axis, k: nat)
    requires OneHot(rows) && k < axis.count
    ensures
      var running := PrefixSums(Series(rows, county, axis.origin, axis.first, axis.count, Total));
      running[k] == (if k == 0 then 0 else running[k - 1]) + CountAt(rows, Slot(county, axis.origin, axis.first + k))
  {
    PrefixSumsStep(Series(rows, county, axis.origin, axis.first, axis.count, Total), k);
    SeriesCounts(rows, county, axis, k);
  }

  /** With `total = 1` on every row, a bucket's `total` sum counts the county's rows in it. */
  lemma SeriesCounts(rows: seq<IndicatorRow>, county: string, axis: Axis, k: nat)
    requires OneHot(rows) && k < axis.count
    ensures Series(rows, county, axis.origin, axis.first, axis.count, Total)[k]
         == CountAt(rows, Slot(county, axis.origin, axis.first + k))
  {
    SumAtCounts(rows, Slot(county, axis.origin, axis.first + k));
  }

  lemma SeriesMonotone(rows: seq<IndicatorRow>, county: string, axis: Axis, m: Measure, j: nat, k: nat)
    requires OneHot(rows) && j <= k < axis.count
    ensures PrefixSums(Series(rows, county, axis.origin, axis.first, axis.count, m))[j]
         <= PrefixSums(Series(rows, county, axis.origin, axis.first, axis.count, m))[k]
  {
    var s := Series(rows, county, axis.origin, axis.first, axis.count, m);
    forall i | 0 <= i < |s| ensures s[i] >= 0 {
      SumAtNonNegative(rows, Slot(county, axis.origin, axis.first + i), m);
    }
    PrefixSumsMonotone(s, j, k);
  }

  /** Running sums never decrease over a county's buckets, for `total` and every indicator. */
  lemma GridMonotone(frame: IndicatorFrame, ci: nat, j: nat, k: nat)
    requires frame.rows != [] && OneHot(frame.rows)
    requires ci < |Distinct(Counties(frame.rows))| && j <= k < GridAxis(frame.rows).count
    ensures
      var series := BuildGrid(frame)[ci];
      && series[j].total <= series[k].total
      && forall name :: name in frame.columns ==> series[j].flags[name] <= series[k].flags[name]
  {
    var axis := GridAxis(frame.rows);
    var county := Distinct(Counties(frame.rows))[ci];
    GridCell(frame, ci, j);
    GridCell(frame, ci, k);
    SeriesMonotone(frame.rows, county, axis, Total, j, k);
    forall name | name in frame.columns
      ensures PrefixSums(Series(frame.rows, county, axis.origin, axis.first, axis.count, Flag(name)))[j]
           <= PrefixSums(Series(frame.rows, county, axis.origin, axis.first, axis.count, Flag(name)))[k]
    {
      SeriesMonotone(frame.rows, county, axis, Flag(name), j, k);
    }
  }

  /** Over an index that covers every row, the last running sum is the county's whole sum. */
  lemma SeriesFinal(rows: seq<IndicatorRow>, county: string, axis: Axis, m: Measure)
    requires axis.count >= 1
    requires forall i :: 0 <= i < |rows| ==>
      axis.first <= BucketOf(rows[i].date, axis.origin, BucketMinutes) < axis.first + axis.count
    ensures PrefixSums(Series(rows, county, axis.origin, axis.first, axis.count, m))[axis.count - 1]
         == CountyTotal(rows, county, m)
  {
    var s := Series(rows, county, axis.origin, axis.first, axis.count, m);
    assert s[..|s|] == s;
    SeriesSum(rows, county, axis.origin, axis.first, axis.count, m);
    SumBetweenAll(rows, county, axis.origin, axis.first, axis.first + axis.count, m);
  }

  /** At the last bucket a county's running `total` is its number of filtered rows, and each
      running indicator is that indicator's sum over the county's filtered rows. */
  lemma GridFinal(frame: IndicatorFrame, ci: nat)
    requires frame.rows != [] && OneHot(frame.rows)
    requires ci < |Distinct(Counties(frame.rows))|
    ensures
      var county := Distinct(Counties(frame.rows))[ci];
      var series := BuildGrid(frame)[ci];
      && |series| >= 1
      && series[|series| - 1].total == Count(Counties(frame.rows), county)
      && forall name :: name in frame.columns ==>
           series[|series| - 1].flags[name] == CountyTotal(frame.rows, county, Flag(name))
  {
    var axis := GridAxis(frame.rows);
    var county := Distinct(Counties(frame.rows))[ci];
    GridCell(frame, ci, axis.count - 1);
    SeriesFinal(frame.rows, county, axis, Total);
    CountyTotalCounts(frame.rows, county);
    forall name | name in frame.columns
      ensures PrefixSums(Series(frame.rows, county, axis.origin, axis.first, axis.count, Flag(name)))[axis.count - 1]
           == CountyTotal(frame.rows, county, Flag(name))
    {
      SeriesFinal(frame.rows, county, axis, Flag(name));
    }
  }
}
