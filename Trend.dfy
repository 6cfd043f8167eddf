/** The summaries `update_histogram` draws from the table's current rows (src/app.py:244-271):
    the 15-minute request counts, the per-county and per-level histograms, and the tag text
    handed to the word cloud. */
module Trend {
  import opened Seqs
  import opened Records
  import opened Buckets
  import Text

  const TrendMinutes: int := 15

  /** One point of the trend line: a bucket's start minute and its number of rows. */
  datatype Point = Point(start: int, count: nat)

  /** The bucket index of every timestamp on an index. */
  function BucketIndices(ts: seq<int>, axis: Axis): (bs: seq<int>)
    ensures |bs| == |ts|
  {
    seq(|ts|, i requires 0 <= i < |ts| => BucketOf(ts[i], axis.origin, TrendMinutes))
  }

  /** `resample("15T", on="createdAt").aggregate({"数量": 'count'})`: one point per 15-minute
      bucket from the earliest timestamp's to the latest's, empty buckets included. */
  function TrendPoints(ts: seq<int>): (points: seq<Point>)
    ensures points == [] <==> ts == []
  {
    if ts == [] then []
    else
      var axis := AxisOf(ts, TrendMinutes);
      var counts := Tally(BucketIndices(ts, axis), Range(axis.first, axis.count));
      seq(axis.count, k requires 0 <= k < axis.count => Point(Start(axis, TrendMinutes, k), counts[k]))
  }

  function Counts(points: seq<Point>): (c: seq<int>)
    ensures |c| == |points|
  {
    seq(|points|, k requires 0 <= k < |points| => points[k].count)
  }

  /** The number of timestamps in the half-open interval `lo .. hi - 1`. */
  function CountBetween(ts: seq<int>, lo: int, hi: int): nat
  {
    if ts == [] then 0
    else CountBetween(ts[..|ts| - 1], lo, hi) + (if lo <= ts[|ts| - 1] < hi then 1 else 0)
  }

  lemma {:induction false} CountBucket(ts: seq<int>, axis: Axis, b: int)
    ensures Count(BucketIndices(ts, axis), b)
         == CountBetween(ts, axis.origin + b * TrendMinutes, axis.origin + b * TrendMinutes + TrendMinutes)
  {
    if ts != [] {
      var init := ts[..|ts| - 1];
      CountBucket(init, axis, b);
      assert BucketIndices(ts, axis)[..|ts| - 1] == BucketIndices(init, axis);
      BucketInterval(ts[|ts| - 1], axis.origin, TrendMinutes, b);
    }
  }

  /** The shape of the trend: one point per bucket of the index, labelled by the bucket start,
      and 15 minutes apart. */
  lemma TrendShape(ts: seq<int>)
    ensures ts == [] ==> TrendPoints(ts) == []
    ensures ts != [] ==>
      var axis := AxisOf(ts, TrendMinutes);
      && |TrendPoints(ts)| == axis.count
      && TrendPoints(ts)[0].start == DayStart(Min(ts)) + BucketOf(Min(ts), DayStart(Min(ts)), TrendMinutes) * TrendMinutes
      && forall k :: 0 < k < |TrendPoints(ts)| ==> TrendPoints(ts)[k].start == TrendPoints(ts)[k - 1].start + TrendMinutes
  {
  }

  lemma TrendPointAt(ts: seq<int>, k: nat)
    requires ts != [] && k < AxisOf(ts, TrendMinutes).count
    ensures
      var axis := AxisOf(ts, TrendMinutes);
      TrendPoints(ts)[k] == Point(Start(axis, TrendMinutes, k), Count(BucketIndices(ts, axis), axis.first + k))
  {
    var axis := AxisOf(ts, TrendMinutes);
    var bs, r := BucketIndices(ts, axis), Range(axis.first, axis.count);
    assert Tally(bs, r)[k] == Count(bs, r[k]);
  }

  /** Each point counts the rows whose timestamp lies in its left-closed 15-minute interval. */
  lemma TrendBucketCount(ts: seq<int>, k: nat)
    requires k < |TrendPoints(ts)|
    ensures
      var p := TrendPoints(ts)[k];
      p.count == CountBetween(ts, p.start, p.start + TrendMinutes)
  {
    assert ts != [];
    TrendPointAt(ts, k);
    var axis := AxisOf(ts, TrendMinutes);
    var b := axis.first + k;
    CountBucket(ts, axis, b);
    assert Start(axis, TrendMinutes, k) == axis.origin + b * TrendMinutes;
  }

  /** The trend's counts add up to the number of rows: every row lands in exactly one bucket. */
  lemma TrendTotal(ts: seq<int>)
    ensures Sum(Counts(TrendPoints(ts))) == |ts|
  {
    if ts != [] {
      var axis := AxisOf(ts, TrendMinutes);
      var bs := BucketIndices(ts, axis);
      var r := Range(axis.first, axis.count);
      RangeSpec(axis.first, axis.count);
      assert forall i :: 0 <= i < |bs| ==> bs[i] in r;
      TallyTotal(bs, r);
      assert Counts(TrendPoints(ts)) == Tally(bs, r);
    }
  }

  /** A `go.Histogram` over a categorical column: each distinct value, in order of first
      appearance, with its number of occurrences. */
  datatype Histogram = Histogram(values: seq<string>, counts: seq<nat>)

  function HistogramOf(xs: seq<string>): (h: Histogram)
    ensures |h.values| == |h.counts|
  {
    var values := Distinct(xs);
    Histogram(values, Tally(xs, values))
  }

  /** The bars are the distinct observed values, each with a positive count equal to its
      number of occurrences, and the counts add up to the number of rows. */
  lemma HistogramSpec(xs: seq<string>)
    ensures var h := HistogramOf(xs);
      && NoDup(h.values)
      && (forall i :: 0 <= i < |xs| ==> xs[i] in h.values)
      && (forall i :: 0 <= i < |h.values| ==> h.values[i] in xs)
      && (forall i :: 0 <= i < |h.values| ==> h.counts[i] == Count(xs, h.values[i]) > 0)
      && Sum(h.counts) == |xs|
  {
    var h := HistogramOf(xs);
    DistinctMembers(xs);
    TallyTotal(xs, Distinct(xs));
    forall i | 0 <= i < |h.values| ensures Count(xs, h.values[i]) > 0 {
      CountPositive(xs, h.values[i]);
    }
  }

  function CountyColumn(rows: seq<Event>): seq<string>
  {
    seq(|rows|, i requires 0 <= i < |rows| => rows[i].county)
  }

  function LevelColumn(rows: seq<Event>): seq<string>
  {
    seq(|rows|, i requires 0 <= i < |rows| => rows[i].helpLevel)
  }

  function Timestamps(rows: seq<Event>): seq<int>
  {
    seq(|rows|, i requires 0 <= i < |rows| => rows[i].createdAt)
  }

  /** The tags the word cloud receives: the present, non-empty ones (Python truthiness), in
      order. */
  function PresentTags(tags: seq<Option<string>>): (kept: seq<string>)
    ensures |kept| <= |tags|
  {
    if tags == [] then []
    else
      var t := tags[|tags| - 1];
      PresentTags(tags[..|tags| - 1]) + (if t.Some? && t.value != "" then [t.value] else [])
  }

  /** Exactly the present, non-empty tags are kept, in their original order. */
  lemma {:induction false} PresentTagsSpec(tags: seq<Option<string>>)
    ensures forall i :: 0 <= i < |PresentTags(tags)| ==>
      PresentTags(tags)[i] != "" && Some(PresentTags(tags)[i]) in tags
    ensures forall i :: 0 <= i < |tags| && tags[i].Some? && tags[i].value != "" ==>
      tags[i].value in PresentTags(tags)
  {
    if tags != [] {
      var init := tags[..|tags| - 1];
      PresentTagsSpec(init);
      assert tags == init + [tags[|tags| - 1]];
    }
  }

  /** Filtering tags distributes over concatenation: order and repeats are kept. */
  lemma {:induction false} PresentTagsAppend(a: seq<Option<string>>, b: seq<Option<string>>)
    ensures PresentTags(a + b) == PresentTags(a) + PresentTags(b)
  {
    if b != [] {
      assert (a + b)[..|a + b| - 1] == a + b[..|b| - 1];
      PresentTagsAppend(a, b[..|b| - 1]);
    } else {
      assert a + b == a;
    }
  }

  /** One tag is kept, once, exactly when it is present and non-empty. */
  lemma PresentTagsOne(t: Option<string>)
    ensures PresentTags([t]) == if t.Some? && t.value != "" then [t.value] else []
  {
    assert [t][..0] == [];
  }

  lemma {:induction false} PresentTagsNone(tags: seq<Option<string>>)
    requires forall i :: 0 <= i < |tags| ==> tags[i] == None || tags[i] == Some("")
    ensures PresentTags(tags) == []
  {
    if tags != [] {
      PresentTagsNone(tags[..|tags| - 1]);
    }
  }

  /** `",".join([str(x) for x in tags if x])`. */
  function TagText(tags: seq<Option<string>>): string
  {
    Text.Join(PresentTags(tags), ',')
  }

  /** No present, non-empty tag gives the empty text. */
  lemma TagTextEmpty(tags: seq<Option<string>>)
    requires forall i :: 0 <= i < |tags| ==> tags[i] == None || tags[i] == Some("")
    ensures TagText(tags) == ""
  {
    PresentTagsNone(tags);
  }

  /** Splitting the text on `,` gives back the comma-separated pieces of every kept tag, in
      order; when no tag holds a comma, those pieces are the kept tags themselves. */
  lemma TagTextTerms(tags: seq<Option<string>>)
    requires PresentTags(tags) != []
    ensures Text.Split(TagText(tags), ',') == Text.SplitEach(PresentTags(tags), ',')
    ensures (forall i :: 0 <= i < |tags| && tags[i].Some? ==> ',' !in tags[i].value) ==>
      Text.Split(TagText(tags), ',') == PresentTags(tags)
  {
    var kept := PresentTags(tags);
    Text.SplitJoin(kept, ',');
    if forall i :: 0 <= i < |tags| && tags[i].Some? ==> ',' !in tags[i].value {
      PresentTagsSpec(tags);
      forall i | 0 <= i < |kept| ensures ',' !in kept[i] {
        var j :| 0 <= j < |tags| && tags[j] == Some(kept[i]);
      }
      Text.SplitJoinRoundTrip(kept, ',');
    }
  }

  /** Everything the trend figure is drawn from. */
  datatype Summary = Summary(trend: seq<Point>, byCounty: Histogram, byLevel: Histogram, tagText: string)

  /** `update_histogram`: an empty table has no `createdAt` column, so the callback raises
      (`None`); otherwise the four summaries of the rows. */
  function UpdateHistogram(rows: seq<Event>): (s: Option<Summary>)
    ensures s.None? <==> rows == []
    ensures s.Some? ==> |s.value.byCounty.values| <= |rows| && |s.value.byLevel.values| <= |rows|
  {
    if rows == [] then None
    else
      var tags := seq(|rows|, i requires 0 <= i < |rows| => rows[i].tags);
      Some(Summary(TrendPoints(Timestamps(rows)), HistogramOf(CountyColumn(rows)),
        HistogramOf(LevelColumn(rows)), TagText(tags)))
  }

  /** The callback fails exactly on an empty table; otherwise the trend, the county histogram
      and the level histogram each account for every row once. */
  lemma SummaryTotals(rows: seq<Event>)
    ensures UpdateHistogram(rows).None? <==> rows == []
    ensures rows != [] ==>
      var s := UpdateHistogram(rows).value;
      && Sum(Counts(s.trend)) == |rows|
      && Sum(s.byCounty.counts) == |rows|
      && Sum(s.byLevel.counts) == |rows|
  {
    if rows != [] {
      TrendTotal(Timestamps(rows));
      HistogramSpec(CountyColumn(rows));
      HistogramSpec(LevelColumn(rows));
    }
  }
}
