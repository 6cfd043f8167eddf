/** Time bucketing as pandas `resample` does it by default: the origin is midnight of the day
    of the earliest timestamp, buckets are left-closed and labelled by their start, and every
    bucket between the first and the last timestamp's bucket is present. Timestamps are minutes
    since the epoch. */
module Buckets {
  import opened Seqs

  const DayMinutes: int := 1440

  /** Midnight of the day containing `t`: the resampling origin (`origin='start_day'`). */
  function DayStart(t: int): (d: int)
    ensures d <= t < d + DayMinutes
    ensures d % DayMinutes == 0
  {
    t - t % DayMinutes
  }

  /** The index, counted from `origin`, of the left-closed bucket of `width` minutes that
      contains `t`. */
  function BucketOf(t: int, origin: int, width: int): int
    requires width > 0
  {
    (t - origin) / width
  }

  /** Bucket `b` covers the minutes from `origin + b * width` up to, not including,
      `origin + b * width + width`. */
  lemma BucketBounds(t: int, origin: int, width: int)
    requires width > 0
    ensures origin + BucketOf(t, origin, width) * width <= t < origin + BucketOf(t, origin, width) * width + width
  {
    var b := BucketOf(t, origin, width);
    assert (t - origin) == b * width + (t - origin) % width;
  }

  lemma MulStrict(a: int, b: int, w: int)
    requires w > 0 && a * w < b * w
    ensures a < b
  {
  }

  /** A timestamp is in bucket `b` exactly when it lies in that bucket's half-open interval. */
  lemma BucketInterval(t: int, origin: int, width: int, b: int)
    requires width > 0
    ensures BucketOf(t, origin, width) == b <==> origin + b * width <= t < origin + b * width + width
  {
    var bt := BucketOf(t, origin, width);
    BucketBounds(t, origin, width);
    if origin + b * width <= t < origin + b * width + width {
      assert b * width + width == (b + 1) * width;
      assert bt * width + width == (bt + 1) * width;
      MulStrict(bt, b + 1, width);
      MulStrict(b, bt + 1, width);
    }
  }

  /** Later timestamps never fall in earlier buckets. */
  lemma BucketMonotone(t: int, u: int, origin: int, width: int)
    requires width > 0 && t <= u
    ensures BucketOf(t, origin, width) <= BucketOf(u, origin, width)
  {
    var bt, bu := BucketOf(t, origin, width), BucketOf(u, origin, width);
    BucketBounds(t, origin, width);
    BucketBounds(u, origin, width);
    assert bu * width + width == (bu + 1) * width;
    MulStrict(bt, bu + 1, width);
  }

  /** A resampled index: the origin, the first bucket and the number of buckets. */
  datatype Axis = Axis(origin: int, first: int, count: nat)

  /** The index `resample` builds over `ts`: from the bucket of the earliest timestamp to the
      bucket of the latest, every timestamp inside. */
  function AxisOf(ts: seq<int>, width: int): (axis: Axis)
    requires ts != [] && width > 0
    ensures axis.origin == DayStart(Min(ts))
    ensures axis.count >= 1
    ensures axis.first == BucketOf(Min(ts), axis.origin, width)
    ensures axis.first + axis.count - 1 == BucketOf(Max(ts), axis.origin, width)
    ensures forall i :: 0 <= i < |ts| ==>
      axis.first <= BucketOf(ts[i], axis.origin, width) < axis.first + axis.count
  {
    var lo, hi := Min(ts), Max(ts);
    var origin := DayStart(lo);
    var first, last := BucketOf(lo, origin, width), BucketOf(hi, origin, width);
    BucketMonotone(lo, hi, origin, width);
    assert forall i :: 0 <= i < |ts| ==> first <= BucketOf(ts[i], origin, width) <= last by {
      forall i | 0 <= i < |ts| ensures first <= BucketOf(ts[i], origin, width) <= last {
        BucketMonotone(lo, ts[i], origin, width);
        BucketMonotone(ts[i], hi, origin, width);
      }
    }
    Axis(origin, first, last - first + 1)
  }

  /** The start minute of bucket `k` of an index: its label. */
  function Start(axis: Axis, width: int, k: int): int
  {
    axis.origin + (axis.first + k) * width
  }
}
