/** Generic sequence helpers: the tallies, de-duplication and running sums that the
    pandas calls of the dashboard (unique, value counts, cumsum) reduce to. */
module Seqs {

  datatype Option<T> = None | Some(value: T)

  /** No element occurs twice. */
  ghost predicate NoDup<T>(s: seq<T>)
  {
    forall i, j :: 0 <= i < j < |s| ==> s[i] != s[j]
  }

  lemma NoDupAppend<T>(a: seq<T>, b: seq<T>)
    requires NoDup(a) && NoDup(b)
    requires forall i, j :: 0 <= i < |a| && 0 <= j < |b| ==> a[i] != b[j]
    ensures NoDup(a + b)
  {
    forall i, j | 0 <= i < j < |a + b| ensures (a + b)[i] != (a + b)[j] {
      if j < |a| {
      } else if i < |a| {
        assert (a + b)[j] == b[j - |a|];
      } else {
        assert (a + b)[i] == b[i - |a|] && (a + b)[j] == b[j - |a|];
      }
    }
  }

  /** Dropping the last element of a list without repeats leaves one without repeats, and
      that element is not among the rest. */
  lemma NoDupInit<T>(s: seq<T>)
    requires NoDup(s) && s != []
    ensures NoDup(s[..|s| - 1]) && s[|s| - 1] !in s[..|s| - 1]
  {
    var init := s[..|s| - 1];
    forall a, b | 0 <= a < b < |init| ensures init[a] != init[b] {
      assert init[a] == s[a] && init[b] == s[b];
    }
    forall a | 0 <= a < |init| ensures init[a] != s[|s| - 1] {
      assert init[a] == s[a];
    }
  }

  /** Number of occurrences of `x` in `xs`. */
  function Count<T(==)>(xs: seq<T>, x: T): (n: nat)
    ensures n <= |xs|
  {
    if xs == [] then 0
    else Count(xs[..|xs| - 1], x) + (if xs[|xs| - 1] == x then 1 else 0)
  }

  /** `x` occurs exactly when its count is positive. */
  lemma {:induction false} CountPositive<T>(xs: seq<T>, x: T)
    ensures Count(xs, x) > 0 <==> x in xs
  {
    if xs != [] {
      CountPositive(xs[..|xs| - 1], x);
      assert xs == xs[..|xs| - 1] + [xs[|xs| - 1]];
    }
  }

  lemma {:induction false} CountAppend<T>(xs: seq<T>, ys: seq<T>, x: T)
    ensures Count(xs + ys, x) == Count(xs, x) + Count(ys, x)
  {
    if ys != [] {
      assert (xs + ys)[..|xs + ys| - 1] == xs + ys[..|ys| - 1];
      CountAppend(xs, ys[..|ys| - 1], x);
    } else {
      assert xs + ys == xs;
    }
  }

  /** In a sequence without duplicates every member occurs exactly once. */
  lemma {:induction false} CountNoDup<T>(xs: seq<T>, x: T)
    requires NoDup(xs) && x in xs
    ensures Count(xs, x) == 1
  {
    var init := xs[..|xs| - 1];
    if xs[|xs| - 1] == x {
      assert x !in init by {
        forall i | 0 <= i < |init| ensures init[i] != x {
          assert xs[i] != xs[|xs| - 1];
        }
      }
      CountPositive(init, x);
    } else {
      assert xs == init + [xs[|xs| - 1]];
      assert x in init;
      CountNoDup(init, x);
    }
  }

  /** The distinct elements in order of first appearance (pandas `unique`). */
  function Distinct<T(==)>(xs: seq<T>): (d: seq<T>)
    ensures NoDup(d)
    ensures |d| <= |xs|
  {
    if xs == [] then []
    else
      var d0 := Distinct(xs[..|xs| - 1]);
      var last := xs[|xs| - 1];
      if last in d0 then d0 else d0 + [last]
  }

  /** `Distinct` keeps exactly the input's elements. */
  lemma {:induction false} DistinctMembers<T>(xs: seq<T>)
    ensures forall i :: 0 <= i < |Distinct(xs)| ==> Distinct(xs)[i] in xs
    ensures forall i :: 0 <= i < |xs| ==> xs[i] in Distinct(xs)
  {
    if xs != [] {
      var init := xs[..|xs| - 1];
      DistinctMembers(init);
      assert xs == init + [xs[|xs| - 1]];
    }
  }

  function Sum(s: seq<int>): int
  {
    if s == [] then 0 else Sum(s[..|s| - 1]) + s[|s| - 1]
  }

  lemma {:induction false} SumNonNegative(s: seq<int>)
    requires forall i :: 0 <= i < |s| ==> s[i] >= 0
    ensures Sum(s) >= 0
  {
    if s != [] {
      SumNonNegative(s[..|s| - 1]);
    }
  }

  /** The count of every key, in the order of `keys`. */
  function Tally<T(==)>(xs: seq<T>, keys: seq<T>): (t: seq<nat>)
  {
    seq(|keys|, i requires 0 <= i < |keys| => Count(xs, keys[i]))
  }

  lemma {:induction false} TallyPrefix<T>(xs: seq<T>, keys: seq<T>)
    requires keys != []
    ensures Tally(xs, keys)[..|keys| - 1] == Tally(xs, keys[..|keys| - 1])
  {
  }

  lemma {:induction false} TallyEmpty<T>(keys: seq<T>)
    ensures Sum(Tally([], keys)) == 0
  {
    if keys != [] {
      TallyPrefix([], keys);
      TallyEmpty(keys[..|keys| - 1]);
    }
  }

  /** One more element adds one to the tally total iff the element is a key (counted per occurrence). */
  lemma {:induction false} TallySnoc<T>(xs: seq<T>, x: T, keys: seq<T>)
    ensures Sum(Tally(xs + [x], keys)) == Sum(Tally(xs, keys)) + Count(keys, x)
  {
    if keys != [] {
      var init := keys[..|keys| - 1];
      TallyPrefix(xs + [x], keys);
      TallyPrefix(xs, keys);
      TallySnoc(xs, x, init);
      CountAppend(xs, [x], keys[|keys| - 1]);
      assert (xs + [x])[..|xs + [x]| - 1] == xs;
    }
  }

  /** Counting against a duplicate-free list of keys that covers every element
      accounts for every element exactly once. */
  lemma {:induction false} TallyTotal<T>(xs: seq<T>, keys: seq<T>)
    requires NoDup(keys)
    requires forall i :: 0 <= i < |xs| ==> xs[i] in keys
    ensures Sum(Tally(xs, keys)) == |xs|
  {
    if xs == [] {
      TallyEmpty(keys);
    } else {
      var init := xs[..|xs| - 1];
      var last := xs[|xs| - 1];
      assert xs == init + [last];
      TallyTotal(init, keys);
      TallySnoc(init, last, keys);
      CountNoDup(keys, last);
    }
  }

  /** Running sums: element `k` is the sum of the first `k + 1` elements (pandas `cumsum`). */
  function PrefixSums(s: seq<int>): (p: seq<int>)
    ensures |p| == |s|
    ensures forall k :: 0 <= k < |s| ==> p[k] == Sum(s[..k + 1])
  {
    if s == [] then []
    else
      var init := s[..|s| - 1];
      var p0 := PrefixSums(init);
      assert forall k :: 0 <= k < |init| ==> p0[k] == Sum(s[..k + 1]) by {
        forall k | 0 <= k < |init| ensures p0[k] == Sum(s[..k + 1]) {
          assert init[..k + 1] == s[..k + 1];
        }
      }
      assert s[..|s|] == s;
      p0 + [Sum(s)]
  }

  /** Each running sum is the previous one plus the current element. */
  lemma PrefixSumsStep(s: seq<int>, k: nat)
    requires k < |s|
    ensures PrefixSums(s)[k] == (if k == 0 then 0 else PrefixSums(s)[k - 1]) + s[k]
  {
    var p, t := PrefixSums(s), s[..k + 1];
    assert t[..k] == s[..k];
    assert p[k] == Sum(t) == Sum(s[..k]) + s[k];
    if k == 0 {
      assert s[..k] == [];
    } else {
      assert p[k - 1] == Sum(s[..k]);
    }
  }

  lemma {:induction false} SumPrefixMonotone(s: seq<int>, j: nat, k: nat)
    requires j <= k <= |s|
    requires forall i :: 0 <= i < |s| ==> s[i] >= 0
    ensures Sum(s[..j]) <= Sum(s[..k])
  {
    if j < k {
      SumPrefixMonotone(s, j, k - 1);
      assert s[..k][..k - 1] == s[..k - 1];
    }
  }

  /** Running sums of non-negative values never decrease, and the last one is the grand total. */
  lemma {:induction false} PrefixSumsMonotone(s: seq<int>, j: nat, k: nat)
    requires j <= k < |s|
    requires forall i :: 0 <= i < |s| ==> s[i] >= 0
    ensures PrefixSums(s)[j] <= PrefixSums(s)[k]
    ensures PrefixSums(s)[|s| - 1] == Sum(s)
  {
    var p := PrefixSums(s);
    assert p[j] == Sum(s[..j + 1]);
    assert p[k] == Sum(s[..k + 1]);
    SumPrefixMonotone(s, j + 1, k + 1);
    assert s[..|s|] == s;
  }

  /** The integers `lo, lo + 1, ..., lo + n - 1`. */
  function Range(lo: int, n: nat): (r: seq<int>)
    ensures |r| == n
    ensures forall k :: 0 <= k < n ==> r[k] == lo + k
  {
    if n == 0 then [] else Range(lo, n - 1) + [lo + n - 1]
  }

  lemma RangeSpec(lo: int, n: nat)
    ensures NoDup(Range(lo, n))
    ensures forall x :: lo <= x < lo + n ==> x in Range(lo, n)
  {
    var r := Range(lo, n);
    forall x | lo <= x < lo + n ensures x in r {
      assert r[x - lo] == x;
    }
  }

  /** The least element. */
  function Min(s: seq<int>): (m: int)
    requires s != []
    ensures forall i :: 0 <= i < |s| ==> m <= s[i]
  {
    if |s| == 1 then s[0]
    else
      var m0 := Min(s[..|s| - 1]);
      if s[|s| - 1] < m0 then s[|s| - 1] else m0
  }

  /** The greatest element. */
  function Max(s: seq<int>): (m: int)
    requires s != []
    ensures forall i :: 0 <= i < |s| ==> s[i] <= m
  {
    if |s| == 1 then s[0]
    else
      var m0 := Max(s[..|s| - 1]);
      if m0 < s[|s| - 1] then s[|s| - 1] else m0
  }

  /** The least and the greatest element both occur. */
  lemma {:induction false} MinMaxMembers(s: seq<int>)
    requires s != []
    ensures Min(s) in s && Max(s) in s
  {
    if |s| > 1 {
      MinMaxMembers(s[..|s| - 1]);
      assert s == s[..|s| - 1] + [s[|s| - 1]];
    }
  }
}
