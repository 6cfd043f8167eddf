/** Python's `str.join` and `str.split(sep)` on strings modelled as `seq<char>`. */
module Text {

  /** `sep.join(parts)`: the parts with one separator between neighbours. */
  function Join(parts: seq<string>, sep: char): string
  {
    if parts == [] then ""
    else if |parts| == 1 then parts[0]
    else Join(parts[..|parts| - 1], sep) + [sep] + parts[|parts| - 1]
  }

  /** `s.split(sep)`: the maximal separator-free pieces; never empty ("".split(",") == [""]). */
  function Split(s: string, sep: char): (pieces: seq<string>)
    ensures |pieces| >= 1
  {
    if s == [] then [""]
    else
      var init := Split(s[..|s| - 1], sep);
      var ch := s[|s| - 1];
      if ch == sep then init + [""]
      else init[..|init| - 1] + [init[|init| - 1] + [ch]]
  }

  /** No piece contains the separator. */
  lemma {:induction false} SplitPieces(s: string, sep: char)
    ensures forall i :: 0 <= i < |Split(s, sep)| ==> sep !in Split(s, sep)[i]
  {
    if s != [] {
      var init := s[..|s| - 1];
      SplitPieces(init, sep);
      assert s == init + [s[|s| - 1]];
      SplitSnoc(init, s[|s| - 1], sep);
    }
  }

  /** The pieces of each part, in order, concatenated. */
  function SplitEach(parts: seq<string>, sep: char): seq<string>
  {
    if parts == [] then [] else SplitEach(parts[..|parts| - 1], sep) + Split(parts[|parts| - 1], sep)
  }

  /** One more character either starts a new piece or extends the last one. */
  lemma SplitSnoc(s: string, ch: char, sep: char)
    ensures Split(s + [ch], sep) ==
      var x := Split(s, sep);
      if ch == sep then x + [""] else x[..|x| - 1] + [x[|x| - 1] + [ch]]
  {
    assert (s + [ch])[..|s|] == s;
  }

  /** A separator ends one piece and starts the next. */
  lemma {:induction false} SplitAround(a: string, b: string, sep: char)
    ensures Split(a + [sep] + b, sep) == Split(a, sep) + Split(b, sep)
  {
    if b == [] {
      assert a + [sep] + b == a + [sep];
      SplitSnoc(a, sep, sep);
    } else {
      var b0 := b[..|b| - 1];
      var ch := b[|b| - 1];
      assert a + [sep] + b == (a + [sep] + b0) + [ch];
      assert b == b0 + [ch];
      SplitAround(a, b0, sep);
      SplitSnoc(a + [sep] + b0, ch, sep);
      SplitSnoc(b0, ch, sep);
      SnocPieces(Split(a, sep), Split(b0, sep), ch, sep);
    }
  }

  /** What `SplitSnoc` does to the last piece of `xs + ys` it does to the last piece of `ys`. */
  lemma SnocPieces(xs: seq<string>, ys: seq<string>, ch: char, sep: char)
    requires |ys| >= 1
    ensures
      var x := xs + ys;
      (if ch == sep then x + [""] else x[..|x| - 1] + [x[|x| - 1] + [ch]])
        == xs + (if ch == sep then ys + [""] else ys[..|ys| - 1] + [ys[|ys| - 1] + [ch]])
  {
    var x := xs + ys;
    if ch != sep {
      assert x[..|x| - 1] == xs + ys[..|ys| - 1];
    }
  }

  /** A string without the separator is a single piece. */
  lemma {:induction false} SplitWithout(s: string, sep: char)
    requires sep !in s
    ensures Split(s, sep) == [s]
  {
    if s != [] {
      assert sep !in s[..|s| - 1];
      SplitWithout(s[..|s| - 1], sep);
      assert s[..|s| - 1] + [s[|s| - 1]] == s;
    }
  }

  /** Splitting a joined list yields the pieces of every part, in order. */
  lemma {:induction false} SplitJoin(parts: seq<string>, sep: char)
    requires parts != []
    ensures Split(Join(parts, sep), sep) == SplitEach(parts, sep)
  {
    var init, last := parts[..|parts| - 1], parts[|parts| - 1];
    assert SplitEach(parts, sep) == SplitEach(init, sep) + Split(last, sep);
    if |parts| == 1 {
      assert init == [];
      assert Join(parts, sep) == last;
    } else {
      assert Join(parts, sep) == Join(init, sep) + [sep] + last;
      SplitJoin(init, sep);
      SplitAround(Join(init, sep), last, sep);
    }
  }

  /** Round trip: parts that contain no separator are recovered by splitting their join. */
  lemma {:induction false} SplitJoinRoundTrip(parts: seq<string>, sep: char)
    requires parts != []
    requires forall i :: 0 <= i < |parts| ==> sep !in parts[i]
    ensures Split(Join(parts, sep), sep) == parts
  {
    SplitJoin(parts, sep);
    SplitEachWithout(parts, sep);
  }

  lemma {:induction false} SplitEachWithout(parts: seq<string>, sep: char)
    requires forall i :: 0 <= i < |parts| ==> sep !in parts[i]
    ensures SplitEach(parts, sep) == parts
  {
    if parts != [] {
      var init := parts[..|parts| - 1];
      SplitEachWithout(init, sep);
      SplitWithout(parts[|parts| - 1], sep);
      assert init + [parts[|parts| - 1]] == parts;
    }
  }
}
