/** `clean` (src/app.py:32-40): rewrite county aliases, keep the rows whose county is a
    region of the boundary data, drop the rows without `createdAt`. */
module Cleaning {
  import opened Seqs
  import opened Records

  /** The correction table for county names. */
  const Aliases: map<string, string> := map["浦东区" := "浦东新区", "闸北区区" := "闸北区"]

  /** `Series.replace(mapper)`: a whole-value substitution, applied once. No corrected name is
      itself an alias, so renaming twice changes nothing more. */
  function Rename(county: string): (r: string)
    ensures r !in Aliases
    ensures county !in Aliases ==> r == county
  {
    if county in Aliases then Aliases[county] else county
  }

  /** The two corrections of the table. */
  lemma AliasTargets()
    ensures Rename("浦东区") == "浦东新区" && Rename("闸北区区") == "闸北区"
    ensures Rename("浦东新区") == "浦东新区" && Rename("闸北区") == "闸北区"
  {
  }

  /** A row survives when its renamed county is a known region and its timestamp is present. */
  predicate Survives(r: RawRow, areas: seq<string>)
  {
    Rename(r.county) in areas && r.createdAt.Some?
  }

  /** The surviving row in display form, county renamed. */
  function ToEvent(r: RawRow): Event
    requires r.createdAt.Some?
  {
    Event(r.createdAt.value, Rename(r.county), r.helpLevel, r.kind, r.tags, r.contentText)
  }

  /** The cleaned rows, in input order. */
  function Cleaned(raw: seq<RawRow>, areas: seq<string>): (data: seq<Event>)
    ensures |data| <= |raw|
    ensures forall i :: 0 <= i < |data| ==> data[i].county in areas
  {
    if raw == [] then []
    else
      var r := raw[|raw| - 1];
      Cleaned(raw[..|raw| - 1], areas) + (if Survives(r, areas) then [ToEvent(r)] else [])
  }

  /** The positions in `raw` of the rows that survive, ascending. */
  function Survivors(raw: seq<RawRow>, areas: seq<string>): seq<nat>
  {
    if raw == [] then []
    else Survivors(raw[..|raw| - 1], areas) + (if Survives(raw[|raw| - 1], areas) then [|raw| - 1] else [])
  }

  /** Row `k` of the cleaned data is the renamed row at the `k`-th surviving position; the
      positions ascend (relative order is kept), and every surviving row is among them. */
  lemma {:induction false} CleanedRows(raw: seq<RawRow>, areas: seq<string>)
    ensures |Cleaned(raw, areas)| == |Survivors(raw, areas)|
    ensures forall k :: 0 <= k < |Survivors(raw, areas)| ==>
      && Survivors(raw, areas)[k] < |raw|
      && Survives(raw[Survivors(raw, areas)[k]], areas)
      && Cleaned(raw, areas)[k] == ToEvent(raw[Survivors(raw, areas)[k]])
    ensures forall k, l :: 0 <= k < l < |Survivors(raw, areas)| ==>
      Survivors(raw, areas)[k] < Survivors(raw, areas)[l]
    ensures forall i :: 0 <= i < |raw| && Survives(raw[i], areas) ==> i in Survivors(raw, areas)
  {
    if raw != [] {
      var init := raw[..|raw| - 1];
      var r := raw[|raw| - 1];
      CleanedRows(init, areas);
      assert forall i :: 0 <= i < |init| ==> raw[i] == init[i];
      var pos := Survivors(init, areas);
      if Survives(r, areas) {
        assert Survivors(raw, areas) == pos + [|init|];
        assert Cleaned(raw, areas) == Cleaned(init, areas) + [ToEvent(r)];
      } else {
        assert Survivors(raw, areas) == pos;
        assert Cleaned(raw, areas) == Cleaned(init, areas);
      }
    }
  }

  /** A dropped row either has no timestamp or a renamed county outside the region list. */
  lemma {:induction false} DroppedRows(raw: seq<RawRow>, areas: seq<string>, i: nat)
    requires i < |raw| && i !in Survivors(raw, areas)
    ensures raw[i].createdAt.None? || Rename(raw[i].county) !in areas
  {
    CleanedRows(raw, areas);
  }

  /** `clean`, row by row: the county is rewritten, then the row is kept or dropped. */
  method Clean(raw: seq<RawRow>, areas: seq<string>) returns (data: seq<Event>)
    ensures data == Cleaned(raw, areas)
  {
    data := [];
    for i := 0 to |raw|
      invariant data == Cleaned(raw[..i], areas)
    {
      var county := Rename(raw[i].county);
      if county in areas && raw[i].createdAt.Some? {
        data := data + [ToEvent(raw[i])];
      }
      assert raw[..i + 1][..i] == raw[..i];
    }
    assert raw[..|raw|] == raw;
  }
}
