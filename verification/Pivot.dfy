/** Pivoting per-curve sample lists into index-aligned spreadsheet rows, and reading a column back. */
module Pivot {
  import opened Order
  import opened Blocks
  import opened Export

  /** What a cell of a row can hold. */
  datatype Field = IndexField(x: Index) | NumField(v: real) | TextField(t: string) | NoneField

  function FieldOf(s: Sample): Field {
    if s.value.Some? then NumField(s.value.value)
    else if s.text.Some? then TextField(s.text.value)
    else NoneField
  }

  /** A field shows a sample's number if it has one, else its text, else nothing. */
  predicate Says(f: Field, s: Sample) {
    match f
    case NumField(v) => s.value == Some(v)
    case TextField(t) => s.value == None && s.text == Some(t)
    case NoneField => s.value == None && s.text == None
    case IndexField(_) => false
  }

  type Cells = map<string, Field>

  type Grid = map<Index, Cells>

  function At(g: Grid, x: Index): Cells {
    if x in g then g[x] else map[]
  }

  function AddSample(g: Grid, name: string, s: Sample): Grid {
    g[s.index := At(g, s.index)[name := FieldOf(s)]]
  }

  function AddCurve(g: Grid, name: string, samples: seq<Sample>): Grid {
    if samples == [] then g
    else AddSample(AddCurve(g, name, samples[..|samples| - 1]), name, samples[|samples| - 1])
  }

  function CurveOf(curves: map<string, seq<Sample>>, name: string): seq<Sample> {
    if name in curves then curves[name] else []
  }

  function AddCurves(curves: map<string, seq<Sample>>, names: seq<string>): Grid {
    if names == [] then map[]
    else AddCurve(AddCurves(curves, names[..|names| - 1]), names[|names| - 1], CurveOf(curves, names[|names| - 1]))
  }

  function NonEmpty(curves: map<string, seq<Sample>>, names: seq<string>): (r: seq<string>)
    ensures forall m :: m in r <==> m in names && CurveOf(curves, m) != []
  {
    if names == [] then [] else
      var front := NonEmpty(curves, names[..|names| - 1]);
      var m := names[|names| - 1];
      assert names == names[..|names| - 1] + [m];
      if CurveOf(curves, m) != [] then front + [m] else front
  }

  /** The columns: the requested curves that have samples, or all that have when none of those does. */
  function Present(curves: map<string, seq<Sample>>, requested: seq<string>, all: seq<string>): seq<string> {
    if NonEmpty(curves, requested) != [] then NonEmpty(curves, requested) else NonEmpty(curves, all)
  }

  function FirstUnit(samples: seq<Sample>): Option<string> {
    if samples == [] then None
    else if samples[0].uom.Some? && samples[0].uom.value != "" then samples[0].uom
    else FirstUnit(samples[1..])
  }

  function RowAt(g: Grid, heading: string, x: Index): Cells {
    map[heading := IndexField(x)] + At(g, x)
  }

  function RowsOf(g: Grid, heading: string, order: seq<Index>): (r: seq<Cells>)
    ensures |r| == |order| && forall i :: 0 <= i < |order| ==> r[i] == RowAt(g, heading, order[i])
  {
    seq(|order|, i requires 0 <= i < |order| => RowAt(g, heading, order[i]))
  }

  function UnitsOf(curves: map<string, seq<Sample>>, names: seq<string>): (units: map<string, Option<string>>)
    ensures units.Keys == set m | m in names
    ensures forall m :: m in units ==> units[m] == FirstUnit(CurveOf(curves, m))
  {
    map m | m in names :: FirstUnit(CurveOf(curves, m))
  }

  lemma AddCurvesStep(curves: map<string, seq<Sample>>, names: seq<string>, m: string)
    ensures AddCurves(curves, names + [m]) == AddCurve(AddCurves(curves, names), m, CurveOf(curves, m))
    ensures AddCurves(curves, []) == map[]
  {
    hide AddCurve, CurveOf;
    assert (names + [m])[..|names|] == names;
  }

  lemma UnitsStep(curves: map<string, seq<Sample>>, names: seq<string>, m: string)
    ensures UnitsOf(curves, names + [m]) == UnitsOf(curves, names)[m := FirstUnit(CurveOf(curves, m))]
    ensures UnitsOf(curves, []) == map[]
  {
    hide FirstUnit, CurveOf;
    assert forall k :: k in names + [m] <==> k in names || k == m;
  }

  lemma RowsOfStep(g: Grid, heading: string, order: seq<Index>, x: Index)
    ensures RowsOf(g, heading, order + [x]) == RowsOf(g, heading, order) + [RowAt(g, heading, x)]
    ensures RowsOf(g, heading, []) == []
  {
  }

  /** `assemble_rows`; `all` are the curve names in dictionary order. */
  method AssembleRows(curves: map<string, seq<Sample>>, requested: seq<string>, all: seq<string>, heading: string)
    returns (columns: seq<string>, rows: seq<Cells>, units: map<string, Option<string>>)
    ensures var present := Present(curves, requested, all);
            var grid := AddCurves(curves, present);
            && columns == [heading] + present
            && rows == RowsOf(grid, heading, Sorted(Increasing, grid.Keys))
            && units == UnitsOf(curves, present)
  {
    hide Sorted, AddCurve, AddCurves, CurveOf, FirstUnit, NonEmpty, UnitsOf, RowsOf;
    var present := NonEmpty(curves, requested);
    if present == [] {
      present := NonEmpty(curves, all);
    }
    assert present == Present(curves, requested, all);
    hide *;
    units := map[];
    var grid: Grid := map[];
    AddCurvesStep(curves, [], heading);
    UnitsStep(curves, [], heading);
    for i := 0 to |present|
      invariant grid == AddCurves(curves, present[..i])
      invariant units == UnitsOf(curves, present[..i])
    {
      assert present[..i + 1] == present[..i] + [present[i]];
      AddCurvesStep(curves, present[..i], present[i]);
      UnitsStep(curves, present[..i], present[i]);
      var samples := CurveOf(curves, present[i]);
      if present[i] !in units {
        units := units[present[i] := FirstUnit(samples)];
      }
      grid := FillCurve(grid, present[i], samples);
    }
    assert present[..|present|] == present;
    rows := ListRows(grid, heading);
    columns := [heading] + present;
  }

  /** The last loop: one row per index, ascending. */
  method ListRows(grid: Grid, heading: string) returns (rows: seq<Cells>)
    ensures rows == RowsOf(grid, heading, Sorted(Increasing, grid.Keys))
  {
    hide Sorted, RowsOf;
    var order := Sorted(Increasing, grid.Keys);
    rows := [];
    RowsOfStep(grid, heading, [], Index(0.0));
    for i := 0 to |order|
      invariant rows == RowsOf(grid, heading, order[..i])
    {
      assert order[..i + 1] == order[..i] + [order[i]];
      RowsOfStep(grid, heading, order[..i], order[i]);
      rows := rows + [map[heading := IndexField(order[i])] + At(grid, order[i])];
    }
    assert order[..|order|] == order;
  }

  /** The inner loop: the samples of one curve. */
  method FillCurve(before: Grid, name: string, samples: seq<Sample>) returns (grid: Grid)
    ensures grid == AddCurve(before, name, samples)
  {
    grid := before;
    for i := 0 to |samples|
      invariant grid == AddCurve(before, name, samples[..i])
    {
      assert samples[..i + 1][..i] == samples[..i];
      var s := samples[i];
      var cell := if s.index in grid then grid[s.index] else map[];
      cell := cell[name := if s.value.Some? then NumField(s.value.value)
                           else if s.text.Some? then TextField(s.text.value) else NoneField];
      grid := grid[s.index := cell];
    }
    assert samples[..|samples|] == samples;
  }

  // ---- what the grid holds -------------------------------------------------------------------

  /** The field of the last sample at an index. */
  function Lookup(samples: seq<Sample>, x: Index): Option<Field> {
    if samples == [] then None
    else if samples[|samples| - 1].index == x then Some(FieldOf(samples[|samples| - 1]))
    else Lookup(samples[..|samples| - 1], x)
  }

  function Get(g: Grid, x: Index, m: string): Option<Field> {
    if m in At(g, x) then Some(At(g, x)[m]) else None
  }

  /** Adding a curve sets its own column where it has samples and leaves every other cell alone. */
  lemma {:induction false} CurveAdds(g: Grid, name: string, samples: seq<Sample>, x: Index, m: string)
    ensures Get(AddCurve(g, name, samples), x, m) ==
            if m == name && Lookup(samples, x).Some? then Lookup(samples, x) else Get(g, x, m)
    ensures x in AddCurve(g, name, samples) <==> x in g || Lookup(samples, x).Some?
  {
    if samples != [] {
      CurveAdds(g, name, samples[..|samples| - 1], x, m);
    }
  }

  /** The last sample of a curve at an index. */
  predicate IsLastSample(s: seq<Sample>, x: Index, k: int) {
    0 <= k < |s| && s[k].index == x && forall l :: k < l < |s| ==> s[l].index != x
  }

  lemma {:induction false} LookupMeaning(s: seq<Sample>, x: Index)
    ensures forall k :: IsLastSample(s, x, k) ==> Lookup(s, x).Some? && Says(Lookup(s, x).value, s[k])
    ensures Lookup(s, x).Some? ==> exists k :: IsLastSample(s, x, k)
  {
    if s != [] {
      var n := |s| - 1;
      if s[n].index == x {
        assert IsLastSample(s, x, n);
      } else {
        LookupMeaning(s[..n], x);
        assert forall k :: IsLastSample(s, x, k) <==> IsLastSample(s[..n], x, k);
      }
    }
  }

  /** A cell of the grid says what its curve's last sample at its index does; without one there is no cell. */
  lemma GridHolds(curves: map<string, seq<Sample>>, names: seq<string>, x: Index, m: string)
    ensures var s, cell := CurveOf(curves, m), Get(AddCurves(curves, names), x, m);
            && (cell.Some? <==> m in names && exists k :: IsLastSample(s, x, k))
            && (m in names ==> forall k :: IsLastSample(s, x, k) ==> cell.Some? && Says(cell.value, s[k]))
  {
    hide IsLastSample, Lookup, AddCurves, CurveOf, Says, Get;
    GridLookup(curves, names, x, m);
    LookupMeaning(CurveOf(curves, m), x);
    InCurve(CurveOf(curves, m), x);
  }

  lemma InCurve(s: seq<Sample>, x: Index)
    ensures forall k :: IsLastSample(s, x, k) ==> 0 <= k < |s|
  {
  }

  /** The columns exported are those asked for that have data, or all that have, if none asked for has. */
  lemma PresentMeaning(curves: map<string, seq<Sample>>, requested: seq<string>, all: seq<string>, m: string)
    ensures m in Present(curves, requested, all) <==>
            && m in curves && curves[m] != []
            && (m in requested || (m in all && forall r :: r in requested ==> r !in curves || curves[r] == []))
  {
    var some := NonEmpty(curves, requested);
    if some != [] {
      assert some[0] in some;
    }
  }

  /** They keep the order they were asked for in. */
  lemma {:induction false} PresentInOrder(curves: map<string, seq<Sample>>, names: seq<string>)
    ensures Subsequence(NonEmpty(curves, names), names)
  {
    hide Subsequence, CurveOf;
    if names != [] {
      var n := |names| - 1;
      PresentInOrder(curves, names[..n]);
      assert names == names[..n] + [names[n]];
      SubsequenceSkips(NonEmpty(curves, names[..n]), names[..n], names[n]);
      SubsequenceTakes(NonEmpty(curves, names[..n]), names[..n], names[n]);
    } else {
      NothingIsSubsequence(names);
    }
  }

  predicate HasUnit(s: Sample) {
    s.uom.Some? && s.uom.value != ""
  }

  /** A column's unit is that of its first sample with one. */
  lemma {:induction false} FirstUnitMeaning(s: seq<Sample>)
    ensures forall k :: 0 <= k < |s| && HasUnit(s[k]) && (forall l :: 0 <= l < k ==> !HasUnit(s[l])) ==>
                          FirstUnit(s) == s[k].uom
    ensures (forall k :: 0 <= k < |s| ==> !HasUnit(s[k])) ==> FirstUnit(s) == None
  {
    if s != [] && !HasUnit(s[0]) {
      FirstUnitMeaning(s[1..]);
      forall k | 0 <= k < |s| && HasUnit(s[k]) && (forall l :: 0 <= l < k ==> !HasUnit(s[l]))
        ensures FirstUnit(s) == s[k].uom
      {
        assert s[1..][k - 1] == s[k];
        assert forall l :: 0 <= l < k - 1 ==> s[1..][l] == s[l + 1];
      }
      if forall k :: 0 <= k < |s| ==> !HasUnit(s[k]) {
        assert forall k :: 0 <= k < |s[1..]| ==> s[1..][k] == s[k + 1];
      }
    }
  }

  lemma {:induction false} GridLookup(curves: map<string, seq<Sample>>, names: seq<string>, x: Index, m: string)
    ensures Get(AddCurves(curves, names), x, m) == if m in names then Lookup(CurveOf(curves, m), x) else None
    ensures x in AddCurves(curves, names) <==>
            exists i :: 0 <= i < |names| && Lookup(CurveOf(curves, names[i]), x).Some?
  {
    hide AddCurve, Lookup;
    if names != [] {
      var n := |names| - 1;
      var front := names[..n];
      GridLookup(curves, front, x, m);
      CurveAdds(AddCurves(curves, front), names[n], CurveOf(curves, names[n]), x, m);
      assert names == front + [names[n]];
      assert forall i :: 0 <= i < n ==> front[i] == names[i];
    }
  }

  // ---- reading a column back -----------------------------------------------------------------

  /** The entries of one column, with the index of their rows. */
  function ReadColumn(rows: seq<Cells>, heading: string, m: string): seq<(Field, Field)> {
    if rows == [] then [] else
      var front := ReadColumn(rows[..|rows| - 1], heading, m);
      var row := rows[|rows| - 1];
      if m in row && heading in row then front + [(row[heading], row[m])] else front
  }

  function Series(s: seq<Sample>): (r: seq<(Field, Field)>)
    ensures |r| == |s| && forall i :: 0 <= i < |s| ==> r[i] == (IndexField(s[i].index), FieldOf(s[i]))
    ensures forall i :: 0 <= i < |s| ==> r[i].0 == IndexField(s[i].index) && Says(r[i].1, s[i])
  {
    seq(|s|, i requires 0 <= i < |s| => (IndexField(s[i].index), FieldOf(s[i])))
  }

  /** The indices of the rows that hold a column. */
  function RowsWith(g: Grid, order: seq<Index>, m: string): (r: seq<Index>)
    requires Ordered(Increasing, order)
    ensures Ordered(Increasing, r)
    ensures forall x :: x in r <==> x in order && Get(g, x, m).Some?
  {
    if order == [] then [] else
      var k := |order| - 1;
      var front := RowsWith(g, order[..k], m);
      OrderedAppend(Increasing, order, k, front);
      assert order[..k + 1] == order;
      if Get(g, order[k], m).Some? then front + [order[k]] else front
  }

  /** What a row shows under the index heading: its index, unless a curve of that name has a sample there. */
  function HeadingAt(g: Grid, heading: string, x: Index): Field {
    if Get(g, x, heading).Some? then Get(g, x, heading).value else IndexField(x)
  }

  lemma {:induction false} ReadsHolding(g: Grid, heading: string, order: seq<Index>, m: string)
    requires Ordered(Increasing, order) && m != heading
    ensures var h := RowsWith(g, order, m);
            var read := ReadColumn(RowsOf(g, heading, order), heading, m);
            && |read| == |h|
            && forall i :: 0 <= i < |h| ==> h[i] in h && read[i] == (HeadingAt(g, heading, h[i]), Get(g, h[i], m).value)
  {
    if order != [] {
      var k := |order| - 1;
      ReadsHolding(g, heading, order[..k], m);
      assert RowsOf(g, heading, order)[..k] == RowsOf(g, heading, order[..k]);
      assert order[k] in order;
      RowHas(g, heading, order[k], m);
    }
  }

  lemma RowHas(g: Grid, heading: string, x: Index, m: string)
    requires m != heading
    ensures var row := RowAt(g, heading, x);
            && heading in row && row[heading] == HeadingAt(g, heading, x)
            && (m in row <==> Get(g, x, m).Some?) && (m in row ==> row[m] == Get(g, x, m).value)
  {
  }

  lemma {:induction false} LookupAscending(s: seq<Sample>, x: Index)
    ensures Lookup(s, x).Some? <==> x in IndicesOf(s)
    ensures Ascending(s) ==> forall i :: 0 <= i < |s| && s[i].index == x ==> Lookup(s, x) == Some(FieldOf(s[i]))
  {
    if s != [] {
      var n := |s| - 1;
      LookupAscending(s[..n], x);
      assert IndicesOf(s) == IndicesOf(s[..n]) + [s[n].index];
      if Ascending(s) {
        forall i | 0 <= i < n
          ensures s[i].index != s[n].index
        {
          OrderedAt(Increasing, IndicesOf(s), i, n);
        }
      }
    }
  }

  /** The grid of the export, column by column. */
  lemma GridColumns(curves: map<string, seq<Sample>>, present: seq<string>, x: Index, m: string)
    requires m in present
    ensures Get(AddCurves(curves, present), x, m) == Lookup(CurveOf(curves, m), x)
    ensures Get(AddCurves(curves, present), x, m).Some? <==> x in IndicesOf(CurveOf(curves, m))
  {
    hide AddCurves, Lookup;
    GridLookup(curves, present, x, m);
    LookupAscending(CurveOf(curves, m), x);
  }

  /** Some curve that is exported has a sample at the index. */
  predicate Sampled(curves: map<string, seq<Sample>>, present: seq<string>, x: Index) {
    exists i :: 0 <= i < |present| && x in IndicesOf(CurveOf(curves, present[i]))
  }

  /** The pivot has one row per distinct index of the exported curves, in ascending order. */
  lemma OneRowPerIndex(curves: map<string, seq<Sample>>, present: seq<string>)
    ensures var order := Sorted(Increasing, AddCurves(curves, present).Keys);
            Ordered(Increasing, order) && forall x :: x in order <==> Sampled(curves, present, x)
  {
    hide Sorted, AddCurves, Lookup;
    forall x
      ensures x in AddCurves(curves, present) <==> Sampled(curves, present, x)
    {
      GridLookup(curves, present, x, "");
      forall i | 0 <= i < |present|
        ensures Lookup(CurveOf(curves, present[i]), x).Some? <==> x in IndicesOf(CurveOf(curves, present[i]))
      {
        LookupAscending(CurveOf(curves, present[i]), x);
      }
    }
  }

  /** An exported curve of the heading's own name has a sample at one of these indices. */
  predicate Overwritten(curves: map<string, seq<Sample>>, present: seq<string>, heading: string, s: seq<Sample>) {
    heading in present && exists i :: 0 <= i < |s| && s[i].index in IndicesOf(CurveOf(curves, heading))
  }

  /** A column read back: its curve's fields, each under what its row shows as index. */
  lemma ColumnRead(curves: map<string, seq<Sample>>, present: seq<string>, heading: string, m: string)
    requires m in present && m != heading && Ascending(CurveOf(curves, m))
    ensures var grid := AddCurves(curves, present);
            var s := CurveOf(curves, m);
            var read := ReadColumn(RowsOf(grid, heading, Sorted(Increasing, grid.Keys)), heading, m);
            && |read| == |s|
            && forall i :: 0 <= i < |s| ==> read[i] == (HeadingAt(grid, heading, s[i].index), FieldOf(s[i]))
  {
    hide Sorted, AddCurves, Lookup, ReadColumn, HeadingAt, RowsWith;
    var grid := AddCurves(curves, present);
    var order := Sorted(Increasing, grid.Keys);
    var s := CurveOf(curves, m);
    forall x
      ensures Get(grid, x, m).Some? <==> x in IndicesOf(s)
    {
      GridColumns(curves, present, x, m);
    }
    ReadsHolding(grid, heading, order, m);
    SameIndices(grid, order, m, s);
    forall i | 0 <= i < |s|
      ensures Get(grid, s[i].index, m) == Some(FieldOf(s[i]))
    {
      GridColumns(curves, present, s[i].index, m);
      LookupAscending(s, s[i].index);
    }
  }

  lemma {:induction false} RowIsRead(rows: seq<Cells>, heading: string, m: string, i: nat)
    requires i < |rows| && heading in rows[i] && m in rows[i]
    ensures (rows[i][heading], rows[i][m]) in ReadColumn(rows, heading, m)
  {
    if i < |rows| - 1 {
      RowIsRead(rows[..|rows| - 1], heading, m, i);
    }
  }

  /** A curve of the heading's own name shows its values in place of its indices. */
  lemma HeadingColumn(curves: map<string, seq<Sample>>, present: seq<string>, heading: string)
    requires heading in present && CurveOf(curves, heading) != []
    ensures var grid := AddCurves(curves, present);
            ReadColumn(RowsOf(grid, heading, Sorted(Increasing, grid.Keys)), heading, heading) !=
            Series(CurveOf(curves, heading))
  {
    hide Sorted, AddCurves, Lookup, ReadColumn, CurveOf;
    var grid := AddCurves(curves, present);
    var order := Sorted(Increasing, grid.Keys);
    var s := CurveOf(curves, heading);
    var x := s[0].index;
    assert IndicesOf(s)[0] == x;
    GridColumns(curves, present, x, heading);
    HeadingShown(curves, present, heading, x);
    assert x in order;
    var i :| 0 <= i < |order| && order[i] == x;
    var rows := RowsOf(grid, heading, order);
    RowIsRead(rows, heading, heading, i);
    LookupIsField(s, x);
    assert !rows[i][heading].IndexField?;
  }

  /**
   * The export round trip. Reading a column back gives exactly its curve's series, with no sample lost, moved or
   * invented, if and only if no exported curve of the index heading's own name has a sample at one of its indices.
   */
  lemma ColumnIsSeries(curves: map<string, seq<Sample>>, present: seq<string>, heading: string, m: string)
    requires m in present && CurveOf(curves, m) != [] && Ascending(CurveOf(curves, m))
    ensures var grid := AddCurves(curves, present);
            var rows := RowsOf(grid, heading, Sorted(Increasing, grid.Keys));
            ReadColumn(rows, heading, m) == Series(CurveOf(curves, m)) <==>
            !Overwritten(curves, present, heading, CurveOf(curves, m))
  {
    hide Sorted, AddCurves, Lookup, ReadColumn, Get, CurveOf;
    var s := CurveOf(curves, m);
    if m == heading {
      assert s[0].index in IndicesOf(s) by {
        assert IndicesOf(s)[0] == s[0].index;
      }
      HeadingColumn(curves, present, heading);
    } else {
      OtherColumn(curves, present, heading, m);
    }
  }

  lemma OtherColumn(curves: map<string, seq<Sample>>, present: seq<string>, heading: string, m: string)
    requires m in present && m != heading && Ascending(CurveOf(curves, m))
    ensures var grid := AddCurves(curves, present);
            var rows := RowsOf(grid, heading, Sorted(Increasing, grid.Keys));
            ReadColumn(rows, heading, m) == Series(CurveOf(curves, m)) <==>
            !Overwritten(curves, present, heading, CurveOf(curves, m))
  {
    hide Sorted, AddCurves, Lookup, ReadColumn, Get, CurveOf;
    var grid := AddCurves(curves, present);
    var s := CurveOf(curves, m);
    var read := ReadColumn(RowsOf(grid, heading, Sorted(Increasing, grid.Keys)), heading, m);
    ColumnRead(curves, present, heading, m);
    forall i | 0 <= i < |s|
      ensures read[i] == Series(s)[i] <==>
              !(heading in present && s[i].index in IndicesOf(CurveOf(curves, heading)))
    {
      HeadingShown(curves, present, heading, s[i].index);
    }
    if !Overwritten(curves, present, heading, s) {
      assert forall i :: 0 <= i < |s| ==> read[i] == Series(s)[i];
    }
  }

  /** A gamma-ray curve exported beside a curve named "Depth" under that heading cannot be read back. */
  lemma DepthCurveClashes()
    ensures var depth := [Sample("Depth", Index(1.0), Some(7.0), None, None)];
            var gamma := [Sample("GR", Index(1.0), Some(80.0), None, None)];
            var curves := map["Depth" := depth, "GR" := gamma];
            var grid := AddCurves(curves, ["Depth", "GR"]);
            ReadColumn(RowsOf(grid, "Depth", Sorted(Increasing, grid.Keys)), "Depth", "GR") != Series(gamma)
  {
    hide AddCurves, ReadColumn, Sorted, Series;
    var depth := [Sample("Depth", Index(1.0), Some(7.0), None, None)];
    var gamma := [Sample("GR", Index(1.0), Some(80.0), None, None)];
    var curves := map["Depth" := depth, "GR" := gamma];
    var present := ["Depth", "GR"];
    assert present[0] == "Depth" && present[1] == "GR";
    assert IndicesOf(depth)[0] == Index(1.0);
    assert gamma[0].index in IndicesOf(CurveOf(curves, "Depth"));
    ColumnIsSeries(curves, present, "Depth", "GR");
  }

  lemma HeadingShown(curves: map<string, seq<Sample>>, present: seq<string>, heading: string, x: Index)
    ensures HeadingAt(AddCurves(curves, present), heading, x) == IndexField(x) <==>
            !(heading in present && x in IndicesOf(CurveOf(curves, heading)))
  {
    hide AddCurves;
    GridLookup(curves, present, x, heading);
    LookupAscending(CurveOf(curves, heading), x);
    LookupIsField(CurveOf(curves, heading), x);
  }

  lemma {:induction false} LookupIsField(s: seq<Sample>, x: Index)
    ensures Lookup(s, x).Some? ==> !Lookup(s, x).value.IndexField?
  {
    if s != [] {
      LookupIsField(s[..|s| - 1], x);
    }
  }

  lemma SameIndices(g: Grid, order: seq<Index>, m: string, s: seq<Sample>)
    requires Ordered(Increasing, order) && Ascending(s)
    requires forall x :: x in g <==> x in order
    requires forall x :: Get(g, x, m).Some? <==> x in IndicesOf(s)
    ensures RowsWith(g, order, m) == IndicesOf(s)
  {
    var h := RowsWith(g, order, m);
    var keys := Elements(IndicesOf(s));
    SortedUnique(Increasing, keys, h);
    SortedUnique(Increasing, keys, IndicesOf(s));
  }
}
