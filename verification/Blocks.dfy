/** Parsed log data: cells, rows, blocks, and their explosion into per-curve samples. */
module Blocks {
  import opened Order

  datatype Cell = Null | Num(num: real) | Text(text: string)

  /** One decoded row: the index cell (None when it decoded to null) and the remaining cells. */
  datatype Row = Row(index: Option<Index>, cells: seq<Cell>)

  /** A block of rows under its column headers; the first mnemonic is the index curve's. */
  datatype Block = Block(mnemonics: seq<string>, units: seq<Option<string>>, rows: seq<Row>)

  datatype Sample = Sample(mnemonic: string, index: Index, value: Option<real>, text: Option<string>,
                           uom: Option<string>)

  /** The contents of one log: the cells stored at each index. */
  type Log = map<Index, seq<Cell>>

  function RowsAt(log: Log, order: seq<Index>): (rows: seq<Row>)
    requires forall x :: x in order ==> x in log
    ensures |rows| == |order|
    ensures forall i :: 0 <= i < |order| ==> rows[i] == Row(Some(order[i]), log[order[i]])
  {
    seq(|order|, i requires 0 <= i < |order| => Row(Some(order[i]), log[order[i]]))
  }

  /** All rows of a log in growth order. */
  function Listing(d: Direction, log: Log): (rows: seq<Row>) {
    RowsAt(log, Sorted(d, log.Keys))
  }

  lemma ListingAt(d: Direction, log: Log, x: Index)
    requires x in log
    ensures Row(Some(x), log[x]) in Listing(d, log)
  {
    var order := Sorted(d, log.Keys);
    assert x in order;
    var i :| 0 <= i < |order| && order[i] == x;
    assert Listing(d, log)[i] == Row(Some(x), log[x]);
  }

  /** Listing two logs one after the other lists their union when the first lies before the second. */
  lemma ListingConcat(d: Direction, a: Log, b: Log)
    requires forall x, y :: x in a && y in b ==> Before(d, x, y)
    ensures Listing(d, a + b) == Listing(d, a) + Listing(d, b)
  {
    assert (a + b).Keys == a.Keys + b.Keys;
    SortedConcat(d, a.Keys, b.Keys);
    forall x | x in a
      ensures x !in b
    {
      assert x in b ==> Before(d, x, x);
    }
    RowsAtConcat(a, b, Sorted(d, a.Keys), Sorted(d, b.Keys));
  }

  lemma RowsAtConcat(a: Log, b: Log, r: seq<Index>, s: seq<Index>)
    requires a.Keys !! b.Keys
    requires (forall x :: x in r ==> x in a) && (forall x :: x in s ==> x in b)
    ensures RowsAt(a + b, r + s) == RowsAt(a, r) + RowsAt(b, s)
  {
    var rows := RowsAt(a, r) + RowsAt(b, s);
    assert forall x :: x in r + s ==> x in r || x in s;
    forall i | 0 <= i < |r + s|
      ensures RowsAt(a + b, r + s)[i] == rows[i]
    {
      if i < |r| {
        assert r[i] in a && r[i] !in b;
      } else {
        assert s[i - |r|] in b;
      }
    }
  }

  // ---- samples -------------------------------------------------------------------------------

  function UnitAt(units: seq<Option<string>>, col: nat): Option<string> {
    if col < |units| then units[col] else None
  }

  /** The sample of one cell, if it is not null. */
  function CellSample(b: Block, row: Row, col: nat): seq<Sample>
    requires row.index.Some? && 1 <= col < |b.mnemonics|
  {
    if col - 1 >= |row.cells| then [] else
      match row.cells[col - 1]
      case Null => []
      case Num(v) => [Sample(b.mnemonics[col], row.index.value, Some(v), None, UnitAt(b.units, col))]
      case Text(t) => [Sample(b.mnemonics[col], row.index.value, None, Some(t), UnitAt(b.units, col))]
  }

  /** The samples of columns 1 up to `upto` of one row. */
  function RowSamples(b: Block, row: Row, upto: nat): seq<Sample>
    requires upto == 0 || upto <= |b.mnemonics|
  {
    if row.index.None? || upto <= 1 then [] else
      RowSamples(b, row, upto - 1) + CellSample(b, row, upto - 1)
  }

  /** The samples of a list of rows under the headers of `b`. */
  function SamplesOf(b: Block, rows: seq<Row>): seq<Sample> {
    if rows == [] then [] else
      SamplesOf(b, rows[..|rows| - 1]) + RowSamples(b, rows[|rows| - 1], |b.mnemonics|)
  }

  lemma SamplesOfStep(b: Block, rows: seq<Row>, row: Row)
    ensures SamplesOf(b, rows + [row]) == SamplesOf(b, rows) + RowSamples(b, row, |b.mnemonics|)
    ensures SamplesOf(b, []) == []
  {
    assert (rows + [row])[..|rows|] == rows;
  }

  lemma {:induction false} SamplesOfConcat(b: Block, r: seq<Row>, s: seq<Row>)
    ensures SamplesOf(b, r + s) == SamplesOf(b, r) + SamplesOf(b, s)
  {
    if s == [] {
      assert r + s == r;
    } else {
      var k := |s| - 1;
      SamplesOfConcat(b, r, s[..k]);
      assert (r + s)[..|r + s| - 1] == r + s[..k];
    }
  }

  /** The inner loop of `samples`: the samples of one row, null cells skipped. */
  method ExplodeRow(b: Block, row: Row) returns (out: seq<Sample>)
    requires row.index.Some?
    ensures out == RowSamples(b, row, |b.mnemonics|)
    ensures forall s :: s in out <==> exists col :: IsSampleOf(b, row, col, s)
  {
    hide IsSampleOf;
    out := [];
    var col := 1;
    while col < |b.mnemonics|
      invariant 1 <= col <= |b.mnemonics| || |b.mnemonics| == 0
      invariant out == if |b.mnemonics| == 0 then [] else RowSamples(b, row, col)
    {
      var cell := if col - 1 < |row.cells| then row.cells[col - 1] else Null;
      if cell != Null {
        var sample := Sample(b.mnemonics[col], row.index.value, None, None, UnitAt(b.units, col));
        if cell.Text? {
          sample := sample.(text := Some(cell.text));
        } else {
          sample := sample.(value := Some(cell.num));
        }
        out := out + [sample];
      }
      col := col + 1;
    }
    forall s
      ensures s in out <==> exists c :: IsSampleOf(b, row, c, s)
    {
      RowSamplesMeaning(b, row, |b.mnemonics|, s);
      RowOfSample(b, row, s);
    }
  }

  /** `LogDataBlock.samples`: flatten the rows, skipping null indices and null cells. */
  method Samples(b: Block) returns (out: seq<Sample>)
    ensures out == SamplesOf(b, b.rows)
    ensures forall s :: s in out <==> exists i, col :: 0 <= i < |b.rows| && IsSampleOf(b, b.rows[i], col, s)
  {
    hide SamplesOf, IsSampleOf;
    out := [];
    SamplesOfStep(b, [], Row(None, []));
    for r := 0 to |b.rows|
      invariant out == SamplesOf(b, b.rows[..r])
    {
      var row := b.rows[r];
      assert b.rows[..r + 1] == b.rows[..r] + [row];
      SamplesOfStep(b, b.rows[..r], row);
      if row.index.Some? {
        var samples := ExplodeRow(b, row);
        out := out + samples;
      }
    }
    assert b.rows[..|b.rows|] == b.rows;
    forall s
      ensures s in out <==> exists i, col :: 0 <= i < |b.rows| && IsSampleOf(b, b.rows[i], col, s)
    {
      SamplesMeaning(b, b.rows, s);
    }
  }

  // ---- what the samples say ------------------------------------------------------------------

  /** A cell that is not null, as a number or a text. */
  predicate Reads(cell: Cell, value: Option<real>, text: Option<string>) {
    match cell
    case Null => false
    case Num(v) => value == Some(v) && text == None
    case Text(t) => text == Some(t) && value == None
  }

  /** A sample is what a row holds in one column after the first, under that column's header and unit. */
  predicate IsSampleOf(b: Block, row: Row, col: int, s: Sample) {
    && 1 <= col < |b.mnemonics| && col - 1 < |row.cells|
    && row.index == Some(s.index) && s.mnemonic == b.mnemonics[col]
    && Reads(row.cells[col - 1], s.value, s.text)
    && s.uom == if col < |b.units| then b.units[col] else None
  }

  /** The samples of some rows are what their cells hold, and nothing else. */
  lemma {:induction false} SamplesMeaning(b: Block, rows: seq<Row>, s: Sample)
    ensures s in SamplesOf(b, rows) <==> exists i, col :: 0 <= i < |rows| && IsSampleOf(b, rows[i], col, s)
  {
    hide IsSampleOf, RowSamples;
    if rows != [] {
      var k := |rows| - 1;
      var front := rows[..k];
      SamplesMeaning(b, front, s);
      RowSamplesMeaning(b, rows[k], |b.mnemonics|, s);
      RowOfSample(b, rows[k], s);
      if i, col :| 0 <= i < |front| && IsSampleOf(b, front[i], col, s) {
        assert rows[i] == front[i];
      }
      if i, col :| 0 <= i < |rows| && IsSampleOf(b, rows[i], col, s) {
        if i < k {
          assert rows[i] == front[i];
        }
      }
    }
  }

  lemma RowOfSample(b: Block, row: Row, s: Sample)
    ensures forall col :: IsSampleOf(b, row, col, s) ==> col < |b.mnemonics|
  {
  }

  lemma {:induction false} RowSamplesMeaning(b: Block, row: Row, upto: nat, s: Sample)
    requires upto <= |b.mnemonics|
    ensures s in RowSamples(b, row, upto) <==> exists col :: col < upto && IsSampleOf(b, row, col, s)
  {
    if row.index.Some? && upto > 1 {
      RowSamplesMeaning(b, row, upto - 1, s);
      CellSampleMeaning(b, row, upto - 1, s);
      hide IsSampleOf, CellSample;
      if col :| col < upto && IsSampleOf(b, row, col, s) {
        assert col == upto - 1 || col < upto - 1;
      }
    }
  }

  lemma CellSampleMeaning(b: Block, row: Row, col: nat, s: Sample)
    requires row.index.Some? && 1 <= col < |b.mnemonics|
    ensures s in CellSample(b, row, col) <==> IsSampleOf(b, row, col, s)
  {
  }

  /** They come row by row, and within a row column by column: no cell gives two. */
  lemma {:induction false} SamplesInOrder(b: Block, rows: seq<Row>, p: nat, q: nat)
    requires p < q < |SamplesOf(b, rows)|
    ensures exists i, c, j, e :: 0 <= i <= j < |rows| && (i == j ==> c < e) &&
              IsSampleOf(b, rows[i], c, SamplesOf(b, rows)[p]) && IsSampleOf(b, rows[j], e, SamplesOf(b, rows)[q])
  {
    hide IsSampleOf, RowSamples;
    var k := |rows| - 1;
    var front := rows[..k];
    var n := |SamplesOf(b, front)|;
    var s, t := SamplesOf(b, rows)[p], SamplesOf(b, rows)[q];
    if q < n {
      SamplesInOrder(b, front, p, q);
      var i, c, j, e :| 0 <= i <= j < |front| && (i == j ==> c < e) && IsSampleOf(b, front[i], c, s) &&
                        IsSampleOf(b, front[j], e, t);
      assert rows[i] == front[i] && rows[j] == front[j];
    } else if n <= p {
      RowInOrder(b, rows[k], |b.mnemonics|, p - n, q - n);
    } else {
      SamplesMeaning(b, front, s);
      var i, c :| 0 <= i < |front| && IsSampleOf(b, front[i], c, s);
      RowSamplesMeaning(b, rows[k], |b.mnemonics|, t);
      assert rows[i] == front[i];
    }
  }

  lemma {:induction false} RowInOrder(b: Block, row: Row, upto: nat, p: nat, q: nat)
    requires upto <= |b.mnemonics| && p < q < |RowSamples(b, row, upto)|
    ensures exists c, e :: c < e < upto && IsSampleOf(b, row, c, RowSamples(b, row, upto)[p]) &&
                           IsSampleOf(b, row, e, RowSamples(b, row, upto)[q])
  {
    hide IsSampleOf;
    var n := |RowSamples(b, row, upto - 1)|;
    var s, t := RowSamples(b, row, upto)[p], RowSamples(b, row, upto)[q];
    if q < n {
      RowInOrder(b, row, upto - 1, p, q);
    } else {
      assert t == CellSample(b, row, upto - 1)[q - n] && p < n;
      CellSampleMeaning(b, row, upto - 1, t);
      RowSamplesMeaning(b, row, upto - 1, s);
    }
  }
}
