/** Merging the sparse rows of a latest-values reply into dense rows. */
module SparseMerge {
  import opened Order
  import opened Blocks

  function Blank(width: nat): seq<Cell> {
    seq(width, i => Null)
  }

  /** The cell of a row in a value column (0 is the first column after the index). */
  function CellOf(cells: seq<Cell>, col: nat): Cell {
    if col < |cells| then cells[col] else Null
  }

  /** Cells that are not null replace what was there. */
  function Overlay(dense: seq<Cell>, cells: seq<Cell>): (r: seq<Cell>)
    ensures |r| == |dense|
  {
    seq(|dense|, c requires 0 <= c < |dense| => if CellOf(cells, c) != Null then CellOf(cells, c) else dense[c])
  }

  function DenseAt(m: Log, x: Index, width: nat): seq<Cell> {
    if x in m then m[x] else Blank(width)
  }

  /** The dictionary the merge builds: one dense row of `width` value columns per index. */
  function Dense(rows: seq<Row>, width: nat): (m: Log)
    ensures forall x :: x in m ==> |m[x]| == width
  {
    if rows == [] then map[] else
      var front := Dense(rows[..|rows| - 1], width);
      var r := rows[|rows| - 1];
      if r.index.None? then front
      else front[r.index.value := Overlay(DenseAt(front, r.index.value, width), r.cells)]
  }

  lemma DenseStep(rows: seq<Row>, r: Row, width: nat)
    ensures Dense(rows + [r], width) ==
            var front := Dense(rows, width);
            if r.index.None? then front
            else front[r.index.value := Overlay(DenseAt(front, r.index.value, width), r.cells)]
  {
    assert (rows + [r])[..|rows|] == rows;
  }

  /** `merge_sparse_rows`. */
  method MergeSparseRows(b: Block) returns (r: Block)
    requires b.mnemonics != []
    ensures r == b.(rows := Listing(Increasing, Dense(b.rows, |b.mnemonics| - 1)))
  {
    hide Dense, Listing;
    var byIndex: Log := map[];
    var width := |b.mnemonics| - 1;
    NothingDense(width);
    for i := 0 to |b.rows|
      invariant byIndex == Dense(b.rows[..i], width)
    {
      assert b.rows[..i + 1] == b.rows[..i] + [b.rows[i]];
      DenseStep(b.rows[..i], b.rows[i], width);
      var row := b.rows[i];
      if row.index.None? {
        continue;
      }
      var x := row.index.value;
      if x !in byIndex {
        byIndex := byIndex[x := Blank(width)];
      }
      var dense := FillRow(byIndex[x], row.cells);
      byIndex := byIndex[x := dense];
    }
    assert b.rows[..|b.rows|] == b.rows;
    r := b.(rows := Listing(Increasing, byIndex));
  }

  lemma NothingDense(width: nat)
    ensures Dense([], width) == map[]
  {
  }

  /** The inner loop: the cells of one row. */
  method FillRow(before: seq<Cell>, cells: seq<Cell>) returns (dense: seq<Cell>)
    ensures dense == Overlay(before, cells)
  {
    dense := before;
    for col := 0 to |before|
      invariant |dense| == |before|
      invariant forall c :: 0 <= c < |before| ==> dense[c] == if c < col then Overlay(before, cells)[c] else before[c]
    {
      if col < |cells| && cells[col] != Null {
        dense := dense[col := cells[col]];
      }
    }
  }

  // ---- what the merge means ------------------------------------------------------------------

  /** The last cell that is not null, among the rows at `x`, in a value column. */
  function LastValue(rows: seq<Row>, x: Index, col: nat): Cell {
    if rows == [] then Null else
      var r := rows[|rows| - 1];
      if r.index == Some(x) && CellOf(r.cells, col) != Null then CellOf(r.cells, col)
      else LastValue(rows[..|rows| - 1], x, col)
  }

  ghost predicate Has(rows: seq<Row>, x: Index) {
    exists i :: 0 <= i < |rows| && rows[i].index == Some(x)
  }

  lemma HasStep(rows: seq<Row>, x: Index)
    requires rows != []
    ensures Has(rows, x) <==> rows[|rows| - 1].index == Some(x) || Has(rows[..|rows| - 1], x)
  {
    var front := rows[..|rows| - 1];
    assert forall i :: 0 <= i < |front| ==> front[i] == rows[i];
  }

  lemma {:induction false} DenseIsLast(rows: seq<Row>, width: nat, x: Index, col: nat)
    requires col < width
    ensures x in Dense(rows, width) <==> Has(rows, x)
    ensures x in Dense(rows, width) ==> Dense(rows, width)[x][col] == LastValue(rows, x, col)
    ensures !Has(rows, x) ==> LastValue(rows, x, col) == Null
  {
    if rows != [] {
      DenseIsLast(rows[..|rows| - 1], width, x, col);
      HasStep(rows, x);
    }
  }

  predicate HasCell(row: Row, x: Index, col: nat) {
    row.index == Some(x) && col < |row.cells| && row.cells[col] != Null
  }

  /** The k-th row is the last one with a cell that is not null at this index and column. */
  predicate IsLastCell(rows: seq<Row>, x: Index, col: nat, k: int) {
    0 <= k < |rows| && HasCell(rows[k], x, col) && forall l :: k < l < |rows| ==> !HasCell(rows[l], x, col)
  }

  lemma {:induction false} LastValueMeaning(rows: seq<Row>, x: Index, col: nat)
    ensures forall k :: IsLastCell(rows, x, col, k) ==> LastValue(rows, x, col) == rows[k].cells[col]
    ensures LastValue(rows, x, col) != Null ==> exists k :: IsLastCell(rows, x, col, k)
  {
    if rows != [] {
      var n := |rows| - 1;
      if HasCell(rows[n], x, col) {
        assert IsLastCell(rows, x, col, n);
      } else {
        LastValueMeaning(rows[..n], x, col);
        assert forall k :: IsLastCell(rows, x, col, k) <==> IsLastCell(rows[..n], x, col, k);
      }
    }
  }

  /** Each index gets one row, holding in every column the last cell there that is not null, or null. */
  lemma MergeTakesLastValues(rows: seq<Row>, width: nat, x: Index, col: nat)
    requires col < width
    ensures x in Dense(rows, width) <==> exists k :: 0 <= k < |rows| && rows[k].index == Some(x)
    ensures x in Dense(rows, width) ==>
              var cell := Dense(rows, width)[x][col];
              && (forall k :: IsLastCell(rows, x, col, k) ==> cell == rows[k].cells[col])
              && ((forall k :: !IsLastCell(rows, x, col, k)) ==> cell == Null)
  {
    DenseIsLast(rows, width, x, col);
    LastValueMeaning(rows, x, col);
  }

  lemma {:induction false} DenseHas(rows: seq<Row>, width: nat, x: Index)
    ensures x in Dense(rows, width) <==> Has(rows, x)
  {
    if rows != [] {
      DenseHas(rows[..|rows| - 1], width, x);
      HasStep(rows, x);
    }
  }

  lemma {:induction false} LastValueConcat(r: seq<Row>, s: seq<Row>, x: Index, col: nat)
    ensures LastValue(r + s, x, col) ==
            if LastValue(s, x, col) != Null then LastValue(s, x, col) else LastValue(r, x, col)
    ensures Has(r + s, x) <==> Has(r, x) || Has(s, x)
  {
    if s == [] {
      assert r + s == r;
    } else {
      var k := |s| - 1;
      LastValueConcat(r, s[..k], x, col);
      assert (r + s)[..|r + s| - 1] == r + s[..k];
      HasStep(s, x);
      HasStep(r + s, x);
    }
  }

  lemma HasListing(m: Log, x: Index)
    ensures Has(Listing(Increasing, m), x) <==> x in m
  {
    var rows, order := Listing(Increasing, m), Sorted(Increasing, m.Keys);
    assert x in order <==> x in m;
    if x in m {
      var i :| 0 <= i < |order| && order[i] == x;
      assert rows[i].index == Some(x);
    }
  }

  /** Listing a dense dictionary and reading a value back gives that value. */
  lemma ListingValue(m: Log, width: nat, x: Index, col: nat)
    requires (forall y :: y in m ==> |m[y]| == width) && col < width && x in m
    ensures LastValue(Listing(Increasing, m), x, col) == m[x][col]
  {
    hide Sorted;
    ValueInRowsAt(m, Sorted(Increasing, m.Keys), x, col);
  }

  lemma {:induction false} ValueInRowsAt(m: Log, order: seq<Index>, x: Index, col: nat)
    requires forall y :: y in order ==> y in m
    ensures LastValue(RowsAt(m, order), x, col) == if x in order then CellOf(m[x], col) else Null
  {
    if order != [] {
      var k := |order| - 1;
      ValueInRowsAt(m, order[..k], x, col);
      assert RowsAt(m, order)[..k] == RowsAt(m, order[..k]);
      assert order == order[..k] + [order[k]];
    }
  }

  lemma SameDense(a: Log, b: Log, width: nat)
    requires (forall x :: x in a ==> |a[x]| == width) && (forall x :: x in b ==> |b[x]| == width)
    requires forall x :: x in a <==> x in b
    requires forall x, col :: x in a && 0 <= col < width ==> a[x][col] == b[x][col]
    ensures a == b
  {
    forall x | x in a
      ensures a[x] == b[x]
    {
    }
  }

  lemma MergeOfMergedAt(a: seq<Row>, b: seq<Row>, width: nat, x: Index, col: nat)
    requires col < width
    ensures var twice, once := Dense(Listing(Increasing, Dense(a, width)) + b, width), Dense(a + b, width);
            (x in twice <==> x in once) && (x in once ==> twice[x][col] == once[x][col])
  {
    hide Listing, Dense;
    var merged := Listing(Increasing, Dense(a, width));
    DenseIsLast(merged + b, width, x, col);
    DenseIsLast(a + b, width, x, col);
    DenseIsLast(a, width, x, col);
    LastValueConcat(merged, b, x, col);
    LastValueConcat(a, b, x, col);
    HasListing(Dense(a, width), x);
    if x in Dense(a, width) {
      ListingValue(Dense(a, width), width, x, col);
    } else {
      DenseIsLast(merged, width, x, col);
    }
  }

  /** Merging a merged block with more rows is merging everything: merge(merge(a) + b) = merge(a + b). */
  lemma MergeOfMerged(a: seq<Row>, b: seq<Row>, width: nat)
    ensures Dense(Listing(Increasing, Dense(a, width)) + b, width) == Dense(a + b, width)
  {
    hide Listing, Dense;
    forall x
      ensures x in Dense(Listing(Increasing, Dense(a, width)) + b, width) <==> x in Dense(a + b, width)
    {
      var merged := Listing(Increasing, Dense(a, width));
      DenseHas(merged + b, width, x);
      DenseHas(a + b, width, x);
      DenseHas(a, width, x);
      LastValueConcat(merged, b, x, 0);
      LastValueConcat(a, b, x, 0);
      HasListing(Dense(a, width), x);
    }
    forall x, col | x in Dense(a + b, width) && 0 <= col < width
      ensures Dense(Listing(Increasing, Dense(a, width)) + b, width)[x][col] == Dense(a + b, width)[x][col]
    {
      MergeOfMergedAt(a, b, width, x, col);
    }
    SameDense(Dense(Listing(Increasing, Dense(a, width)) + b, width), Dense(a + b, width), width);
  }

  lemma MergeIdempotent(a: seq<Row>, width: nat)
    ensures Dense(Listing(Increasing, Dense(a, width)), width) == Dense(a, width)
  {
    MergeOfMerged(a, [], width);
    assert Listing(Increasing, Dense(a, width)) + [] == Listing(Increasing, Dense(a, width));
    assert a + [] == a;
  }

  /** Rows at one index never fill the same column with different values. */
  ghost predicate Compatible(rows: seq<Row>, width: nat) {
    forall r, s, col :: r in rows && s in rows && r.index.Some? && r.index == s.index && 0 <= col < width &&
                        CellOf(r.cells, col) != Null && CellOf(s.cells, col) != Null ==>
                          CellOf(r.cells, col) == CellOf(s.cells, col)
  }

  lemma {:induction false} LastValueIsSome(rows: seq<Row>, x: Index, col: nat)
    ensures LastValue(rows, x, col) != Null ==>
              exists r :: r in rows && r.index == Some(x) && CellOf(r.cells, col) == LastValue(rows, x, col)
    ensures LastValue(rows, x, col) == Null ==>
              forall r :: r in rows && r.index == Some(x) ==> CellOf(r.cells, col) == Null
  {
    if rows != [] {
      var k := |rows| - 1;
      LastValueIsSome(rows[..k], x, col);
      assert rows == rows[..k] + [rows[k]];
    }
  }

  lemma MergeOrderAt(a: seq<Row>, b: seq<Row>, width: nat, x: Index, col: nat)
    requires col < width && Compatible(a, width)
    requires forall r :: r in a <==> r in b
    ensures (x in Dense(a, width) <==> x in Dense(b, width))
    ensures x in Dense(a, width) ==> x in Dense(b, width) && Dense(a, width)[x][col] == Dense(b, width)[x][col]
  {
    hide Dense;
    DenseIsLast(a, width, x, col);
    DenseIsLast(b, width, x, col);
    SameHas(a, b, x);
    LastValueIsSome(a, x, col);
    LastValueIsSome(b, x, col);
  }

  /** When rows at one index fill disjoint columns the order of the rows does not matter. */
  lemma MergeOrderIrrelevant(a: seq<Row>, b: seq<Row>, width: nat)
    requires Compatible(a, width)
    requires forall r :: r in a <==> r in b
    ensures Dense(a, width) == Dense(b, width)
  {
    hide Dense, Compatible;
    forall x
      ensures x in Dense(a, width) <==> x in Dense(b, width)
    {
      DenseHas(a, width, x);
      DenseHas(b, width, x);
      SameHas(a, b, x);
    }
    forall x, col | x in Dense(a, width) && 0 <= col < width
      ensures Dense(a, width)[x][col] == Dense(b, width)[x][col]
    {
      MergeOrderAt(a, b, width, x, col);
    }
    SameDense(Dense(a, width), Dense(b, width), width);
  }

  lemma SameHas(a: seq<Row>, b: seq<Row>, x: Index)
    requires forall r :: r in a <==> r in b
    ensures Has(a, x) <==> Has(b, x)
  {
    if Has(a, x) {
      var i :| 0 <= i < |a| && a[i].index == Some(x);
      assert a[i] in b;
    }
    if Has(b, x) {
      var i :| 0 <= i < |b| && b[i].index == Some(x);
      assert b[i] in a;
    }
  }
}
