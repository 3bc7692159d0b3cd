/** What a latest-values reply contains, and that merging it on the client loses none of it. */
module LatestValues {
  import opened Numbers
  import opened Order
  import opened Text
  import opened Blocks
  import opened MockStore
  import opened WriteRead
  import opened SparseMerge

  /** The `n` newest of a set: as many as there are up to `n`, and nothing newer is left out. */
  lemma NewestOfMeaning(d: Direction, s: set<Index>, n: nat)
    ensures var newest := NewestOf(d, s, n);
            && newest <= s && |newest| == Min(n, |s|)
            && forall x, y :: x in s && y in newest && Before(d, y, x) ==> x in newest
  {
    hide Sorted;
    var o := Opposite(d);
    PrefixOfSorted(o, s, Min(n, |s|));
    assert Sorted(o, s)[..|s|] == Sorted(o, s);
  }

  lemma {:induction false} KeptHasColumn(rows: map<Index, Cells>, d: Direction, nulls: set<string>, n: nat,
                                         width: nat, col: nat)
    requires 1 <= col < width
    ensures NewestOf(d, Holding(rows, col, nulls), n) <= Kept(rows, d, nulls, n, width)
  {
    hide NewestOf, Holding;
    if col < width - 1 {
      KeptHasColumn(rows, d, nulls, n, width - 1, col);
    }
  }

  lemma {:induction false} KeptFromColumn(rows: map<Index, Cells>, d: Direction, nulls: set<string>, n: nat,
                                          width: nat, x: Index)
    requires x in Kept(rows, d, nulls, n, width)
    ensures exists col :: 1 <= col < width && x in NewestOf(d, Holding(rows, col, nulls), n)
  {
    hide NewestOf, Holding;
    if x in NewestOf(d, Holding(rows, width - 1, nulls), n) {
      assert 1 <= width - 1 < width;
    } else {
      KeptFromColumn(rows, d, nulls, n, width - 1, x);
    }
  }

  lemma {:induction false} KeptSize(rows: map<Index, Cells>, d: Direction, nulls: set<string>, n: nat, width: nat)
    requires width >= 1
    ensures |Kept(rows, d, nulls, n, width)| <= n * (width - 1)
  {
    hide NewestOf, Holding;
    if width > 1 {
      KeptSize(rows, d, nulls, n, width - 1);
      var one := NewestOf(d, Holding(rows, width - 1, nulls), n);
      NewestOfMeaning(d, Holding(rows, width - 1, nulls), n);
      var before := Kept(rows, d, nulls, n, width - 1);
      assert |before + one| == |before| + |one| - |before * one|;
      assert n * (width - 1) == n * (width - 2) + n;
    }
  }

  /** The stored row has a cell in the column, and it is neither blank nor one of the null values. */
  predicate HasValue(rows: map<Index, Cells>, x: Index, col: nat, nulls: set<string>) {
    x in rows && col < |rows[x]| && Strip(rows[x][col]) != "" && Strip(rows[x][col]) !in nulls
  }

  lemma HoldingMeaning(rows: map<Index, Cells>, nulls: set<string>)
    ensures forall col: nat, x :: x in Holding(rows, col, nulls) <==> HasValue(rows, x, col, nulls)
  {
    hide Strip;
  }

  /**
   * Requested latest values. Each curve gets its `min(n, available)` newest values by log direction; every row
   * emitted is among the `n` newest of some curve; there are at most `n` rows per curve.
   */
  lemma LatestValuesSelected(rows: map<Index, Cells>, d: Direction, nulls: set<string>, n: nat, width: nat)
    requires width >= 1
    ensures var kept := Kept(rows, d, nulls, n, width);
            && kept <= rows.Keys
            && (forall col, x :: 1 <= col < width ==>
                  (x in Holding(rows, col, nulls) <==> HasValue(rows, x, col, nulls)))
            && (forall col :: 1 <= col < width ==>
                  var newest := NewestOf(d, Holding(rows, col, nulls), n);
                  && newest <= kept && newest <= Holding(rows, col, nulls)
                  && |newest| == Min(n, |Holding(rows, col, nulls)|)
                  && forall x, y :: x in Holding(rows, col, nulls) && y in newest && Before(d, y, x) ==> x in newest)
            && (forall x :: x in kept ==>
                  exists col :: 1 <= col < width && x in NewestOf(d, Holding(rows, col, nulls), n))
            && |kept| <= n * (width - 1)
  {
    HoldingMeaning(rows, nulls);
    hide NewestOf, Holding, Kept, Before, HasValue;
    KeptInRows(rows, d, nulls, n, width);
    KeptSize(rows, d, nulls, n, width);
    forall col | 1 <= col < width
      ensures NewestOf(d, Holding(rows, col, nulls), n) <= Kept(rows, d, nulls, n, width)
      ensures var newest := NewestOf(d, Holding(rows, col, nulls), n);
              && newest <= Holding(rows, col, nulls) && |newest| == Min(n, |Holding(rows, col, nulls)|)
              && forall x, y :: x in Holding(rows, col, nulls) && y in newest && Before(d, y, x) ==> x in newest
    {
      KeptHasColumn(rows, d, nulls, n, width, col);
      NewestOfMeaning(d, Holding(rows, col, nulls), n);
    }
    forall x | x in Kept(rows, d, nulls, n, width)
      ensures exists col :: 1 <= col < width && x in NewestOf(d, Holding(rows, col, nulls), n)
    {
      KeptFromColumn(rows, d, nulls, n, width, x);
    }
  }

  // ---- on the client -------------------------------------------------------------------------

  /** The emitted rows, by index. */
  function Sparse(rows: map<Index, Cells>, kept: set<Index>, width: nat, nulls: set<string>, nullValue: string)
    : map<Index, Cells>
    requires forall x :: x in rows ==> rows[x] != []
  {
    map x | x in kept && x in rows :: SparseRow(rows[x], width, nulls, nullValue)
  }

  lemma SparseIsWellStored(codec: Codec, rows: map<Index, Cells>, kept: set<Index>, width: nat, nulls: set<string>,
                           nullValue: string)
    requires WellStored(codec, rows) && ClearIndices(rows) && Plain(nullValue) && width >= 1
    ensures WellStored(codec, Sparse(rows, kept, width, nulls, nullValue))
    ensures ClearIndices(Sparse(rows, kept, width, nulls, nullValue))
  {
    var sparse := Sparse(rows, kept, width, nulls, nullValue);
    forall x | x in sparse
      ensures AllPlain(sparse[x])
    {
      assert AllPlain(rows[x]);
      assert Plain("");
    }
  }

  /**
   * Parsing the reply and merging its rows keeps every value: at each emitted index and in each column the merged
   * row holds what the store held there, read by the client, or null where the store held a null.
   */
  lemma MergedReplyKeepsValues(codec: Codec, rows: map<Index, Cells>, kept: set<Index>, width: nat,
                               nulls: set<string>, nullValue: string, x: Index, col: nat)
    requires WellStored(codec, rows) && ClearIndices(rows) && Plain(nullValue)
    requires kept <= rows.Keys && 1 <= col < width
    ensures (forall y :: y in rows ==> rows[y] != []) && (forall y :: y in Sorted(Increasing, kept) ==> y in rows)
    ensures var order := Sorted(Increasing, kept);
            var texts := DataTexts(SparseRows(rows, order, width, nulls, nullValue));
            var merged := Dense(ParsedRows(codec, texts), width - 1);
            && (x in merged <==> x in kept)
            && (x in kept ==>
                  var text := if col < |rows[x]| then Strip(rows[x][col]) else "";
                  && (HasValue(rows, x, col, nulls) ==> DecodesTo(codec, text, merged[x][col - 1]))
                  && (text in nulls ==> DecodesTo(codec, nullValue, merged[x][col - 1]))
                  && (text == "" && text !in nulls ==> merged[x][col - 1] == Null))
  {
    hide Sorted, Dense, ParsedRows, LastValue, AllPlain, DecodeCell, DecodesTo, Join, Has, HasValue, Strip;
    var order := Sorted(Increasing, kept);
    var sparse := Sparse(rows, kept, width, nulls, nullValue);
    SparseIsWellStored(codec, rows, kept, width, nulls, nullValue);
    hide WellStored, ClearIndices;
    ContentKeys(codec, sparse);
    RowsSurvive(codec, sparse, order);
    assert ValuesAt(sparse, order) == SparseRows(rows, order, width, nulls, nullValue);
    var parsed := RowsAt(Content(codec, sparse), order);
    DenseIsLast(parsed, width - 1, x, col - 1);
    ValueInRowsAt(Content(codec, sparse), order, x, col - 1);
    HasRowsAt(Content(codec, sparse), order, x);
    if x in kept {
      assert Content(codec, sparse)[x] == DecodeCells(codec, sparse[x][1..]);
      assert sparse[x][1..][col - 1] == SparseCell(rows[x], col, nulls, nullValue);
      SparseDecodes(codec, rows, x, col, nulls, nullValue);
    }
  }

  lemma SparseDecodes(codec: Codec, rows: map<Index, Cells>, x: Index, col: nat, nulls: set<string>, nullValue: string)
    requires x in rows && Plain(nullValue)
    ensures var text := if col < |rows[x]| then Strip(rows[x][col]) else "";
            var cell := DecodeCell(codec, SparseCell(rows[x], col, nulls, nullValue));
            && (HasValue(rows, x, col, nulls) ==> DecodesTo(codec, text, cell))
            && (text in nulls ==> DecodesTo(codec, nullValue, cell))
            && (text == "" && text !in nulls ==> cell == Null)
  {
    var raw := if col < |rows[x]| then rows[x][col] else "";
    StripTrimmed("");
    StripTrimmed(nullValue);
    hide Strip;
  }

  lemma HasRowsAt(m: Log, order: seq<Index>, x: Index)
    requires forall y :: y in order ==> y in m
    ensures Has(RowsAt(m, order), x) <==> x in order
  {
    if x in order {
      var i :| 0 <= i < |order| && order[i] == x;
      assert RowsAt(m, order)[i].index == Some(x);
    }
  }
}
