/** The polling kernel: continuation index, boundary removal and merging of batches. */
module Polling {
  import opened Order
  import opened Blocks

  /** The indices of the rows that have one. */
  function RowIndices(rows: seq<Row>): set<Index> {
    set r | r in rows && r.index.Some? :: r.index.value
  }

  /** The index to resume from after a batch: the most advanced one, None for an empty batch. */
  function ContinuationIndex(rows: seq<Row>, d: Direction): Option<Index> {
    Newest(d, RowIndices(rows))
  }

  predicate IsBeyond(x: Index, last: Index, d: Direction) {
    Before(d, last, x)
  }

  /** Keep only the rows strictly beyond `last`. */
  function Dedupe(rows: seq<Row>, last: Option<Index>, d: Direction): seq<Row> {
    if last.None? then rows
    else if rows == [] then []
    else
      var r := rows[|rows| - 1];
      var front := Dedupe(rows[..|rows| - 1], last, d);
      if r.index.Some? && IsBeyond(r.index.value, last.value, d) then front + [r] else front
  }

  function DedupeBoundary(b: Block, last: Option<Index>, d: Direction): Block {
    b.(rows := Dedupe(b.rows, last, d))
  }

  /** The rows as a dictionary from index to cells: rows without an index are skipped, the last write wins. */
  function ByIndex(rows: seq<Row>): Log {
    if rows == [] then map[]
    else
      var r := rows[|rows| - 1];
      var front := ByIndex(rows[..|rows| - 1]);
      if r.index.None? then front else front[r.index.value := r.cells]
  }

  function AllRows(blocks: seq<Block>): seq<Row> {
    if blocks == [] then [] else AllRows(blocks[..|blocks| - 1]) + blocks[|blocks| - 1].rows
  }

  predicate HasHeaders(blocks: seq<Block>) {
    exists i :: 0 <= i < |blocks| && blocks[i].mnemonics != []
  }

  /** The first block with headers, or the first block. */
  function HeadBlock(blocks: seq<Block>): Block
    requires blocks != []
  {
    if HasHeaders(blocks) then FirstHeaded(blocks) else blocks[0]
  }

  function FirstHeaded(blocks: seq<Block>): (b: Block)
    requires HasHeaders(blocks)
    ensures b in blocks && b.mnemonics != []
  {
    if blocks[0].mnemonics != [] then blocks[0] else FirstHeaded(blocks[1..])
  }

  datatype MergeError = NoBlocks | HeadersDiffer

  predicate HeadersAgree(blocks: seq<Block>)
    requires blocks != []
  {
    forall i :: 0 <= i < |blocks| && blocks[i].mnemonics != [] ==>
                  blocks[i].mnemonics == HeadBlock(blocks).mnemonics
  }

  lemma EmptyBatches()
    ensures AllRows([]) == [] && ByIndex([]) == map[]
  {
  }

  lemma ByIndexStep(rows: seq<Row>, r: Row)
    ensures ByIndex(rows + [r]) == if r.index.None? then ByIndex(rows) else ByIndex(rows)[r.index.value := r.cells]
  {
    assert (rows + [r])[..|rows|] == rows;
  }

  lemma AllRowsStep(blocks: seq<Block>, b: Block)
    ensures AllRows(blocks + [b]) == AllRows(blocks) + b.rows
  {
    assert (blocks + [b])[..|blocks|] == blocks;
  }

  /** What merging blocks yields; it raises exactly when there is nothing to merge or headers disagree. */
  function Merged(blocks: seq<Block>): Result<Block, MergeError> {
    if blocks == [] then Err(NoBlocks)
    else if !HeadersAgree(blocks) then Err(HeadersDiffer)
    else Ok(HeadBlock(blocks).(rows := Listing(Increasing, ByIndex(AllRows(blocks)))))
  }

  /** `merge_blocks`: one ascending block without repeated indices, the last write at an index winning. */
  method MergeBlocks(blocks: seq<Block>) returns (r: Result<Block, MergeError>)
    ensures r == Merged(blocks)
  {
    hide Listing, HeadBlock, ByIndex, AllRows;
    if blocks == [] {
      return Err(NoBlocks);
    }
    var head := HeadBlock(blocks);
    var byIndex: Log := map[];
    EmptyBatches();
    for b := 0 to |blocks|
      invariant byIndex == ByIndex(AllRows(blocks[..b]))
      invariant forall i :: 0 <= i < b && blocks[i].mnemonics != [] ==> blocks[i].mnemonics == head.mnemonics
    {
      if blocks[b].mnemonics != [] && blocks[b].mnemonics != head.mnemonics {
        return Err(HeadersDiffer);
      }
      ghost var prior := AllRows(blocks[..b]);
      var rows := blocks[b].rows;
      assert prior + rows[..0] == prior;
      for i := 0 to |rows|
        invariant byIndex == ByIndex(prior + rows[..i])
      {
        assert prior + rows[..i + 1] == (prior + rows[..i]) + [rows[i]];
        ByIndexStep(prior + rows[..i], rows[i]);
        if rows[i].index.Some? {
          byIndex := byIndex[rows[i].index.value := rows[i].cells];
        }
      }
      assert rows[..|rows|] == rows;
      assert blocks[..b + 1] == blocks[..b] + [blocks[b]];
      AllRowsStep(blocks[..b], blocks[b]);
    }
    assert blocks[..|blocks|] == blocks;
    return Ok(head.(rows := Listing(Increasing, byIndex)));
  }

  // ---- what a merged block holds -------------------------------------------------------------

  predicate HasRowAt(blocks: seq<Block>, i: int, j: int, x: Index) {
    0 <= i < |blocks| && 0 <= j < |blocks[i].rows| && blocks[i].rows[j].index == Some(x)
  }

  /** Row `j` of block `i` is the last one at `x`: later rows of the block and later blocks have none. */
  ghost predicate IsLastRow(blocks: seq<Block>, i: int, j: int, x: Index) {
    && HasRowAt(blocks, i, j, x)
    && forall k, l :: HasRowAt(blocks, k, l, x) ==> k < i || (k == i && l <= j)
  }

  /** The last row at `x`. */
  predicate IsLastIn(rows: seq<Row>, j: int, x: Index) {
    0 <= j < |rows| && rows[j].index == Some(x) && forall l :: j < l < |rows| ==> rows[l].index != Some(x)
  }

  lemma {:induction false} ByIndexMeaning(rows: seq<Row>, x: Index)
    ensures x in ByIndex(rows) ==> exists j :: IsLastIn(rows, j, x)
    ensures forall j :: IsLastIn(rows, j, x) ==> x in ByIndex(rows) && ByIndex(rows)[x] == rows[j].cells
  {
    if rows != [] {
      var n := |rows| - 1;
      if rows[n].index == Some(x) {
        assert IsLastIn(rows, n, x);
      } else {
        ByIndexMeaning(rows[..n], x);
        assert forall j :: IsLastIn(rows, j, x) <==> IsLastIn(rows[..n], j, x);
      }
    }
  }

  lemma LastBlockHas(blocks: seq<Block>, j: int, x: Index)
    requires blocks != [] && IsLastIn(blocks[|blocks| - 1].rows, j, x)
    ensures IsLastRow(blocks, |blocks| - 1, j, x)
    ensures forall i, k :: IsLastRow(blocks, i, k, x) ==> i == |blocks| - 1 && k == j
  {
    assert HasRowAt(blocks, |blocks| - 1, j, x);
  }

  lemma LastBlockLacks(blocks: seq<Block>, front: seq<Block>, last: Block, x: Index)
    requires blocks == front + [last] && forall j :: !IsLastIn(last.rows, j, x)
    ensures forall i, j :: IsLastRow(blocks, i, j, x) <==> IsLastRow(front, i, j, x)
  {
    NoRowAt(last.rows, x);
    assert forall i, j :: HasRowAt(blocks, i, j, x) <==> HasRowAt(front, i, j, x);
  }

  lemma {:induction false} NoRowAt(rows: seq<Row>, x: Index)
    requires forall j :: !IsLastIn(rows, j, x)
    ensures forall j :: 0 <= j < |rows| ==> rows[j].index != Some(x)
  {
    if rows != [] {
      var n := |rows| - 1;
      assert !IsLastIn(rows, n, x);
      assert forall j :: IsLastIn(rows, j, x) <==> IsLastIn(rows[..n], j, x);
      NoRowAt(rows[..n], x);
      assert forall j :: 0 <= j < n ==> rows[..n][j] == rows[j];
    }
  }

  lemma {:induction false} AllRowsMeaning(blocks: seq<Block>, x: Index)
    ensures x in ByIndex(AllRows(blocks)) ==> exists i, j :: IsLastRow(blocks, i, j, x)
    ensures forall i, j :: IsLastRow(blocks, i, j, x) ==>
              HasRowAt(blocks, i, j, x) && x in ByIndex(AllRows(blocks)) &&
              ByIndex(AllRows(blocks))[x] == blocks[i].rows[j].cells
  {
    hide ByIndex, IsLastIn;
    EmptyBatches();
    if blocks != [] {
      var n := |blocks| - 1;
      var front, rows := blocks[..n], blocks[n].rows;
      ByIndexConcat(AllRows(front), rows);
      ByIndexMeaning(rows, x);
      hide IsLastRow;
      if j :| IsLastIn(rows, j, x) {
        LastBlockHas(blocks, j, x);
        LastRowAt(blocks, n, j, x);
      } else {
        AllRowsMeaning(front, x);
        LastBlockLacks(blocks, front, blocks[n], x);
      }
    }
  }

  lemma LastRowAt(blocks: seq<Block>, i: int, j: int, x: Index)
    requires IsLastRow(blocks, i, j, x)
    ensures HasRowAt(blocks, i, j, x)
  {
  }

  /** The first block with headers. */
  ghost predicate LeadsAt(blocks: seq<Block>, i: int) {
    0 <= i < |blocks| && blocks[i].mnemonics != [] && forall j :: 0 <= j < i ==> blocks[j].mnemonics == []
  }

  ghost predicate Disagree(blocks: seq<Block>, i: int, j: int) {
    && 0 <= i < |blocks| && 0 <= j < |blocks|
    && blocks[i].mnemonics != [] && blocks[j].mnemonics != [] && blocks[i].mnemonics != blocks[j].mnemonics
  }

  /**
   * The merge of blocks: it fails without blocks, or if two blocks with headers have different ones. Otherwise it has
   * the headers and units of the first block with headers, and one row per index, ascending: the last one of all.
   */
  lemma MergedMeaning(blocks: seq<Block>, x: Index)
    ensures Merged(blocks) == Err(NoBlocks) <==> blocks == []
    ensures Merged(blocks) == Err(HeadersDiffer) <==>
            exists i, j :: Disagree(blocks, i, j)
    ensures Merged(blocks).Ok? ==>
              var b := Merged(blocks).value;
              && (forall i :: LeadsAt(blocks, i) ==>
                    0 <= i < |blocks| && b.mnemonics == blocks[i].mnemonics && b.units == blocks[i].units)
              && (forall i, j :: 0 <= i < j < |b.rows| ==>
                    b.rows[i].index.Some? && b.rows[j].index.Some? &&
                    b.rows[i].index.value.at < b.rows[j].index.value.at)
              && (forall i, j :: IsLastRow(blocks, i, j, x) ==>
                    HasRowAt(blocks, i, j, x) && Row(Some(x), blocks[i].rows[j].cells) in b.rows)
              && (forall row :: row in b.rows && row.index == Some(x) ==> exists i, j :: IsLastRow(blocks, i, j, x))
  {
    hide ByIndex, AllRows;
    HeadMeaning(blocks);
    if Merged(blocks).Ok? {
      var log := ByIndex(AllRows(blocks));
      AllRowsMeaning(blocks, x);
      ListingAscends(log);
      forall i, j | IsLastRow(blocks, i, j, x)
        ensures Row(Some(x), blocks[i].rows[j].cells) in Merged(blocks).value.rows
      {
        ListingAt(Increasing, log, x);
      }
      forall row | row in Merged(blocks).value.rows && row.index == Some(x)
        ensures exists i, j :: IsLastRow(blocks, i, j, x)
      {
        ListedIn(log, row);
      }
    }
  }

  lemma {:induction false} HeadMeaning(blocks: seq<Block>)
    ensures forall i :: LeadsAt(blocks, i) ==> 0 <= i < |blocks| && HeadBlock(blocks) == blocks[i]
    ensures blocks != [] ==> (HeadersAgree(blocks) <==> forall i, j :: !Disagree(blocks, i, j))
  {
    forall i | LeadsAt(blocks, i)
      ensures 0 <= i < |blocks| && HeadBlock(blocks) == blocks[i]
    {
      FirstHeadedIs(blocks, i);
    }
    if blocks != [] && HasHeaders(blocks) {
      var h :| 0 <= h < |blocks| && blocks[h] == HeadBlock(blocks);
      if i :| 0 <= i < |blocks| && blocks[i].mnemonics != [] && blocks[i].mnemonics != HeadBlock(blocks).mnemonics {
        assert Disagree(blocks, i, h);
      }
    }
  }

  lemma {:induction false} FirstHeadedIs(blocks: seq<Block>, i: nat)
    requires i < |blocks| && blocks[i].mnemonics != [] && forall j :: 0 <= j < i ==> blocks[j].mnemonics == []
    ensures HasHeaders(blocks) && FirstHeaded(blocks) == blocks[i]
  {
    if i > 0 {
      assert blocks[1..][i - 1] == blocks[i];
      FirstHeadedIs(blocks[1..], i - 1);
    }
  }

  lemma ListingAscends(log: Log)
    ensures var rows := Listing(Increasing, log);
            forall i, j :: 0 <= i < j < |rows| ==>
              rows[i].index.Some? && rows[j].index.Some? && rows[i].index.value.at < rows[j].index.value.at
  {
  }

  lemma ListedIn(log: Log, row: Row)
    requires row in Listing(Increasing, log)
    ensures row.index.Some? && row.index.value in log
  {
    var order := Sorted(Increasing, log.Keys);
    var i :| 0 <= i < |Listing(Increasing, log)| && Listing(Increasing, log)[i] == row;
    assert order[i] in order;
  }

  // ---- merge algebra -------------------------------------------------------------------------

  /** Merging is the right-biased union of dictionaries. */
  lemma {:induction false} ByIndexConcat(r: seq<Row>, s: seq<Row>)
    ensures ByIndex(r + s) == ByIndex(r) + ByIndex(s)
  {
    if s == [] {
      assert r + s == r;
    } else {
      var k := |s| - 1;
      ByIndexConcat(r, s[..k]);
      assert (r + s)[..|r + s| - 1] == r + s[..k];
    }
  }

  /** A listing in either direction, read back, is the dictionary it lists. */
  lemma ByIndexListing(d: Direction, log: Log)
    ensures ByIndex(Listing(d, log)) == log
  {
    var order := Sorted(d, log.Keys);
    ByIndexRowsAt(d, log, order);
    assert forall x :: x in log ==> x in order;
  }

  lemma {:induction false} ByIndexRowsAt(d: Direction, log: Log, order: seq<Index>)
    requires forall x :: x in order ==> x in log
    ensures ByIndex(RowsAt(log, order)) == map x | x in order :: log[x]
  {
    hide ByIndex;
    EmptyBatches();
    var rows := RowsAt(log, order);
    if order == [] {
      assert rows == [];
    } else {
      var k := |order| - 1;
      ByIndexRowsAt(d, log, order[..k]);
      assert rows == RowsAt(log, order[..k]) + [rows[k]];
      ByIndexStep(RowsAt(log, order[..k]), rows[k]);
      AddedKey(log, order[..k], order[k]);
      assert order == order[..k] + [order[k]];
    }
  }

  lemma AddedKey(log: Log, order: seq<Index>, x: Index)
    requires x in log && forall y :: y in order ==> y in log
    ensures (map y | y in order :: log[y])[x := log[x]] == map y | y in order + [x] :: log[y]
  {
  }

  /** Merging already merged groups is merging everything. */
  lemma MergeOfMerged(groups: seq<seq<Row>>, i: nat)
    requires i < |groups|
    ensures ByIndex(Flatten(groups)) == ByIndex(Flatten(groups[i := Listing(Increasing, ByIndex(groups[i]))]))
  {
    var merged := Listing(Increasing, ByIndex(groups[i]));
    ByIndexListing(Increasing, ByIndex(groups[i]));
    FlattenUpdate(groups, i, merged);
  }

  function Flatten(groups: seq<seq<Row>>): seq<Row> {
    if groups == [] then [] else Flatten(groups[..|groups| - 1]) + groups[|groups| - 1]
  }

  lemma {:induction false} FlattenUpdate(groups: seq<seq<Row>>, i: nat, g: seq<Row>)
    requires i < |groups|
    requires ByIndex(g) == ByIndex(groups[i])
    ensures ByIndex(Flatten(groups)) == ByIndex(Flatten(groups[i := g]))
  {
    var k := |groups| - 1;
    var updated := groups[i := g];
    ByIndexConcat(Flatten(groups[..k]), groups[k]);
    ByIndexConcat(Flatten(updated[..k]), updated[k]);
    if i < k {
      FlattenUpdate(groups[..k], i, g);
      assert groups[..k][i := g] == updated[..k];
    } else {
      assert groups[..k] == updated[..k];
    }
  }

  lemma {:induction false} AllRowsConcat(a: seq<Block>, b: seq<Block>)
    ensures AllRows(a + b) == AllRows(a) + AllRows(b)
  {
    if b == [] {
      assert a + b == a;
    } else {
      var n := |b| - 1;
      assert (a + b)[..|a + b| - 1] == a + b[..n];
      AllRowsConcat(a, b[..n]);
    }
  }

  lemma {:induction false} FirstHeadedConcat(a: seq<Block>, b: seq<Block>)
    requires HasHeaders(a + b)
    ensures HasHeaders(a) ==> FirstHeaded(a + b) == FirstHeaded(a)
    ensures !HasHeaders(a) ==> HasHeaders(b) && FirstHeaded(a + b) == FirstHeaded(b)
  {
    if a == [] {
      assert a + b == b;
    } else {
      assert (a + b)[0] == a[0];
      if a[0].mnemonics == [] {
        assert (a + b)[1..] == a[1..] + b;
        var i :| 0 <= i < |a + b| && (a + b)[i].mnemonics != [];
        assert (a[1..] + b)[i - 1].mnemonics != [];
        FirstHeadedConcat(a[1..], b);
        assert HasHeaders(a) <==> HasHeaders(a[1..]) by {
          assert forall j :: 0 < j < |a| ==> a[1..][j - 1] == a[j];
        }
      }
    }
  }

  lemma HeadOfConcat(a: seq<Block>, b: seq<Block>)
    requires a != []
    ensures HeadBlock(a + b) ==
            if HasHeaders(a) then HeadBlock(a) else if HasHeaders(b) then FirstHeaded(b) else a[0]
  {
    hide FirstHeaded;
    assert forall i :: 0 <= i < |a| ==> (a + b)[i] == a[i];
    assert forall i :: 0 <= i < |b| ==> (a + b)[|a| + i] == b[i];
    if HasHeaders(a) || HasHeaders(b) {
      FirstHeadedConcat(a, b);
    }
  }

  /** Every block that has headers has these. */
  ghost predicate AllUnder(blocks: seq<Block>, mnemonics: seq<string>) {
    forall i :: 0 <= i < |blocks| && blocks[i].mnemonics != [] ==> blocks[i].mnemonics == mnemonics
  }

  lemma AllUnderConcat(a: seq<Block>, b: seq<Block>, mnemonics: seq<string>)
    ensures AllUnder(a + b, mnemonics) <==> AllUnder(a, mnemonics) && AllUnder(b, mnemonics)
  {
    assert forall i :: 0 <= i < |a| ==> (a + b)[i] == a[i];
    assert forall i :: 0 <= i < |b| ==> (a + b)[|a| + i] == b[i];
  }

  lemma OneHead(m: Block)
    ensures HeadBlock([m]) == m && (HasHeaders([m]) <==> m.mnemonics != []) && AllRows([m]) == m.rows
    ensures forall mnemonics :: AllUnder([m], mnemonics) <==> m.mnemonics == [] || m.mnemonics == mnemonics
  {
    assert [m][0] == m && [m][..0] == [];
    EmptyBatches();
  }

  /**
   * Merging a merged batch with further blocks is merging everything, headers and all, and it raises in the same
   * cases: when the batch could not be merged for its headers, neither can the whole.
   */
  lemma MergedOfMerged(a: seq<Block>, b: seq<Block>)
    requires a != []
    ensures Merged(a + b) == match Merged(a) case Ok(m) => Merged([m] + b) case Err(e) => Err(e)
  {
    hide HeadBlock, ByIndex, AllRows, Listing, FirstHeaded, HasHeaders, AllUnder;
    HeadOfConcat(a, b);
    var head := HeadBlock(a + b);
    AgreeIsUnder(a);
    AgreeIsUnder(a + b);
    AllUnderConcat(a, b, head.mnemonics);
    if !HasHeaders(a) {
      NoneHeaded(a, head.mnemonics);
      NoneHeaded(a, HeadBlock(a).mnemonics);
    }
    if HeadersAgree(a) {
      var m := Merged(a).value;
      UnheadedHead(a);
      OneHead(m);
      HeadOfConcat([m], b);
      AgreeIsUnder([m] + b);
      AllUnderConcat([m], b, HeadBlock([m] + b).mnemonics);
      AllRowsConcat(a, b);
      AllRowsConcat([m], b);
      ByIndexConcat(AllRows(a), AllRows(b));
      ByIndexConcat(m.rows, AllRows(b));
      ByIndexListing(Increasing, ByIndex(AllRows(a)));
    }
  }

  lemma AgreeIsUnder(blocks: seq<Block>)
    requires blocks != []
    ensures HeadersAgree(blocks) <==> AllUnder(blocks, HeadBlock(blocks).mnemonics)
  {
  }

  lemma NoneHeaded(blocks: seq<Block>, mnemonics: seq<string>)
    requires !HasHeaders(blocks)
    ensures AllUnder(blocks, mnemonics)
  {
  }

  lemma UnheadedHead(blocks: seq<Block>)
    requires blocks != []
    ensures HasHeaders(blocks) <==> HeadBlock(blocks).mnemonics != []
    ensures !HasHeaders(blocks) ==> HeadBlock(blocks) == blocks[0]
  {
    hide FirstHeaded;
  }

  lemma {:induction false} ByIndexKeys(rows: seq<Row>)
    ensures ByIndex(rows).Keys == RowIndices(rows)
  {
    if rows != [] {
      var k := |rows| - 1;
      ByIndexKeys(rows[..k]);
      assert forall r :: r in rows <==> r in rows[..k] || r == rows[k];
    }
  }

  /** Boundary removal on a listing leaves the listing of the rows strictly beyond the cursor. */
  lemma DedupeListing(d: Direction, log: Log, last: Index)
    ensures Dedupe(Listing(Increasing, log), Some(last), d) ==
            Listing(Increasing, map x | x in log && Before(d, last, x) :: log[x])
  {
    hide Sorted, Dedupe, IsBeyond, Before;
    var order := Sorted(Increasing, log.Keys);
    var kept: Log := map x | x in log && Before(d, last, x) :: log[x];
    var r := Beyond(order, last, d);
    DedupeRowsAt(d, log, order, last);
    SortedUnique(Increasing, kept.Keys, r);
    assert RowsAt(kept, r) == RowsAt(log, r);
  }

  /** The indices of an ascending list that lie strictly beyond `last`. */
  function Beyond(order: seq<Index>, last: Index, d: Direction): (r: seq<Index>)
    requires Ordered(Increasing, order)
    ensures Ordered(Increasing, r)
    ensures forall x :: x in r <==> x in order && Before(d, last, x)
  {
    if order == [] then [] else
      var k := |order| - 1;
      var front := Beyond(order[..k], last, d);
      BeyondStep(order, k, front, last, d);
      if Before(d, last, order[k]) then front + [order[k]] else front
  }

  lemma BeyondStep(order: seq<Index>, k: nat, front: seq<Index>, last: Index, d: Direction)
    requires Ordered(Increasing, order) && |order| == k + 1
    requires Ordered(Increasing, front)
    requires forall x :: x in front <==> x in order[..k] && Before(d, last, x)
    ensures Ordered(Increasing, front + [order[k]])
    ensures forall x :: x in order <==> x in order[..k] || x == order[k]
    ensures forall x :: x in front + [order[k]] <==> x in front || x == order[k]
  {
    assert order == order[..k] + [order[k]];
    forall i | 0 <= i < |front|
      ensures Before(Increasing, front[i], order[k])
    {
      assert front[i] in order[..k];
    }
  }

  lemma {:induction false} DedupeRowsAt(d: Direction, log: Log, order: seq<Index>, last: Index)
    requires Ordered(Increasing, order) && forall x :: x in order ==> x in log
    ensures Dedupe(RowsAt(log, order), Some(last), d) == RowsAt(log, Beyond(order, last, d))
  {
    if order != [] {
      var k := |order| - 1;
      DedupeRowsAt(d, log, order[..k], last);
      assert RowsAt(log, order)[..k] == RowsAt(log, order[..k]);
    }
  }

  /** Boundary removal is idempotent. */
  lemma {:induction false} DedupeIdempotent(rows: seq<Row>, last: Option<Index>, d: Direction)
    ensures Dedupe(Dedupe(rows, last, d), last, d) == Dedupe(rows, last, d)
  {
    if last.Some? && rows != [] {
      var k := |rows| - 1;
      DedupeIdempotent(rows[..k], last, d);
      var front := Dedupe(rows[..k], last, d);
      assert (front + [rows[k]])[..|front|] == front;
    }
  }
}
