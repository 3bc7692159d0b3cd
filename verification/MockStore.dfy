/** The store's side of a log: writing rows, selecting a page, and the latest values of each curve. */
module MockStore {
  import opened Order
  import opened Text
  import opened LogPages

  const DEFAULT_NULL_VALUE := "-999.25"

  type Cells = seq<string>

  datatype CurveMeta = CurveMeta(mnemonic: string, unit: Option<string>, nullValue: Option<string>)

  /** One `<data>` element under its column headers. */
  datatype Record = Record(columns: seq<string>, text: string)

  function StripAll(pieces: seq<string>): (r: seq<string>)
    ensures |r| == |pieces| && forall i :: 0 <= i < |pieces| ==> r[i] == Strip(pieces[i])
  {
    seq(|pieces|, i requires 0 <= i < |pieces| => Strip(pieces[i]))
  }

  /** The stripped cells of a data line: there is always at least one. */
  function CellsOf(text: string): (cells: Cells)
    ensures |cells| >= 1
  {
    StripAll(Split(text, ','))
  }

  /** The cell of one column, looked up by mnemonic: the last of equal headers, None when there is none. */
  function CellAt(columns: seq<string>, cells: Cells, m: string): Option<string>
    decreases |columns|
  {
    if columns == [] then None
    else
      var n := |columns| - 1;
      if columns[n] == m && n < |cells| then Some(cells[n]) else CellAt(columns[..n], cells, m)
  }

  /** A line carries a column at its last position under that header that has a cell. */
  predicate CarriedAt(columns: seq<string>, width: nat, m: string, i: int) {
    && 0 <= i < |columns| && i < width && columns[i] == m
    && forall k :: i < k < |columns| && k < width ==> columns[k] != m
  }

  lemma {:induction false} CellAtMeaning(columns: seq<string>, cells: Cells, m: string)
    ensures forall i :: CarriedAt(columns, |cells|, m, i) ==> CellAt(columns, cells, m) == Some(cells[i])
    ensures CellAt(columns, cells, m).Some? ==> exists i :: CarriedAt(columns, |cells|, m, i)
    decreases |columns|
  {
    if columns != [] {
      var n := |columns| - 1;
      if columns[n] == m && n < |cells| {
        assert CarriedAt(columns, |cells|, m, n);
      } else {
        CellAtMeaning(columns[..n], cells, m);
        assert forall i :: CarriedAt(columns, |cells|, m, i) <==> CarriedAt(columns[..n], |cells|, m, i);
      }
    }
  }

  function OrNull(cell: Option<string>, nullValue: string): string {
    if cell.Some? then cell.value else nullValue
  }

  /** The row a record stores: one cell per stored column, the index cell verbatim. */
  function StoredRow(record: Record, columns: seq<string>, nullValue: string): (row: Cells)
    requires columns != []
    ensures |row| == |columns|
  {
    var cells := CellsOf(record.text);
    seq(|columns|, j requires 0 <= j < |columns| =>
        if j == 0 then cells[0] else OrNull(CellAt(record.columns, cells, columns[j]), nullValue))
  }

  /** The stored row says, column by column, what the line does: its first cell, then each cell under its header. */
  ghost predicate StoresAs(row: Cells, record: Record, columns: seq<string>, nullValue: string) {
    var cells := Split(record.text, ',');
    && |row| == |columns|
    && (row != [] ==> row[0] == Strip(cells[0]))
    && forall j :: 1 <= j < |columns| ==>
         && (forall i :: CarriedAt(record.columns, |cells|, columns[j], i) ==> row[j] == Strip(cells[i]))
         && ((forall i :: !CarriedAt(record.columns, |cells|, columns[j], i)) ==> row[j] == nullValue)
  }

  lemma StoredRowMeaning(record: Record, columns: seq<string>, nullValue: string)
    requires columns != []
    ensures StoresAs(StoredRow(record, columns, nullValue), record, columns, nullValue)
  {
    hide CellAt, CarriedAt, Strip, Split;
    var cells := CellsOf(record.text);
    InLine(record.columns, |cells|);
    forall j | 1 <= j < |columns|
      ensures forall i :: CarriedAt(record.columns, |cells|, columns[j], i) ==>
                            CellAt(record.columns, cells, columns[j]) == Some(cells[i])
      ensures (forall i :: !CarriedAt(record.columns, |cells|, columns[j], i)) ==>
                CellAt(record.columns, cells, columns[j]) == None
    {
      CellAtMeaning(record.columns, cells, columns[j]);
    }
  }

  lemma InLine(columns: seq<string>, width: nat)
    ensures forall m, i :: CarriedAt(columns, width, m, i) ==> 0 <= i < width
  {
  }

  type IndexParser = string -> Option<Index>

  function IndexOf(parse: IndexParser, record: Record): Option<Index> {
    parse(CellsOf(record.text)[0])
  }

  function Write(parse: IndexParser, columns: seq<string>, nullValue: string, rows: map<Index, Cells>, r: Record)
    : map<Index, Cells>
    requires columns != []
  {
    var x := IndexOf(parse, r);
    if x.None? then rows else rows[x.value := StoredRow(r, columns, nullValue)]
  }

  function WriteAll(parse: IndexParser, columns: seq<string>, nullValue: string, rows: map<Index, Cells>,
                    records: seq<Record>): map<Index, Cells>
    requires columns != []
  {
    if records == [] then rows
    else Write(parse, columns, nullValue, WriteAll(parse, columns, nullValue, rows, records[..|records| - 1]),
               records[|records| - 1])
  }

  /** How many of the records have an index. */
  function Indexed(parse: IndexParser, records: seq<Record>): nat {
    if records == [] then 0
    else Indexed(parse, records[..|records| - 1]) + if IndexOf(parse, records[|records| - 1]).Some? then 1 else 0
  }

  function Records(columns: seq<string>, data: seq<Option<string>>): seq<Record> {
    if data == [] then [] else
      var front := Records(columns, data[..|data| - 1]);
      var d := data[|data| - 1];
      if d.None? then front else front + [Record(columns, d.value)]
  }

  // ---- whole `<logData>` elements ------------------------------------------------------------

  /** A `<logData>` element to be written: its column headers, if it has any, and its `<data>` lines. */
  datatype LogDataElement = LogDataElement(mnemonicList: Option<string>, data: seq<Option<string>>)

  /** The headers of the incoming cells: the log's own mnemonics unless the element lists others. */
  function ColumnNames(own: seq<string>, mnemonicList: Option<string>): seq<string> {
    if mnemonicList.Some? && mnemonicList.value != "" then StripAll(Split(mnemonicList.value, ',')) else own
  }

  /** The rows of a log with the mnemonics `own` after one element was written. */
  function Ingested(parse: IndexParser, own: seq<string>, nullValue: string, rows: map<Index, Cells>, d: LogDataElement)
    : map<Index, Cells>
  {
    var incoming := ColumnNames(own, d.mnemonicList);
    if incoming == [] then rows
    else WriteAll(parse, if own != [] then own else incoming, nullValue, rows, Records(incoming, d.data))
  }

  /** The count the store reports for it. */
  function Added(parse: IndexParser, own: seq<string>, d: LogDataElement): nat {
    var incoming := ColumnNames(own, d.mnemonicList);
    if incoming == [] then 0 else Indexed(parse, Records(incoming, d.data))
  }

  function IngestedAll(parse: IndexParser, own: seq<string>, nullValue: string, rows: map<Index, Cells>,
                       ds: seq<LogDataElement>): map<Index, Cells>
  {
    if ds == [] then rows
    else
      var n := |ds| - 1;
      Ingested(parse, own, nullValue, IngestedAll(parse, own, nullValue, rows, ds[..n]), ds[n])
  }

  function AddedAll(parse: IndexParser, own: seq<string>, ds: seq<LogDataElement>): nat {
    if ds == [] then 0 else AddedAll(parse, own, ds[..|ds| - 1]) + Added(parse, own, ds[|ds| - 1])
  }

  /** All the records the elements bring, in order. */
  function RecordsOf(own: seq<string>, ds: seq<LogDataElement>): seq<Record> {
    if ds == [] then []
    else
      var d := ds[|ds| - 1];
      RecordsOf(own, ds[..|ds| - 1]) + Records(ColumnNames(own, d.mnemonicList), d.data)
  }

  /** Writing element after element is one write of all their records, and the reported counts add up. */
  lemma {:induction false} ElementsAreOneWrite(parse: IndexParser, own: seq<string>, nullValue: string,
                                               rows: map<Index, Cells>, ds: seq<LogDataElement>)
    requires own != []
    ensures IngestedAll(parse, own, nullValue, rows, ds) == WriteAll(parse, own, nullValue, rows, RecordsOf(own, ds))
    ensures AddedAll(parse, own, ds) == Indexed(parse, RecordsOf(own, ds))
  {
    hide ColumnNames, WriteAll, Indexed, Records;
    NothingWritten(parse);
    if ds != [] {
      var n := |ds| - 1;
      var incoming := ColumnNames(own, ds[n].mnemonicList);
      ColumnNamesSome(own, ds[n].mnemonicList);
      ElementsAreOneWrite(parse, own, nullValue, rows, ds[..n]);
      WriteAllConcat(parse, own, nullValue, rows, RecordsOf(own, ds[..n]), Records(incoming, ds[n].data));
    }
  }

  lemma ColumnNamesSome(own: seq<string>, mnemonicList: Option<string>)
    requires own != []
    ensures ColumnNames(own, mnemonicList) != []
  {
  }

  lemma {:induction false} WriteAllConcat(parse: IndexParser, columns: seq<string>, nullValue: string,
                                          rows: map<Index, Cells>, a: seq<Record>, b: seq<Record>)
    requires columns != []
    ensures WriteAll(parse, columns, nullValue, rows, a + b) ==
            WriteAll(parse, columns, nullValue, WriteAll(parse, columns, nullValue, rows, a), b)
    ensures Indexed(parse, a + b) == Indexed(parse, a) + Indexed(parse, b)
  {
    hide IndexOf, Write;
    if b == [] {
      assert a + b == a;
    } else {
      var n := |b| - 1;
      assert (a + b)[..|a + b| - 1] == a + b[..n];
      WriteAllConcat(parse, columns, nullValue, rows, a, b[..n]);
    }
  }

  /** The names over an element's cells: the pieces of its list without the blanks around them, or the log's own. */
  ghost predicate NamedBy(own: seq<string>, list: Option<string>, names: seq<string>) {
    if list.None? || list == Some("") then names == own
    else
      var pieces := Split(list.value, ',');
      |names| == |pieces| && forall i :: 0 <= i < |names| ==> names[i] == Strip(pieces[i])
  }

  predicate IsLineAt(parse: IndexParser, line: Option<string>, x: Index) {
    line.Some? && parse(Strip(Split(line.value, ',')[0])) == Some(x)
  }

  /** The k-th line is the last one at an index. */
  predicate LastLine(parse: IndexParser, data: seq<Option<string>>, x: Index, k: int) {
    0 <= k < |data| && IsLineAt(parse, data[k], x) && forall l :: k < l < |data| ==> !IsLineAt(parse, data[l], x)
  }

  /** What the last of some lines at an index leaves there; an index without a line keeps what it had. */
  ghost predicate StoredFrom(parse: IndexParser, names: seq<string>, columns: seq<string>, nullValue: string,
                             rows: map<Index, Cells>, after: map<Index, Cells>, data: seq<Option<string>>, x: Index)
  {
    && (forall k :: LastLine(parse, data, x, k) ==>
          data[k].Some? && x in after && StoresAs(after[x], Record(names, data[k].value), columns, nullValue))
    && ((forall k :: !LastLine(parse, data, x, k)) ==>
          (x in after <==> x in rows) && (x in rows ==> after[x] == rows[x]))
  }

  /** After an element each index holds the last line the element has for it, column by column. */
  lemma ElementIsStored(parse: IndexParser, own: seq<string>, nullValue: string, rows: map<Index, Cells>,
                        d: LogDataElement, names: seq<string>, x: Index)
    requires NamedBy(own, d.mnemonicList, names)
    ensures if names == [] then Ingested(parse, own, nullValue, rows, d) == rows
            else StoredFrom(parse, names, if own != [] then own else names, nullValue, rows,
                            Ingested(parse, own, nullValue, rows, d), d.data, x)
  {
    hide StoredFrom, WriteAll, Records, Split, Strip;
    assert ColumnNames(own, d.mnemonicList) == names;
    if names != [] {
      LinesAreStored(parse, names, if own != [] then own else names, nullValue, rows, d.data, x);
    }
  }

  lemma {:induction false} LinesAreStored(parse: IndexParser, names: seq<string>, columns: seq<string>,
                                          nullValue: string, rows: map<Index, Cells>, data: seq<Option<string>>,
                                          x: Index)
    requires columns != []
    ensures StoredFrom(parse, names, columns, nullValue, rows,
                       WriteAll(parse, columns, nullValue, rows, Records(names, data)), data, x)
  {
    hide WriteAll, Records, StoresAs, IsLineAt, StoredRow;
    NothingWritten(parse);
    LastLineHasText(parse, data, x);
    if data != [] {
      var n := |data| - 1;
      var front := data[..n];
      LinesAreStored(parse, names, columns, nullValue, rows, front, x);
      assert data == front + [data[n]];
      RecordsStep(names, front, data[n]);
      LineWritten(parse, names, columns, nullValue, rows, Records(names, front), data[n], x);
      if IsLineAt(parse, data[n], x) {
        assert LastLine(parse, data, x, n);
      } else {
        assert forall k :: LastLine(parse, data, x, k) <==> LastLine(parse, front, x, k);
      }
    }
  }

  lemma LastLineHasText(parse: IndexParser, data: seq<Option<string>>, x: Index)
    ensures forall k :: LastLine(parse, data, x, k) ==> 0 <= k < |data| && data[k].Some?
  {
    hide Strip, Split;
  }

  lemma LineWritten(parse: IndexParser, names: seq<string>, columns: seq<string>, nullValue: string,
                    rows: map<Index, Cells>, before: seq<Record>, line: Option<string>, x: Index)
    requires columns != []
    ensures var was := WriteAll(parse, columns, nullValue, rows, before);
            var now := WriteAll(parse, columns, nullValue, rows,
                                before + if line.None? then [] else [Record(names, line.value)]);
            if IsLineAt(parse, line, x)
            then x in now && StoresAs(now[x], Record(names, line.value), columns, nullValue)
            else (x in now <==> x in was) && (x in was ==> now[x] == was[x])
  {
    hide WriteAll, StoresAs, StoredRow, Strip, Split;
    if line.None? {
      assert before + [] == before;
    } else {
      WriteStep(parse, columns, nullValue, rows, before, Record(names, line.value));
      StoredRowMeaning(Record(names, line.value), columns, nullValue);
    }
  }

  lemma NothingWritten(parse: IndexParser)
    ensures forall columns :: Records(columns, []) == []
    ensures forall columns, nullValue, rows :: columns != [] ==> WriteAll(parse, columns, nullValue, rows, []) == rows
    ensures Indexed(parse, []) == 0
  {
  }

  lemma RecordsStep(columns: seq<string>, data: seq<Option<string>>, d: Option<string>)
    ensures Records(columns, data + [d]) ==
            if d.None? then Records(columns, data) else Records(columns, data) + [Record(columns, d.value)]
  {
    assert (data + [d])[..|data|] == data;
  }

  lemma WriteStep(parse: IndexParser, columns: seq<string>, nullValue: string, rows: map<Index, Cells>,
                  before: seq<Record>, r: Record)
    requires columns != []
    ensures WriteAll(parse, columns, nullValue, rows, before + [r]) ==
            Write(parse, columns, nullValue, WriteAll(parse, columns, nullValue, rows, before), r)
    ensures Indexed(parse, before + [r]) == Indexed(parse, before) + if IndexOf(parse, r).Some? then 1 else 0
  {
    assert (before + [r])[..|before|] == before;
  }

  // ---- latest values -------------------------------------------------------------------------

  predicate NullCell(cell: string, nulls: set<string>) {
    Strip(cell) == "" || Strip(cell) in nulls
  }

  /** The rows of one column that hold a value. */
  function Holding(rows: map<Index, Cells>, col: nat, nulls: set<string>): set<Index> {
    set x | x in rows && col < |rows[x]| && !NullCell(rows[x][col], nulls)
  }

  /** The `n` newest indices of a set (none when `n` is 0). */
  function NewestOf(d: Direction, s: set<Index>, n: nat): set<Index> {
    var order := Sorted(Opposite(d), s);
    Elements(if |order| <= n then order else order[..n])
  }

  /** The walk over a column stops only after a hit. */
  function AtLeastOne(n: nat): nat {
    if n == 0 then 1 else n
  }

  /** The indices kept for the columns 1 up to `upto`. */
  function Kept(rows: map<Index, Cells>, d: Direction, nulls: set<string>, n: nat, upto: nat): set<Index> {
    if upto <= 1 then {}
    else Kept(rows, d, nulls, n, upto - 1) + NewestOf(d, Holding(rows, upto - 1, nulls), n)
  }

  function SparseRow(row: Cells, width: nat, nulls: set<string>, nullValue: string): Cells
    requires row != []
  {
    [row[0]] + seq(if width >= 1 then width - 1 else 0, c requires c >= 0 => SparseCell(row, c + 1, nulls, nullValue))
  }

  function SparseCell(row: Cells, col: nat, nulls: set<string>, nullValue: string): string {
    var cell := if col < |row| then row[col] else "";
    if Strip(cell) in nulls then nullValue else cell
  }

  class StoredLog {
    const direction: Direction
    const nullValue: string
    const curves: seq<CurveMeta>
    const parse: IndexParser
    var rows: map<Index, Cells>

    constructor (direction: Direction, nullValue: string, curves: seq<CurveMeta>, parse: IndexParser)
      ensures this.direction == direction && this.nullValue == nullValue && this.curves == curves
      ensures this.parse == parse && rows == map[]
    {
      this.direction, this.nullValue, this.curves, this.parse := direction, nullValue, curves, parse;
      rows := map[];
    }

    function Mnemonics(): (r: seq<string>)
      ensures |r| == |curves|
    {
      seq(|curves|, i requires 0 <= i < |curves| => curves[i].mnemonic)
    }

    /** Stored rows are never empty. */
    predicate Valid()
      reads this
    {
      forall x :: x in rows ==> rows[x] != []
    }

    /** `_ingest_logdata`: align the incoming columns with the stored ones by mnemonic and store whole rows. */
    method IngestLogData(mnemonicList: Option<string>, data: seq<Option<string>>) returns (added: nat)
      requires Valid()
      modifies this
      ensures Valid()
      ensures rows == Ingested(parse, Mnemonics(), nullValue, old(rows), LogDataElement(mnemonicList, data))
      ensures added == Added(parse, Mnemonics(), LogDataElement(mnemonicList, data))
    {
      hide StoredRow, CellsOf, WriteAll, Records, Indexed, StripAll, Split;
      NothingWritten(parse);
      added := 0;
      var incoming := if mnemonicList.Some? && mnemonicList.value != ""
                      then StripAll(Split(mnemonicList.value, ',')) else Mnemonics();
      if incoming == [] {
        return;
      }
      var columns := if Mnemonics() != [] then Mnemonics() else incoming;
      for i := 0 to |data|
        invariant Valid()
        invariant rows == WriteAll(parse, columns, nullValue, old(rows), Records(incoming, data[..i]))
        invariant added == Indexed(parse, Records(incoming, data[..i]))
      {
        ghost var before := Records(incoming, data[..i]);
        assert data[..i + 1] == data[..i] + [data[i]];
        RecordsStep(incoming, data[..i], data[i]);
        if data[i].None? {
          continue;
        }
        var record := Record(incoming, data[i].value);
        WriteStep(parse, columns, nullValue, old(rows), before, record);
        var x := IndexOf(parse, record);
        if x.None? {
          continue;
        }
        var row := StoredRow(record, columns, nullValue);
        rows := rows[x.value := row];
        added := added + 1;
      }
      assert data[..|data|] == data;
    }

    /** `_null_set`. */
    function Nulls(): (nulls: set<string>)
      ensures forall t :: t in nulls <==>
                t == nullValue || t == "-999.25" || t == "" ||
                exists i :: 0 <= i < |curves| && curves[i].nullValue == Some(t)
    {
      {nullValue, DEFAULT_NULL_VALUE, ""} +
      set c | c in curves && c.nullValue.Some? && c.nullValue.value != "" :: c.nullValue.value
    }

    /** The range and cap part of `_select_rows`. */
    method SelectRange(start: Option<Index>, end: Option<Index>, maxNodes: Option<int>)
      returns (selected: seq<Index>, truncated: bool)
      ensures (selected, truncated) == PageOf(rows.Keys, direction, start, end, maxNodes)
      ensures forall x :: x in selected ==> x in rows
    {
      hide Sorted;
      var ordered := Sorted(direction, rows.Keys);
      selected := [];
      for i := 0 to |ordered|
        invariant Ordered(direction, selected)
        invariant forall x :: x in selected <==> x in ordered[..i] && InRange(direction, start, end, x)
      {
        var x := ordered[i];
        assert ordered[..i + 1] == ordered[..i] + [x];
        OrderedAppend(direction, ordered, i, selected);
        if start.Some? && Before(direction, x, start.value) {
          continue;
        }
        if end.Some? && Before(direction, end.value, x) {
          continue;
        }
        selected := selected + [x];
      }
      assert ordered[..|ordered|] == ordered;
      SortedUnique(direction, Selected(rows.Keys, direction, start, end), selected);
      truncated := false;
      if maxNodes.Some? && maxNodes.value > 0 && |selected| > maxNodes.value {
        selected := selected[..maxNodes.value];
        truncated := true;
      }
    }

    /** One column of `_latest_value_rows`: walk from the newest row, keep the first `n` that hold a value. */
    method LatestOfColumn(col: nat, n: nat) returns (keep: set<Index>)
      ensures keep == NewestOf(direction, Holding(rows, col, Nulls()), AtLeastOne(n))
    {
      hide Sorted, Nulls, NullCell, Before, Opposite;
      var nulls := Nulls();
      var newestFirst := Sorted(Opposite(direction), rows.Keys);
      ghost var holding := Holding(rows, col, nulls);
      ghost var kept: seq<Index> := [];
      keep := {};
      var count, i := 0, 0;
      while i < |newestFirst| && (count == 0 || count < n)
        invariant 0 <= i <= |newestFirst|
        invariant Ordered(Opposite(direction), kept) && count == |kept| <= AtLeastOne(n)
        invariant forall x :: x in kept <==> x in newestFirst[..i] && x in holding
        invariant keep == Elements(kept)
      {
        var x := newestFirst[i];
        OrderedAppend(Opposite(direction), newestFirst, i, kept);
        var row := rows[x];
        if col < |row| && !NullCell(row[col], nulls) {
          kept := kept + [x];
          keep := keep + {x};
          count := count + 1;
        }
        i := i + 1;
      }
      KeptIsNewest(Opposite(direction), newestFirst, i, holding, kept, AtLeastOne(n));
    }

    /** The column loop of `_latest_value_rows`. */
    method KeepIndices(n: nat) returns (keep: set<Index>)
      ensures keep == Kept(rows, direction, Nulls(), AtLeastOne(n), |curves|)
    {
      hide NewestOf, Nulls, Holding;
      keep := {};
      var col := 1;
      while col < |curves|
        invariant col == 1 || 1 < col <= |curves|
        invariant keep == Kept(rows, direction, Nulls(), AtLeastOne(n), col)
      {
        var one := LatestOfColumn(col, n);
        keep := keep + one;
        col := col + 1;
      }
    }

    /** `_latest_value_rows`: the rows of the kept indices, ascending, null cells blanked to the log's null value. */
    method LatestValueRows(latest: nat, cap: nat) returns (out: seq<Cells>)
      requires Valid()
      ensures var n := if latest == 0 || cap == 0 then 1 else if latest < cap then latest else cap;
              var kept := Kept(rows, direction, Nulls(), n, |curves|);
              kept <= rows.Keys && out == SparseRows(rows, Sorted(Increasing, kept), |curves|, Nulls(), nullValue)
    {
      hide Sorted, Nulls, SparseRow, Kept;
      var n := if latest < cap then latest else cap;
      var keep := KeepIndices(n);
      KeptInRows(rows, direction, Nulls(), AtLeastOne(n), |curves|);
      var order := Sorted(Increasing, keep);
      out := [];
      for i := 0 to |order|
        invariant forall x :: x in order ==> x in rows && rows[x] != []
        invariant out == SparseRows(rows, order[..i], |curves|, Nulls(), nullValue)
      {
        assert order[..i + 1] == order[..i] + [order[i]];
        out := out + [SparseRow(rows[order[i]], |curves|, Nulls(), nullValue)];
      }
      assert order[..|order|] == order;
    }
  }

  function SparseRows(rows: map<Index, Cells>, order: seq<Index>, width: nat, nulls: set<string>, nullValue: string)
    : (out: seq<Cells>)
    requires forall x :: x in order ==> x in rows && rows[x] != []
    ensures |out| == |order|
    ensures forall i :: 0 <= i < |order| ==> out[i] == SparseRow(rows[order[i]], width, nulls, nullValue)
  {
    seq(|order|, i requires 0 <= i < |order| => SparseRow(rows[order[i]], width, nulls, nullValue))
  }

  /** Stopping at `n` values or at the end of the list leaves the `n` newest holders. */
  lemma KeptIsNewest(d: Direction, order: seq<Index>, i: nat, holding: set<Index>, kept: seq<Index>, n: nat)
    requires Ordered(d, order) && i <= |order| && (i == |order| || |kept| >= n) && |kept| <= n
    requires forall x :: x in holding ==> x in order
    requires Ordered(d, kept) && forall x :: x in kept <==> x in order[..i] && x in holding
    ensures var all := Sorted(d, holding);
            Elements(kept) == Elements(if |all| <= n then all else all[..n])
  {
    hide Sorted, Before, Ordered;
    var taken, rest := Elements(kept), holding - Elements(kept);
    TakenBeforeRest(d, order, i, holding, kept);
    SortedConcat(d, taken, rest);
    SortedUnique(d, taken, kept);
    assert taken + rest == holding;
    assert Sorted(d, holding) == kept + Sorted(d, rest);
    if i == |order| {
      assert order[..i] == order;
      assert rest == {};
      assert Sorted(d, rest) == [];
    } else {
      assert (kept + Sorted(d, rest))[..n] == kept;
    }
  }

  lemma TakenBeforeRest(d: Direction, order: seq<Index>, i: nat, holding: set<Index>, kept: seq<Index>)
    requires Ordered(d, order) && i <= |order|
    requires forall x :: x in holding ==> x in order
    requires forall x :: x in kept <==> x in order[..i] && x in holding
    ensures forall x, y :: x in Elements(kept) && y in holding - Elements(kept) ==> Before(d, x, y)
    ensures Elements(kept) <= holding
  {
    forall x, y | x in Elements(kept) && y in holding - Elements(kept)
      ensures Before(d, x, y)
    {
      assert order == order[..i] + order[i..];
      assert y in order[i..];
      var j :| 0 <= j < |order[..i]| && order[..i][j] == x;
      var k :| 0 <= k < |order[i..]| && order[i..][k] == y;
      OrderedAt(d, order, j, i + k);
    }
  }

  lemma {:induction false} KeptInRows(rows: map<Index, Cells>, d: Direction, nulls: set<string>, n: nat, upto: nat)
    ensures Kept(rows, d, nulls, n, upto) <= rows.Keys
  {
    if upto > 1 {
      NewestInRows(rows, d, nulls, n, upto - 1);
      KeptInRows(rows, d, nulls, n, upto - 1);
    }
  }

  lemma NewestInRows(rows: map<Index, Cells>, d: Direction, nulls: set<string>, n: nat, col: nat)
    ensures NewestOf(d, Holding(rows, col, nulls), n) <= rows.Keys
  {
    var holding := Holding(rows, col, nulls);
    assert holding <= rows.Keys;
    assert NewestOf(d, holding, n) <= holding;
  }

  /** The lines of an element that have an index. */
  function IndexedLines(parse: IndexParser, data: seq<Option<string>>): set<int> {
    set k | 0 <= k < |data| && HasIndex(parse, data[k])
  }

  predicate HasIndex(parse: IndexParser, line: Option<string>) {
    line.Some? && parse(Strip(Split(line.value, ',')[0])).Some?
  }

  /** The count the store reports for an element is that of its lines with an index. */
  lemma AddedMeaning(parse: IndexParser, own: seq<string>, d: LogDataElement)
    requires own != []
    ensures Added(parse, own, d) == |IndexedLines(parse, d.data)|
  {
    hide ColumnNames, Indexed, Records;
    ColumnNamesSome(own, d.mnemonicList);
    LinesIndexed(parse, ColumnNames(own, d.mnemonicList), d.data);
  }

  lemma {:induction false} LinesIndexed(parse: IndexParser, names: seq<string>, data: seq<Option<string>>)
    ensures Indexed(parse, Records(names, data)) == |IndexedLines(parse, data)|
  {
    hide IndexedLines, HasIndex, Indexed, Records;
    NothingWritten(parse);
    if data == [] {
      NoLine(parse, data);
    } else {
      var n := |data| - 1;
      LinesIndexed(parse, names, data[..n]);
      assert data == data[..n] + [data[n]];
      RecordsStep(names, data[..n], data[n]);
      MoreLines(parse, data[..n], data[n]);
      RecordIndexed(parse, names, data[..n], data[n]);
    }
  }

  lemma NoLine(parse: IndexParser, data: seq<Option<string>>)
    requires data == []
    ensures |IndexedLines(parse, data)| == 0
  {
    assert IndexedLines(parse, data) == {};
  }

  lemma MoreLines(parse: IndexParser, data: seq<Option<string>>, line: Option<string>)
    ensures |IndexedLines(parse, data + [line])| ==
            |IndexedLines(parse, data)| + if HasIndex(parse, line) then 1 else 0
  {
    hide HasIndex;
    var before, after := IndexedLines(parse, data), IndexedLines(parse, data + [line]);
    assert |data| !in before;
    assert after == if HasIndex(parse, line) then before + {|data|} else before;
  }

  lemma RecordIndexed(parse: IndexParser, names: seq<string>, data: seq<Option<string>>, line: Option<string>)
    ensures HasIndex(parse, line) ==> line.Some?
    ensures line.Some? ==>
              Indexed(parse, Records(names, data) + [Record(names, line.value)]) ==
              Indexed(parse, Records(names, data)) + if HasIndex(parse, line) then 1 else 0
  {
    if line.Some? {
      var before := Records(names, data);
      hide Strip, Split, Records;
      assert (before + [Record(names, line.value)])[..|before|] == before;
    }
  }
}
