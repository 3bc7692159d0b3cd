/** Writing rows to the store, rendering a page, parsing it back: what a reader finds is the last write. */
module WriteRead {
  import opened Order
  import opened Text
  import opened Blocks
  import opened LogPages
  import opened Client
  import opened FetchRun
  import opened MockStore

  const COMMON_NULL_SENTINELS: set<string> := {"-999.25", "-9999", "-999", "NaN", "null", ""}

  /** How index tokens and numbers are read; the two sides of the wire read them alike. */
  datatype Codec = Codec(index: IndexParser, number: string -> Option<real>)

  /** `_decode_cell` for a value column. */
  function DecodeCell(codec: Codec, raw: string): Cell {
    var val := Strip(raw);
    if val in COMMON_NULL_SENTINELS then Null
    else if codec.number(val).Some? then Num(codec.number(val).value)
    else Text(val)
  }

  /** `_decode_cell` for the index column. */
  function DecodeIndex(codec: Codec, raw: string): Option<Index> {
    var val := Strip(raw);
    if val in COMMON_NULL_SENTINELS then None else codec.index(val)
  }

  function DecodeCells(codec: Codec, cells: seq<string>): (r: seq<Cell>)
    ensures |r| == |cells| && forall i :: 0 <= i < |cells| ==> r[i] == DecodeCell(codec, cells[i])
  {
    seq(|cells|, i requires 0 <= i < |cells| => DecodeCell(codec, cells[i]))
  }

  function DecodeRow(codec: Codec, cells: seq<string>): Row
    requires cells != []
  {
    Row(DecodeIndex(codec, cells[0]), DecodeCells(codec, cells[1..]))
  }

  // ---- the data part of a log on the wire ----------------------------------------------------

  /** The texts under `<logData>`; an empty text reads as none. */
  datatype LogData = LogData(mnemonicList: Option<string>, unitList: Option<string>, data: seq<Option<string>>)

  function TextOf(s: string): Option<string> {
    if s == "" then None else Some(s)
  }

  function TrimmedText(t: Option<string>): Option<string> {
    if t.None? then None else TextOf(Strip(t.value))
  }

  function UnitTexts(units: seq<Option<string>>): (r: seq<string>)
    ensures |r| == |units|
    ensures forall i :: 0 <= i < |units| ==> r[i] == if units[i].Some? then units[i].value else ""
  {
    seq(|units|, i requires 0 <= i < |units| => if units[i].Some? then units[i].value else "")
  }

  function DataTexts(rows: seq<Cells>): (r: seq<Option<string>>)
    ensures |r| == |rows| && forall i :: 0 <= i < |rows| ==> r[i] == TextOf(Join(rows[i], ','))
  {
    seq(|rows|, i requires 0 <= i < |rows| => TextOf(Join(rows[i], ',')))
  }

  /** The data part of `_render_log`: no element at all when there are no rows. */
  method RenderLogData(columns: seq<string>, units: seq<Option<string>>, rows: seq<Cells>) returns (r: Option<LogData>)
    ensures r == Rendered(columns, units, rows)
  {
    if rows == [] {
      return None;
    }
    var data: seq<Option<string>> := [];
    for i := 0 to |rows|
      invariant data == DataTexts(rows[..i])
    {
      data := data + [TextOf(Join(rows[i], ','))];
    }
    assert rows[..|rows|] == rows;
    r := Some(LogData(TextOf(Join(columns, ',')), TextOf(Join(UnitTexts(units), ',')), data));
  }

  function Rendered(columns: seq<string>, units: seq<Option<string>>, rows: seq<Cells>): Option<LogData> {
    if rows == [] then None
    else Some(LogData(TextOf(Join(columns, ',')), TextOf(Join(UnitTexts(units), ',')), DataTexts(rows)))
  }

  function ParsedUnits(list: Option<string>, width: nat): seq<Option<string>> {
    var units := if list.None? then seq(width, i => None) else TextsOf(Split(list.value, ','));
    if |units| < width then units + seq(width - |units|, i => None) else units
  }

  /** Each listed unit without the blanks around it, none where it is blank or the list has run out. */
  lemma ParsedUnitsMeaning(list: Option<string>, width: nat, i: nat)
    requires i < |ParsedUnits(list, width)|
    ensures |ParsedUnits(list, width)| >= width
    ensures var unit, pieces := ParsedUnits(list, width)[i], if list.Some? then Split(list.value, ',') else [];
            match unit
            case Some(u) => i < |pieces| && u == Strip(pieces[i]) && u != ""
            case None => i < |pieces| ==> Strip(pieces[i]) == ""
  {
    hide Strip, Split;
  }

  function TextsOf(pieces: seq<string>): (r: seq<Option<string>>)
    ensures |r| == |pieces| && forall i :: 0 <= i < |pieces| ==> r[i] == TextOf(Strip(pieces[i]))
  {
    seq(|pieces|, i requires 0 <= i < |pieces| => TextOf(Strip(pieces[i])))
  }

  function ParsedRows(codec: Codec, data: seq<Option<string>>): seq<Row> {
    if data == [] then [] else
      var front := ParsedRows(codec, data[..|data| - 1]);
      var d := data[|data| - 1];
      if d.None? then front else front + [DecodeRow(codec, Split(d.value, ','))]
  }

  function Parsed(codec: Codec, doc: Option<LogData>): seq<Block> {
    if doc.None? then []
    else
      var mnemonics := TrimmedText(doc.value.mnemonicList);
      if mnemonics.None? then []
      else
        var columns := StripAll(Split(mnemonics.value, ','));
        [Block(columns, ParsedUnits(TrimmedText(doc.value.unitList), |columns|), ParsedRows(codec, doc.value.data))]
  }

  /** `parse_log_data` for one log of a reply. */
  method ParseLogData(codec: Codec, doc: Option<LogData>) returns (blocks: seq<Block>)
    ensures blocks == Parsed(codec, doc)
  {
    hide Split, Strip, Join;
    if doc.None? {
      return [];
    }
    var mnemonics := TrimmedText(doc.value.mnemonicList);
    if mnemonics.None? {
      return [];
    }
    var columns := StripAll(Split(mnemonics.value, ','));
    var units := ParsedUnits(TrimmedText(doc.value.unitList), |columns|);
    var rows: seq<Row> := [];
    var data := doc.value.data;
    for i := 0 to |data|
      invariant rows == ParsedRows(codec, data[..i])
    {
      assert data[..i + 1][..i] == data[..i];
      if data[i].None? {
        continue;
      }
      var cells := Split(data[i].value, ',');
      var decoded: seq<Cell> := [];
      for c := 1 to |cells|
        invariant decoded == DecodeCells(codec, cells[1..c])
      {
        assert cells[1..c + 1] == cells[1..c] + [cells[c]];
        decoded := decoded + [DecodeCell(codec, cells[c])];
      }
      assert cells[1..|cells|] == cells[1..];
      rows := rows + [Row(DecodeIndex(codec, cells[0]), decoded)];
    }
    assert data[..|data|] == data;
    blocks := [Block(columns, units, rows)];
  }

  // ---- parsing undoes rendering --------------------------------------------------------------

  /** A cell that survives the comma-separated wire. */
  predicate Plain(cell: string) {
    Trimmed(cell) && ',' !in cell
  }

  ghost predicate AllPlain(cells: seq<string>) {
    forall i :: 0 <= i < |cells| ==> Plain(cells[i])
  }

  lemma {:induction false} JoinTrimmed(cells: seq<string>)
    requires AllPlain(cells)
    ensures Trimmed(Join(cells, ','))
    ensures |cells| >= 2 ==> |Join(cells, ',')| >= 1
  {
    if |cells| >= 2 {
      var rest := Join(cells[1..], ',');
      JoinTrimmed(cells[1..]);
      var s := Join(cells, ',');
      assert s[0] == (if cells[0] == "" then ',' else cells[0][0]);
      assert s[|s| - 1] == (if rest == "" then ',' else rest[|rest| - 1]);
    }
  }

  lemma JoinedCells(cells: seq<string>)
    requires cells != [] && AllPlain(cells)
    ensures Split(Join(cells, ','), ',') == cells && StripAll(cells) == cells
  {
    SplitJoin(cells, ',');
    forall i | 0 <= i < |cells|
      ensures Strip(cells[i]) == cells[i]
    {
      StripTrimmed(cells[i]);
    }
  }

  lemma ColumnsSurvive(columns: seq<string>)
    requires columns != [] && columns != [""] && AllPlain(columns)
    ensures TrimmedText(TextOf(Join(columns, ','))) == Some(Join(columns, ','))
    ensures StripAll(Split(Join(columns, ','), ',')) == columns
  {
    JoinTrimmed(columns);
    StripTrimmed(Join(columns, ','));
    JoinedCells(columns);
  }

  ghost predicate PlainUnits(units: seq<Option<string>>) {
    forall i :: 0 <= i < |units| && units[i].Some? ==> Plain(units[i].value) && units[i].value != ""
  }

  /** Units survive the wire, absent ones included. */
  lemma UnitsSurvive(units: seq<Option<string>>)
    requires units != [] && PlainUnits(units)
    ensures ParsedUnits(TrimmedText(TextOf(Join(UnitTexts(units), ','))), |units|) == units
  {
    var texts := UnitTexts(units);
    var s := Join(texts, ',');
    assert AllPlain(texts);
    JoinTrimmed(texts);
    StripTrimmed(s);
    JoinedCells(texts);
    if s == "" {
      assert |units| == 1 && texts[0] == "";
    } else {
      assert TextsOf(texts) == units;
    }
  }

  /** What every stored row satisfies: cells the wire preserves, under the index its first cell reads as. */
  ghost predicate WellStored(codec: Codec, rows: map<Index, Cells>) {
    forall x :: x in rows ==> rows[x] != [] && AllPlain(rows[x]) && codec.index(rows[x][0]) == Some(x)
  }

  /** No index token is one of the common null sentinels. */
  ghost predicate ClearIndices(rows: map<Index, Cells>) {
    forall x :: x in rows ==> rows[x] != [] && rows[x][0] !in COMMON_NULL_SENTINELS
  }

  /** The log as a reader decodes it. */
  function Content(codec: Codec, rows: map<Index, Cells>): Log
    requires forall x :: x in rows ==> rows[x] != []
  {
    map x | x in rows :: DecodeCells(codec, rows[x][1..])
  }

  lemma RowsSurvive(codec: Codec, rows: map<Index, Cells>, order: seq<Index>)
    requires WellStored(codec, rows) && ClearIndices(rows)
    requires forall x :: x in order ==> x in rows
    ensures ParsedRows(codec, DataTexts(ValuesAt(rows, order))) == RowsAt(Content(codec, rows), order)
  {
    hide WellStored, ParsedRows;
    RowsSurviveIffClear(codec, rows, order);
  }

  lemma ContentKeys(codec: Codec, rows: map<Index, Cells>)
    requires WellStored(codec, rows)
    ensures forall x :: x in rows ==> rows[x] != []
    ensures Content(codec, rows).Keys == rows.Keys
  {
  }

  /**
   * The store's page, rendered and parsed back, is the reply the paging protocol is proved about: the same rows
   * in the same order under the same headers, or no block at all when there are none.
   */
  lemma ReplyIsServed(codec: Codec, rows: map<Index, Cells>, q: Query, cursor: Option<Index>)
    requires WellStored(codec, rows) && ClearIndices(rows)
    requires q.mnemonics != [] && q.mnemonics != [""] && AllPlain(q.mnemonics)
    requires |q.units| == |q.mnemonics| && PlainUnits(q.units)
    ensures var order := PageOf(rows.Keys, q.d, BoundOnWire(q.wire, cursor), BoundOnWire(q.wire, q.end), q.maxNodes).0;
            && (forall x :: x in order ==> x in rows)
            && (forall x :: x in rows ==> rows[x] != [])
            && Parsed(codec, Rendered(q.mnemonics, q.units, ValuesAt(rows, order))) ==
               Serve(Content(codec, rows), q, cursor).batch
  {
    hide Join, Split, Strip, Sorted, Content, ParsedRows, ParsedUnits;
    ContentKeys(codec, rows);
    var content := Content(codec, rows);
    PageInLog(content, q, cursor);
    var order := PageOf(rows.Keys, q.d, BoundOnWire(q.wire, cursor), BoundOnWire(q.wire, q.end), q.maxNodes).0;
    if order != [] {
      ColumnsSurvive(q.mnemonics);
      UnitsSurvive(q.units);
      RowsSurvive(codec, rows, order);
    }
  }

  // ---- what was written ----------------------------------------------------------------------

  lemma {:induction false} StripLeftPlain(s: string)
    ensures ',' !in s ==> ',' !in StripLeft(s)
    ensures StripLeft(s) == [] || !IsSpace(StripLeft(s)[0])
  {
    if s != [] && IsSpace(s[0]) {
      StripLeftPlain(s[1..]);
    }
  }

  lemma {:induction false} StripRightPlain(s: string)
    ensures ',' !in s ==> ',' !in StripRight(s)
    ensures StripRight(s) == [] || !IsSpace(StripRight(s)[|StripRight(s)| - 1])
    ensures StripRight(s) <= s
  {
    if s != [] && IsSpace(s[|s| - 1]) {
      StripRightPlain(s[..|s| - 1]);
    }
  }

  lemma StripPlain(s: string)
    requires ',' !in s
    ensures Plain(Strip(s))
  {
    StripLeftPlain(s);
    StripRightPlain(StripLeft(s));
  }

  lemma CellsArePlain(text: string)
    ensures AllPlain(CellsOf(text))
  {
    var pieces := Split(text, ',');
    forall i | 0 <= i < |pieces|
      ensures Plain(Strip(pieces[i]))
    {
      StripPlain(pieces[i]);
    }
  }

  lemma {:induction false} CellAtIsCell(columns: seq<string>, cells: Cells, m: string)
    ensures CellAt(columns, cells, m).Some? ==> CellAt(columns, cells, m).value in cells
  {
    if columns != [] {
      CellAtIsCell(columns[..|columns| - 1], cells, m);
    }
  }

  /** Whatever is written, every stored row can be read back. */
  lemma {:induction false} WritesAreWellStored(codec: Codec, columns: seq<string>, nullValue: string,
                                               records: seq<Record>)
    requires columns != [] && Plain(nullValue)
    ensures WellStored(codec, WriteAll(codec.index, columns, nullValue, map[], records))
  {
    hide CellsOf, StoredRow, Plain;
    if records != [] {
      var n := |records| - 1;
      WritesAreWellStored(codec, columns, nullValue, records[..n]);
      if IndexOf(codec.index, records[n]).Some? {
        RowIsPlain(records[n], columns, nullValue);
      }
    }
  }

  lemma RowIsPlain(record: Record, columns: seq<string>, nullValue: string)
    requires columns != [] && Plain(nullValue)
    ensures AllPlain(StoredRow(record, columns, nullValue))
    ensures StoredRow(record, columns, nullValue)[0] == CellsOf(record.text)[0]
  {
    hide Plain;
    var cells := CellsOf(record.text);
    CellsArePlain(record.text);
    forall j | 0 <= j < |columns|
      ensures Plain(StoredRow(record, columns, nullValue)[j])
    {
      CellAtIsCell(record.columns, cells, columns[j]);
    }
  }

  /** The last record written at an index. */
  function LastAt(parse: IndexParser, records: seq<Record>, x: Index): Option<Record> {
    if records == [] then None
    else if IndexOf(parse, records[|records| - 1]) == Some(x) then Some(records[|records| - 1])
    else LastAt(parse, records[..|records| - 1], x)
  }

  /** The index token of a line: its first cell. */
  function TokenOf(record: Record): string {
    Strip(Split(record.text, ',')[0])
  }

  /** The k-th record is the last one written at an index. */
  predicate IsLastAt(parse: IndexParser, records: seq<Record>, x: Index, k: int) {
    && 0 <= k < |records| && parse(TokenOf(records[k])) == Some(x)
    && forall l :: k < l < |records| ==> parse(TokenOf(records[l])) != Some(x)
  }

  lemma {:induction false} LastAtMeaning(parse: IndexParser, records: seq<Record>, x: Index)
    ensures forall k :: IsLastAt(parse, records, x, k) ==> LastAt(parse, records, x) == Some(records[k])
    ensures LastAt(parse, records, x).Some? ==> exists k :: IsLastAt(parse, records, x, k)
  {
    hide Strip, Split;
    if records != [] {
      var n := |records| - 1;
      if IndexOf(parse, records[n]) == Some(x) {
        assert IsLastAt(parse, records, x, n);
      } else {
        LastAtMeaning(parse, records[..n], x);
        assert forall k :: IsLastAt(parse, records, x, k) <==> IsLastAt(parse, records[..n], x, k);
      }
    }
  }

  /** A row is the last line written at its index, column by column. */
  lemma LastWriteIsStored(parse: IndexParser, columns: seq<string>, nullValue: string, records: seq<Record>, x: Index)
    requires columns != []
    ensures var rows := WriteAll(parse, columns, nullValue, map[], records);
            && (x in rows <==> exists k :: IsLastAt(parse, records, x, k))
            && forall k :: IsLastAt(parse, records, x, k) ==> StoresAs(rows[x], records[k], columns, nullValue)
  {
    hide StoredRow, IsLastAt, WriteAll, LastAt, StoresAs;
    LastStored(parse, columns, nullValue, records, x);
    LastAtMeaning(parse, records, x);
    InRecords(parse, records, x);
    if LastAt(parse, records, x).Some? {
      StoredRowMeaning(LastAt(parse, records, x).value, columns, nullValue);
    }
  }

  lemma InRecords(parse: IndexParser, records: seq<Record>, x: Index)
    ensures forall k :: IsLastAt(parse, records, x, k) ==> 0 <= k < |records|
  {
  }

  lemma {:induction false} LastStored(parse: IndexParser, columns: seq<string>, nullValue: string,
                                      records: seq<Record>, x: Index)
    requires columns != []
    ensures var rows := WriteAll(parse, columns, nullValue, map[], records);
            && (x in rows <==> LastAt(parse, records, x).Some?)
            && (x in rows ==> rows[x] == StoredRow(LastAt(parse, records, x).value, columns, nullValue))
  {
    hide StoredRow, IndexOf;
    if records != [] {
      LastStored(parse, columns, nullValue, records[..|records| - 1], x);
    }
  }

  /** How a reader takes a token: a common sentinel is null, a number is one, anything else is text. */
  predicate DecodesTo(codec: Codec, token: string, cell: Cell) {
    if token in {"-999.25", "-9999", "-999", "NaN", "null", ""} then cell == Null
    else match codec.number(token)
         case Some(v) => cell == Num(v)
         case None => cell == Text(token)
  }

  /** A row read back says in each column what the line has under that header, or the null value if it has nothing. */
  ghost predicate ReadsAs(codec: Codec, row: Row, x: Index, last: Record, columns: seq<string>, nullValue: string) {
    var cells := Split(last.text, ',');
    && row.index == Some(x) && |row.cells| == |columns| - 1
    && forall j :: 1 <= j < |columns| ==>
         && (forall i :: CarriedAt(last.columns, |cells|, columns[j], i) ==>
               0 <= i < |cells| && DecodesTo(codec, Strip(cells[i]), row.cells[j - 1]))
         && ((forall i :: !CarriedAt(last.columns, |cells|, columns[j], i)) ==>
               DecodesTo(codec, nullValue, row.cells[j - 1]))
  }

  ghost predicate ReadsLast(codec: Codec, row: Row, x: Index, records: seq<Record>, columns: seq<string>,
                            nullValue: string)
  {
    forall k :: IsLastAt(codec.index, records, x, k) ==> ReadsAs(codec, row, x, records[k], columns, nullValue)
  }

  /**
   * Write, then read. After any sequence of writes, with columns in any order, a data-only query read back has
   * one row per index written, in log direction, and in each column the cell the last line at that index has under
   * that header: the log's null value if the line left the column out.
   */
  lemma WriteThenRead(codec: Codec, columns: seq<string>, units: seq<Option<string>>, nullValue: string,
                      records: seq<Record>, d: Direction)
    requires columns != [] && columns != [""] && AllPlain(columns)
    requires |units| == |columns| && PlainUnits(units) && Plain(nullValue)
    requires ClearIndices(WriteAll(codec.index, columns, nullValue, map[], records))
    ensures var rows := WriteAll(codec.index, columns, nullValue, map[], records);
            var order := Sorted(d, rows.Keys);
            var read := Parsed(codec, Rendered(columns, units, ValuesAt(rows, order)));
            && (forall x :: x in order <==> exists k :: IsLastAt(codec.index, records, x, k))
            && (if order == [] then read == []
                else |read| == 1 && read[0].mnemonics == columns && read[0].units == units &&
                     |read[0].rows| == |order| &&
                     forall i :: 0 <= i < |order| ==>
                       ReadsLast(codec, read[0].rows[i], order[i], records, columns, nullValue))
  {
    hide Join, Split, Strip, Sorted, WriteAll, ParsedRows, ParsedUnits, AllPlain, Plain, StoredRow, IsLastAt, StoresAs,
         ReadsLast;
    var rows := WriteAll(codec.index, columns, nullValue, map[], records);
    WritesAreWellStored(codec, columns, nullValue, records);
    var order := Sorted(d, rows.Keys);
    OrderIsWritten(codec.index, columns, nullValue, records, d);
    if order != [] {
      ColumnsSurvive(columns);
      UnitsSurvive(units);
      RowsSurvive(codec, rows, order);
      RowsReadLast(codec, columns, nullValue, records, order);
    }
  }

  lemma OrderIsWritten(parse: IndexParser, columns: seq<string>, nullValue: string, records: seq<Record>, d: Direction)
    requires columns != []
    ensures forall x :: x in Sorted(d, WriteAll(parse, columns, nullValue, map[], records).Keys) <==>
                        exists k :: IsLastAt(parse, records, x, k)
  {
    hide *;
    forall x
      ensures x in Sorted(d, WriteAll(parse, columns, nullValue, map[], records).Keys) <==>
              exists k :: IsLastAt(parse, records, x, k)
    {
      LastWriteIsStored(parse, columns, nullValue, records, x);
    }
  }

  lemma RowsReadLast(codec: Codec, columns: seq<string>, nullValue: string, records: seq<Record>, order: seq<Index>)
    requires columns != [] && Plain(nullValue)
    requires var rows := WriteAll(codec.index, columns, nullValue, map[], records);
             WellStored(codec, rows) && forall x :: x in order ==> x in rows
    ensures var rows := RowsAt(Content(codec, WriteAll(codec.index, columns, nullValue, map[], records)), order);
            forall i :: 0 <= i < |order| ==> ReadsLast(codec, rows[i], order[i], records, columns, nullValue)
  {
    hide *;
    var rows := WriteAll(codec.index, columns, nullValue, map[], records);
    ContentKeys(codec, rows);
    forall i | 0 <= i < |order|
      ensures ReadsLast(codec, RowsAt(Content(codec, rows), order)[i], order[i], records, columns, nullValue)
    {
      RowReadsLast(codec, columns, nullValue, records, order[i]);
    }
  }

  lemma RowReadsLast(codec: Codec, columns: seq<string>, nullValue: string, records: seq<Record>, x: Index)
    requires columns != [] && Plain(nullValue)
    requires var rows := WriteAll(codec.index, columns, nullValue, map[], records);
             WellStored(codec, rows) && x in rows
    ensures var rows := WriteAll(codec.index, columns, nullValue, map[], records);
            (forall y :: y in rows ==> rows[y] != []) &&
            ReadsLast(codec, Row(Some(x), Content(codec, rows)[x]), x, records, columns, nullValue)
  {
    hide WriteAll, IsLastAt, StoresAs, ReadsAs, Plain, AllPlain, Content;
    var rows := WriteAll(codec.index, columns, nullValue, map[], records);
    ContentKeys(codec, rows);
    LastWriteIsStored(codec.index, columns, nullValue, records, x);
    InRecords(codec.index, records, x);
    forall k | IsLastAt(codec.index, records, x, k)
      ensures ReadsAs(codec, Row(Some(x), Content(codec, rows)[x]), x, records[k], columns, nullValue)
    {
      StoredReads(codec, rows, x, records[k], columns, nullValue);
    }
  }

  lemma StoredReads(codec: Codec, rows: map<Index, Cells>, x: Index, last: Record, columns: seq<string>,
                    nullValue: string)
    requires columns != [] && (forall y :: y in rows ==> rows[y] != [])
    requires x in rows && StoresAs(rows[x], last, columns, nullValue) && Plain(nullValue)
    ensures ReadsAs(codec, Row(Some(x), Content(codec, rows)[x]), x, last, columns, nullValue)
  {
    hide CarriedAt, DecodeCell, DecodesTo, Strip, Split;
    var cells := Split(last.text, ',');
    InLine(last.columns, |cells|);
    forall j | 1 <= j < |columns|
      ensures forall i :: CarriedAt(last.columns, |cells|, columns[j], i) ==>
                DecodesTo(codec, Strip(cells[i]), Content(codec, rows)[x][j - 1])
      ensures (forall i :: !CarriedAt(last.columns, |cells|, columns[j], i)) ==>
                DecodesTo(codec, nullValue, Content(codec, rows)[x][j - 1])
    {
      assert rows[x][1..][j - 1] == rows[x][j];
      if i :| CarriedAt(last.columns, |cells|, columns[j], i) {
        OneCarrier(last.columns, |cells|, columns[j]);
        StrippedDecodes(codec, cells[i]);
      } else {
        TrimmedDecodes(codec, nullValue);
      }
    }
  }

  lemma OneCarrier(columns: seq<string>, width: nat, m: string)
    ensures forall i, k :: CarriedAt(columns, width, m, i) && CarriedAt(columns, width, m, k) ==> i == k
  {
  }

  lemma TrimmedDecodes(codec: Codec, token: string)
    requires Trimmed(token)
    ensures DecodesTo(codec, token, DecodeCell(codec, token))
  {
    hide Strip;
    StripTrimmed(token);
  }

  lemma StrippedDecodes(codec: Codec, raw: string)
    ensures DecodesTo(codec, Strip(raw), DecodeCell(codec, Strip(raw)))
  {
    hide Strip, DecodeCell, DecodesTo;
    var _, _ := StripMeaning(raw);
    TrimmedDecodes(codec, Strip(raw));
  }

  /** The line has no cell under the header `m`. */
  ghost predicate Omits(record: Record, m: string) {
    forall i :: !CarriedAt(record.columns, |Split(record.text, ',')|, m, i)
  }

  /**
   * After any writes, a column the last write at an index left out is read as null exactly when the log's null
   * value is one the reader knows.
   */
  lemma OmittedReadsNull(codec: Codec, columns: seq<string>, units: seq<Option<string>>, nullValue: string,
                         records: seq<Record>, d: Direction, i: nat, j: nat, k: nat)
    requires columns != [] && columns != [""] && AllPlain(columns)
    requires |units| == |columns| && PlainUnits(units) && Plain(nullValue)
    requires ClearIndices(WriteAll(codec.index, columns, nullValue, map[], records))
    requires var order := Sorted(d, WriteAll(codec.index, columns, nullValue, map[], records).Keys);
             i < |order| && 1 <= j < |columns| && k < |records| &&
             IsLastAt(codec.index, records, order[i], k) && Omits(records[k], columns[j])
    ensures var rows := WriteAll(codec.index, columns, nullValue, map[], records);
            var read := Parsed(codec, Rendered(columns, units, ValuesAt(rows, Sorted(d, rows.Keys))));
            && |read| == 1 && i < |read[0].rows| && |read[0].rows[i].cells| == |columns| - 1
            && (read[0].rows[i].cells[j - 1] == Null <==> nullValue in COMMON_NULL_SENTINELS)
  {
    hide Parsed, Rendered, Sorted, WriteAll, IsLastAt, ClearIndices, AllPlain, CarriedAt, Split, Strip;
    WriteThenRead(codec, columns, units, nullValue, records, d);
  }

  /** A line that does not read back as its row, and one that does. */
  lemma LineSurvivesIff(codec: Codec, rows: map<Index, Cells>, x: Index)
    requires WellStored(codec, rows) && x in rows
    ensures var text := TextOf(Join(rows[x], ','));
            text.Some? && DecodeRow(codec, Split(text.value, ',')) == Row(Some(x), Content(codec, rows)[x]) <==>
            rows[x][0] !in COMMON_NULL_SENTINELS
  {
    JoinedCells(rows[x]);
    StripTrimmed(rows[x][0]);
    if |rows[x]| == 1 {
      assert Join(rows[x], ',') == rows[x][0];
    }
  }

  /** Stored rows read back as they are exactly when no index token among them is a null sentinel. */
  lemma {:induction false} RowsSurviveIffClear(codec: Codec, rows: map<Index, Cells>, order: seq<Index>)
    requires WellStored(codec, rows) && forall x :: x in order ==> x in rows
    ensures ParsedRows(codec, DataTexts(ValuesAt(rows, order))) == RowsAt(Content(codec, rows), order) <==>
            forall i :: 0 <= i < |order| ==> rows[order[i]][0] !in COMMON_NULL_SENTINELS
    ensures |ParsedRows(codec, DataTexts(ValuesAt(rows, order)))| <= |order|
  {
    hide Join, Split, DecodeRow, WellStored, Content, ParsedRows;
    ContentKeys(codec, rows);
    if order == [] {
      NoLines(codec);
    } else {
      var k := |order| - 1;
      var front := order[..k];
      RowsSurviveIffClear(codec, rows, front);
      LineSurvivesIff(codec, rows, order[k]);
      var text := TextOf(Join(rows[order[k]], ','));
      assert DataTexts(ValuesAt(rows, order)) == DataTexts(ValuesAt(rows, front)) + [text];
      ParsedMore(codec, DataTexts(ValuesAt(rows, front)), text);
      var before, last := RowsAt(Content(codec, rows), front), Row(Some(order[k]), Content(codec, rows)[order[k]]);
      assert RowsAt(Content(codec, rows), order) == before + [last];
      assert forall i :: 0 <= i < k ==> front[i] == order[i];
      if text.Some? {
        LastRowMatters(ParsedRows(codec, DataTexts(ValuesAt(rows, front))),
                       DecodeRow(codec, Split(text.value, ',')), before, last);
      }
    }
  }

  lemma NoLines(codec: Codec)
    ensures ParsedRows(codec, []) == []
  {
  }

  lemma ParsedMore(codec: Codec, data: seq<Option<string>>, d: Option<string>)
    ensures ParsedRows(codec, data + [d]) ==
            ParsedRows(codec, data) + if d.None? then [] else [DecodeRow(codec, Split(d.value, ','))]
  {
    assert (data + [d])[..|data|] == data;
  }

  lemma LastRowMatters(front: seq<Row>, row: Row, before: seq<Row>, last: Row)
    ensures front + [row] == before + [last] <==> front == before && row == last
  {
    if front + [row] == before + [last] {
      assert (front + [row])[|front|] == row;
      assert front == (front + [row])[..|front|] == before;
    }
  }

  /** A depth log with a row at -999 m: the store keeps the row, the reader loses its index. */
  lemma SentinelDepthIsLost(codec: Codec)
    requires codec.index("-999") == Some(Index(-999.0)) && codec.number("1") == Some(1.0)
    ensures IndexOf(codec.index, Record(["DEPTH", "GR"], "-999,1")) == Some(Index(-999.0))
    ensures DecodeRow(codec, Split("-999,1", ',')) == Row(None, [Num(1.0)])
  {
    var parts := ["-999", "1"];
    TwoCells();
    hide Split, Join, Strip;
    SplitJoin(parts, ',');
    StripTrimmed("-999");
    StripTrimmed("1");
    assert StripAll(parts) == parts;
    assert DecodeCells(codec, parts[1..]) == [DecodeCell(codec, "1")];
  }

  lemma TwoCells()
    ensures Join(["-999", "1"], ',') == "-999,1"
  {
    assert ["-999", "1"][1..] == ["1"];
  }
}
