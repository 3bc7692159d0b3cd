/** The durable index cache: snapshot rows per (log, mnemonic), and what loading them restores. */
module IndexCache {
  import opened Order
  import opened Text
  import opened Ingestion

  datatype IndexType = DateTime | ElapsedTime | MeasuredDepth | VerticalDepth | Other

  function TypeName(t: IndexType): string {
    match t
    case DateTime => "date time"
    case ElapsedTime => "elapsed time"
    case MeasuredDepth => "measured depth"
    case VerticalDepth => "vertical depth"
    case Other => "other"
  }

  predicate IsTime(t: IndexType) { t.DateTime? || t.ElapsedTime? }

  function DirectionName(d: Direction): string {
    if d.Increasing? then "increasing" else "decreasing"
  }

  /** `_index_type_from_str`. */
  function TypeFromName(name: Option<string>): IndexType {
    if name.None? || name.value == "" then MeasuredDepth
    else
      var norm := Lower(Strip(name.value));
      if norm == "date time" then DateTime
      else if norm == "elapsed time" then ElapsedTime
      else if norm == "measured depth" then MeasuredDepth
      else if norm == "vertical depth" then VerticalDepth
      else if norm == "other" then Other
      else if Contains(norm, "time") then DateTime
      else if Contains(norm, "depth") then MeasuredDepth
      else Other
  }

  function DirectionFromName(name: Option<string>): Direction {
    if name.Some? && Lower(name.value) == "decreasing" then Decreasing else Increasing
  }

  lemma NamesRoundTrip(t: IndexType, d: Direction)
    ensures TypeFromName(Some(TypeName(t))) == t
    ensures DirectionFromName(Some(DirectionName(d))) == d
  {
    hide Contains, Strip, Lower;
    StripTrimmed(TypeName(t));
    LowerKeeps(TypeName(t));
    LowerKeeps(DirectionName(d));
  }

  /** Names are recognised in any case, those of types with blanks around them too. */
  lemma NamesAreLenient(raw: string, t: IndexType)
    ensures Lower(Strip(raw)) == TypeName(t) ==> TypeFromName(Some(raw)) == t
    ensures DirectionFromName(Some(raw)) == Decreasing <==> Lower(raw) == "decreasing"
  {
    hide Contains, Lower;
  }

  predicate WordAt(s: string, word: string, i: int) {
    0 <= i <= |s| - |word| && s[i..i + |word|] == word
  }

  /** A name that is none of these is a time or a depth if it contains the word; no name means a depth. */
  lemma OtherNames(raw: string)
    requires forall t :: Lower(Strip(raw)) != TypeName(t)
    ensures raw != "" ==>
              var norm := Lower(Strip(raw));
              TypeFromName(Some(raw)) ==
              if exists i :: WordAt(norm, "time", i) then DateTime
              else if exists i :: WordAt(norm, "depth", i) then MeasuredDepth else Other
    ensures TypeFromName(None) == TypeFromName(Some("")) == MeasuredDepth
  {
    hide Contains, WordAt, Lower, Strip;
    var norm := Lower(Strip(raw));
    ContainsWord(norm, "time");
    ContainsWord(norm, "depth");
    assert norm != TypeName(DateTime) && norm != TypeName(ElapsedTime) && norm != TypeName(MeasuredDepth) &&
           norm != TypeName(VerticalDepth) && norm != TypeName(Other);
  }

  lemma ContainsWord(s: string, word: string)
    ensures Contains(s, word) <==> exists i :: WordAt(s, word, i)
  {
    if Contains(s, word) {
      var i: int :| 0 <= i <= |s| - |word| && PrefixAt(s, word, i);
      assert WordAt(s, word, i);
    }
    if i :| WordAt(s, word, i) {
      assert PrefixAt(s, word, i);
    }
  }

  lemma LowerKeeps(s: string)
    requires forall i :: 0 <= i < |s| ==> !('A' <= s[i] <= 'Z')
    ensures Lower(s) == s
  {
  }

  /** The resumable state of one log. */
  datatype LogState = LogState(indexType: IndexType, direction: Direction, uom: Option<string>,
                               indexMnemonic: string, mnemonics: seq<string>, last: Option<Index>,
                               growing: Option<bool>)

  /** One stored row: the cursor in the column its index type selects. */
  datatype SnapRow = SnapRow(lastFloat: Option<Index>, lastInstant: Option<Index>, uom: Option<string>,
                             direction: string, indexType: string)

  type RowKey = (LogKey, string)

  type Table = map<RowKey, SnapRow>

  function RowFor(s: LogState): SnapRow {
    SnapRow(if IsTime(s.indexType) then None else s.last,
            if IsTime(s.indexType) then s.last else None,
            s.uom, DirectionName(s.direction), TypeName(s.indexType))
  }

  /** The mnemonics a state is snapshotted under. */
  function Listed(s: LogState): seq<string> {
    if s.mnemonics == [] then [s.indexMnemonic] else s.mnemonics
  }

  function Mnemonics(s: LogState): set<string> {
    set m | m in Listed(s) && m != ""
  }

  /** Two new rows under one unique key: the database refuses the whole transaction. */
  ghost predicate Clash(table: Table, key: LogKey, names: seq<string>) {
    exists i, j :: 0 <= i < j < |names| && names[i] == names[j] != "" && (key, names[i]) !in table
  }

  function Upserted(table: Table, key: LogKey, s: LogState): Table {
    if s.last.None? then table else Written(table, key, Listed(s), RowFor(s))
  }

  function Written(table: Table, key: LogKey, names: seq<string>, row: SnapRow): Table {
    if names == [] then table
    else
      var front := Written(table, key, names[..|names| - 1], row);
      var m := names[|names| - 1];
      if m == "" then front else front[(key, m) := row]
  }

  lemma {:induction false} WrittenAt(table: Table, key: LogKey, names: seq<string>, row: SnapRow, k: RowKey)
    ensures k in Written(table, key, names, row) <==> k in table || (k.0 == key && k.1 != "" && k.1 in names)
    ensures k.0 == key && k.1 != "" && k.1 in names ==> Written(table, key, names, row)[k] == row
    ensures k in table && !(k.0 == key && k.1 != "" && k.1 in names) ==>
              k in Written(table, key, names, row) && Written(table, key, names, row)[k] == table[k]
  {
    if names != [] {
      var n := |names| - 1;
      WrittenAt(table, key, names[..n], row, k);
      assert names == names[..n] + [names[n]];
    }
  }

  lemma WrittenStep(table: Table, key: LogKey, names: seq<string>, row: SnapRow, m: string)
    ensures Written(table, key, names + [m], row) ==
            if m == "" then Written(table, key, names, row) else Written(table, key, names, row)[(key, m) := row]
  {
    assert (names + [m])[..|names|] == names;
  }

  function UpsertedAll(table: Table, states: seq<(LogKey, LogState)>, server: int): Table {
    if states == [] then table
    else
      var front := UpsertedAll(table, states[..|states| - 1], server);
      var (key, s) := states[|states| - 1];
      if key.server == server then Upserted(front, key, s) else front
  }

  ghost predicate AnyClash(table: Table, states: seq<(LogKey, LogState)>, server: int) {
    exists i :: 0 <= i < |states| && states[i].0.server == server && states[i].1.last.Some? &&
                Clash(table, states[i].0, Listed(states[i].1))
  }

  class Database {
    var table: Table

    /**
     * `_snapshot_index_state`: one transaction that writes every log's cursor under each of its mnemonics.
     * It fails, leaving the table as it was, exactly when a log repeats a mnemonic that has no row yet.
     */
    method SnapshotIndexState(states: seq<(LogKey, LogState)>, server: int) returns (ok: bool)
      requires forall i, j :: 0 <= i < j < |states| ==> states[i].0 != states[j].0
      modifies this
      ensures ok <==> !AnyClash(old(table), states, server)
      ensures table == if ok then UpsertedAll(old(table), states, server) else old(table)
    {
      hide AnyClash, Clash, Upserted, UpsertedAll, Listed;
      var existing := table;
      var added: set<RowKey> := {};
      var session := table;
      NoStates(existing, server);
      ok := true;
      for i := 0 to |states|
        invariant table == existing
        invariant session == UpsertedAll(existing, states[..i], server)
        invariant forall k :: k in added ==> k !in existing && exists j :: 0 <= j < i && states[j].0 == k.0
        invariant ok <==> !AnyClash(existing, states[..i], server)
      {
        assert states[..i + 1] == states[..i] + [states[i]];
        var (key, s) := states[i];
        AnyClashStep(existing, states[..i], states[i], server);
        UpsertedStep(existing, states[..i], states[i], server);
        if key.server != server || s.last.None? {
          NothingUpserted(session, key, s);
          continue;
        }
        var fits;
        session, added, fits := WriteState(existing, session, added, key, s);
        ok := ok && fits;
      }
      assert states[..|states|] == states;
      if ok {
        table := session;
      }
    }

    /** The inner loop: the rows of one log; whether none of them was added twice. */
    static method WriteState(existing: Table, before: Table, addedBefore: set<RowKey>, key: LogKey, s: LogState)
      returns (session: Table, added: set<RowKey>, fits: bool)
      requires s.last.Some?
      requires forall k :: k in addedBefore ==> k !in existing && k.0 != key
      ensures session == Upserted(before, key, s)
      ensures forall k :: k in added ==> k !in existing && (k in addedBefore || k.0 == key)
      ensures fits <==> !Clash(existing, key, Listed(s))
    {
      hide Clash, Written, Listed;
      var names := Listed(s);
      NothingWritten(existing, before, key, RowFor(s));
      session, added, fits := before, addedBefore, true;
      for i := 0 to |names|
        invariant session == Written(before, key, names[..i], RowFor(s))
        invariant forall k :: k in added ==> k !in existing && (k in addedBefore || k.0 == key)
        invariant forall j :: 0 <= j < i && names[j] != "" && (key, names[j]) !in existing ==> (key, names[j]) in added
        invariant forall m :: (key, m) in added ==> m in names[..i]
        invariant fits <==> !Clash(existing, key, names[..i])
      {
        var m := names[i];
        assert names[..i + 1] == names[..i] + [m];
        ClashStep(existing, key, names[..i], m);
        WrittenStep(before, key, names[..i], RowFor(s), m);
        if m == "" {
          continue;
        }
        if (key, m) !in existing {
          if (key, m) in added {
            fits := false;
          }
          added := added + {(key, m)};
        }
        session := session[(key, m) := RowFor(s)];
      }
      assert names[..|names|] == names;
    }
  }

  /** What loading a snapshot row says. */
  function CursorFrom(row: SnapRow): Option<Index> {
    if IsTime(TypeFromName(Some(row.indexType))) then row.lastInstant else row.lastFloat
  }

  /** `state` is what loading restores for a log when `row` comes first in its group. */
  predicate RestoredFrom(state: LogState, row: SnapRow, names: set<string>) {
    && state.indexType == TypeFromName(Some(row.indexType))
    && state.direction == DirectionFromName(Some(row.direction))
    && state.uom == row.uom
    && state.last == CursorFrom(row)
    && state.growing.None?
    && Alphabetical(state.mnemonics) && (set m | m in state.mnemonics) == names
    && state.indexMnemonic == if state.mnemonics == [] then "" else state.mnemonics[0]
  }

  function NamesIn(table: Table, key: LogKey): set<string> {
    set k | k in table && k.0 == key :: k.1
  }

  function KeysIn(table: Table, server: int): set<LogKey> {
    set k | k in table && k.0.server == server :: k.0
  }

  /** The outcomes loading can have: which row of a log comes first is left to the database. */
  ghost predicate LoadOutcome(table: Table, server: int, states: map<LogKey, LogState>) {
    && states.Keys == KeysIn(table, server)
    && forall key :: key in states ==>
         exists m :: m in NamesIn(table, key) && (key, m) in table &&
                     RestoredFrom(states[key], table[(key, m)], NamesIn(table, key))
  }

  /** The grouping loop of `_load_index_snapshot`: the server's rows by log, in whatever order they come. */
  method GroupByLog(table: Table, server: int) returns (perLog: map<LogKey, seq<(string, SnapRow)>>)
    ensures perLog.Keys == KeysIn(table, server)
    ensures forall key :: key in perLog ==> Grouped(table, key, perLog[key], ServerRows(table, server))
  {
    hide Grouped, AllGrouped;
    var snaps := ServerRows(table, server);
    perLog := map[];
    ghost var seen: set<RowKey> := {};
    NoGroups(table);
    while snaps != {}
      invariant seen + snaps == ServerRows(table, server) && seen !! snaps
      invariant AllGrouped(table, perLog, seen)
      decreases |snaps|
    {
      var k :| k in snaps;
      snaps := snaps - {k};
      var group := if k.0 in perLog then perLog[k.0] else [];
      GroupsStep(table, perLog, seen, k);
      perLog := perLog[k.0 := group + [(k.1, table[k])]];
      seen := seen + {k};
    }
    assert seen == ServerRows(table, server);
    GroupsOfServer(table, server, perLog);
  }

  /** `_load_index_snapshot`: fold each group into one state, the first row giving everything but the mnemonics. */
  method LoadIndexSnapshot(table: Table, server: int) returns (states: map<LogKey, LogState>)
    ensures LoadOutcome(table, server, states)
  {
    hide RestoredFrom, Grouped, TypeFromName, DirectionFromName, CursorFrom, SortedNames;
    var perLog := GroupByLog(table, server);
    states := map[];
    var keys := perLog.Keys;
    while keys != {}
      invariant keys <= perLog.Keys
      invariant states.Keys == perLog.Keys - keys
      invariant forall key :: key in states ==> FromGroup(states[key], perLog[key])
      decreases |keys|
    {
      var key :| key in keys;
      keys := keys - {key};
      var state := FoldGroup(perLog[key], table, key, ServerRows(table, server));
      states := states[key := state];
    }
    forall key | key in states
      ensures exists m :: m in NamesIn(table, key) && (key, m) in table &&
                          RestoredFrom(states[key], table[(key, m)], NamesIn(table, key))
    {
      GroupIsLog(table, server, key, perLog[key], states[key]);
    }
  }

  method FoldGroup(group: seq<(string, SnapRow)>, ghost table: Table, ghost key: LogKey, ghost seen: set<RowKey>)
    returns (state: LogState)
    requires Grouped(table, key, group, seen)
    ensures FromGroup(state, group)
  {
    var head := group[0].1;
    var names := SortedNames(group);
    state := LogState(TypeFromName(Some(head.indexType)), DirectionFromName(Some(head.direction)),
                      head.uom, if names == [] then "" else names[0], names, CursorFrom(head), None);
  }

  function ServerRows(table: Table, server: int): set<RowKey> {
    set k | k in table && k.0.server == server
  }

  /** `group` holds the rows of `key` among `seen`. */
  ghost predicate Grouped(table: Table, key: LogKey, group: seq<(string, SnapRow)>, seen: set<RowKey>) {
    && group != []
    && (forall i :: 0 <= i < |group| ==> (key, group[i].0) in seen && (key, group[i].0) in table &&
                                         group[i].1 == table[(key, group[i].0)])
    && forall k :: k in seen && k.0 == key ==> exists i :: 0 <= i < |group| && group[i].0 == k.1
  }

  /** The groups once the rows of `seen` are read. */
  ghost predicate AllGrouped(table: Table, perLog: map<LogKey, seq<(string, SnapRow)>>, seen: set<RowKey>) {
    && (forall key :: key in perLog ==> Grouped(table, key, perLog[key], seen))
    && perLog.Keys == set k | k in seen :: k.0
  }

  lemma NoGroups(table: Table)
    ensures AllGrouped(table, map[], {})
  {
  }

  lemma GroupsOfServer(table: Table, server: int, perLog: map<LogKey, seq<(string, SnapRow)>>)
    requires AllGrouped(table, perLog, ServerRows(table, server))
    ensures perLog.Keys == KeysIn(table, server)
    ensures forall key :: key in perLog ==> Grouped(table, key, perLog[key], ServerRows(table, server))
  {
    hide Grouped;
  }

  lemma GroupsStep(table: Table, perLog: map<LogKey, seq<(string, SnapRow)>>, seen: set<RowKey>, k: RowKey)
    requires AllGrouped(table, perLog, seen) && k in table
    ensures var group := if k.0 in perLog then perLog[k.0] else [];
            AllGrouped(table, perLog[k.0 := group + [(k.1, table[k])]], seen + {k})
  {
    hide Grouped;
    var row := (k.1, table[k]);
    var group := if k.0 in perLog then perLog[k.0] else [];
    forall key | key in perLog
      ensures Grouped(table, key, if key == k.0 then group + [row] else perLog[key], seen + {k})
    {
      GroupStep(table, key, perLog[key], seen, k);
    }
    if k.0 !in perLog {
      assert forall j :: j in seen ==> j.0 in perLog;
      GroupStart(table, seen, k);
      assert group + [row] == [row];
    }
  }

  lemma GroupStart(table: Table, seen: set<RowKey>, k: RowKey)
    requires k in table && forall j :: j in seen ==> j.0 != k.0
    ensures Grouped(table, k.0, [(k.1, table[k])], seen + {k})
  {
    assert [(k.1, table[k])][0].0 == k.1;
  }

  lemma GroupStep(table: Table, key: LogKey, group: seq<(string, SnapRow)>, seen: set<RowKey>, k: RowKey)
    requires Grouped(table, key, group, seen) && k in table
    ensures Grouped(table, key, if key == k.0 then group + [(k.1, table[k])] else group, seen + {k})
  {
    var group' := if key == k.0 then group + [(k.1, table[k])] else group;
    assert key == k.0 ==> group'[|group|].0 == k.1;
    assert forall i :: 0 <= i < |group| ==> group'[i] == group[i];
  }

  /** `sorted` on the set of mnemonics of a group. */
  function SortedNames(group: seq<(string, SnapRow)>): (names: seq<string>)
    ensures (set m | m in names) == set g | g in group :: g.0
    ensures Alphabetical(names)
  {
    if group == [] then [] else
      var n := |group| - 1;
      var m := group[n].0;
      var front := SortedNames(group[..n]);
      assert group == group[..n] + [group[n]];
      DistinctStep(front, group[..n], group[n]);
      if m in front then front else
        assert (set x | x in Placed(front, m)) == set x | x in front + [m];
        Placed(front, m)
  }

  lemma DistinctStep(front: seq<string>, group: seq<(string, SnapRow)>, g: (string, SnapRow))
    requires (set m | m in front) == set h | h in group :: h.0
    ensures (set m | m in front + [g.0]) == set h | h in group + [g] :: h.0
    ensures g.0 in front ==> (set m | m in front) == set h | h in group + [g] :: h.0
  {
    var names, names' := set h | h in group :: h.0, set h | h in group + [g] :: h.0;
    assert g in group + [g];
    assert forall h :: h in group ==> h in group + [g];
    assert names' == names + {g.0};
    assert (set m | m in front + [g.0]) == (set m | m in front) + {g.0};
    assert g.0 in front ==> g.0 in set m | m in front;
  }

  predicate FromGroup(state: LogState, group: seq<(string, SnapRow)>) {
    && group != []
    && RestoredFrom(state, group[0].1, set g | g in group :: g.0)
  }

  lemma GroupIsLog(table: Table, server: int, key: LogKey, group: seq<(string, SnapRow)>, state: LogState)
    requires key.server == server && Grouped(table, key, group, ServerRows(table, server)) && FromGroup(state, group)
    ensures exists m :: m in NamesIn(table, key) && (key, m) in table &&
                        RestoredFrom(state, table[(key, m)], NamesIn(table, key))
  {
    hide RestoredFrom;
    var names := set g | g in group :: g.0;
    forall m | m in names
      ensures m in NamesIn(table, key)
    {
      var i :| 0 <= i < |group| && group[i].0 == m;
      assert (key, group[i].0) in table;
    }
    forall m | m in NamesIn(table, key)
      ensures m in names
    {
      assert (key, m) in ServerRows(table, server);
      var i :| 0 <= i < |group| && group[i].0 == m;
      assert group[i] in group;
    }
    assert names == NamesIn(table, key);
    assert (key, group[0].0) in table;
  }

  lemma ClashStep(table: Table, key: LogKey, names: seq<string>, m: string)
    ensures Clash(table, key, names + [m]) <==>
            Clash(table, key, names) || (m != "" && m in names && (key, m) !in table)
  {
    var all := names + [m];
    if Clash(table, key, all) {
      var i, j :| 0 <= i < j < |all| && all[i] == all[j] != "" && (key, all[i]) !in table;
      if j < |names| {
        assert names[i] == names[j];
      }
    }
    if Clash(table, key, names) {
      var i, j :| 0 <= i < j < |names| && names[i] == names[j] != "" && (key, names[i]) !in table;
      assert all[i] == all[j];
    }
    if m != "" && m in names && (key, m) !in table {
      var i :| 0 <= i < |names| && names[i] == m;
      assert all[i] == all[|names|];
    }
  }

  lemma NothingWritten(existing: Table, before: Table, key: LogKey, row: SnapRow)
    ensures Written(before, key, [], row) == before && !Clash(existing, key, [])
  {
  }

  lemma NoStates(table: Table, server: int)
    ensures UpsertedAll(table, [], server) == table && !AnyClash(table, [], server)
  {
  }

  lemma NothingUpserted(table: Table, key: LogKey, s: LogState)
    ensures s.last.None? ==> Upserted(table, key, s) == table
  {
  }

  lemma AnyClashStep(table: Table, states: seq<(LogKey, LogState)>, s: (LogKey, LogState), server: int)
    ensures AnyClash(table, states + [s], server) <==>
            AnyClash(table, states, server) ||
            (s.0.server == server && s.1.last.Some? && Clash(table, s.0, Listed(s.1)))
  {
    hide Clash, Listed;
    var all := states + [s];
    assert all[|states|] == s;
    assert forall i :: 0 <= i < |states| ==> all[i] == states[i];
  }

  lemma UpsertedStep(table: Table, states: seq<(LogKey, LogState)>, s: (LogKey, LogState), server: int)
    ensures UpsertedAll(table, states + [s], server) ==
            if s.0.server == server then Upserted(UpsertedAll(table, states, server), s.0, s.1)
            else UpsertedAll(table, states, server)
  {
    assert (states + [s])[..|states|] == states;
  }

  /** A log that repeats a mnemonic cannot be snapshotted into an empty table, and neither can any other with it. */
  lemma RepeatedMnemonicClashes(key: LogKey, others: seq<(LogKey, LogState)>)
    ensures var twice := LogState(MeasuredDepth, Increasing, None, "DEPTH", ["DEPTH", "GR", "GR"],
                                  Some(Index(1.0)), None);
            AnyClash(map[], [(key, twice)] + others, key.server)
  {
    var twice := LogState(MeasuredDepth, Increasing, None, "DEPTH", ["DEPTH", "GR", "GR"],
                          Some(Index(1.0)), None);
    var all := [(key, twice)] + others;
    var names := Listed(twice);
    assert names[1] == "GR" == names[2];
    assert all[0] == (key, twice) && Clash(map[], key, names);
  }
}
