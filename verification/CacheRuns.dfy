/** The index cache over ticks, snapshots and restarts: its rows agree, and loading restores every cursor. */
module CacheRuns {
  import opened Order
  import opened Text
  import opened Ingestion
  import opened IndexCache

  /** The index states in memory and the table on disk, for one server. */
  datatype Cache = Cache(server: int, states: map<LogKey, LogState>, table: Table)

  datatype CacheStep =
    | Advance(key: LogKey, cursor: Index)                // a poll moved a log's cursor
    | Discover(key: LogKey, state: LogState)             // discovery seeds a log that has no state
    | TakeSnapshot(order: seq<(LogKey, LogState)>)       // the states in dictionary order
    | Reload(restored: map<LogKey, LogState>)            // a restart whose snapshot load succeeds

  /** `order` lists the states, each once. */
  ghost predicate Enumerates(order: seq<(LogKey, LogState)>, states: map<LogKey, LogState>) {
    && (forall i, j :: 0 <= i < j < |order| ==> order[i].0 != order[j].0)
    && (forall i :: 0 <= i < |order| ==> order[i].0 in states && states[order[i].0] == order[i].1)
    && (forall key :: key in states ==> exists i :: 0 <= i < |order| && order[i].0 == key)
  }

  ghost predicate CanStep(c: Cache, s: CacheStep, c': Cache) {
    match s
    case Advance(key, cursor) =>
      key in c.states && c' == c.(states := c.states[key := c.states[key].(last := Some(cursor))])
    case Discover(key, state) =>
      key !in c.states && key.server == c.server && state.last.None? && c' == c.(states := c.states[key := state])
    case TakeSnapshot(order) =>
      && Enumerates(order, c.states)
      && c' == if AnyClash(c.table, order, c.server) then c
               else c.(table := UpsertedAll(c.table, order, c.server))
    case Reload(restored) =>
      LoadOutcome(c.table, c.server, restored) && c' == c.(states := restored)
  }

  ghost predicate CanRun(run: seq<Cache>, steps: seq<CacheStep>) {
    |run| == |steps| + 1 && forall i :: 0 <= i < |steps| ==> CanStep(run[i], steps[i], run[i + 1])
  }

  /** All rows of one log carry the same cursor, direction, index type and uom. */
  ghost predicate Agree(table: Table) {
    forall j, k :: j in table && k in table && j.0 == k.0 ==> table[j] == table[k]
  }

  ghost predicate CacheInv(c: Cache) {
    && Agree(c.table)
    && (forall key :: key in c.states ==> key.server == c.server)
    && (forall k :: k in c.table ==> k.0 in c.states && k.1 in Mnemonics(c.states[k.0]))
    && (forall k :: k in c.table ==> c.states[k.0].last.Some? && CursorFrom(c.table[k]).Some?)
  }

  /** A stored cursor reads back as it was written. */
  lemma RowRoundTrip(s: LogState)
    ensures var row := RowFor(s);
            && TypeFromName(Some(row.indexType)) == s.indexType
            && DirectionFromName(Some(row.direction)) == s.direction
            && row.uom == s.uom
            && CursorFrom(row) == s.last
            && (if s.indexType.DateTime? || s.indexType.ElapsedTime?
                then row.lastInstant == s.last && row.lastFloat.None?
                else row.lastFloat == s.last && row.lastInstant.None?)
  {
    hide TypeFromName, DirectionFromName;
    NamesRoundTrip(s.indexType, s.direction);
  }

  lemma {:induction false} UpsertedAllAt(table: Table, order: seq<(LogKey, LogState)>, server: int, k: RowKey)
    requires forall i, j :: 0 <= i < j < |order| ==> order[i].0 != order[j].0
    requires forall i :: 0 <= i < |order| ==> order[i].0.server == server
    ensures var t := UpsertedAll(table, order, server);
            && (k in t <==> k in table || exists i :: 0 <= i < |order| && Writes(order[i], k))
            && (forall i :: 0 <= i < |order| && Writes(order[i], k) ==> k in t && t[k] == RowFor(order[i].1))
            && (k in table && (forall i :: 0 <= i < |order| ==> !Writes(order[i], k)) ==> k in t && t[k] == table[k])
  {
    hide Upserted, RowFor, Mnemonics;
    if order != [] {
      var n := |order| - 1;
      var front := order[..n];
      UpsertedAllAt(table, front, server, k);
      assert forall i :: 0 <= i < n ==> front[i] == order[i];
      UpsertedAt(UpsertedAll(table, front, server), order[n], k);
    }
  }

  predicate Writes(s: (LogKey, LogState), k: RowKey) {
    s.0 == k.0 && s.1.last.Some? && k.1 in Mnemonics(s.1)
  }

  lemma UpsertedAt(table: Table, s: (LogKey, LogState), k: RowKey)
    ensures var t := Upserted(table, s.0, s.1);
            && (k in t <==> k in table || Writes(s, k))
            && (Writes(s, k) ==> k in t && t[k] == RowFor(s.1))
            && (!Writes(s, k) && k in table ==> t[k] == table[k])
  {
    if s.1.last.Some? {
      WrittenAt(table, s.0, Listed(s.1), RowFor(s.1), k);
    }
  }

  /** What a snapshot stores: every row of a log with a cursor is its state's row. */
  lemma SnapshotRows(c: Cache, order: seq<(LogKey, LogState)>, k: RowKey)
    requires CacheInv(c) && Enumerates(order, c.states)
    ensures var t := UpsertedAll(c.table, order, c.server);
            && (k in t <==> k.0 in c.states && Writes((k.0, c.states[k.0]), k))
            && (k in t ==> t[k] == RowFor(c.states[k.0]))
  {
    hide RowFor, Mnemonics, UpsertedAll, Agree;
    UpsertedAllAt(c.table, order, c.server, k);
    if k.0 in c.states {
      var i :| 0 <= i < |order| && order[i].0 == k.0;
      assert order[i] == (k.0, c.states[k.0]);
    }
  }

  lemma StepKeepsCache(c: Cache, s: CacheStep, c': Cache)
    requires CacheInv(c) && CanStep(c, s, c')
    ensures CacheInv(c')
  {
    hide CacheInv, Enumerates, AnyClash, UpsertedAll, LoadOutcome;
    match s
    case Advance(key, cursor) => AdvanceKeeps(c, key, cursor);
    case Discover(key, state) => DiscoverKeeps(c, key, state);
    case TakeSnapshot(order) =>
      if !AnyClash(c.table, order, c.server) {
        SnapshotKeeps(c, order);
      }
    case Reload(restored) => ReloadKeeps(c, restored);
  }

  lemma AdvanceKeeps(c: Cache, key: LogKey, cursor: Index)
    requires CacheInv(c) && key in c.states
    ensures CacheInv(c.(states := c.states[key := c.states[key].(last := Some(cursor))]))
  {
    hide Mnemonics, CursorFrom, Agree;
    SameNames(c.states[key], cursor);
  }

  lemma DiscoverKeeps(c: Cache, key: LogKey, state: LogState)
    requires CacheInv(c) && key !in c.states && key.server == c.server
    ensures CacheInv(c.(states := c.states[key := state]))
  {
    hide Mnemonics, CursorFrom, Agree;
  }

  lemma SnapshotKeeps(c: Cache, order: seq<(LogKey, LogState)>)
    requires CacheInv(c) && Enumerates(order, c.states)
    ensures CacheInv(c.(table := UpsertedAll(c.table, order, c.server)))
  {
    hide RowFor, Mnemonics, UpsertedAll, Enumerates, Upserted, CursorFrom;
    var table := UpsertedAll(c.table, order, c.server);
    forall k | k in table
      ensures k.0 in c.states && k.1 in Mnemonics(c.states[k.0]) && c.states[k.0].last.Some?
      ensures table[k] == RowFor(c.states[k.0]) && CursorFrom(table[k]).Some?
    {
      SnapshotRows(c, order, k);
      RowRoundTrip(c.states[k.0]);
    }
  }

  lemma SameNames(s: LogState, cursor: Index)
    ensures Mnemonics(s.(last := Some(cursor))) == Mnemonics(s)
  {
  }

  lemma RestoredNames(state: LogState, names: set<string>)
    requires (set m | m in state.mnemonics) == names && names != {} && "" !in names
    ensures Mnemonics(state) == names
  {
    if state.mnemonics != [] {
      assert Listed(state) == state.mnemonics;
      assert forall m :: m in names <==> m in state.mnemonics;
    }
  }

  lemma ReloadKeeps(c: Cache, restored: map<LogKey, LogState>)
    requires CacheInv(c) && LoadOutcome(c.table, c.server, restored)
    ensures CacheInv(c.(states := restored))
  {
    hide TypeFromName, DirectionFromName, CursorFrom, Agree, Mnemonics, RestoredFrom;
    forall k | k in c.table
      ensures k.0 in restored && k.1 in Mnemonics(restored[k.0]) && restored[k.0].last.Some?
    {
      ReloadRow(c, restored, k);
    }
  }

  lemma ReloadRow(c: Cache, restored: map<LogKey, LogState>, k: RowKey)
    requires CacheInv(c) && LoadOutcome(c.table, c.server, restored) && k in c.table
    ensures k.0 in restored && Mnemonics(restored[k.0]) == NamesIn(c.table, k.0) && k.1 in NamesIn(c.table, k.0)
    ensures RestoredFrom(restored[k.0], c.table[k], NamesIn(c.table, k.0))
    ensures restored[k.0].last.Some?
  {
    hide TypeFromName, DirectionFromName, CursorFrom, Mnemonics;
    assert k.0 in KeysIn(c.table, c.server);
    var names := NamesIn(c.table, k.0);
    forall m | m in names
      ensures m != ""
    {
      var j :| j in c.table && j.0 == k.0 && j.1 == m;
      NamedMnemonics(c.states[j.0]);
    }
    RestoredNames(restored[k.0], names);
  }

  lemma NamedMnemonics(s: LogState)
    ensures "" !in Mnemonics(s)
  {
  }

  /**
   * Snapshot agreement. From an empty table, across any sequence of polls, discoveries, snapshots (successful or
   * not) and restarts, all rows of a log agree, so it does not matter which of them loading looks at first.
   */
  lemma {:induction false} RowsAlwaysAgree(run: seq<Cache>, steps: seq<CacheStep>)
    requires CanRun(run, steps)
    requires run[0].states == map[] && run[0].table == map[]
    ensures CacheInv(run[|steps|])
    decreases |steps|
  {
    hide CacheInv, CanStep;
    var n := |steps|;
    if n == 0 {
      EmptyCache(run[0]);
    } else {
      RowsAlwaysAgree(run[..n], steps[..n - 1]);
      StepKeepsCache(run[n - 1], steps[n - 1], run[n]);
    }
  }

  lemma EmptyCache(c: Cache)
    requires c.states == map[] && c.table == map[]
    ensures CacheInv(c)
  {
  }

  /** Two loads of one table restore the same states, whatever order the database returns its rows in. */
  lemma LoadIsDetermined(c: Cache, a: map<LogKey, LogState>, b: map<LogKey, LogState>)
    requires CacheInv(c) && LoadOutcome(c.table, c.server, a) && LoadOutcome(c.table, c.server, b)
    ensures a == b
  {
    hide TypeFromName, DirectionFromName, CursorFrom, Mnemonics, CacheInv, Alphabetical;
    forall key | key in a
      ensures key in b && a[key] == b[key]
    {
      var m :| (key, m) in c.table;
      ReloadRow(c, a, (key, m));
      ReloadRow(c, b, (key, m));
      SameSet(a[key].mnemonics, b[key].mnemonics);
      AlphabeticalUnique(a[key].mnemonics, b[key].mnemonics);
    }
    assert a.Keys == b.Keys;
  }

  /** A snapshot has a row for each mnemonic with a name; a log without mnemonics has one for its index mnemonic. */
  predicate Named(s: LogState, m: string) {
    m != "" && (m in s.mnemonics || (s.mnemonics == [] && m == s.indexMnemonic))
  }

  lemma NamedAreStored(s: LogState)
    ensures forall m :: m in Mnemonics(s) <==> Named(s, m)
  {
  }

  /**
   * Snapshot, then load: every log that has a cursor and a named mnemonic comes back with its cursor, direction,
   * index type, uom and named mnemonics, in alphabetical order with the first as index mnemonic, and nothing else
   * comes back.
   */
  lemma SnapshotThenLoad(c: Cache, order: seq<(LogKey, LogState)>, restored: map<LogKey, LogState>, key: LogKey)
    requires CacheInv(c) && Enumerates(order, c.states) && !AnyClash(c.table, order, c.server)
    requires LoadOutcome(UpsertedAll(c.table, order, c.server), c.server, restored)
    ensures key in restored <==>
            key in c.states && c.states[key].last.Some? && exists m :: Named(c.states[key], m)
    ensures key in restored ==>
              var s, r := c.states[key], restored[key];
              && r.last == s.last && r.direction == s.direction && r.indexType == s.indexType && r.uom == s.uom
              && (forall m :: m in r.mnemonics <==> Named(s, m))
              && Alphabetical(r.mnemonics) && r.mnemonics != [] && r.indexMnemonic == r.mnemonics[0]
  {
    hide TypeFromName, DirectionFromName, CursorFrom, Mnemonics, AnyClash, UpsertedAll, CacheInv, Enumerates, Named,
         Alphabetical, LoadOutcome;
    if key in c.states {
      NamedAreStored(c.states[key]);
    }
    LoadedHasRow(UpsertedAll(c.table, order, c.server), c.server, restored, key);
    var table := UpsertedAll(c.table, order, c.server);
    var c' := c.(table := table);
    StepKeepsCache(c, TakeSnapshot(order), c');
    if key in restored {
      var m :| (key, m) in table;
      RestoredRow(c, order, c', restored, (key, m));
      NamedAreStored(c.states[key]);
    } else if key in c.states && c.states[key].last.Some? && Mnemonics(c.states[key]) != {} {
      var m :| m in Mnemonics(c.states[key]);
      SnapshotRows(c, order, (key, m));
      ReloadRow(c', restored, (key, m));
      assert false;
    }
  }

  lemma LoadedHasRow(table: Table, server: int, restored: map<LogKey, LogState>, key: LogKey)
    requires LoadOutcome(table, server, restored)
    ensures key in restored ==> exists m :: (key, m) in table
  {
  }

  lemma RestoredRow(c: Cache, order: seq<(LogKey, LogState)>, c': Cache, restored: map<LogKey, LogState>, k: RowKey)
    requires CacheInv(c) && Enumerates(order, c.states)
    requires c' == c.(table := UpsertedAll(c.table, order, c.server)) && CacheInv(c')
    requires LoadOutcome(c'.table, c.server, restored) && k in c'.table
    ensures k.0 in c.states && k.0 in restored && c.states[k.0].last.Some? && Mnemonics(c.states[k.0]) != {}
    ensures var s, r := c.states[k.0], restored[k.0];
            && r.last == s.last && r.direction == s.direction && r.indexType == s.indexType && r.uom == s.uom
            && (forall m :: m in r.mnemonics <==> m in Mnemonics(s))
            && Alphabetical(r.mnemonics) && r.mnemonics != [] && r.indexMnemonic == r.mnemonics[0]
  {
    hide TypeFromName, DirectionFromName, CursorFrom, Mnemonics, UpsertedAll, CacheInv, Enumerates, LoadOutcome,
         Alphabetical;
    SnapshotRows(c, order, k);
    ReloadRow(c', restored, k);
    RowRoundTrip(c.states[k.0]);
    var names := NamesIn(c'.table, k.0);
    forall m
      ensures m in names <==> m in Mnemonics(c.states[k.0])
    {
      SnapshotRows(c, order, (k.0, m));
      assert m in names <==> (k.0, m) in c'.table;
    }
    ListedNames(restored[k.0].mnemonics, names);
  }

  lemma ListedNames(names: seq<string>, all: set<string>)
    requires (set m | m in names) == all
    ensures forall m :: m in names <==> m in all
  {
    assert forall m :: m in names <==> m in set n | n in names;
  }

  // ---- the table is the engine's snapshot ----------------------------------------------------

  /** The index states carry the engine's cursors, under at least one named mnemonic each. */
  ghost predicate Carries(states: map<LogKey, LogState>, logs: map<LogKey, LogRun>) {
    forall k :: k in logs ==> k in states && states[k].last == logs[k].cursor && Mnemonics(states[k]) != {}
  }

  /** The table has rows of exactly the logs with a snapshot, and their cursors are the snapshots. */
  ghost predicate Holds(table: Table, logs: map<LogKey, LogRun>) {
    forall k :: k in logs ==>
      && (logs[k].saved.Some? <==> exists m :: (k, m) in table)
      && (forall m :: (k, m) in table ==> CursorFrom(table[(k, m)]) == logs[k].saved)
  }

  /** A snapshot transaction makes the table hold what the engine's snapshot step saves. */
  lemma SnapshotSaves(c: Cache, order: seq<(LogKey, LogState)>, logs: map<LogKey, LogRun>)
    requires CacheInv(c) && Enumerates(order, c.states) && Carries(c.states, logs) && Holds(c.table, logs)
    ensures Holds(UpsertedAll(c.table, order, c.server), map k | k in logs :: Saved(logs[k]))
  {
    hide UpsertedAll, Enumerates, RowFor, CursorFrom, Mnemonics;
    var table := UpsertedAll(c.table, order, c.server);
    forall k | k in logs
      ensures Saved(logs[k]).saved.Some? <==> exists m :: (k, m) in table
      ensures forall m :: (k, m) in table ==> CursorFrom(table[(k, m)]) == Saved(logs[k]).saved
    {
      var s := c.states[k];
      RowRoundTrip(s);
      forall m
        ensures (k, m) in table <==> s.last.Some? && m in Mnemonics(s)
        ensures (k, m) in table ==> CursorFrom(table[(k, m)]) == s.last
      {
        SnapshotRows(c, order, (k, m));
      }
      if logs[k].cursor.Some? {
        var m :| m in Mnemonics(s);
        assert (k, m) in table;
      } else {
        assert forall m :: (k, m) !in c.table;
      }
    }
  }

  lemma StoredIsListed(table: Table, k: LogKey, m: string, server: int)
    ensures (k, m) in table && k.server == server ==> k in KeysIn(table, server)
  {
    if (k, m) in table {
      assert (k, m).0 == k;
    }
  }

  /** Loading it, and discovering what it does not hold, gives the cursors the engine's restart step goes on with. */
  lemma LoadRestores(c: Cache, restored: map<LogKey, LogState>, logs: map<LogKey, LogRun>, k: LogKey)
    requires CacheInv(c) && Holds(c.table, logs) && LoadOutcome(c.table, c.server, restored)
    requires k in logs && k.server == c.server
    ensures (if k in restored then restored[k].last else None) == Restarted(logs[k], true).cursor
  {
    hide TypeFromName, DirectionFromName, CursorFrom, Mnemonics;
    if k in restored {
      var m :| (k, m) in c.table;
      ReloadRow(c, restored, (k, m));
    } else {
      forall m
        ensures (k, m) !in c.table
      {
        StoredIsListed(c.table, k, m, c.server);
      }
    }
  }
}
