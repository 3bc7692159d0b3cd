/** Every row is handed over exactly once, in every run of the engine; after a crash, at least once. */
module ExactlyOnce {
  import opened Order
  import opened Blocks
  import opened Polling
  import opened LogPages
  import opened Client
  import opened FetchRun
  import opened Ingestion

  // ---- listings as multisets -----------------------------------------------------------------

  lemma ListingRows(d: Direction, log: Log)
    ensures (set r | r in Listing(d, log)) == RowSet(log)
  {
    var rows := Listing(d, log);
    forall r | r in rows
      ensures r in RowSet(log)
    {
      var i :| 0 <= i < |rows| && rows[i] == r;
      assert Sorted(d, log.Keys)[i] in log;
    }
    forall r | r in RowSet(log)
      ensures r in rows
    {
      ListingAt(d, log, r.index.value);
    }
  }

  lemma ListingOnce(d: Direction, log: Log)
    ensures multiset(Listing(d, log)) == multiset(RowSet(log))
  {
    var rows := Listing(d, log);
    var order := Sorted(d, log.Keys);
    forall i, j | 0 <= i < j < |rows|
      ensures rows[i] != rows[j]
    {
      OrderedAt(d, order, i, j);
    }
    DistinctMultiset(rows);
    ListingRows(d, log);
  }

  lemma RowSetUnion(a: Log, b: Log)
    requires a.Keys !! b.Keys
    ensures RowSet(a + b) == RowSet(a) + RowSet(b)
    ensures RowSet(a) !! RowSet(b)
    ensures multiset(RowSet(a + b)) == multiset(RowSet(a)) + multiset(RowSet(b))
  {
    forall r | r in RowSet(a) + RowSet(b)
      ensures r in RowSet(a + b)
    {
      var x := r.index.value;
      assert x in a + b;
    }
    assert RowSet(a + b) == RowSet(a) + RowSet(b);
  }

  /** Handing over the ascending listing of the next span keeps "each once, and in order if increasing". */
  lemma OnceExtends(d: Direction, rows: seq<Row>, a: Log, b: Log)
    requires Once(d, rows, a)
    requires forall x, y :: x in a && y in b ==> Before(d, x, y)
    ensures Once(d, rows + Listing(Increasing, b), a + b)
  {
    hide Listing, RowSet;
    forall x | x in a
      ensures x !in b
    {
      assert x in b ==> Before(d, x, x);
    }
    RowSetUnion(a, b);
    ListingOnce(Increasing, b);
    if d.Increasing? {
      ListingConcat(Increasing, a, b);
    }
  }

  // ---- spans ---------------------------------------------------------------------------------

  lemma SpanSplit(log: Log, d: Direction, from: Option<Index>, mid: Option<Index>, to: Option<Index>)
    requires mid.Some? ==> to.Some? && !Before(d, to.value, mid.value)
    requires from.Some? ==> mid.Some? && !Before(d, mid.value, from.value)
    ensures Span(log, d, from, to) == Span(log, d, from, mid) + Span(log, d, mid, to)
    ensures forall x, y :: x in Span(log, d, from, mid) && y in Span(log, d, mid, to) ==> Before(d, x, y)
  {
  }

  lemma SpanGrowth(log: Log, log': Log, d: Direction, from: Option<Index>, to: Option<Index>)
    requires Grows(d, log, log') && (to.Some? ==> to.value in log)
    ensures Span(log', d, from, to) == Span(log, d, from, to)
  {
  }

  /** What a finished fetch leaves after boundary removal is the span from the old cursor to the new one. */
  lemma FetchedSpan(f: Fetch, r: LogRun)
    requires SafeLog(r.content, r.query) && r.query.end.None?
    requires FetchInv(f, r.content, r.query, r.cursor)
    requires r.cursor.Some? ==> Anchored(f, r.content, r.query, r.cursor.value) && f.requests > 0
    ensures var n := Newest(r.query.d, Fetched(f).Keys);
            && (r.cursor.Some? ==> n.Some? && !Before(r.query.d, n.value, r.cursor.value))
            && (if r.cursor.None? then Fetched(f)
                else (map x | x in Fetched(f) && Before(r.query.d, r.cursor.value, x) :: Fetched(f)[x])) ==
               Span(r.content, r.query.d, r.cursor, n)
            && AtRow(r, n)
  {
    hide Regained, Headed, Fetched, Newest;
    var got := Fetched(f);
    if r.cursor.Some? {
      var c := r.cursor.value;
      OnWireLaws(r.query.d, r.query.wire, c, c);
    }
  }

  lemma ListingIndices(log: Log)
    ensures RowIndices(Listing(Increasing, log)) == log.Keys
  {
    hide Listing, ByIndex;
    ByIndexListing(Increasing, log);
    ByIndexKeys(Listing(Increasing, log));
  }

  /** What the worker hands over when its fetch finished without an error. */
  lemma DeliverEffect(r: LogRun, f: Fetch)
    requires SafeLog(r.content, r.query) && r.query.end.None?
    requires FetchHolds(f, r) && f.requests > 0 && !f.status.Failed?
    ensures var r' := Deliver(r, f);
            var n := r'.cursor;
            && r' == r.(cursor := n, phase := r'.phase,
                        delivered := r.delivered + Listing(Increasing, Span(r.content, r.query.d, r.cursor, n)))
            && (r'.phase.Idle? || r'.phase.Persisting?)
            && (r.cursor.Some? ==> n.Some? && !Before(r.query.d, n.value, r.cursor.value))
            && AtRow(r, n)
  {
    hide Listing, ByIndex, Dedupe, SamplesOf, Merged, AllRows, Span, SafeLog, AtRow, Newest, FetchInv, Anchored;
    var got := Fetched(f);
    FetchHeaded(f, r.content, r.query, r.cursor);
    OutcomeListsFetched(f, r.query);
    ListingIndices(got);
    FetchedSpan(f, r);
    if r.cursor.Some? {
      DedupeListing(r.query.d, got, r.cursor.value);
    } else {
      DedupeNone(Listing(Increasing, got), r.query.d);
    }
  }

  lemma DedupeNone(rows: seq<Row>, d: Direction)
    ensures Dedupe(rows, None, d) == rows
  {
  }

  lemma FetchHeaded(f: Fetch, log: Log, q: Query, start: Option<Index>)
    requires FetchInv(f, log, q, start)
    ensures Headed(f.blocks, q)
  {
  }

  lemma DeliverKeeps(r: LogRun, f: Fetch)
    requires LogInv(r) && r.spawned
    requires FetchHolds(f, r) && f.requests > 0 && !f.status.Failed?
    ensures LogInv(Deliver(r, f))
  {
    hide Listing, Deliver, Span, SafeLog, AtRow, FetchHolds, Once, Covers, RowSet;
    DeliverEffect(r, f);
    var r' := Deliver(r, f);
    var log, d, n := r.content, r.query.d, r'.cursor;
    SpanSplit(log, d, r.resume, r.cursor, n);
    OnceExtends(d, r.delivered, Span(log, d, r.resume, r.cursor), Span(log, d, r.cursor, n));
    CoversMore(r.past + r.delivered, Listing(Increasing, Span(log, d, r.cursor, n)), log, d, r.saved);
    assert r.past + r.delivered + Listing(Increasing, Span(log, d, r.cursor, n)) == r'.past + r'.delivered;
    AtRowSame(r, r', n);
    AtRowSame(r, r', r.saved);
    AtRowSame(r, r', r.resume);
  }

  lemma AtRowSame(r: LogRun, r': LogRun, c: Option<Index>)
    requires r'.content == r.content && r'.query == r.query
    ensures AtRow(r, c) <==> AtRow(r', c)
  {
  }

  lemma CoversMore(rows: seq<Row>, more: seq<Row>, log: Log, d: Direction, upto: Option<Index>)
    requires Covers(rows, log, d, upto)
    ensures Covers(rows + more, log, d, upto)
  {
  }

  // ---- every step keeps the invariant --------------------------------------------------------

  lemma GrowKeepsPhase(r: LogRun, log: Log)
    requires PhaseInv(r) && Grows(r.query.d, r.content, log) && SafeLog(log, r.query)
    ensures PhaseInv(r.(content := log))
  {
    hide Grows, SafeLog, FetchInv, Anchored, Absorb;
    match r.phase
    case Requesting(f) =>
      GrowKeepsFetch(f, r, log);
    case Answered(f, reply) =>
      if reply.code > 0 {
        GrowKeepsFetch(Absorb(f, reply, r.query.d), r, log);
      }
    case _ =>
  }

  lemma GrowKeepsFetch(f: Fetch, r: LogRun, log: Log)
    requires FetchHolds(f, r) && Grows(r.query.d, r.content, log)
    ensures FetchHolds(f, r.(content := log))
  {
    hide Grows, FetchInv, Anchored;
    GrowthKeepsFetch(f, r.content, log, r.query, r.cursor);
    if r.cursor.Some? {
      GrowthKeepsAnchor(f, r.content, log, r.query, r.cursor.value);
    }
  }

  lemma GrowKeepsRow(r: LogRun, log: Log, c: Option<Index>)
    requires AtRow(r, c) && Grows(r.query.d, r.content, log)
    ensures AtRow(r.(content := log), c)
  {
    if c.Some? {
      assert Resent(log.Keys, r.query, c.value) == Resent(r.content.Keys, r.query, c.value);
    }
  }

  lemma GrowKeepsCovers(rows: seq<Row>, log: Log, log': Log, d: Direction, upto: Option<Index>)
    requires Covers(rows, log, d, upto) && Grows(d, log, log') && (upto.Some? ==> upto.value in log)
    ensures Covers(rows, log', d, upto)
  {
  }

  lemma RowsOfLog(r: LogRun)
    requires LogInv(r)
    ensures r.cursor.Some? ==> r.cursor.value in r.content
    ensures r.saved.Some? ==> r.saved.value in r.content
    ensures r.resume.Some? ==> r.resume.value in r.content
  {
  }

  lemma GrowKeeps(r: LogRun, log: Log)
    requires LogInv(r) && Grows(r.query.d, r.content, log) && SafeLog(log, r.query)
    ensures LogInv(r.(content := log))
  {
    RowsOfLog(r);
    hide Grows, SafeLog, PhaseInv, Covers, Once, AtRow, Span;
    GrowKeepsPhase(r, log);
    GrowKeepsRow(r, log, r.cursor);
    GrowKeepsRow(r, log, r.saved);
    GrowKeepsRow(r, log, r.resume);
    SpanGrowth(r.content, log, r.query.d, r.resume, r.cursor);
    GrowKeepsCovers(r.past, r.content, log, r.query.d, r.resume);
    GrowKeepsCovers(r.past + r.delivered, r.content, log, r.query.d, r.saved);
  }

  /** Changing only where the worker is keeps everything else. */
  lemma PhaseChange(r: LogRun, phase: Phase, spawned: bool)
    requires LogInv(r) && PhaseInv(r.(phase := phase, spawned := spawned))
    ensures LogInv(r.(phase := phase, spawned := spawned))
  {
    hide PhaseInv, Covers, Once, SafeLog, Span;
    var r' := r.(phase := phase, spawned := spawned);
    AtRowSame(r, r', r.cursor);
    AtRowSame(r, r', r.saved);
    AtRowSame(r, r', r.resume);
  }

  lemma FirstRequest(r: LogRun)
    requires LogInv(r)
    ensures FetchHolds(Begin(r.cursor), r.(phase := Requesting(Begin(r.cursor))))
  {
    hide FetchInv, Regained, Once, Covers;
    BeginHolds(r.content, r.query, r.cursor);
    if r.cursor.Some? {
      OnWireLaws(r.query.d, r.query.wire, r.cursor.value, r.cursor.value);
    }
  }

  lemma ServedAnswer(r: LogRun)
    requires LogInv(r) && r.phase.Requesting?
    ensures var f := r.phase.f;
            var reply := Serve(r.content, r.query, f.cursor);
            && FetchHolds(Absorb(f, reply, r.query.d), r)
            && !Absorb(f, reply, r.query.d).status.Failed?
  {
    hide FetchInv, Anchored, Serve, Absorb, Once, Covers, SafeLog;
    var f := r.phase.f;
    StepKeepsFetch(f, r.content, r.query, r.cursor);
    if r.cursor.Some? {
      StepKeepsAnchor(f, r.content, r.query, r.cursor.value);
    }
  }

  lemma ResumeKeeps(r: LogRun)
    requires LogInv(r) && r.phase.Answered?
    ensures LogInv(Act(r, Resume).value)
  {
    hide FetchHolds, Once, Covers, SafeLog, AtRow, Deliver, Span;
    var g := Absorb(r.phase.f, r.phase.reply, r.query.d);
    assert g.requests > 0;
    if r.phase.reply.code <= 0 {
      FailedDelivery(r, g);
      PhaseChange(r, Idle, r.spawned);
    } else if Finished(g, MAX_TRUNCATION_ITERATIONS) {
      DeliverKeeps(r, g);
    } else {
      SameFetch(g, r, r.(phase := Requesting(g)));
      PhaseChange(r, Requesting(g), r.spawned);
    }
  }

  lemma SameFetch(f: Fetch, r: LogRun, r': LogRun)
    requires FetchHolds(f, r) && r' == r.(phase := r'.phase)
    ensures FetchHolds(f, r')
  {
  }

  lemma FailedDelivery(r: LogRun, g: Fetch)
    requires g.status.Failed?
    ensures Deliver(r, g) == r.(phase := Idle)
  {
  }

  lemma ActKeeps(r: LogRun, a: Action)
    requires LogInv(r) && Act(r, a).Some?
    ensures LogInv(Act(r, a).value)
  {
    hide LogInv, FetchHolds, Serve, Absorb, Deliver, Grows, SafeLog;
    match a
    case Grow(log) => GrowKeeps(r, log);
    case Spawn => PhaseChange(r, Queued, true);
    case Acquire =>
      LogPhase(r);
      if !r.hasCurves {
        PhaseChange(r, Idle, r.spawned);
      } else {
        FirstRequest(r);
        PhaseChange(r, Requesting(Begin(r.cursor)), r.spawned);
      }
    case Answer(fault) =>
      LogPhase(r);
      ServedAnswer(r);
      var r' := Act(r, a).value;
      if fault.None? {
        SameFetch(Absorb(r.phase.f, r'.phase.reply, r.query.d), r, r');
      }
      PhaseChange(r, r'.phase, r.spawned);
    case Resume => ResumeKeeps(r);
    case Persisted =>
      LogPhase(r);
      PhaseChange(r, Idle, r.spawned);
  }

  lemma LogPhase(r: LogRun)
    requires LogInv(r)
    ensures PhaseInv(r)
  {
  }

  lemma RestartKeeps(r: LogRun, loaded: bool)
    requires LogInv(r)
    ensures LogInv(Restarted(r, loaded))
  {
    hide PhaseInv, SafeLog, Regained;
    var r' := Restarted(r, loaded);
    assert Span(r'.content, r'.query.d, r'.resume, r'.cursor) == map[];
    assert RowSet(map[]) == {};
    assert Listing(Increasing, map[]) == [];
    assert r'.past + r'.delivered == r.past + r.delivered;
    assert PhaseInv(r') by {
      IdlePhase(r');
    }
  }

  lemma IdlePhase(r: LogRun)
    requires r.phase.Idle?
    ensures PhaseInv(r)
  {
  }

  lemma SavedKeeps(r: LogRun)
    requires LogInv(r) && r.phase.Idle?
    ensures LogInv(Saved(r))
  {
    hide PhaseInv, SafeLog, Regained, Once;
    IdlePhase(Saved(r));
    if r.cursor.Some? {
      DeliveredCovers(r);
    }
  }

  /** Everything at or before the cursor has been handed over, before the last restart or since. */
  lemma DeliveredCovers(r: LogRun)
    requires LogInv(r)
    ensures Covers(r.past + r.delivered, r.content, r.query.d, r.cursor)
  {
    hide PhaseInv, SafeLog, Regained, Listing;
    var d, log, cursor := r.query.d, r.content, r.cursor;
    var span := Span(log, d, r.resume, cursor);
    forall x | x in log && cursor.Some? && !Before(d, cursor.value, x)
      ensures Row(Some(x), log[x]) in r.past + r.delivered
    {
      if r.resume.None? || Before(d, r.resume.value, x) {
        assert x in span;
        assert Row(Some(x), log[x]) in RowSet(span);
        assert Row(Some(x), log[x]) in multiset(r.delivered);
      }
    }
  }
}
