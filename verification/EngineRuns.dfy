/** Whole runs of the ingestion engine: exactly once with clean stops, at least once across crashes. */
module EngineRuns {
  import opened Order
  import opened Blocks
  import opened Polling
  import opened Client
  import opened FetchRun
  import opened Ingestion
  import opened ExactlyOnce

  // ---- the invariant over runs ---------------------------------------------------------------

  /** The permits out are those of the workers inside. */
  lemma PermitsMatch(logs: map<LogKey, LogRun>, k: LogKey, r: LogRun)
    requires k in logs
    ensures |ActiveKeys(logs[k := r])| ==
            |ActiveKeys(logs)| - (if Active(logs[k]) then 1 else 0) + (if Active(r) then 1 else 0)
  {
    hide Active;
    var before, after := ActiveKeys(logs), ActiveKeys(logs[k := r]);
    assert before - {k} == after - {k};
    SizeWithout(before, k);
    SizeWithout(after, k);
  }

  lemma SizeWithout(s: set<LogKey>, k: LogKey)
    ensures |s| == |s - {k}| + if k in s then 1 else 0
  {
    if k in s {
      assert s == (s - {k}) + {k};
    } else {
      assert s == s - {k};
    }
  }

  lemma EntersOnce(r: LogRun, a: Action)
    requires Act(r, a).Some? && (a.Spawn? ==> r.phase.Idle?)
    ensures a.Acquire? ==> !Active(r)
    ensures Active(Act(r, a).value) ==> Active(r) || a.Acquire?
  {
    hide Serve, Absorb, Finished, Outcome, Grows, SafeLog, Dedupe, SamplesOf;
  }

  lemma InvAt(e: Engine, k: LogKey)
    requires EngineInv(e) && k in e.logs
    ensures LogInv(e.logs[k])
    ensures !e.ticking ==> e.logs[k].phase.Idle?
    ensures !e.logs[k].spawned ==> e.logs[k].phase.Idle?
  {
    hide LogInv;
    LogPhase(e.logs[k]);
  }

  /** A worker is only ever created for a log that has none: no log has two workers in flight. */
  lemma NoSecondWorker(e: Engine, k: LogKey)
    requires EngineInv(e) && Next(e, Do(k, Spawn)).Some?
    ensures e.logs[k].phase.Idle?
  {
    hide LogInv;
    InvAt(e, k);
  }

  lemma DoKeeps(e: Engine, k: LogKey, a: Action)
    requires EngineInv(e) && Next(e, Do(k, a)).Some?
    ensures EngineInv(Next(e, Do(k, a)).value)
  {
    hide LogInv, Act, Active, HandedOver;
    var e' := Next(e, Do(k, a)).value;
    var r, r' := e.logs[k], e'.logs[k];
    InvAt(e, k);
    ActKeeps(r, a);
    if !e.ticking {
      IdleStays(r, a);
    }
    if a.Spawn? {
      NoSecondWorker(e, k);
    }
    EntersOnce(r, a);
    PermitsMatch(e.logs, k, r');
  }

  lemma IdleStays(r: LogRun, a: Action)
    requires r.phase.Idle? && Act(r, a).Some? && !a.Spawn?
    ensures Act(r, a).value.phase.Idle?
  {
  }

  lemma StartKeeps(e: Engine)
    requires EngineInv(e) && !e.ticking
    ensures EngineInv(Next(e, StartTick).value)
  {
    hide LogInv, Active;
    var e' := Next(e, StartTick).value;
    forall k | k in e'.logs
      ensures LogInv(e'.logs[k]) && e'.logs[k].phase.Idle?
    {
      InvAt(e, k);
      IdlePhase(e'.logs[k]);
      PhaseChange(e.logs[k], Idle, false);
    }
    NobodyActive(e);
    NobodyActive(e');
  }

  lemma SnapshotKeeps(e: Engine)
    requires EngineInv(e) && !e.ticking
    ensures EngineInv(Next(e, Snapshot).value)
  {
    hide LogInv, Active;
    var e' := Next(e, Snapshot).value;
    forall k | k in e'.logs
      ensures LogInv(e'.logs[k]) && e'.logs[k].phase.Idle?
    {
      InvAt(e, k);
      SavedKeeps(e.logs[k]);
    }
    NobodyActive(e);
    NobodyActive(e');
  }

  lemma RestartAllKeeps(e: Engine, loaded: bool)
    requires EngineInv(e)
    ensures EngineInv(Next(e, Restart(loaded)).value)
  {
    hide LogInv, Active;
    var e' := Next(e, Restart(loaded)).value;
    forall k | k in e'.logs
      ensures LogInv(e'.logs[k]) && e'.logs[k].phase.Idle?
    {
      InvAt(e, k);
      RestartKeeps(e.logs[k], loaded);
    }
    NobodyActive(e');
  }

  lemma NextKeeps(e: Engine, s: Step)
    requires EngineInv(e) && Next(e, s).Some?
    ensures EngineInv(Next(e, s).value)
  {
    hide LogInv, Act, Active, ActiveKeys, HandedOver;
    match s
    case Do(k, a) => DoKeeps(e, k, a);
    case StartTick => StartKeeps(e);
    case EndTick =>
    case Snapshot => SnapshotKeeps(e);
    case Restart(loaded) => RestartAllKeeps(e, loaded);
  }

  lemma NobodyActive(e: Engine)
    requires forall k :: k in e.logs ==> e.logs[k].phase.Idle?
    ensures ActiveKeys(e.logs) == {}
  {
    assert ActiveKeys(e.logs) == {};
  }

  lemma FreshHolds(r: LogRun)
    requires Fresh(r)
    ensures LogInv(r)
  {
    hide SafeLog;
    assert Span(r.content, r.query.d, r.resume, r.cursor) == map[];
    assert RowSet(map[]) == {};
    assert Listing(Increasing, map[]) == [];
  }

  lemma InitialHolds(e: Engine)
    requires Initial(e)
    ensures EngineInv(e)
  {
    hide LogInv;
    forall k | k in e.logs
      ensures LogInv(e.logs[k]) && e.logs[k].phase.Idle?
    {
      FreshHolds(e.logs[k]);
    }
    NobodyActive(e);
  }

  lemma {:induction false} RunKeepsFrom(e: Engine, steps: seq<Step>)
    requires EngineInv(e) && Run(e, steps).Some?
    ensures EngineInv(Run(e, steps).value)
  {
    hide EngineInv, Next;
    if steps != [] {
      RunKeepsFrom(e, steps[..|steps| - 1]);
      NextKeeps(Run(e, steps[..|steps| - 1]).value, steps[|steps| - 1]);
    }
  }

  /**
   * In every run, whatever the workers, the store and the faults do: every permit is free or with a worker inside
   * the semaphore, so there are never more of those than it admits and none is lost on a failure; every log has
   * handed over exactly once the rows since its last restart's cursor, and no row at or before its cursor was never
   * handed over.
   */
  lemma RunKeeps(e: Engine, steps: seq<Step>)
    requires Initial(e) && Run(e, steps).Some?
    ensures EngineInv(Run(e, steps).value)
  {
    InitialHolds(e);
    RunKeepsFrom(e, steps);
  }

  /** Across any number of crashes, failed snapshots loads and failed polls, nothing at or before a cursor is lost. */
  lemma AtLeastOnce(e: Engine, steps: seq<Step>, k: LogKey)
    requires Initial(e) && Run(e, steps).Some? && k in Run(e, steps).value.logs
    ensures var r := Run(e, steps).value.logs[k];
            Covers(r.past + r.delivered, r.content, r.query.d, r.cursor)
  {
    hide LogInv, Covers, Run;
    RunKeeps(e, steps);
    InvAt(Run(e, steps).value, k);
    DeliveredCovers(Run(e, steps).value.logs[k]);
  }

  // ---- exactly once --------------------------------------------------------------------------

  /** Over all restarts: the rows from the first up to the cursor, each once; for an increasing log in order. */
  ghost predicate TotalOnce(r: LogRun) {
    && Once(r.query.d, r.past + r.delivered, Span(r.content, r.query.d, None, r.cursor))
    && (r.cursor.None? ==> r.saved.None?)
  }

  lemma GrowKeepsTotal(r: LogRun, log: Log)
    requires LogInv(r) && TotalOnce(r) && Grows(r.query.d, r.content, log)
    ensures TotalOnce(r.(content := log))
  {
    RowsOfLog(r);
    hide LogInv, Once, Span;
    SpanGrowth(r.content, log, r.query.d, None, r.cursor);
  }

  lemma DeliverKeepsTotal(r: LogRun, f: Fetch)
    requires LogInv(r) && TotalOnce(r)
    requires FetchHolds(f, r) && f.requests > 0 && !f.status.Failed?
    ensures TotalOnce(Deliver(r, f))
  {
    hide Deliver, Once, Span, Listing, FetchHolds, AtRow, SafeLog;
    DeliverEffect(r, f);
    var n := Deliver(r, f).cursor;
    var log, d := r.content, r.query.d;
    SpanSplit(log, d, None, r.cursor, n);
    OnceExtends(d, r.past + r.delivered, Span(log, d, None, r.cursor), Span(log, d, r.cursor, n));
    assert r.past + r.delivered + Listing(Increasing, Span(log, d, r.cursor, n)) ==
           r.past + (r.delivered + Listing(Increasing, Span(log, d, r.cursor, n)));
  }

  lemma ActKeepsTotal(r: LogRun, a: Action)
    requires LogInv(r) && TotalOnce(r) && Act(r, a).Some?
    ensures TotalOnce(Act(r, a).value)
  {
    hide LogInv, Once, Span, FetchHolds, Serve, Absorb, Deliver, Grows, SafeLog, Finished;
    LogPhase(r);
    match a
    case Grow(log) => GrowKeepsTotal(r, log);
    case Resume =>
      var g := Absorb(r.phase.f, r.phase.reply, r.query.d);
      AbsorbCounts(r.phase.f, r.phase.reply, r.query.d);
      if r.phase.reply.code <= 0 {
        FailedDelivery(r, g);
      } else if Finished(g, MAX_TRUNCATION_ITERATIONS) {
        DeliverKeepsTotal(r, g);
      }
    case _ =>
  }

  lemma AbsorbCounts(f: Fetch, reply: Reply, d: Direction)
    ensures Absorb(f, reply, d).requests > 0
    ensures reply.code <= 0 ==> Absorb(f, reply, d).status.Failed?
  {
  }

  /** Every restart follows a snapshot immediately, and loads it: the engine stops only between ticks. */
  ghost predicate CleanStops(steps: seq<Step>) {
    forall i :: 0 <= i < |steps| && steps[i].Restart? ==> steps[i].loaded && 0 < i && steps[i - 1].Snapshot?
  }

  ghost predicate AllOnce(e: Engine) {
    forall k :: k in e.logs ==> TotalOnce(e.logs[k])
  }

  ghost predicate AllSaved(e: Engine) {
    forall k :: k in e.logs ==> e.logs[k].saved == e.logs[k].cursor
  }

  lemma NextKeepsTotal(e: Engine, s: Step)
    requires EngineInv(e) && AllOnce(e) && Next(e, s).Some?
    requires s.Restart? ==> s.loaded && AllSaved(e)
    ensures AllOnce(Next(e, s).value)
    ensures s.Snapshot? ==> AllSaved(Next(e, s).value)
  {
    hide LogInv, Once, Span, Act, Active;
    match s
    case Do(k, a) =>
      InvAt(e, k);
      ActKeepsTotal(e.logs[k], a);
    case Restart(loaded) =>
      var e' := Next(e, s).value;
      forall k | k in e'.logs
        ensures TotalOnce(e'.logs[k])
      {
        var r, r' := e.logs[k], e'.logs[k];
        assert r'.past + r'.delivered == r.past + r.delivered;
      }
    case _ =>
  }

  lemma {:induction false} RunKeepsTotal(e: Engine, steps: seq<Step>)
    requires Initial(e) && Run(e, steps).Some? && CleanStops(steps)
    ensures AllOnce(Run(e, steps).value)
    ensures steps != [] && steps[|steps| - 1].Snapshot? ==> AllSaved(Run(e, steps).value)
  {
    hide EngineInv, Next, AllOnce, AllSaved;
    if steps == [] {
      FreshTotal(e);
    } else {
      var front := steps[..|steps| - 1];
      RunKeepsTotal(e, front);
      RunKeeps(e, front);
      NextKeepsTotal(Run(e, front).value, steps[|steps| - 1]);
    }
  }

  lemma FreshTotal(e: Engine)
    requires Initial(e)
    ensures AllOnce(e)
  {
    forall k | k in e.logs
      ensures TotalOnce(e.logs[k])
    {
      var r := e.logs[k];
      assert Span(r.content, r.query.d, None, r.cursor) == map[];
      assert RowSet(map[]) == {};
      assert Listing(Increasing, map[]) == [];
    }
  }

  /**
   * Exactly once over whole runs. However growth, polls, page suspensions and failures interleave, and however
   * often the engine is stopped between ticks and started again, the rows handed to `append` are those from the
   * first up to the cursor, each once, and for an increasing log in order. The same holds of the samples.
   */
  lemma ExactlyOnceOverRuns(e: Engine, steps: seq<Step>, k: LogKey, headers: Block)
    requires Initial(e) && Run(e, steps).Some? && CleanStops(steps) && k in Run(e, steps).value.logs
    ensures var r := Run(e, steps).value.logs[k];
            var upto := Span(r.content, r.query.d, None, r.cursor);
            && multiset(r.past + r.delivered) == multiset(RowSet(upto))
            && (r.query.d.Increasing? ==>
                  && r.past + r.delivered == Listing(Increasing, upto)
                  && SamplesOf(headers, r.past) + SamplesOf(headers, r.delivered) ==
                     SamplesOf(headers, Listing(Increasing, upto)))
  {
    hide Run, Listing, RowSet, SamplesOf;
    RunKeepsTotal(e, steps);
    var r := Run(e, steps).value.logs[k];
    assert TotalOnce(r);
    SamplesOfConcat(headers, r.past, r.delivered);
  }

  // ---- a crash -------------------------------------------------------------------------------

  /** After a restart from `resume`: what was handed over before it, up to the crash cursor. */
  ghost predicate PastOnce(r: LogRun, crash: Option<Index>, resume: Option<Index>) {
    && Once(r.query.d, r.past, Span(r.content, r.query.d, None, crash))
    && (crash.Some? ==> crash.value in r.content)
    && r.resume == resume
  }

  lemma ActKeepsPast(r: LogRun, a: Action, crash: Option<Index>, resume: Option<Index>)
    requires PastOnce(r, crash, resume) && Act(r, a).Some?
    ensures PastOnce(Act(r, a).value, crash, resume)
  {
    hide Once, Span, Serve, Absorb, SafeLog, Finished, Outcome, Dedupe, SamplesOf;
    if a.Grow? {
      SpanGrowth(r.content, a.log, r.query.d, None, crash);
      assert crash.Some? ==> crash.value in a.log;
    }
  }

  lemma {:induction false} RunKeepsPast(e: Engine, steps: seq<Step>, k: LogKey, crash: Option<Index>,
                                        resume: Option<Index>)
    requires k in e.logs && PastOnce(e.logs[k], crash, resume) && Run(e, steps).Some?
    requires forall i :: 0 <= i < |steps| ==> !steps[i].Restart?
    ensures k in Run(e, steps).value.logs && PastOnce(Run(e, steps).value.logs[k], crash, resume)
  {
    hide Once, Span, Act;
    if steps != [] {
      var front := steps[..|steps| - 1];
      RunKeepsPast(e, front, k, crash, resume);
      var mid := Run(e, front).value;
      var s := steps[|steps| - 1];
      if s.Do? && s.key == k {
        ActKeepsPast(mid.logs[k], s.action, crash, resume);
      }
    }
  }

  function Count(b: bool): nat { if b then 1 else 0 }

  predicate UpTo(d: Direction, c: Option<Index>, x: Index) {
    c.Some? && !Before(d, c.value, x)
  }

  predicate PastCursor(d: Direction, c: Option<Index>, x: Index) {
    c.None? || Before(d, c.value, x)
  }

  lemma OnceCount(d: Direction, rows: seq<Row>, log: Log, from: Option<Index>, to: Option<Index>, x: Index)
    requires x in log && Once(d, rows, Span(log, d, from, to))
    ensures multiset(rows)[Row(Some(x), log[x])] == Count(PastCursor(d, from, x) && UpTo(d, to, x))
  {
    var row := Row(Some(x), log[x]);
    assert row in RowSet(Span(log, d, from, to)) <==> PastCursor(d, from, x) && UpTo(d, to, x);
    assert multiset(rows)[row] == multiset(RowSet(Span(log, d, from, to)))[row];
  }

  /**
   * After a crash, delivery resumes from the snapshot (or from nothing, if loading it fails). From then on a row
   * was handed over once if it lies up to the crash cursor, plus once if it lies beyond the snapshot cursor and
   * up to the new one: only rows between the snapshot cursor and the crash cursor repeat.
   */
  lemma CrashRepeatsBetween(e0: Engine, before: seq<Step>, loaded: bool, after: seq<Step>, k: LogKey, x: Index)
    requires Initial(e0) && CleanStops(before) && Run(e0, before).Some?
    requires forall i :: 0 <= i < |after| ==> !after[i].Restart?
    requires Run(e0, before + [Restart(loaded)] + after).Some?
    requires k in Run(e0, before).value.logs
    requires k in Run(e0, before + [Restart(loaded)] + after).value.logs
    requires x in Run(e0, before + [Restart(loaded)] + after).value.logs[k].content
    ensures var old_, r := Run(e0, before).value.logs[k], Run(e0, before + [Restart(loaded)] + after).value.logs[k];
            var resume := if loaded then old_.saved else None;
            multiset(r.past + r.delivered)[Row(Some(x), r.content[x])] ==
            Count(UpTo(r.query.d, old_.cursor, x)) +
            Count(PastCursor(r.query.d, resume, x) && UpTo(r.query.d, r.cursor, x))
  {
    hide Once, Span, Next, UpTo, PastCursor, LogInv, Initial;
    var steps := before + [Restart(loaded)] + after;
    var e := Run(e0, before).value;
    RunSplit(e0, before + [Restart(loaded)], after);
    var e1 := Run(e0, before + [Restart(loaded)]).value;
    RestartRun(e0, before, loaded);
    RunKeepsTotal(e0, before);
    RunKeeps(e0, before);
    InvAt(e, k);
    RowsOfLog(e.logs[k]);
    var crash := e.logs[k].cursor;
    var resume := if loaded then e.logs[k].saved else None;
    assert PastOnce(e1.logs[k], crash, resume);
    RunKeepsPast(e1, after, k, crash, resume);
    var r := Run(e0, steps).value.logs[k];
    RunKeeps(e0, steps);
    InvAt(Run(e0, steps).value, k);
    DeliveredOnce(r);
    OnceCount(r.query.d, r.past, r.content, None, crash, x);
    OnceCount(r.query.d, r.delivered, r.content, resume, r.cursor, x);
    assert PastCursor(r.query.d, None, x) by {
      NoLimit(r.query.d, x);
    }
  }

  lemma NoLimit(d: Direction, x: Index)
    ensures PastCursor(d, None, x)
  {
  }

  lemma DeliveredOnce(r: LogRun)
    requires LogInv(r)
    ensures Once(r.query.d, r.delivered, Span(r.content, r.query.d, r.resume, r.cursor))
  {
  }

  lemma {:induction false} RunSplit(e: Engine, a: seq<Step>, b: seq<Step>)
    requires Run(e, a + b).Some?
    ensures Run(e, a).Some? && Run(Run(e, a).value, b) == Run(e, a + b)
  {
    if b == [] {
      assert a + b == a;
    } else {
      assert (a + b)[..|a + b| - 1] == a + b[..|b| - 1];
      RunSplit(e, a, b[..|b| - 1]);
    }
  }

  lemma RestartRun(e0: Engine, before: seq<Step>, loaded: bool)
    requires Run(e0, before + [Restart(loaded)]).Some?
    ensures Run(e0, before).Some?
    ensures var e, e1 := Run(e0, before).value, Run(e0, before + [Restart(loaded)]).value;
            e1.logs.Keys == e.logs.Keys && forall k :: k in e.logs ==> e1.logs[k] == Restarted(e.logs[k], loaded)
  {
    assert (before + [Restart(loaded)])[..|before|] == before;
  }

  // ---- any number of restarts ----------------------------------------------------------------

  /** What one life of the process handed over of a log: the rows beyond `from`, up to `upto`. */
  datatype Life = Life(from: Option<Index>, upto: Option<Index>)

  /** The lives that a restart ended: each from where its start resumed to where its stop or crash found the cursor. */
  ghost function Lives(e: Engine, steps: seq<Step>, k: LogKey): seq<Life>
    requires Run(e, steps).Some?
  {
    if steps == [] then []
    else
      var n := |steps| - 1;
      var mid := Run(e, steps[..n]).value;
      Lives(e, steps[..n], k) +
      if steps[n].Restart? && k in mid.logs then [Life(mid.logs[k].resume, mid.logs[k].cursor)] else []
  }

  predicate Within(d: Direction, life: Life, x: Index) {
    PastCursor(d, life.from, x) && UpTo(d, life.upto, x)
  }

  /** In how many of the lives a row was reached. */
  function Times(d: Direction, lives: seq<Life>, x: Index): (n: nat)
    ensures n <= |lives|
  {
    if lives == [] then 0 else Times(d, lives[..|lives| - 1], x) + Count(Within(d, lives[|lives| - 1], x))
  }

  /** What earlier lives handed over, counted. */
  ghost predicate PastCounted(r: LogRun, lives: seq<Life>) {
    && (forall i :: 0 <= i < |lives| && lives[i].upto.Some? ==> lives[i].upto.value in r.content)
    && (forall row :: row in r.past ==> row.index.Some? && row.index.value in r.content)
    && (forall x :: x in r.content ==>
          multiset(r.past)[Row(Some(x), r.content[x])] == Times(r.query.d, lives, x))
  }

  /** A row that arrives later lies beyond every life. */
  lemma {:induction false} BeyondLives(d: Direction, lives: seq<Life>, x: Index)
    requires forall i :: 0 <= i < |lives| && lives[i].upto.Some? ==> Before(d, lives[i].upto.value, x)
    ensures Times(d, lives, x) == 0
  {
    if lives != [] {
      BeyondLives(d, lives[..|lives| - 1], x);
    }
  }

  lemma GrowKeepsCounts(r: LogRun, log: Log, lives: seq<Life>)
    requires PastCounted(r, lives) && Grows(r.query.d, r.content, log)
    ensures PastCounted(r.(content := log), lives)
  {
    hide Times;
    var r' := r.(content := log);
    forall x | x in log
      ensures multiset(r'.past)[Row(Some(x), log[x])] == Times(r.query.d, lives, x)
    {
      if x !in r.content {
        BeyondLives(r.query.d, lives, x);
        assert Row(Some(x), log[x]) !in r'.past;
      }
    }
  }

  lemma RestartKeepsCounts(r: LogRun, lives: seq<Life>, loaded: bool)
    requires LogInv(r) && PastCounted(r, lives)
    ensures PastCounted(Restarted(r, loaded), lives + [Life(r.resume, r.cursor)])
  {
    RowsOfLog(r);
    DeliveredOnce(r);
    hide LogInv, Once, Span, UpTo, PastCursor;
    var life, r' := Life(r.resume, r.cursor), Restarted(r, loaded);
    assert (lives + [life])[..|lives|] == lives;
    OnceInLog(r.query.d, r.delivered, r.content, r.resume, r.cursor);
    forall x | x in r.content
      ensures multiset(r'.past)[Row(Some(x), r.content[x])] == Times(r.query.d, lives + [life], x)
    {
      OnceCount(r.query.d, r.delivered, r.content, r.resume, r.cursor, x);
    }
  }

  lemma OnceInLog(d: Direction, rows: seq<Row>, log: Log, from: Option<Index>, to: Option<Index>)
    requires Once(d, rows, Span(log, d, from, to))
    ensures forall row :: row in rows ==> row.index.Some? && row.index.value in log
  {
    forall row | row in rows
      ensures row.index.Some? && row.index.value in log
    {
      assert row in multiset(rows);
      assert row in RowSet(Span(log, d, from, to));
    }
  }

  lemma ActKeepsCounts(r: LogRun, a: Action, lives: seq<Life>)
    requires PastCounted(r, lives) && Act(r, a).Some?
    ensures PastCounted(Act(r, a).value, lives)
  {
    hide PastCounted, Times, Serve, Absorb, SafeLog, Finished, Outcome, Dedupe, SamplesOf, Grows;
    if a.Grow? {
      GrowKeepsCounts(r, a.log, lives);
    } else {
      SamePast(r, Act(r, a).value, lives);
    }
  }

  lemma SamePast(r: LogRun, r': LogRun, lives: seq<Life>)
    requires PastCounted(r, lives) && r'.past == r.past && r'.content == r.content && r'.query == r.query
    ensures PastCounted(r', lives)
  {
  }

  lemma NextKeepsCounts(e: Engine, s: Step, k: LogKey, lives: seq<Life>)
    requires EngineInv(e) && Next(e, s).Some? && k in e.logs && PastCounted(e.logs[k], lives)
    ensures k in Next(e, s).value.logs
    ensures PastCounted(Next(e, s).value.logs[k],
                        lives + if s.Restart? then [Life(e.logs[k].resume, e.logs[k].cursor)] else [])
  {
    hide LogInv, PastCounted, Act, HandedOver;
    var r' := Next(e, s).value.logs[k];
    match s
    case Do(j, a) =>
      assert lives + [] == lives;
      if j == k {
        ActKeepsCounts(e.logs[k], a, lives);
      }
    case Restart(loaded) =>
      InvAt(e, k);
      RestartKeepsCounts(e.logs[k], lives, loaded);
    case _ =>
      assert lives + [] == lives;
      SamePast(e.logs[k], r', lives);
  }

  lemma FreshCounted(r: LogRun)
    requires Fresh(r)
    ensures PastCounted(r, [])
  {
  }

  lemma {:induction false} RunKeepsCounts(e: Engine, steps: seq<Step>, k: LogKey)
    requires Initial(e) && Run(e, steps).Some? && k in e.logs
    ensures k in Run(e, steps).value.logs && PastCounted(Run(e, steps).value.logs[k], Lives(e, steps, k))
  {
    hide EngineInv, PastCounted, Next, Fresh;
    if steps == [] {
      FreshCounted(e.logs[k]);
    } else {
      var n := |steps| - 1;
      RunKeepsCounts(e, steps[..n], k);
      RunKeeps(e, steps[..n]);
      NextKeepsCounts(Run(e, steps[..n]).value, steps[n], k, Lives(e, steps[..n], k));
    }
  }

  /**
   * The count of every row after any number of stops and crashes, with or without snapshots: it was handed over
   * once in each life of the process that reached it, so at most once more than there were restarts.
   */
  lemma HandedOverOncePerLife(e: Engine, steps: seq<Step>, k: LogKey, x: Index)
    requires Initial(e) && Run(e, steps).Some? && k in e.logs
    ensures k in Run(e, steps).value.logs
    ensures var r, lives := Run(e, steps).value.logs[k], Lives(e, steps, k);
            x in r.content ==>
              && multiset(r.past + r.delivered)[Row(Some(x), r.content[x])] ==
                 Times(r.query.d, lives, x) + Count(Within(r.query.d, Life(r.resume, r.cursor), x))
              && multiset(r.past + r.delivered)[Row(Some(x), r.content[x])] <= |lives| + 1
  {
    hide LogInv, Run, Once, Span, Initial;
    RunKeepsCounts(e, steps, k);
    RunKeeps(e, steps);
    var r := Run(e, steps).value.logs[k];
    InvAt(Run(e, steps).value, k);
    DeliveredOnce(r);
    if x in r.content {
      OnceCount(r.query.d, r.delivered, r.content, r.resume, r.cursor, x);
    }
  }

  // ---- a tick --------------------------------------------------------------------------------

  /** How many workers of a log the steps create. */
  function Spawns(steps: seq<Step>, k: LogKey): nat {
    if steps == [] then 0
    else Spawns(steps[..|steps| - 1], k) + Count(steps[|steps| - 1] == Do(k, Spawn))
  }

  lemma SpawnOnce(r: LogRun, a: Action)
    requires Act(r, a).Some?
    ensures Act(r, a).value.spawned == (r.spawned || a.Spawn?) && (a.Spawn? ==> !r.spawned)
  {
    hide Serve, Absorb, Finished, Outcome, Grows, SafeLog, Dedupe, SamplesOf;
  }

  lemma {:induction false} WorkersSpawnOnce(e: Engine, steps: seq<Step>, k: LogKey)
    requires k in e.logs && !e.logs[k].spawned && Run(e, steps).Some?
    requires forall i :: 0 <= i < |steps| ==> steps[i].Do?
    ensures k in Run(e, steps).value.logs
    ensures Spawns(steps, k) == Count(Run(e, steps).value.logs[k].spawned)
  {
    hide Act;
    if steps != [] {
      var n := |steps| - 1;
      WorkersSpawnOnce(e, steps[..n], k);
      var mid := Run(e, steps[..n]).value;
      SpawnOnce(mid.logs[steps[n].key], steps[n].action);
    }
  }

  /** A tick that ends has polled every log once: it created one worker for each, and all of them have finished. */
  lemma TickPollsEachLogOnce(e: Engine, steps: seq<Step>, k: LogKey)
    requires Run(e, [StartTick] + steps + [EndTick]).Some? && k in e.logs
    requires forall i :: 0 <= i < |steps| ==> steps[i].Do?
    ensures Spawns(steps, k) == 1
    ensures k in Run(e, [StartTick] + steps + [EndTick]).value.logs
    ensures Run(e, [StartTick] + steps + [EndTick]).value.logs[k].phase.Idle?
  {
    hide Act;
    RunSplit(e, [StartTick] + steps, [EndTick]);
    RunSplit(e, [StartTick], steps);
    assert [StartTick][..0] == [] && [EndTick][..0] == [];
    var begun := Run(e, [StartTick]).value;
    assert Next(e, StartTick) == Some(begun);
    WorkersSpawnOnce(begun, steps, k);
    var ended := Run(begun, steps).value;
    assert Run(ended, [EndTick]) == Next(ended, EndTick);
  }
}
