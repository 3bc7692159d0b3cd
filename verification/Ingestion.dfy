/**
 * The ingestion engine as a transition system: workers of one tick that suspend at every request and while
 * persisting, a store that grows at any moment, failures at any request, snapshots, stops and crashes.
 */
module Ingestion {
  import opened Order
  import opened Blocks
  import opened Polling
  import opened LogPages
  import opened Client
  import opened FetchRun

  /** The full identity of a log: log uids alone are unique only within a wellbore. */
  datatype LogKey = LogKey(server: int, well: string, wellbore: string, uid: string)

  /** Where the worker of a log is. */
  datatype Phase =
    | Idle
    | Queued                              // created, waiting for the semaphore
    | Requesting(f: Fetch)                // suspended until the store answers
    | Answered(f: Fetch, reply: Reply)    // the store has answered, the worker has not resumed
    | Persisting                          // rows handed over, suspended until the database is done

  /**
   * One log and its ingestion. `delivered` are the rows handed to the warm store since the last restart, `past`
   * those handed over before it; `resume` is the cursor the last restart began with, `saved` the snapshot.
   */
  datatype LogRun = LogRun(
    content: Log, query: Query, hasCurves: bool,
    cursor: Option<Index>, saved: Option<Index>, resume: Option<Index>,
    past: seq<Row>, delivered: seq<Row>,
    phase: Phase, spawned: bool)

  datatype Action =
    | Grow(log: Log)                      // the store gains rows
    | Spawn                               // the tick creates the log's worker
    | Acquire                             // the worker enters the semaphore and sends its first request
    | Answer(fault: Option<int>)          // the store answers the request, or fails with a code
    | Resume                              // the worker takes in the answer and runs to its next suspension
    | Persisted                           // the database is done (or has failed: both are ignored)

  /** Inside the semaphore. */
  predicate Active(r: LogRun) {
    r.phase.Requesting? || r.phase.Answered? || r.phase.Persisting?
  }

  /** What a worker does with a finished fetch: remove the boundary, advance the cursor, hand over the rows. */
  function Deliver(r: LogRun, f: Fetch): LogRun {
    match Outcome(f, r.query.mnemonics)
    case Err(_) => r.(phase := Idle)
    case Ok(block) =>
      var deduped := DedupeBoundary(block, r.cursor, r.query.d);
      var next := ContinuationIndex(block.rows, r.query.d);
      var s := r.(cursor := if next.Some? then next else r.cursor, delivered := r.delivered + deduped.rows);
      s.(phase := if SamplesOf(deduped, deduped.rows) == [] then Idle else Persisting)
  }

  /** One step of one log; None when the step is not possible. */
  ghost function Act(r: LogRun, a: Action): Option<LogRun> {
    match a
    case Grow(log) =>
      if Grows(r.query.d, r.content, log) && SafeLog(log, r.query) then Some(r.(content := log)) else None
    case Spawn =>
      if !r.spawned then Some(r.(phase := Queued, spawned := true)) else None
    case Acquire =>
      if !r.phase.Queued? then None
      else if !r.hasCurves then Some(r.(phase := Idle))
      else Some(r.(phase := Requesting(Begin(r.cursor))))
    case Answer(fault) =>
      if !r.phase.Requesting? then None
      else if fault.None? then
        Some(r.(phase := Answered(r.phase.f, Serve(r.content, r.query, r.phase.f.cursor))))
      else if fault.value <= 0 then
        Some(r.(phase := Answered(r.phase.f, Reply(fault.value, []))))
      else None
    case Resume =>
      if !r.phase.Answered? then None
      else
        var g := Absorb(r.phase.f, r.phase.reply, r.query.d);
        if Finished(g, MAX_TRUNCATION_ITERATIONS) then Some(Deliver(r, g))
        else Some(r.(phase := Requesting(g)))
    case Persisted =>
      if r.phase.Persisting? then Some(r.(phase := Idle)) else None
  }

  /** The samples a step hands to the warm store: those of a finished fetch without its boundary. */
  function HandedOver(r: LogRun, a: Action): seq<Sample> {
    if !a.Resume? || !r.phase.Answered? then []
    else
      var g := Absorb(r.phase.f, r.phase.reply, r.query.d);
      if !Finished(g, MAX_TRUNCATION_ITERATIONS) then []
      else
        match Outcome(g, r.query.mnemonics)
        case Err(_) => []
        case Ok(block) =>
          var deduped := DedupeBoundary(block, r.cursor, r.query.d);
          SamplesOf(deduped, deduped.rows)
  }

  /** One append to the warm store, with its publish: nothing else runs between the two. */
  datatype Append = Append(key: LogKey, samples: seq<Sample>)

  /**
   * What the workers of one process share: the semaphore's free permits, and the warm store, which is what its
   * appends make of it in the order they happened, whatever log they came from.
   */
  datatype Engine = Engine(logs: map<LogKey, LogRun>, ticking: bool, limit: nat, free: nat, warm: seq<Append>)

  datatype Step =
    | Do(key: LogKey, action: Action)
    | StartTick
    | EndTick
    | Snapshot
    | Restart(loaded: bool)               // a stop or a crash, then a start whose snapshot load works or fails

  function ActiveKeys(logs: map<LogKey, LogRun>): set<LogKey> {
    set k | k in logs && Active(logs[k])
  }

  function Saved(r: LogRun): LogRun {
    if r.cursor.None? then r else r.(saved := r.cursor)
  }

  function Restarted(r: LogRun, loaded: bool): LogRun {
    var cursor := if loaded then r.saved else None;
    r.(past := r.past + r.delivered, delivered := [], cursor := cursor, resume := cursor, phase := Idle,
       spawned := false)
  }

  function WithAppend(warm: seq<Append>, k: LogKey, samples: seq<Sample>): seq<Append> {
    if samples == [] then warm else warm + [Append(k, samples)]
  }

  /** A worker takes a permit when it enters the semaphore and gives it back however it leaves. */
  function Permits(free: nat, before: LogRun, a: Action, after: LogRun): nat
    requires a.Acquire? ==> free > 0
  {
    (if a.Acquire? then free - 1 else free) + (if (Active(before) || a.Acquire?) && !Active(after) then 1 else 0)
  }

  ghost function Next(e: Engine, s: Step): Option<Engine> {
    match s
    case Do(k, a) =>
      if k !in e.logs || (a.Spawn? && !e.ticking) || (a.Acquire? && e.free == 0) then None
      else
        var r := Act(e.logs[k], a);
        if r.None? then None
        else Some(e.(logs := e.logs[k := r.value], free := Permits(e.free, e.logs[k], a, r.value),
                     warm := WithAppend(e.warm, k, HandedOver(e.logs[k], a))))
    case StartTick =>
      if e.ticking then None
      else Some(e.(ticking := true, logs := map k | k in e.logs :: e.logs[k].(spawned := false)))
    case EndTick =>
      if e.ticking && (forall k :: k in e.logs ==> e.logs[k].phase.Idle? && e.logs[k].spawned)
      then Some(e.(ticking := false)) else None
    case Snapshot =>
      if e.ticking then None else Some(e.(logs := map k | k in e.logs :: Saved(e.logs[k])))
    case Restart(loaded) =>
      Some(e.(ticking := false, free := e.limit, warm := [],
              logs := map k | k in e.logs :: Restarted(e.logs[k], loaded)))
  }

  ghost function Run(e: Engine, steps: seq<Step>): Option<Engine> {
    if steps == [] then Some(e)
    else
      var mid := Run(e, steps[..|steps| - 1]);
      if mid.None? then None else Next(mid.value, steps[|steps| - 1])
  }

  // ---- what a log has handed over ------------------------------------------------------------

  /** The rows strictly beyond `from` (all of them if None) and at or before `to` (none of them if None). */
  function Span(log: Log, d: Direction, from: Option<Index>, to: Option<Index>): Log {
    map x | x in log && (from.Some? ==> Before(d, from.value, x)) && to.Some? && !Before(d, to.value, x) :: log[x]
  }

  function RowSet(log: Log): set<Row> {
    set x | x in log :: Row(Some(x), log[x])
  }

  /** `rows` are the rows of `span`, each once; for an increasing log in order. */
  ghost predicate Once(d: Direction, rows: seq<Row>, span: Log) {
    && multiset(rows) == multiset(RowSet(span))
    && (d.Increasing? ==> rows == Listing(Increasing, span))
  }

  ghost predicate Covers(rows: seq<Row>, log: Log, d: Direction, upto: Option<Index>) {
    forall x :: x in log && upto.Some? && !Before(d, upto.value, x) ==> Row(Some(x), log[x]) in rows
  }

  ghost predicate AtRow(r: LogRun, c: Option<Index>) {
    c.Some? ==> c.value in r.content && Regained(r.content, r.query, c.value)
  }

  ghost predicate FetchHolds(f: Fetch, r: LogRun) {
    && FetchInv(f, r.content, r.query, r.cursor)
    && (r.cursor.Some? ==> Anchored(f, r.content, r.query, r.cursor.value))
  }

  ghost predicate PhaseInv(r: LogRun) {
    match r.phase
    case Idle => true
    case Queued => r.spawned
    case Requesting(f) => r.spawned && FetchHolds(f, r) && f.status.Running? && f.requests < MAX_TRUNCATION_ITERATIONS
    case Answered(f, reply) =>
      && r.spawned
      && (reply.code <= 0 ||
          (FetchHolds(Absorb(f, reply, r.query.d), r) && !Absorb(f, reply, r.query.d).status.Failed?))
    case Persisting => r.spawned
  }

  /** What every step keeps of one log. */
  ghost predicate LogInv(r: LogRun) {
    && SafeLog(r.content, r.query) && r.query.end.None?
    && AtRow(r, r.cursor) && AtRow(r, r.saved) && AtRow(r, r.resume)
    && (r.resume.Some? ==> r.cursor.Some? && !Before(r.query.d, r.cursor.value, r.resume.value))
    && Once(r.query.d, r.delivered, Span(r.content, r.query.d, r.resume, r.cursor))
    && Covers(r.past, r.content, r.query.d, r.resume)
    && Covers(r.past + r.delivered, r.content, r.query.d, r.saved)
    && PhaseInv(r)
  }

  ghost predicate EngineInv(e: Engine) {
    && (forall k :: k in e.logs ==> LogInv(e.logs[k]))
    && (!e.ticking ==> forall k :: k in e.logs ==> e.logs[k].phase.Idle?)
    && e.free + |ActiveKeys(e.logs)| == e.limit
  }

  /** Nothing has been ingested yet. */
  ghost predicate Fresh(r: LogRun) {
    && SafeLog(r.content, r.query) && r.query.end.None?
    && r.cursor.None? && r.saved.None? && r.resume.None?
    && r.past == [] && r.delivered == [] && r.phase.Idle?
  }

  ghost predicate Initial(e: Engine) {
    !e.ticking && e.free == e.limit && e.warm == [] && forall k :: k in e.logs ==> Fresh(e.logs[k])
  }
}
