/**
 * The warm store that all workers of a process append to: what each log contributes to it over whole runs, and what
 * of it depends on how the workers interleave.
 */
module SharedStore {
  import opened Order
  import opened Blocks
  import opened Polling
  import opened Client
  import opened FetchRun
  import opened Ingestion
  import opened ExactlyOnce
  import opened EngineRuns
  import opened Interleaving
  import opened RingBuffer

  /** The headers a log's rows come under. */
  function HeadersOf(r: LogRun): Block {
    Block(r.query.mnemonics, r.query.units, [])
  }

  lemma {:induction false} SamplesByHeaders(a: Block, b: Block, rows: seq<Row>)
    requires a.mnemonics == b.mnemonics && a.units == b.units
    ensures SamplesOf(a, rows) == SamplesOf(b, rows)
  {
    if rows != [] {
      SamplesByHeaders(a, b, rows[..|rows| - 1]);
      RowByHeaders(a, b, rows[|rows| - 1], |a.mnemonics|);
    }
  }

  lemma {:induction false} RowByHeaders(a: Block, b: Block, row: Row, upto: nat)
    requires a.mnemonics == b.mnemonics && a.units == b.units && upto <= |a.mnemonics|
    ensures RowSamples(a, row, upto) == RowSamples(b, row, upto)
  {
    if row.index.Some? && upto > 1 {
      RowByHeaders(a, b, row, upto - 1);
    }
  }

  // ---- what is handed over is what is appended -----------------------------------------------

  lemma OutcomeHeaded(f: Fetch, q: Query)
    requires Headed(f.blocks, q) && !f.status.Failed?
    ensures var r := Outcome(f, q.mnemonics);
            r.Ok? && r.value.mnemonics == q.mnemonics && (r.value.rows != [] ==> r.value.units == q.units)
  {
    if f.blocks != [] {
      assert HeadBlock(f.blocks) in f.blocks;
    }
  }

  /** A step appends the samples of exactly the rows it hands over. */
  lemma AppendsWhatIsHandedOver(r: LogRun, a: Action)
    requires LogInv(r) && Act(r, a).Some?
    ensures var r' := Act(r, a).value;
            && r'.query == r.query && r'.past == r.past && r.delivered <= r'.delivered
            && HandedOver(r, a) == SamplesOf(HeadersOf(r), r'.delivered[|r.delivered|..])
  {
    hide LogInv, Outcome, Absorb, Dedupe, SamplesOf, Serve, Grows, SafeLog, Finished;
    var none: seq<Row> := [];
    SamplesOfStep(HeadersOf(r), none, Row(None, []));
    assert r.delivered + none == r.delivered;
    if a.Resume? {
      var g := Absorb(r.phase.f, r.phase.reply, r.query.d);
      if Finished(g, MAX_TRUNCATION_ITERATIONS) {
        DeliveredSamples(r, g);
      }
    }
  }

  lemma DeliveredSamples(r: LogRun, g: Fetch)
    requires LogInv(r) && r.phase.Answered? && g == Absorb(r.phase.f, r.phase.reply, r.query.d)
    requires Finished(g, MAX_TRUNCATION_ITERATIONS)
    ensures var r' := Deliver(r, g);
            && r.delivered <= r'.delivered
            && HandedOver(r, Resume) == SamplesOf(HeadersOf(r), r'.delivered[|r.delivered|..])
  {
    hide LogInv, Outcome, Absorb, Dedupe, SamplesOf, Finished, FetchHolds;
    SamplesOfStep(HeadersOf(r), [], Row(None, []));
    LogPhase(r);
    if r.phase.reply.code <= 0 {
      AbsorbCounts(r.phase.f, r.phase.reply, r.query.d);
      FailedOutcome(g, r.query);
      assert Deliver(r, g).delivered == r.delivered;
      assert r.delivered[|r.delivered|..] == [];
    } else {
      HoldsHeaded(g, r);
      OutcomeHeaded(g, r.query);
      var block := Outcome(g, r.query.mnemonics).value;
      var deduped := DedupeBoundary(block, r.cursor, r.query.d);
      assert (r.delivered + deduped.rows)[|r.delivered|..] == deduped.rows;
      if block.rows != [] {
        SamplesByHeaders(deduped, HeadersOf(r), deduped.rows);
      } else {
        DedupeNothing(r.cursor, r.query.d);
        SamplesOfStep(deduped, [], Row(None, []));
      }
    }
  }

  lemma FailedOutcome(g: Fetch, q: Query)
    requires g.status.Failed?
    ensures Outcome(g, q.mnemonics).Err?
  {
  }

  lemma HoldsHeaded(g: Fetch, r: LogRun)
    requires FetchHolds(g, r)
    ensures Headed(g.blocks, r.query)
  {
  }

  lemma DedupeNothing(c: Option<Index>, d: Direction)
    ensures Dedupe([], c, d) == []
  {
  }

  function Joined(appends: seq<seq<Sample>>): seq<Sample> {
    if appends == [] then [] else Joined(appends[..|appends| - 1]) + appends[|appends| - 1]
  }

  lemma JoinedStep(appends: seq<seq<Sample>>, samples: seq<Sample>)
    ensures Joined(appends + if samples != [] then [samples] else []) == Joined(appends) + samples
    ensures Joined([]) == []
  {
    if samples != [] {
      assert (appends + [samples])[..|appends|] == appends;
    } else {
      assert appends + [] == appends;
      assert Joined(appends) + [] == Joined(appends);
    }
  }

  /** The appends of each log together are the samples of what it handed over; nobody else appends. */
  ghost predicate WarmInv(e: Engine) {
    && (forall k :: k in e.logs ==> Joined(Ours(e.warm, k)) == SamplesOf(HeadersOf(e.logs[k]), e.logs[k].delivered))
    && (forall i :: 0 <= i < |e.warm| ==> e.warm[i].key in e.logs)
  }

  lemma DoWarms(e: Engine, j: LogKey, a: Action, k: LogKey)
    requires EngineInv(e) && WarmInv(e) && Next(e, Do(j, a)).Some? && k in e.logs
    ensures var e' := Next(e, Do(j, a)).value;
            k in e'.logs && Joined(Ours(e'.warm, k)) == SamplesOf(HeadersOf(e'.logs[k]), e'.logs[k].delivered)
  {
    hide LogInv, Act, HandedOver, SamplesOf, Joined, Ours, Permits, ActiveKeys;
    InvAt(e, j);
    var r, r' := e.logs[j], Act(e.logs[j], a).value;
    AppendsWhatIsHandedOver(r, a);
    OursStep(e.warm, j, HandedOver(r, a), k);
    JoinedStep(Ours(e.warm, k), HandedOver(r, a));
    if j == k {
      var rows := r'.delivered[|r.delivered|..];
      assert r'.delivered == r.delivered + rows;
      SamplesOfConcat(HeadersOf(r), r.delivered, rows);
      SamplesByHeaders(HeadersOf(r), HeadersOf(r'), r'.delivered);
    } else {
      assert Ours(e.warm, k) + [] == Ours(e.warm, k);
    }
  }

  lemma NextWarms(e: Engine, s: Step)
    requires EngineInv(e) && WarmInv(e) && Next(e, s).Some?
    ensures WarmInv(Next(e, s).value)
  {
    hide EngineInv, Act, HandedOver, SamplesOf, Joined, Ours, Permits, Active;
    var e' := Next(e, s).value;
    match s
    case Do(j, a) =>
      forall k | k in e'.logs
        ensures Joined(Ours(e'.warm, k)) == SamplesOf(HeadersOf(e'.logs[k]), e'.logs[k].delivered)
      {
        DoWarms(e, j, a, k);
      }
    case Restart(loaded) =>
      forall k | k in e'.logs
        ensures Joined(Ours(e'.warm, k)) == SamplesOf(HeadersOf(e'.logs[k]), e'.logs[k].delivered)
      {
        NothingYet(e'.logs[k], k);
      }
    case _ =>
  }

  lemma NothingYet(r: LogRun, k: LogKey)
    requires r.delivered == []
    ensures Joined(Ours([], k)) == SamplesOf(HeadersOf(r), r.delivered)
  {
  }

  /**
   * In every run, restarts included, the appends a log has made to the warm store since its process started are the
   * samples of the rows it has handed over since then, in order.
   */
  lemma {:induction false} StoreGetsWhatIsDelivered(e: Engine, steps: seq<Step>)
    requires Initial(e) && Run(e, steps).Some?
    ensures WarmInv(Run(e, steps).value)
  {
    hide EngineInv, Next, WarmInv, Initial;
    if steps == [] {
      WarmBegins(e);
    } else {
      var front := steps[..|steps| - 1];
      StoreGetsWhatIsDelivered(e, front);
      RunKeeps(e, front);
      NextWarms(Run(e, front).value, steps[|steps| - 1]);
    }
  }

  lemma WarmBegins(e: Engine)
    requires Initial(e)
    ensures WarmInv(e)
  {
    hide SamplesOf, Joined, Ours;
    forall k | k in e.logs
      ensures Joined(Ours(e.warm, k)) == SamplesOf(HeadersOf(e.logs[k]), e.logs[k].delivered)
    {
      NothingYet(e.logs[k], k);
    }
  }

  // ---- the curves of a well ------------------------------------------------------------------

  lemma {:induction false} OfCurveConcat(a: seq<Sample>, b: seq<Sample>, m: string)
    ensures OfCurve(a + b, m) == OfCurve(a, m) + OfCurve(b, m)
  {
    if b == [] {
      assert a + b == a;
    } else {
      var k := |b| - 1;
      assert (a + b)[..|a + b| - 1] == a + b[..k];
      OfCurveConcat(a, b[..k], m);
    }
  }

  /** A sample in a shared curve, with the log it came from. */
  datatype Tagged = Tagged(key: LogKey, sample: Sample)

  function Tag(k: LogKey, samples: seq<Sample>): (r: seq<Tagged>)
    ensures |r| == |samples| && forall i :: 0 <= i < |r| ==> r[i] == Tagged(k, samples[i])
  {
    seq(|samples|, i requires 0 <= i < |samples| => Tagged(k, samples[i]))
  }

  function Untag(stream: seq<Tagged>): (r: seq<Sample>)
    ensures |r| == |stream| && forall i :: 0 <= i < |r| ==> r[i] == stream[i].sample
  {
    seq(|stream|, i requires 0 <= i < |stream| => stream[i].sample)
  }

  /** What one append brings to a curve of a well. */
  function Brings(a: Append, well: string, m: string): seq<Sample> {
    if a.key.well == well then OfCurve(a.samples, m) else []
  }

  /** Everything appended to one curve of a well: buffers are keyed by well and mnemonic, not by log. */
  function CurveStream(warm: seq<Append>, well: string, m: string): seq<Tagged> {
    if warm == [] then [] else
      var a := warm[|warm| - 1];
      CurveStream(warm[..|warm| - 1], well, m) + Tag(a.key, Brings(a, well, m))
  }

  /** What of a shared curve came from one log. */
  function From(stream: seq<Tagged>, k: LogKey): seq<Tagged> {
    if stream == [] then [] else
      var front := From(stream[..|stream| - 1], k);
      if stream[|stream| - 1].key == k then front + [stream[|stream| - 1]] else front
  }

  lemma {:induction false} FromConcat(a: seq<Tagged>, b: seq<Tagged>, k: LogKey)
    ensures From(a + b, k) == From(a, k) + From(b, k)
  {
    if b == [] {
      assert a + b == a;
    } else {
      assert (a + b)[..|a + b| - 1] == a + b[..|b| - 1];
      FromConcat(a, b[..|b| - 1], k);
    }
  }

  lemma {:induction false} FromTag(j: LogKey, samples: seq<Sample>, k: LogKey)
    ensures From(Tag(j, samples), k) == if j == k then Tag(k, samples) else []
  {
    if samples != [] {
      var n := |samples| - 1;
      FromTag(j, samples[..n], k);
      assert Tag(j, samples)[..n] == Tag(j, samples[..n]);
      assert Tag(k, samples) == Tag(k, samples[..n]) + [Tagged(k, samples[n])];
    }
  }

  lemma TagConcat(k: LogKey, a: seq<Sample>, b: seq<Sample>)
    ensures Tag(k, a + b) == Tag(k, a) + Tag(k, b)
  {
  }

  /** A log's part of a shared curve is that curve's part of the log's own appends, in order. */
  lemma {:induction false} PartOfLog(warm: seq<Append>, k: LogKey, m: string)
    ensures From(CurveStream(warm, k.well, m), k) == Tag(k, OfCurve(Joined(Ours(warm, k)), m))
  {
    hide From, OfCurve, Joined, Tag;
    if warm == [] {
      NoPart(k, m);
    } else {
      var n := |warm| - 1;
      var a := warm[n];
      PartOfLog(warm[..n], k, m);
      FromConcat(CurveStream(warm[..n], k.well, m), Tag(a.key, Brings(a, k.well, m)), k);
      FromTag(a.key, Brings(a, k.well, m), k);
      var mine := Ours(warm[..n], k);
      if a.key == k {
        JoinedOne(mine, a.samples);
        OfCurveConcat(Joined(mine), a.samples, m);
        TagConcat(k, OfCurve(Joined(mine), m), OfCurve(a.samples, m));
      } else {
        assert mine + [] == mine;
      }
    }
  }

  lemma JoinedOne(appends: seq<seq<Sample>>, samples: seq<Sample>)
    ensures Joined(appends + [samples]) == Joined(appends) + samples
  {
    assert (appends + [samples])[..|appends|] == appends;
  }

  lemma NoPart(k: LogKey, m: string)
    ensures From([], k) == [] && Tag(k, OfCurve(Joined([]), m)) == []
  {
  }

  // ---- curves fed by one log -----------------------------------------------------------------

  /** No other log of the well has a column of this name. */
  ghost predicate SoleFeeder(logs: map<LogKey, LogRun>, k: LogKey, m: string) {
    forall j :: j in logs && j != k && j.well == k.well ==> !HasColumn(HeadersOf(logs[j]), m)
  }

  predicate HasColumn(b: Block, m: string) {
    exists col :: 1 <= col < |b.mnemonics| && b.mnemonics[col] == m
  }

  lemma {:induction false} NoColumnNoSample(b: Block, rows: seq<Row>, m: string)
    requires !HasColumn(b, m)
    ensures OfCurve(SamplesOf(b, rows), m) == []
  {
    var all := SamplesOf(b, rows);
    forall i | 0 <= i < |all|
      ensures all[i].mnemonic != m
    {
      SamplesMeaning(b, rows, all[i]);
      var r, col :| 0 <= r < |rows| && IsSampleOf(b, rows[r], col, all[i]);
      assert all[i].mnemonic == b.mnemonics[col];
    }
    NoneOfCurve(all, m);
  }

  lemma {:induction false} NoneOfCurve(s: seq<Sample>, m: string)
    requires forall i :: 0 <= i < |s| ==> s[i].mnemonic != m
    ensures OfCurve(s, m) == []
  {
    if s != [] {
      NoneOfCurve(s[..|s| - 1], m);
    }
  }

  lemma {:induction false} NothingFrom(warm: seq<Append>, j: LogKey, m: string, i: nat)
    requires OfCurve(Joined(Ours(warm, j)), m) == [] && i < |warm| && warm[i].key == j
    ensures OfCurve(warm[i].samples, m) == []
  {
    hide OfCurve, Joined;
    var n := |warm| - 1;
    var mine := Ours(warm[..n], j);
    if warm[n].key == j {
      JoinedOne(mine, warm[n].samples);
      OfCurveConcat(Joined(mine), warm[n].samples, m);
    } else {
      assert mine + [] == mine;
    }
    if i < n {
      NothingFrom(warm[..n], j, m, i);
    }
  }

  /** A curve fed by one log is that log's part of it. */
  lemma {:induction false} SoleStream(warm: seq<Append>, k: LogKey, m: string)
    requires forall i :: 0 <= i < |warm| && warm[i].key != k && warm[i].key.well == k.well ==>
                           OfCurve(warm[i].samples, m) == []
    ensures CurveStream(warm, k.well, m) == From(CurveStream(warm, k.well, m), k)
  {
    hide From, OfCurve;
    if warm == [] {
      NoPart(k, m);
    } else {
      var n := |warm| - 1;
      var a := warm[n];
      assert forall i :: 0 <= i < n ==> warm[..n][i] == warm[i];
      SoleStream(warm[..n], k, m);
      FromConcat(CurveStream(warm[..n], k.well, m), Tag(a.key, Brings(a, k.well, m)), k);
      FromTag(a.key, Brings(a, k.well, m), k);
    }
  }

  lemma SoleFeederStream(e: Engine, k: LogKey, m: string)
    requires WarmInv(e) && k in e.logs && SoleFeeder(e.logs, k, m)
    ensures CurveStream(e.warm, k.well, m) ==
            Tag(k, OfCurve(SamplesOf(HeadersOf(e.logs[k]), e.logs[k].delivered), m))
  {
    hide OfCurve, Joined, Ours, SamplesOf, Tag, HasColumn, From, CurveStream;
    PartOfLog(e.warm, k, m);
    forall i | 0 <= i < |e.warm| && e.warm[i].key != k && e.warm[i].key.well == k.well
      ensures OfCurve(e.warm[i].samples, m) == []
    {
      var j := e.warm[i].key;
      NoColumnNoSample(HeadersOf(e.logs[j]), e.logs[j].delivered, m);
      NothingFrom(e.warm, j, m, i);
    }
    SoleStream(e.warm, k, m);
  }

  // ---- the buffers ---------------------------------------------------------------------------

  /** The warm store's buffers after its appends. */
  function StoreOf(warm: seq<Append>, max: nat): Curves {
    if warm == [] then map[] else
      var a := warm[|warm| - 1];
      Appended(StoreOf(warm[..|warm| - 1], max), a.key.well, a.samples, max)
  }

  /** A buffer is the newest part of everything appended to its curve, by whichever logs. */
  lemma {:induction false} BufferIsStreamTail(warm: seq<Append>, max: nat, well: string, m: string)
    ensures Curve(StoreOf(warm, max), well, m) == LastN(Untag(CurveStream(warm, well, m)), max)
  {
    hide LastN, Appended, OfCurve, Untag;
    if warm == [] {
      EmptyTail(max);
    } else {
      var n := |warm| - 1;
      var a := warm[n];
      var before := CurveStream(warm[..n], well, m);
      BufferIsStreamTail(warm[..n], max, well, m);
      AppendedCurve(StoreOf(warm[..n], max), a.key.well, a.samples, max, well, m);
      UntagMore(before, a.key, Brings(a, well, m));
      if a.key.well == well {
        LastNTwice(Untag(before), OfCurve(a.samples, m), max);
      } else {
        assert Untag(before) + [] == Untag(before);
      }
    }
  }

  lemma EmptyTail(max: nat)
    ensures LastN(Untag([]), max) == []
  {
  }

  lemma UntagMore(stream: seq<Tagged>, k: LogKey, samples: seq<Sample>)
    ensures Untag(stream + Tag(k, samples)) == Untag(stream) + samples
    ensures Untag(Tag(k, samples)) == samples
  {
  }

  // ---- interleaving --------------------------------------------------------------------------

  /**
   * The shared store under any interleaving of a tick. In every curve of its well, what a log contributed is in the
   * same order as in the serial run, and is the curve's part of what the log handed over. A curve no other log of
   * the well has is the same outright, and so is its buffer.
   */
  lemma SharedStoreIsSerial(e: Engine, steps: seq<Step>, keys: seq<LogKey>, k: LogKey, m: string, max: nat)
    requires Schedulable(e, steps, keys) && WarmInv(e) && k in e.logs
    requires forall j :: j in e.logs ==> j in keys
    ensures Run(e, Serial(steps, keys)).Some?
    ensures var done, s := Run(e, steps).value, Run(e, Serial(steps, keys)).value;
            && k in done.logs
            && From(CurveStream(done.warm, k.well, m), k) == From(CurveStream(s.warm, k.well, m), k)
            && From(CurveStream(done.warm, k.well, m), k) ==
               Tag(k, OfCurve(SamplesOf(HeadersOf(done.logs[k]), done.logs[k].delivered), m))
            && (SoleFeeder(done.logs, k, m) ==>
                  && CurveStream(done.warm, k.well, m) == CurveStream(s.warm, k.well, m)
                  && Curve(StoreOf(done.warm, max), k.well, m) == Curve(StoreOf(s.warm, max), k.well, m))
  {
    hide Run, Serial, Ours, Joined, OfCurve, SamplesOf, From, CurveStream, Tag, StoreOf, SoleFeeder, EngineInv,
         Untag, LastN, Curve;
    TickIsSerial(e, steps, keys);
    var done, s := Run(e, steps).value, Run(e, Serial(steps, keys)).value;
    SerialWorkers(steps, keys);
    WorkersWarm(e, steps);
    WorkersWarm(e, Serial(steps, keys));
    LogsAreIsolated(e, steps, k);
    PartOfLog(done.warm, k, m);
    PartOfLog(s.warm, k, m);
    if SoleFeeder(done.logs, k, m) {
      SoleFeederStream(done, k, m);
      SoleFeederStream(s, k, m);
      BufferIsStreamTail(done.warm, max, k.well, m);
      BufferIsStreamTail(s.warm, max, k.well, m);
    }
  }

  lemma {:induction false} WorkersWarm(e: Engine, steps: seq<Step>)
    requires EngineInv(e) && WarmInv(e) && Run(e, steps).Some?
    ensures WarmInv(Run(e, steps).value)
  {
    hide EngineInv, Next, WarmInv;
    if steps != [] {
      var front := steps[..|steps| - 1];
      WorkersWarm(e, front);
      RunKeepsFrom(e, front);
      NextWarms(Run(e, front).value, steps[|steps| - 1]);
    }
  }

  /** What is published to the viewers of a well: every append to it, whichever log it came from. */
  function WellAppends(warm: seq<Append>, well: string): seq<Append> {
    if warm == [] then [] else
      var a := warm[|warm| - 1];
      WellAppends(warm[..|warm| - 1], well) + if a.key.well == well then [a] else []
  }

  function Mine(k: LogKey, appends: seq<seq<Sample>>): (r: seq<Append>)
    ensures |r| == |appends| && forall i :: 0 <= i < |r| ==> r[i] == Append(k, appends[i])
  {
    seq(|appends|, i requires 0 <= i < |appends| => Append(k, appends[i]))
  }

  lemma {:induction false} LoneLogPublishes(warm: seq<Append>, k: LogKey)
    requires forall i :: 0 <= i < |warm| && warm[i].key.well == k.well ==> warm[i].key == k
    ensures WellAppends(warm, k.well) == Mine(k, Ours(warm, k))
  {
    if warm != [] {
      var n := |warm| - 1;
      assert forall i :: 0 <= i < n ==> warm[..n][i] == warm[i];
      LoneLogPublishes(warm[..n], k);
      var before := Ours(warm[..n], k);
      assert before + [] == before;
      assert Mine(k, before + [warm[n].samples]) == Mine(k, before) + [Append(k, warm[n].samples)];
    }
  }

  /** The viewers of a well with one log are sent the same frames in the same order as in the serial run. */
  lemma ViewersSeeSerialRun(e: Engine, steps: seq<Step>, keys: seq<LogKey>, k: LogKey)
    requires Schedulable(e, steps, keys) && WarmInv(e) && k in e.logs
    requires forall j :: j in e.logs ==> j in keys && (j.well == k.well ==> j == k)
    ensures Run(e, Serial(steps, keys)).Some?
    ensures WellAppends(Run(e, steps).value.warm, k.well) ==
            WellAppends(Run(e, Serial(steps, keys)).value.warm, k.well)
  {
    hide Run, Serial, Ours, Joined, SamplesOf, EngineInv, WellAppends;
    TickIsSerial(e, steps, keys);
    SerialWorkers(steps, keys);
    SameShape(e, steps);
    WorkersWarm(e, steps);
    WorkersWarm(e, Serial(steps, keys));
    LoneLogPublishes(Run(e, steps).value.warm, k);
    LoneLogPublishes(Run(e, Serial(steps, keys)).value.warm, k);
  }

  // ---- curves fed by two logs ----------------------------------------------------------------

  lemma {:induction false} CurveStreamConcat(a: seq<Append>, b: seq<Append>, well: string, m: string)
    ensures CurveStream(a + b, well, m) == CurveStream(a, well, m) + CurveStream(b, well, m)
  {
    hide OfCurve, Tag, Brings;
    if b == [] {
      assert a + b == a;
    } else {
      var n := |b| - 1;
      assert (a + b)[..|a + b| - 1] == a + b[..n];
      CurveStreamConcat(a, b[..n], well, m);
    }
  }

  lemma {:induction false} StreamOfMine(k: LogKey, appends: seq<seq<Sample>>, m: string)
    ensures CurveStream(Mine(k, appends), k.well, m) == Tag(k, OfCurve(Joined(appends), m))
  {
    hide OfCurve;
    if appends == [] {
      NoPart(k, m);
    } else {
      var n := |appends| - 1;
      StreamOfMine(k, appends[..n], m);
      assert Mine(k, appends)[..n] == Mine(k, appends[..n]);
      OfCurveConcat(Joined(appends[..n]), appends[n], m);
      TagConcat(k, OfCurve(Joined(appends[..n]), m), OfCurve(appends[n], m));
    }
  }

  /** A log's actions on their own add its appends to the store, behind what there is. */
  lemma {:induction false} AloneAppends(e: Engine, k: LogKey, acts: seq<Action>)
    requires k in e.logs && Run(e, DoAll(k, acts)).Some?
    ensures Fold(e.logs[k], acts).Some?
    ensures Run(e, DoAll(k, acts)).value.warm == e.warm + Mine(k, HandedBy(e.logs[k], acts))
  {
    hide Act, HandedOver, Permits, ActiveKeys, Run, Local, Mine, WithAppend;
    LogsAreIsolated(e, DoAll(k, acts), k);
    LocalOfOne(k, acts, k);
    if acts == [] {
      RunNothing(e, DoAll(k, acts));
      assert e.warm + Mine(k, []) == e.warm;
    } else {
      var n := |acts| - 1;
      var front := DoAll(k, acts[..n]);
      assert DoAll(k, acts) == front + [Do(k, acts[n])];
      LastAppend(e, front, k, acts[n]);
      AloneAppends(e, k, acts[..n]);
      LogsAreIsolated(e, front, k);
      LocalOfOne(k, acts[..n], k);
      var samples := HandedOver(Run(e, front).value.logs[k], acts[n]);
      var before := HandedBy(e.logs[k], acts[..n]);
      MoreOfMine(e.warm, k, before, samples);
    }
  }

  lemma RunNothing(e: Engine, steps: seq<Step>)
    requires steps == []
    ensures Run(e, steps) == Some(e)
  {
  }

  lemma LastAppend(e: Engine, front: seq<Step>, k: LogKey, a: Action)
    requires Run(e, front + [Do(k, a)]).Some?
    ensures Run(e, front).Some? && k in Run(e, front).value.logs
    ensures var mid := Run(e, front).value;
            Run(e, front + [Do(k, a)]).value.warm == WithAppend(mid.warm, k, HandedOver(mid.logs[k], a))
  {
    hide Act, HandedOver, Permits;
    assert (front + [Do(k, a)])[..|front|] == front;
  }

  lemma MoreOfMine(warm: seq<Append>, k: LogKey, before: seq<seq<Sample>>, samples: seq<Sample>)
    ensures WithAppend(warm + Mine(k, before), k, samples) ==
            warm + Mine(k, before + if samples == [] then [] else [samples])
  {
    if samples == [] {
      assert before + [] == before;
    } else {
      assert Mine(k, before + [samples]) == Mine(k, before) + [Append(k, samples)];
    }
  }

  /** What a log gives a curve in a tick. */
  ghost function Gives(e: Engine, steps: seq<Step>, k: LogKey, m: string): seq<Sample>
    requires WorkersOnly(steps) && Run(e, steps).Some? && k in e.logs
  {
    LogsAreIsolated(e, steps, k);
    OfCurve(Joined(HandedBy(e.logs[k], Local(steps, k))), m)
  }

  /** Running one log and then another appends the first one's samples and then the second one's. */
  lemma TwoInOrder(e: Engine, steps: seq<Step>, j: LogKey, k: LogKey, m: string)
    requires Schedulable(e, steps, [j, k]) && j != k && j.well == k.well
    ensures Run(e, Serial(steps, [j, k])).Some?
    ensures CurveStream(Run(e, Serial(steps, [j, k])).value.warm, k.well, m) ==
            CurveStream(e.warm, k.well, m) + Tag(j, Gives(e, steps, j, m)) + Tag(k, Gives(e, steps, k, m))
  {
    hide Run, Local, Fold, Joined, OfCurve, EngineInv, AllIdle, CurveStream, Tag, Mine, HandedBy, DoAll;
    assert [j, k][0] == j && [j, k][1] == k;
    SerialRuns(e, steps, [j, k]);
    LogsAreIsolated(e, steps, j);
    LogsAreIsolated(e, steps, k);
    var first, second := DoAll(j, Local(steps, j)), DoAll(k, Local(steps, k));
    SerialOfTwo(steps, j, k);
    RunSplit(e, first, second);
    var mid := Run(e, first).value;
    AllDo(j, Local(steps, j));
    LogsAreIsolated(e, first, k);
    LocalOfOne(j, Local(steps, j), k);
    FoldNothing(e.logs[k]);
    AloneAppends(e, j, Local(steps, j));
    AloneAppends(mid, k, Local(steps, k));
    var a, b := Mine(j, HandedBy(e.logs[j], Local(steps, j))), Mine(k, HandedBy(e.logs[k], Local(steps, k)));
    CurveStreamConcat(e.warm + a, b, k.well, m);
    CurveStreamConcat(e.warm, a, k.well, m);
    StreamOfMine(j, HandedBy(e.logs[j], Local(steps, j)), m);
    StreamOfMine(k, HandedBy(e.logs[k], Local(steps, k)), m);
  }

  lemma SerialOfTwo(steps: seq<Step>, j: LogKey, k: LogKey)
    ensures Serial(steps, [j, k]) == DoAll(j, Local(steps, j)) + DoAll(k, Local(steps, k))
  {
    hide Local, DoAll;
    assert [j, k][..1] == [j] && [j][..0] == [];
    assert Serial(steps, [j]) == [] + DoAll(j, Local(steps, j));
  }

  /**
   * Two logs of a well that share a curve. Running them in either order is a schedule of the same tick, and the two
   * end with different streams of the curve if and only if both logs deliver a sample of it. When their first ones
   * differ, the buffers differ too, if they have room for what the tick delivers.
   */
  lemma SharedCurveDependsOnOrder(e: Engine, steps: seq<Step>, j: LogKey, k: LogKey, m: string, max: nat)
    requires Schedulable(e, steps, [j, k]) && Schedulable(e, steps, [k, j]) && j != k && j.well == k.well
    ensures Run(e, Serial(steps, [j, k])).Some? && Run(e, Serial(steps, [k, j])).Some?
    ensures j in e.logs && k in e.logs
    ensures var one, two := Run(e, Serial(steps, [j, k])).value.warm, Run(e, Serial(steps, [k, j])).value.warm;
            var a, b := Gives(e, steps, j, m), Gives(e, steps, k, m);
            && (CurveStream(one, k.well, m) != CurveStream(two, k.well, m) <==> a != [] && b != [])
            && (a != [] && b != [] && a[0] != b[0] && max >= |a| + |b| ==>
                  Curve(StoreOf(one, max), k.well, m) != Curve(StoreOf(two, max), k.well, m))
  {
    hide Run, Serial, CurveStream, OfCurve, Joined, EngineInv, AllIdle, HandedBy, Local, StoreOf, Curve, Untag, Tag,
         LastN;
    assert [j, k][0] == j && [j, k][1] == k;
    TwoInOrder(e, steps, j, k, m);
    TwoInOrder(e, steps, k, j, m);
    var one, two := Run(e, Serial(steps, [j, k])).value.warm, Run(e, Serial(steps, [k, j])).value.warm;
    var a, b, before := Gives(e, steps, j, m), Gives(e, steps, k, m), CurveStream(e.warm, k.well, m);
    SwappedTags(before, j, a, k, b);
    BufferIsStreamTail(one, max, k.well, m);
    BufferIsStreamTail(two, max, k.well, m);
    UntagTwo(before, j, a, k, b);
    UntagTwo(before, k, b, j, a);
    if a != [] && b != [] && a[0] != b[0] && max >= |a| + |b| {
      SwappedTails(Untag(before), a, b, max);
    }
  }

  lemma SwappedTags(before: seq<Tagged>, j: LogKey, a: seq<Sample>, k: LogKey, b: seq<Sample>)
    requires j != k
    ensures before + Tag(j, a) + Tag(k, b) != before + Tag(k, b) + Tag(j, a) <==> a != [] && b != []
  {
    var one, two := before + Tag(j, a) + Tag(k, b), before + Tag(k, b) + Tag(j, a);
    if a != [] && b != [] {
      assert one[|before|] == Tagged(j, a[0]) && two[|before|] == Tagged(k, b[0]);
    } else {
      assert Tag(j, []) == [] && Tag(k, []) == [];
      assert one == two;
    }
  }

  lemma UntagTwo(before: seq<Tagged>, j: LogKey, a: seq<Sample>, k: LogKey, b: seq<Sample>)
    ensures Untag(before + Tag(j, a) + Tag(k, b)) == Untag(before) + a + b
  {
    UntagMore(before + Tag(j, a), k, b);
    UntagMore(before, j, a);
  }

  lemma SwappedTails(before: seq<Sample>, a: seq<Sample>, b: seq<Sample>, max: nat)
    requires a != [] && b != [] && a[0] != b[0] && max >= |a| + |b|
    ensures LastN(before + a + b, max) != LastN(before + b + a, max)
  {
    var one, two := before + a + b, before + b + a;
    var k := if |one| <= max then 0 else |one| - max;
    var at := |before| - k;
    assert LastN(one, max) == one[k..] && LastN(two, max) == two[k..];
    assert one[k..][at] == one[|before|] == a[0];
    assert two[k..][at] == two[|before|] == b[0];
  }
}
