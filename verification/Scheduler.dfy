/** One poll of one log, run from start to end: fetch, advance the cursor, fill the warm store, fan out. */
module Scheduler {
  import opened Order
  import opened Blocks
  import opened Polling
  import opened LogPages
  import opened Client
  import opened FetchRun
  import opened Paging
  import opened Ingestion
  import opened ExactlyOnce
  import opened SharedStore
  import opened IndexCache
  import opened RingBuffer

  datatype LogHeader = LogHeader(well: string, wellbore: string, uid: string, indexType: IndexType,
                                 indexCurve: Option<string>, direction: Direction, growing: Option<bool>,
                                 uom: Option<string>, mnemonics: seq<string>)

  function Others(names: seq<string>, index: string): (r: seq<string>)
    ensures forall m :: m in r <==> m in names && m != index
  {
    if names == [] then [] else
      var front := Others(names[..|names| - 1], index);
      if names[|names| - 1] != index then front + [names[|names| - 1]] else front
  }

  /** They keep the order they had. */
  lemma {:induction false} OthersInOrder(names: seq<string>, index: string)
    ensures Subsequence(Others(names, index), names)
  {
    hide Subsequence;
    if names != [] {
      var n := |names| - 1;
      OthersInOrder(names[..n], index);
      assert names == names[..n] + [names[n]];
      SubsequenceSkips(Others(names[..n], index), names[..n], names[n]);
      SubsequenceTakes(Others(names[..n], index), names[..n], names[n]);
    } else {
      NothingIsSubsequence(names);
    }
  }

  /** `_state_from_header`: no cursor yet, and the index mnemonic leads. */
  function StateFromHeader(h: LogHeader): (s: LogState)
    ensures s.last.None?
    ensures s.indexType == h.indexType && s.direction == h.direction && s.uom == h.uom && s.growing == h.growing
    ensures match h.indexCurve
            case Some(name) => name != "" ==> s.indexMnemonic == name
            case None => s.indexMnemonic == if h.mnemonics == [] then "" else h.mnemonics[0]
    ensures h.indexCurve == Some("") ==> s.indexMnemonic == if h.mnemonics == [] then "" else h.mnemonics[0]
    ensures s.indexMnemonic != "" ==> s.mnemonics != [] && s.mnemonics[0] == s.indexMnemonic
    ensures forall m :: m in s.mnemonics <==> m in h.mnemonics || (m == s.indexMnemonic && m != "")
  {
    var index := if h.indexCurve.Some? && h.indexCurve.value != "" then h.indexCurve.value
                 else if h.mnemonics != [] then h.mnemonics[0] else "";
    var names := if index != "" then [index] + Others(h.mnemonics, index) else h.mnemonics;
    LogState(h.indexType, h.direction, h.uom, index, names, None, h.growing)
  }

  function ByMnemonic(samples: seq<Sample>): map<string, seq<Point>> {
    if samples == [] then map[] else
      var front := ByMnemonic(samples[..|samples| - 1]);
      var s := samples[|samples| - 1];
      front[s.mnemonic := (if s.mnemonic in front then front[s.mnemonic] else []) + [ToWire(s)]]
  }

  function Wire(samples: seq<Sample>): seq<Point> {
    seq(|samples|, i requires 0 <= i < |samples| => ToWire(samples[i]))
  }

  lemma WireConveys(samples: seq<Sample>)
    ensures Conveys(Wire(samples), samples)
  {
  }

  /** The published frame carries, per curve, exactly the samples appended to that curve. */
  lemma {:induction false} FrameIsWhatWasAppended(samples: seq<Sample>, m: string)
    ensures m in ByMnemonic(samples) <==> OfCurve(samples, m) != []
    ensures m in ByMnemonic(samples) ==> ByMnemonic(samples)[m] == Wire(OfCurve(samples, m))
    ensures m in ByMnemonic(samples) ==> Conveys(ByMnemonic(samples)[m], OfCurve(samples, m))
  {
    if samples != [] {
      var n := |samples| - 1;
      FrameIsWhatWasAppended(samples[..n], m);
      if samples[n].mnemonic == m {
        assert Wire(OfCurve(samples, m)) == Wire(OfCurve(samples[..n], m)) + [ToWire(samples[n])];
      }
    }
  }

  /** What one poll makes of a log's state and of a fetch: the new state and the samples handed over. */
  function Polled(s: LogState, result: Result<Block, FetchError>): (r: (LogState, seq<Sample>))
    ensures result.Err? ==> r == (s, [])
    ensures result.Ok? ==> r.0 == s.(last := r.0.last, growing := Some(true))
  {
    match result
    case Err(_) => (s, [])
    case Ok(block) =>
      var next := ContinuationIndex(block.rows, s.direction);
      var deduped := DedupeBoundary(block, s.last, s.direction);
      (s.(last := if next.Some? then next else s.last, growing := Some(true)), SamplesOf(deduped, deduped.rows))
  }

  class IngestionScheduler {
    const serverId: int
    const store: RingBufferStore

    constructor (serverId: int, store: RingBufferStore)
      ensures this.serverId == serverId && this.store == store
    {
      this.serverId := serverId;
      this.store := store;
    }

    function KeyOf(h: LogHeader): LogKey {
      LogKey(serverId, h.well, h.wellbore, h.uid)
    }

    /** Logs are told apart by well, wellbore and uid. */
    lemma KeysTell(g: LogHeader, h: LogHeader)
      ensures KeyOf(g) == KeyOf(h) <==> (g.well, g.wellbore, g.uid) == (h.well, h.wellbore, h.uid)
      ensures KeyOf(h).server == serverId
    {
    }

    function StateOf(h: LogHeader): LogState
      reads store
    {
      if KeyOf(h) in store.states then store.states[KeyOf(h)] else StateFromHeader(h)
    }

    /** What the fetch of a poll returns, its server given. */
    function FetchOf(s: LogState, server: Server): Result<Block, FetchError> {
      Outcome(Drive(server, Begin(s.last), s.direction, MAX_TRUNCATION_ITERATIONS),
              [s.indexMnemonic] + Others(s.mnemonics, s.indexMnemonic))
    }

    /**
     * `_do_ingest_log` up to persistence: on a failed fetch, or when the header carries only the index curve,
     * nothing changes; otherwise the cursor advances, the curves of the well gain the samples, and each viewer's
     * queue takes one frame with them if there are any. No other log's state is touched.
     */
    method DoIngestLog(h: LogHeader, server: Server) returns (failed: bool)
      requires forall q :: q in store.Queues(h.well) ==> q.Valid()
      modifies store, store.Queues(h.well)
      ensures var s := old(StateOf(h));
              var polls := Others(s.mnemonics, s.indexMnemonic) != [];
              var result := FetchOf(s, server);
              var (s', samples) := Polled(s, result);
              && failed == (polls && result.Err?)
              && store.subscribers == old(store.subscribers)
              && (polls && result.Ok? ==>
                    && store.states == old(store.states)[KeyOf(h) := s']
                    && store.curves == Appended(old(store.curves), h.well, samples, store.maxSamples)
                    && forall q :: q in store.Queues(h.well) ==>
                         q.Valid() &&
                         q.items == if samples == [] then old(q.items)
                                    else Offer(old(q.items), q.maxsize, Frame(h.well, ByMnemonic(samples))))
              && (!polls || result.Err? ==>
                    && store.states == old(store.states) && store.curves == old(store.curves)
                    && forall q :: q in store.Queues(h.well) ==> q.Valid() && q.items == old(q.items))
      ensures var s := old(StateOf(h));
              !failed && Others(s.mnemonics, s.indexMnemonic) != [] ==>
                StateOf(h) == s.(last := StateOf(h).last, growing := Some(true))
      ensures forall g: LogHeader :: (g.well, g.wellbore, g.uid) != (h.well, h.wellbore, h.uid) ==>
                StateOf(g) == old(StateOf(g))
      ensures forall k: LogKey ::
                (k.server, k.well, k.wellbore, k.uid) != (serverId, h.well, h.wellbore, h.uid) ==>
                  (k in store.states <==> k in old(store.states)) &&
                  (k in store.states ==> store.states[k] == old(store.states)[k])
    {
      hide Drive, Outcome, SamplesOf, ByMnemonic, Appended, Dedupe, Newest, Offer, Others, StateFromHeader;
      failed := false;
      var s := StateOf(h);
      var curves := Others(s.mnemonics, s.indexMnemonic);
      if curves == [] {
        return;
      }
      var result := GetLogData(server, s.direction, s.last, [s.indexMnemonic] + curves);
      if result.Err? {
        return true;
      }
      var block := result.value;
      var deduped := DedupeBoundary(block, s.last, s.direction);
      var samples := Samples(deduped);
      var next := ContinuationIndex(block.rows, s.direction);
      if next.Some? {
        s := s.(last := next);
      }
      s := s.(growing := Some(true));
      store.PutLogState(KeyOf(h), s);
      if samples == [] {
        NothingAppended(store.curves, h.well, store.maxSamples);
        return;
      }
      store.Append(h.well, samples);
      var byMnemonic := GroupForWire(samples);
      store.Publish(h.well, Frame(h.well, byMnemonic));
    }

    static method GroupForWire(samples: seq<Sample>) returns (byMnemonic: map<string, seq<Point>>)
      ensures byMnemonic == ByMnemonic(samples)
      ensures forall m :: m in byMnemonic ==> Conveys(byMnemonic[m], OfCurve(samples, m))
    {
      byMnemonic := map[];
      for i := 0 to |samples|
        invariant byMnemonic == ByMnemonic(samples[..i])
      {
        assert samples[..i + 1][..i] == samples[..i];
        var s := samples[i];
        var points := if s.mnemonic in byMnemonic then byMnemonic[s.mnemonic] else [];
        byMnemonic := byMnemonic[s.mnemonic := points + [ToWire(s)]];
      }
      assert samples[..|samples|] == samples;
      forall m | m in byMnemonic
        ensures Conveys(byMnemonic[m], OfCurve(samples, m))
      {
        FrameIsWhatWasAppended(samples, m);
      }
    }
  }

  /** The worker of a log that has finished a fetch, as the engine's transition system sees it. */
  function Finishing(s: LogState, content: Log, q: Query): LogRun {
    LogRun(content, q, true, s.last, None, None, [], [], Idle, true)
  }

  /**
   * A poll in one go, of a log that grows between its pages: it hands over the samples of exactly the rows between
   * its old cursor and its new one, in ascending order, and of nothing else.
   */
  lemma PollHandsOverSpan(s: LogState, server: Server, content: nat -> Log, q: Query)
    requires GrowingLog(content, q) && ServedBy(server, content, q) && q.end.None? && s.direction == q.d
    requires s.last.Some? ==> s.last.value in content(0) && Regained(content(0), q, s.last.value)
    ensures var f := Drive(server, Begin(s.last), q.d, MAX_TRUNCATION_ITERATIONS);
            var (s', samples) := Polled(s, Outcome(f, q.mnemonics));
            var span := Span(content(f.requests), q.d, s.last, s'.last);
            && samples == SamplesOf(Block(q.mnemonics, q.units, []), Listing(Increasing, span))
            && (s.last.Some? ==> s'.last.Some? && !Before(q.d, s'.last.value, s.last.value))
            && (s'.last.Some? ==> s'.last.value in content(f.requests))
  {
    hide Drive, Outcome, SamplesOf, Span, Listing, SafeLog, FetchInv, Anchored, PagingInv, Deliver, Dedupe, Newest,
         Regained, Scope, GrowingLog;
    var f := Drive(server, Begin(s.last), q.d, MAX_TRUNCATION_ITERATIONS);
    var r := Finishing(s, content(f.requests), q);
    FetchAsHeld(s, server, content, q);
    DeliverEffect(r, f);
    FetchHeaded(f, content(f.requests), q, s.last);
    OutcomeHeaded(f, q);
    DeliveredBlock(s, r, f);
    var rows := Listing(Increasing, Span(r.content, q.d, s.last, Deliver(r, f).cursor));
    assert [] + rows == rows;
    var block := Outcome(f, q.mnemonics).value;
    var deduped := DedupeBoundary(block, s.last, q.d);
    assert [] + deduped.rows == deduped.rows;
    assert deduped.rows == rows;
    if block.rows == [] {
      DedupeNothing(s.last, q.d);
      SamplesOfStep(deduped, [], Row(None, []));
      SamplesOfStep(HeadersOf(r), [], Row(None, []));
    } else {
      SamplesByHeaders(deduped, HeadersOf(r), rows);
    }
  }

  lemma FetchAsHeld(s: LogState, server: Server, content: nat -> Log, q: Query)
    requires GrowingLog(content, q) && ServedBy(server, content, q)
    requires s.last.Some? ==> s.last.value in content(0) && Regained(content(0), q, s.last.value)
    requires q.end.None?
    ensures var f := Drive(server, Begin(s.last), q.d, MAX_TRUNCATION_ITERATIONS);
            var r := Finishing(s, content(f.requests), q);
            && FetchHolds(f, r) && f.requests > 0 && !f.status.Failed? && SafeLog(r.content, q)
  {
    hide Drive, FetchInv, Anchored, Regained, SafeLog;
    DriveKeepsPaging(server, content, q, s.last, MAX_TRUNCATION_ITERATIONS);
    if s.last.Some? {
      FromRow(content(0), q, s.last.value);
      DriveResumes(server, content, q, s.last.value, MAX_TRUNCATION_ITERATIONS);
    }
    DriveRequests(server, s.last, q.d);
  }

  lemma FromRow(log: Log, q: Query, c: Index)
    requires SafeLog(log, q) && c in log && q.end.None?
    ensures c in Scope(log, q, Some(c))
  {
    OnWireLaws(q.d, q.wire, c, c);
  }

  lemma DriveRequests(server: Server, start: Option<Index>, d: Direction)
    ensures Drive(server, Begin(start), d, MAX_TRUNCATION_ITERATIONS).requests > 0
  {
    hide Absorb, Drive;
    var inv := (f: Fetch) => f.requests > 0 || f == Begin(start);
    forall f | inv(f) && !Finished(f, MAX_TRUNCATION_ITERATIONS)
      ensures inv(Absorb(f, server(f.requests, f.cursor), d))
    {
      Counted(f, server(f.requests, f.cursor), d);
    }
    DriveKeeps(server, Begin(start), d, MAX_TRUNCATION_ITERATIONS, inv);
  }

  lemma Counted(f: Fetch, reply: Reply, d: Direction)
    ensures Absorb(f, reply, d).requests == f.requests + 1
  {
  }

  /** What the poll makes of a fetch is what the transition system delivers. */
  lemma DeliveredBlock(s: LogState, r: LogRun, f: Fetch)
    requires s.last == r.cursor && s.direction == r.query.d && Outcome(f, r.query.mnemonics).Ok?
    ensures var block := Outcome(f, r.query.mnemonics).value;
            var deduped := DedupeBoundary(block, s.last, s.direction);
            && Polled(s, Outcome(f, r.query.mnemonics)).1 == SamplesOf(deduped, deduped.rows)
            && Polled(s, Outcome(f, r.query.mnemonics)).0.last == Deliver(r, f).cursor
            && Deliver(r, f).delivered == r.delivered + deduped.rows
  {
    hide Outcome, SamplesOf, Dedupe, Newest;
  }
}
