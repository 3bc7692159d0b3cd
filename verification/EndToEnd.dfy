/** From the log on the store to the browser: once everything is delivered, a curve shown is the log's newest part. */
module EndToEnd {
  import opened Order
  import opened Blocks
  import opened FetchRun
  import opened Ingestion
  import opened EngineRuns
  import opened SharedStore
  import opened RingBuffer
  import opened Scheduler
  import opened Hub
  import View = LiveView

  function SamplesIn(appends: seq<Append>): (r: seq<seq<Sample>>)
    ensures |r| == |appends| && forall i :: 0 <= i < |r| ==> r[i] == appends[i].samples
  {
    seq(|appends|, i requires 0 <= i < |appends| => appends[i].samples)
  }

  /** The frames published to the viewers of a well, by all its logs. */
  function FramesOf(warm: seq<Append>, well: string): seq<View.Batch> {
    Frames(SamplesIn(WellAppends(warm, well)))
  }

  /** What a well's appends give a curve is the shared curve. */
  lemma {:induction false} WellCurve(warm: seq<Append>, well: string, m: string)
    ensures Appends(SamplesIn(WellAppends(warm, well)), m) == Untag(CurveStream(warm, well, m))
  {
    hide OfCurve, Untag;
    if warm == [] {
      NothingShared(m);
    } else {
      var n := |warm| - 1;
      var a := warm[n];
      var front := WellAppends(warm[..n], well);
      WellCurve(warm[..n], well, m);
      UntagMore(CurveStream(warm[..n], well, m), a.key, Brings(a, well, m));
      if a.key.well == well {
        assert SamplesIn(front + [a]) == SamplesIn(front) + [a.samples];
        assert (SamplesIn(front) + [a.samples])[..|front|] == SamplesIn(front);
      } else {
        assert front + [] == front;
        assert Untag(CurveStream(warm[..n], well, m)) + [] == Untag(CurveStream(warm[..n], well, m));
      }
    }
  }

  lemma NothingShared(m: string)
    ensures Appends(SamplesIn([]), m) == [] == Untag([])
  {
  }

  /** The stream of a curve that viewers follow is the shared curve, on the wire. */
  lemma ViewersFollowStore(warm: seq<Append>, well: string, m: string)
    ensures View.Stream(FramesOf(warm, well), |FramesOf(warm, well)|, m) == Wire(Untag(CurveStream(warm, well, m)))
  {
    hide Wire, Untag, CurveStream, Appends, View.Stream, Frames, WellAppends;
    var appends := SamplesIn(WellAppends(warm, well));
    WellCurve(warm, well, m);
    StreamIsWhatWasAppended(appends, |appends|, m);
    assert appends[..|appends|] == appends;
  }

  /** The hub's snapshot of the warm store is the view's snapshot of the frames published so far. */
  lemma SnapshotOfStore(warm: seq<Append>, well: string, max: nat)
    requires max >= 1
    ensures SnapshotCurves(StoreOf(warm, max), well) == View.SnapshotOf(max, FramesOf(warm, well))
  {
    hide SnapshotCurves, View.SnapshotOf, Curve, StoreOf, LastN, Appends, Untag, CurveStream, WellAppends, Frames;
    var appends := SamplesIn(WellAppends(warm, well));
    forall m
      ensures Curve(StoreOf(warm, max), well, m) == LastN(Appends(appends, m), max)
    {
      BufferIsStreamTail(warm, max, well, m);
      WellCurve(warm, well, m);
    }
    SnapshotIsViewSnapshot(StoreOf(warm, max), well, appends, max);
  }

  /** The log's own curve: the points of the rows between two cursors, in order. */
  function LogCurve(r: LogRun, from: Option<Index>, m: string): seq<Point> {
    Wire(OfCurve(SamplesOf(HeadersOf(r), Listing(Increasing, Span(r.content, r.query.d, from, r.cursor))), m))
  }

  /**
   * What a viewer reads off the log: the point is a cell that is not null, in a column headed `m`, of a row beyond
   * `from` and not beyond the cursor, with that row's index and that column's unit.
   */
  predicate Shows(r: LogRun, from: Option<Index>, m: string, x: Index, col: int, p: Point) {
    && x in r.content && (from.Some? ==> Before(r.query.d, from.value, x))
    && r.cursor.Some? && !Before(r.query.d, r.cursor.value, x)
    && 1 <= col < |r.query.mnemonics| && r.query.mnemonics[col] == m && col - 1 < |r.content[x]|
    && p.i == x.at && Reads(r.content[x][col - 1], p.v, p.t)
    && p.u == if col < |r.query.units| then r.query.units[col] else None
  }

  /** No two columns after the first are headed `m`. */
  predicate OneColumn(mnemonics: seq<string>, m: string) {
    forall c, e :: 1 <= c < e < |mnemonics| ==> !(mnemonics[c] == m && mnemonics[e] == m)
  }

  /** The points are all of the log's in column `m`, and no others, by ascending index. */
  ghost predicate IsCurve(points: seq<Point>, r: LogRun, from: Option<Index>, m: string) {
    && (forall p :: p in points <==> exists x, col :: Shows(r, from, m, x, col, p))
    && (forall i, j :: 0 <= i < j < |points| ==> points[i].i <= points[j].i)
    && (OneColumn(r.query.mnemonics, m) ==> forall i, j :: 0 <= i < j < |points| ==> points[i].i < points[j].i)
  }

  lemma {:induction false} OfCurveMeaning(samples: seq<Sample>, m: string, s: Sample)
    ensures s in OfCurve(samples, m) <==> s in samples && s.mnemonic == m
  {
    if samples != [] {
      var n := |samples| - 1;
      assert samples == samples[..n] + [samples[n]];
      OfCurveMeaning(samples[..n], m, s);
    }
  }

  lemma {:induction false} OfCurveInOrder(samples: seq<Sample>, m: string)
    ensures Subsequence(OfCurve(samples, m), samples)
  {
    hide Subsequence;
    if samples != [] {
      var n := |samples| - 1;
      OfCurveInOrder(samples[..n], m);
      assert samples == samples[..n] + [samples[n]];
      SubsequenceSkips(OfCurve(samples[..n], m), samples[..n], samples[n]);
      SubsequenceTakes(OfCurve(samples[..n], m), samples[..n], samples[n]);
    } else {
      NothingIsSubsequence(samples);
    }
  }

  /** The samples of a curve in a listing of a log. */
  lemma ListedMeaning(b: Block, log: Log, m: string, s: Sample)
    ensures s in OfCurve(SamplesOf(b, Listing(Increasing, log)), m) <==>
            s.mnemonic == m && s.index in log && exists col :: IsSampleOf(b, Row(Some(s.index), log[s.index]), col, s)
  {
    hide OfCurve, SamplesOf, IsSampleOf;
    var rows := Listing(Increasing, log);
    var order := Sorted(Increasing, log.Keys);
    OfCurveMeaning(SamplesOf(b, rows), m, s);
    SamplesMeaning(b, rows, s);
    if i, col :| 0 <= i < |rows| && IsSampleOf(b, rows[i], col, s) {
      SampleAt(b, rows[i], col, s);
      assert order[i] in order;
    }
    if s.index in log {
      ListingAt(Increasing, log, s.index);
      var i :| 0 <= i < |rows| && rows[i] == Row(Some(s.index), log[s.index]);
      if col :| IsSampleOf(b, Row(Some(s.index), log[s.index]), col, s) {
        assert IsSampleOf(b, rows[i], col, s);
      }
    }
  }

  lemma SampleAt(b: Block, row: Row, col: int, s: Sample)
    requires IsSampleOf(b, row, col, s)
    ensures row.index == Some(s.index) && 1 <= col < |b.mnemonics| && b.mnemonics[col] == s.mnemonic
  {
  }

  lemma ListedInOrder(b: Block, log: Log, m: string, i: nat, j: nat)
    requires i < j < |OfCurve(SamplesOf(b, Listing(Increasing, log)), m)|
    ensures var c := OfCurve(SamplesOf(b, Listing(Increasing, log)), m);
            c[i].index.at <= c[j].index.at && (OneColumn(b.mnemonics, m) ==> c[i].index.at < c[j].index.at)
  {
    hide OfCurve, SamplesOf, IsSampleOf, Subsequence;
    var rows := Listing(Increasing, log);
    var all := SamplesOf(b, rows);
    var c := OfCurve(all, m);
    OfCurveInOrder(all, m);
    SubsequenceInOrder(c, all, i, j);
    var p, q :| 0 <= p < q < |all| && all[p] == c[i] && all[q] == c[j];
    OfCurveMeaning(all, m, c[i]);
    OfCurveMeaning(all, m, c[j]);
    SamplesInOrder(b, rows, p, q);
    var f, a, g, e :| 0 <= f <= g < |rows| && (f == g ==> a < e) && IsSampleOf(b, rows[f], a, c[i]) &&
                      IsSampleOf(b, rows[g], e, c[j]);
    SampleAt(b, rows[f], a, c[i]);
    SampleAt(b, rows[g], e, c[j]);
  }

  /** The log's own curve holds the log's cells. */
  lemma LogCurveMeaning(r: LogRun, from: Option<Index>, m: string)
    ensures IsCurve(LogCurve(r, from, m), r, from, m)
  {
    hide OfCurve, SamplesOf, Wire, Listing, Shows, IsSampleOf, OneColumn;
    var span := Span(r.content, r.query.d, from, r.cursor);
    var samples := OfCurve(SamplesOf(HeadersOf(r), Listing(Increasing, span)), m);
    var points := LogCurve(r, from, m);
    WireConveys(samples);
    forall p
      ensures p in points <==> exists x, col :: Shows(r, from, m, x, col, p)
    {
      if p in points {
        var i :| 0 <= i < |points| && points[i] == p;
        ListedMeaning(HeadersOf(r), span, m, samples[i]);
        var col :| IsSampleOf(HeadersOf(r), Row(Some(samples[i].index), span[samples[i].index]), col, samples[i]);
        HeldIsShown(r, from, m, col, samples[i], p);
      }
      if x, col :| Shows(r, from, m, x, col, p) {
        var s := Sample(m, x, p.v, p.t, p.u);
        ShownAt(r, from, m, x, col, p);
        HeldIsShown(r, from, m, col, s, p);
        ListedMeaning(HeadersOf(r), span, m, s);
        var i :| 0 <= i < |samples| && samples[i] == s;
        assert points[i] == p;
      }
    }
    forall i, j | 0 <= i < j < |points|
      ensures points[i].i <= points[j].i && (OneColumn(r.query.mnemonics, m) ==> points[i].i < points[j].i)
    {
      ListedInOrder(HeadersOf(r), span, m, i, j);
    }
  }

  lemma ShownAt(r: LogRun, from: Option<Index>, m: string, x: Index, col: int, p: Point)
    requires Shows(r, from, m, x, col, p)
    ensures p.i == x.at
  {
  }

  lemma HeldIsShown(r: LogRun, from: Option<Index>, m: string, col: int, s: Sample, p: Point)
    requires p.i == s.index.at && p.v == s.value && p.t == s.text && p.u == s.uom && s.mnemonic == m
    ensures var span := Span(r.content, r.query.d, from, r.cursor);
            Shows(r, from, m, s.index, col, p) <==>
            s.index in span && IsSampleOf(HeadersOf(r), Row(Some(s.index), span[s.index]), col, s)
  {
  }

  /** In every run the stream of a curve that one increasing log feeds is that log's curve since the last start. */
  lemma StreamIsLogCurve(e: Engine, steps: seq<Step>, k: LogKey, m: string)
    requires Initial(e) && Run(e, steps).Some? && k in Run(e, steps).value.logs
    requires Run(e, steps).value.logs[k].query.d.Increasing? && SoleFeeder(Run(e, steps).value.logs, k, m)
    ensures var e' := Run(e, steps).value;
            var frames := FramesOf(e'.warm, k.well);
            && View.Stream(frames, |frames|, m) == LogCurve(e'.logs[k], e'.logs[k].resume, m)
            && IsCurve(View.Stream(frames, |frames|, m), e'.logs[k], e'.logs[k].resume, m)
  {
    LogCurveMeaning(Run(e, steps).value.logs[k], Run(e, steps).value.logs[k].resume, m);
    hide IsCurve;
    hide Run, SamplesOf, OfCurve, Wire, Listing, Span, Untag, CurveStream, SoleFeeder, LogInv, View.Stream, FramesOf,
         Joined;
    var e' := Run(e, steps).value;
    RunKeeps(e, steps);
    StoreGetsWhatIsDelivered(e, steps);
    InvAt(e', k);
    DeliveredOnce(e'.logs[k]);
    SoleFeederStream(e', k, m);
    UntagMore([], k, OfCurve(SamplesOf(HeadersOf(e'.logs[k]), e'.logs[k].delivered), m));
    ViewersFollowStore(e'.warm, k.well, m);
  }

  /**
   * The whole pipeline. However the store grows, workers interleave, polls fail and the engine restarts, and
   * whatever the socket does: when nothing is left under way and no full queue dropped a frame, each curve the
   * browser shows that one increasing log feeds is the newest part of that log's own curve since the last start of
   * the engine, up to the cursor: every row once and in order, at most the window long. A point of that curve is
   * the value or text of a cell, with its index and unit, and no cell of the curve is missing.
   */
  lemma BrowserShowsLog(e: Engine, steps: seq<Step>, k: LogKey, v0: View.View, viewSteps: seq<View.ViewStep>,
                        m: string)
    requires Initial(e) && Run(e, steps).Some? && k in Run(e, steps).value.logs
    requires Run(e, steps).value.logs[k].query.d.Increasing? && SoleFeeder(Run(e, steps).value.logs, k, m)
    requires View.Opened(v0) && View.Run(v0, viewSteps).Some?
    requires View.Run(v0, viewSteps).value.batches == FramesOf(Run(e, steps).value.warm, k.well)
    ensures var r, v := Run(e, steps).value.logs[k], View.Run(v0, viewSteps).value;
            v.subscribed && View.Pending(v) == [] && !v.overflowed ==>
              View.IsTail(View.At(v.buffer, m), LogCurve(r, r.resume, m), v.window, View.Shown(v))
    ensures var r := Run(e, steps).value.logs[k];
            IsCurve(LogCurve(r, r.resume, m), r, r.resume, m)
  {
    hide IsCurve;
    LogCurveMeaning(Run(e, steps).value.logs[k], Run(e, steps).value.logs[k].resume, m);
    hide Run, View.Run, LogCurve, View.IsTail, View.Stream, FramesOf, View.Pending, View.Opened, Initial, SoleFeeder;
    StreamIsLogCurve(e, steps, k, m);
    View.BrowserShowsTail(v0, viewSteps, m);
  }

  /** With clean stops only, that curve continues where the rows before the restart ended: together they are all. */
  lemma StartsContinue(e: Engine, steps: seq<Step>, k: LogKey, m: string)
    requires Initial(e) && Run(e, steps).Some? && CleanStops(steps) && k in Run(e, steps).value.logs
    requires Run(e, steps).value.logs[k].query.d.Increasing?
    ensures var r := Run(e, steps).value.logs[k];
            Wire(OfCurve(SamplesOf(HeadersOf(r), r.past), m)) + LogCurve(r, r.resume, m) == LogCurve(r, None, m)
  {
    hide Run, SamplesOf, OfCurve, Wire, Listing, Span, LogInv;
    var r := Run(e, steps).value.logs[k];
    var headers := HeadersOf(r);
    RunKeeps(e, steps);
    InvAt(Run(e, steps).value, k);
    DeliveredOnce(r);
    ExactlyOnceOverRuns(e, steps, k, headers);
    OfCurveConcat(SamplesOf(headers, r.past), SamplesOf(headers, r.delivered), m);
    WireOfConcat(OfCurve(SamplesOf(headers, r.past), m), OfCurve(SamplesOf(headers, r.delivered), m));
  }
}
