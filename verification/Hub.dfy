/** The server side of one browser connection: one subscription at a time, a snapshot, then live frames. */
module Hub {
  import opened Order
  import opened Blocks
  import opened RingBuffer
  import opened Scheduler
  import View = LiveView

  /** A frame sent to the browser. */
  datatype Outgoing = Snapshot(frame: Frame) | Data(frame: Frame) | Pong

  /** A message from the browser; `Other` is anything unknown or malformed. */
  datatype Incoming = SubscribeTo(well: string) | UnsubscribeFrom | Ping | Other

  function SnapshotCurves(curves: Curves, well: string): map<string, seq<Point>> {
    map m | m in Wanted(curves, well, []) && Curve(curves, well, m) != [] ::
      Wire(Capped(Newer(Curve(curves, well, m), None), Some(View.SNAPSHOT_LIMIT)))
  }

  /** What was sent apart from answers to pings. */
  function Streamed(sent: seq<Outgoing>): seq<Outgoing> {
    if sent == [] then [] else
      var front := Streamed(sent[..|sent| - 1]);
      if sent[|sent| - 1].Pong? then front else front + [sent[|sent| - 1]]
  }

  lemma StreamedStep(sent: seq<Outgoing>, x: Outgoing)
    ensures Streamed(sent + [x]) == if x.Pong? then Streamed(sent) else Streamed(sent) + [x]
  {
    assert (sent + [x])[..|sent|] == sent;
  }

  function Live(frames: seq<Frame>): (r: seq<Outgoing>)
    ensures |r| == |frames| && forall i :: 0 <= i < |r| ==> r[i] == Data(frames[i])
  {
    seq(|frames|, i requires 0 <= i < |frames| => Data(frames[i]))
  }

  class Session {
    const store: RingBufferStore
    var currentWell: Option<string>
    var currentQueue: BoundedQueue?<Frame>
    var draining: bool
    var sent: seq<Outgoing>

    /** Every queue this session ever subscribed with. */
    ghost var owned: set<BoundedQueue<Frame>>

    /** What was streamed before the current subscription, its snapshot, and the frames drained since. */
    ghost var earlier: seq<Outgoing>
    ghost var snapshot: Frame
    ghost var drained: seq<Frame>

    /** The browser got the current well's snapshot, then the drained frames in order, and no frame before it. */
    ghost predicate SnapshotLeads()
      reads this
    {
      currentWell.Some? ==>
        && Streamed(sent) == earlier + [Snapshot(snapshot)] + Live(drained)
        && snapshot.well == currentWell.value
        && (!draining ==> drained == [])
    }

    /** A session's only registered queue is its current one, under its current well: no queue is left behind. */
    ghost predicate Registered()
      reads this, store
    {
      && (currentWell.Some? <==> currentQueue != null)
      && (draining ==> currentQueue != null)
      && (currentQueue != null ==> currentQueue in owned && currentQueue in store.Queues(currentWell.value))
      && forall w, q :: w in store.subscribers && q in store.subscribers[w] && q in owned ==>
                          currentWell == Some(w) && q == currentQueue
    }

    ghost predicate Valid()
      reads this, store
    {
      Registered() && SnapshotLeads()
    }

    constructor (store: RingBufferStore)
      ensures Valid() && this.store == store && currentWell.None? && !draining && sent == [] && owned == {}
    {
      this.store := store;
      currentWell, currentQueue, draining, sent, owned := None, null, false, [], {};
      earlier, snapshot, drained := [], Frame("", map[]), [];
    }

    /** `_release`: nothing of this session stays subscribed, other sessions keep what they have. */
    method Release()
      requires Valid()
      modifies this, store`subscribers
      ensures Valid() && currentWell.None? && !draining && sent == old(sent) && owned == old(owned)
      ensures forall w :: store.Queues(w) == old(store.Queues(w)) - owned
    {
      draining := false;
      if currentWell.Some? && currentQueue != null {
        store.Unsubscribe(currentWell.value, currentQueue);
      }
      currentWell := None;
      currentQueue := null;
    }

    /** A new queue in place of the old one. */
    method Register(well: string)
      requires Valid()
      modifies this, store`subscribers
      ensures Registered() && currentWell == Some(well) && !draining && sent == old(sent)
      ensures fresh(currentQueue) && currentQueue.items == [] && currentQueue.maxsize == 256
      ensures owned == old(owned) + {currentQueue}
      ensures forall w :: store.Queues(w) ==
                          old(store.Queues(w)) - old(owned) + (if w == well then {currentQueue} else {})
    {
      Release();
      hide SnapshotLeads;
      var q := store.Subscribe(well, View.QUEUE_SIZE);
      currentWell := Some(well);
      currentQueue := q;
      owned := owned + {q};
    }

    /** `_subscribe` up to its first suspension: a new queue in place of the old one, then the snapshot. */
    method Subscribe(well: string)
      requires Valid()
      modifies this, store`subscribers
      ensures Valid() && currentWell == Some(well) && !draining
      ensures fresh(currentQueue) && currentQueue.items == [] && currentQueue.maxsize == 256
      ensures owned == old(owned) + {currentQueue}
      ensures forall w :: store.Queues(w) ==
                          old(store.Queues(w)) - old(owned) + (if w == well then {currentQueue} else {})
      ensures sent == old(sent) + [Snapshot(Frame(well, SnapshotCurves(store.curves, well)))]
      ensures earlier == Streamed(old(sent)) && drained == []
    {
      hide SnapshotCurves, Streamed;
      Register(well);
      var frame := SnapshotFrame(well);
      StreamedStep(sent, Snapshot(frame));
      earlier, snapshot, drained := Streamed(sent), frame, [];
      assert earlier + [Snapshot(snapshot)] + Live([]) == earlier + [Snapshot(snapshot)];
      sent := sent + [Snapshot(frame)];
    }

    /** `_snapshot_frame`. */
    method SnapshotFrame(well: string) returns (frame: Frame)
      ensures frame == Frame(well, SnapshotCurves(store.curves, well))
      ensures forall m :: m in frame.curves <==> Curve(store.curves, well, m) != []
      ensures forall m :: m in frame.curves ==>
                var samples := Curve(store.curves, well, m);
                Conveys(frame.curves[m], if |samples| <= 300 then samples else samples[|samples| - 300..])
    {
      hide Conveys, Wire, Wanted, Capped, Newer;
      var recent := store.GetRecent(well, [], None, Some(View.SNAPSHOT_LIMIT));
      frame := Frame(well, map m | m in recent :: Wire(recent[m]));
      SnapshotConveys(store.curves, well);
    }

    /**
     * The rest of `_subscribe`, once the snapshot is sent: the drain task is created. Whatever was published in
     * between, the last thing streamed when it starts is the snapshot of the current well.
     */
    method StartDrain()
      requires Valid() && currentWell.Some? && !draining
      modifies this`draining
      ensures Valid() && draining
      ensures Streamed(sent) == earlier + [Snapshot(snapshot)] && snapshot.well == currentWell.value
    {
      assert Live(drained) == [];
      assert earlier + [Snapshot(snapshot)] + [] == earlier + [Snapshot(snapshot)];
      draining := true;
    }

    /** One turn of `_drain`: the oldest queued frame is forwarded as it is, behind the snapshot. */
    method DrainOne()
      requires Valid() && draining && currentQueue.Valid()
      modifies this`sent, this`drained, currentQueue
      ensures Valid() && draining && currentQueue == old(currentQueue) && currentQueue.Valid()
      ensures if old(currentQueue.items) == [] then
                sent == old(sent) && drained == old(drained) && currentQueue.items == []
              else
                && sent == old(sent) + [Data(old(currentQueue.items)[0])]
                && drained == old(drained) + [old(currentQueue.items)[0]]
                && currentQueue.items == old(currentQueue.items)[1..]
    {
      var payload := currentQueue.GetNowait();
      if payload.Some? {
        StreamedStep(sent, Data(payload.value));
        assert Live(drained + [payload.value]) == Live(drained) + [Data(payload.value)];
        sent := sent + [Data(payload.value)];
        drained := drained + [payload.value];
      }
    }

    /** The receive loop's dispatch, up to the first suspension of what it starts. */
    method Receive(message: Incoming)
      requires Valid()
      modifies this, store`subscribers
      ensures Valid()
      ensures currentWell == match message
                             case SubscribeTo(well) => if well != "" then Some(well) else old(currentWell)
                             case UnsubscribeFrom => None
                             case _ => old(currentWell)
      ensures forall w :: store.Queues(w) - owned == old(store.Queues(w)) - old(owned)
      ensures sent == old(sent) + match message
                                  case SubscribeTo(well) =>
                                    if well == "" then []
                                    else [Snapshot(Frame(well, SnapshotCurves(store.curves, well)))]
                                  case Ping => [Pong]
                                  case _ => []
    {
      match message {
        case SubscribeTo(well) =>
          if well != "" {
            Subscribe(well);
          }
        case UnsubscribeFrom => Release();
        case Ping =>
          StreamedStep(sent, Pong);
          sent := sent + [Pong];
        case Other =>
      }
    }
  }

  // ---- the hub's snapshot is the view's snapshot ---------------------------------------------

  /** The frames published with a sequence of appends. */
  function Frames(appends: seq<seq<Sample>>): (r: seq<View.Batch>)
    ensures |r| == |appends| && forall i :: 0 <= i < |r| ==> r[i] == ByMnemonic(appends[i])
  {
    seq(|appends|, i requires 0 <= i < |appends| => ByMnemonic(appends[i]))
  }

  lemma WireOfConcat(a: seq<Sample>, b: seq<Sample>)
    ensures Wire(a + b) == Wire(a) + Wire(b)
  {
  }

  lemma WireOfLastN(s: seq<Sample>, n: nat)
    ensures Wire(LastN(s, n)) == LastN(Wire(s), n)
  {
  }

  /** The stream of a curve is what its appends hand over, on the wire. */
  lemma {:induction false} StreamIsWhatWasAppended(appends: seq<seq<Sample>>, n: nat, m: string)
    requires n <= |appends|
    ensures View.Stream(Frames(appends), n, m) == Wire(Appends(appends[..n], m))
    ensures Conveys(View.Stream(Frames(appends), n, m), Appends(appends[..n], m))
  {
    hide ByMnemonic, OfCurve, Wire, Conveys;
    WireConveys(Appends(appends[..n], m));
    if n == 0 {
      NothingWired(appends, m);
    } else {
      StreamIsWhatWasAppended(appends, n - 1, m);
      assert appends[..n][..n - 1] == appends[..n - 1];
      FrameIsWhatWasAppended(appends[n - 1], m);
      NoWire(OfCurve(appends[n - 1], m));
      assert View.At(Frames(appends)[n - 1], m) == Wire(OfCurve(appends[n - 1], m));
      WireOfConcat(Appends(appends[..n - 1], m), OfCurve(appends[n - 1], m));
    }
  }

  lemma NothingWired(appends: seq<seq<Sample>>, m: string)
    ensures Wire(Appends(appends[..0], m)) == []
  {
  }

  lemma NoWire(s: seq<Sample>)
    ensures s == [] <==> Wire(s) == []
  {
  }

  lemma SnapshotConveys(curves: Curves, well: string)
    ensures forall m :: m in SnapshotCurves(curves, well) <==> Curve(curves, well, m) != []
    ensures forall m :: m in SnapshotCurves(curves, well) ==>
              var samples := Curve(curves, well, m);
              Conveys(SnapshotCurves(curves, well)[m],
                      if |samples| <= 300 then samples else samples[|samples| - 300..])
  {
    hide LastN, Wire, SnapshotCurves, Conveys, Curve;
    forall m
      ensures m in SnapshotCurves(curves, well) <==> Curve(curves, well, m) != []
      ensures m in SnapshotCurves(curves, well) ==>
                var samples := Curve(curves, well, m);
                Conveys(SnapshotCurves(curves, well)[m],
                        if |samples| <= 300 then samples else samples[|samples| - 300..])
    {
      SnapshotCurveAt(curves, well, m);
      var samples := Curve(curves, well, m);
      WireOfLastN(samples, View.SNAPSHOT_LIMIT);
      LastNIsSuffix(samples, View.SNAPSHOT_LIMIT);
      WireConveys(LastN(samples, View.SNAPSHOT_LIMIT));
    }
  }

  lemma SnapshotCurveAt(curves: Curves, well: string, m: string)
    ensures m in SnapshotCurves(curves, well) <==> Curve(curves, well, m) != []
    ensures m in SnapshotCurves(curves, well) ==>
              SnapshotCurves(curves, well)[m] == LastN(Wire(Curve(curves, well, m)), View.SNAPSHOT_LIMIT)
  {
    hide LastN, Wire;
    var s := Curve(curves, well, m);
    WireOfLastN(s, View.SNAPSHOT_LIMIT);
    if s != [] {
      assert (well, m) in curves;
    }
  }

  /**
   * When the warm store holds, of each curve of the well, the newest part of everything appended to it, the frame
   * the hub builds is exactly the snapshot of the live view's state machine for the published frames.
   */
  lemma SnapshotIsViewSnapshot(curves: Curves, well: string, appends: seq<seq<Sample>>, max: nat)
    requires max >= 1
    requires forall m :: Curve(curves, well, m) == LastN(Appends(appends, m), max)
    ensures SnapshotCurves(curves, well) == View.SnapshotOf(max, Frames(appends))
  {
    hide SnapshotCurves, LastN, Wire, Frames, ByMnemonic, Curve, Appends, View.Stream, View.CurveNames;
    var snap, view := SnapshotCurves(curves, well), View.SnapshotOf(max, Frames(appends));
    forall m
      ensures m in snap <==> m in view
      ensures m in snap ==> snap[m] == view[m]
    {
      assert appends[..|appends|] == appends;
      StreamIsWhatWasAppended(appends, |appends|, m);
      SnapshotCurveAt(curves, well, m);
      WireOfLastN(Appends(appends, m), max);
      NoWire(Curve(curves, well, m));
      NamedOrEmpty(Frames(appends), m, max);
    }
  }

  lemma NamedOrEmpty(batches: seq<View.Batch>, m: string, max: nat)
    ensures LastN(View.Stream(batches, |batches|, m), max) != [] ==> m in View.CurveNames(batches)
  {
    hide View.Stream, View.CurveNames;
    if View.Stream(batches, |batches|, m) != [] {
      View.StreamNamed(batches, |batches|, m);
    }
  }
}
