/**
 * From the scheduler's append and publish, through the hub's queue and socket, to the browser's windowed buffer:
 * the viewer of a well always sees a contiguous piece of the stream.
 */
module LiveView {
  import opened Numbers
  import opened Order
  import opened RingBuffer

  const SNAPSHOT_LIMIT: nat := 300
  const QUEUE_SIZE: nat := 256

  type Batch = map<string, seq<Point>>

  function At(curves: Batch, m: string): seq<Point> {
    if m in curves then curves[m] else []
  }

  /** Everything appended to one curve of the viewed well by the first `n` batches. */
  function Stream(batches: seq<Batch>, n: nat, m: string): seq<Point>
    requires n <= |batches|
  {
    if n == 0 then [] else Stream(batches, n - 1, m) + At(batches[n - 1], m)
  }

  function CurveNames(batches: seq<Batch>): set<string> {
    set i, m | 0 <= i < |batches| && m in batches[i] :: m
  }

  /** A message on the socket; the version counts the batches behind it and is read by nobody. */
  datatype Message = SnapshotFrame(curves: Batch, version: nat) | DataFrame(curves: Batch, version: nat)

  /**
   * One viewer of one well. `batches` are the appends so far, each with its publish; `hand` is what the drain task
   * has taken off the queue and not finished sending; `wire` is in the socket.
   */
  datatype View = View(
    maxSamples: nat, window: nat,
    batches: seq<Batch>,
    connected: bool, subscribed: bool, draining: bool,
    queue: seq<Message>, hand: Option<Message>, wire: seq<Message>,
    buffer: Batch, seen: Option<nat>, intact: bool,
    overflowed: bool)

  datatype ViewStep =
    | AppendAndPublish(batch: Batch)      // one poll's samples: no suspension between the two
    | Connect
    | Subscribe                           // queue and snapshot in one go; a resubscription releases the old queue
    | StartDrain
    | Take                                // the drain task takes the head of the queue
    | Send                                // and finishes sending it
    | Unsubscribe
    | Receive                             // the browser handles the next message
    | Disconnect                          // the socket is lost with everything queued or under way

  /** `_snapshot_frame`: the newest samples of every curve of the well that has any. */
  function SnapshotOf(maxSamples: nat, batches: seq<Batch>): Batch {
    map m | m in CurveNames(batches) && LastN(Stream(batches, |batches|, m), maxSamples) != [] ::
      LastN(LastN(Stream(batches, |batches|, m), maxSamples), SNAPSHOT_LIMIT)
  }

  /** `appendWindowed`: curves without points are skipped, a snapshot replaces, data appends. */
  function Windowed(target: Batch, incoming: Batch, window: nat, replace: bool): Batch {
    target + map m | m in incoming && incoming[m] != [] :: Scrolled(target, m, incoming[m], window, replace)
  }

  /** The loop of `appendWindowed`. */
  method AppendWindowed(target: Batch, incoming: Batch, window: nat, replace: bool) returns (r: Batch, changed: bool)
    ensures r == Windowed(target, incoming, window, replace)
    ensures changed <==> exists m :: m in incoming && incoming[m] != []
  {
    hide Scrolled, LastN, Windowed;
    r, changed := target, false;
    var names := incoming.Keys;
    NothingScrolled(target, incoming, window, replace);
    while names != {}
      invariant names <= incoming.Keys
      invariant r == Windowed(target, Without(incoming, names), window, replace)
      invariant changed <==> exists m :: m in incoming && m !in names && incoming[m] != []
      decreases |names|
    {
      var m :| m in names;
      var points := incoming[m];
      ScrollOne(target, incoming, names, m, window, replace);
      names := names - {m};
      if points == [] {
        continue;
      }
      var existing := if replace then [] else if m in r then r[m] else [];
      var merged := existing + points;
      r := r[m := if |merged| > window then merged[|merged| - window..] else merged];
      changed := true;
    }
    assert Without(incoming, names) == incoming;
  }

  function Without(curves: Batch, names: set<string>): Batch {
    map m | m in curves && m !in names :: curves[m]
  }

  lemma NothingScrolled(target: Batch, incoming: Batch, window: nat, replace: bool)
    ensures Windowed(target, Without(incoming, incoming.Keys), window, replace) == target
  {
  }

  lemma ScrollOne(target: Batch, incoming: Batch, names: set<string>, m: string, window: nat, replace: bool)
    requires m in names && m in incoming
    ensures var r := Windowed(target, Without(incoming, names), window, replace);
            var existing := if replace then [] else if m in r then r[m] else [];
            var merged := existing + incoming[m];
            Windowed(target, Without(incoming, names - {m}), window, replace) ==
            if incoming[m] == [] then r
            else r[m := if |merged| > window then merged[|merged| - window..] else merged]
  {
    hide Windowed;
    var less, more := Without(incoming, names), Without(incoming, names - {m});
    var r, r' := Windowed(target, less, window, replace), Windowed(target, more, window, replace);
    WindowedAt(target, less, window, replace, m);
    assert At(r, m) == At(target, m);
    var result := if incoming[m] == [] then r else r[m := Scrolled(target, m, incoming[m], window, replace)];
    forall k
      ensures k in r' <==> k in result
      ensures k in r' ==> r'[k] == result[k]
    {
      WindowedAt(target, less, window, replace, k);
      WindowedAt(target, more, window, replace, k);
    }
    assert r' == result;
  }

  lemma WindowedAt(target: Batch, incoming: Batch, window: nat, replace: bool, m: string)
    ensures var r := Windowed(target, incoming, window, replace);
            && (m in r <==> m in target || (m in incoming && incoming[m] != []))
            && (m in incoming && incoming[m] != [] ==> r[m] == Scrolled(target, m, incoming[m], window, replace))
            && (m in target && !(m in incoming && incoming[m] != []) ==> r[m] == target[m])
  {
  }

  function Scrolled(target: Batch, m: string, points: seq<Point>, window: nat, replace: bool): seq<Point> {
    LastN((if replace then [] else At(target, m)) + points, window)
  }

  function Next(v: View, s: ViewStep): Option<View> {
    match s
    case AppendAndPublish(batch) =>
      var w := v.(batches := v.batches + [batch]);
      if !v.subscribed then Some(w)
      else Some(w.(queue := Offer(v.queue, QUEUE_SIZE, DataFrame(batch, |v.batches|)),
                   overflowed := v.overflowed || |v.queue| >= QUEUE_SIZE))
    case Connect =>
      if v.connected then None else Some(v.(connected := true))
    case Subscribe =>
      if !v.connected then None
      else Some(v.(subscribed := true, draining := false, queue := [], hand := None,
                   wire := v.wire + [SnapshotFrame(SnapshotOf(v.maxSamples, v.batches), |v.batches|)]))
    case StartDrain =>
      if v.subscribed && !v.draining then Some(v.(draining := true)) else None
    case Take =>
      if v.draining && v.hand.None? && v.queue != []
      then Some(v.(queue := v.queue[1..], hand := Some(v.queue[0]))) else None
    case Send =>
      if v.hand.Some? then Some(v.(hand := None, wire := v.wire + [v.hand.value])) else None
    case Unsubscribe =>
      if v.connected then Some(v.(subscribed := false, draining := false, queue := [], hand := None)) else None
    case Receive =>
      if v.wire == [] then None
      else
        var m := v.wire[0];
        var w := v.(wire := v.wire[1..],
                    buffer := Windowed(v.buffer, m.curves, v.window, m.SnapshotFrame?),
                    intact := m.SnapshotFrame? || (v.intact && v.seen == Some(m.version)));
        Some(w.(seen := Some(if m.SnapshotFrame? then m.version else m.version + 1)))
    case Disconnect =>
      if v.connected
      then Some(v.(connected := false, subscribed := false, draining := false, queue := [], hand := None, wire := []))
      else None
  }

  function Run(v: View, steps: seq<ViewStep>): Option<View> {
    if steps == [] then Some(v) else
      var mid := Run(v, steps[..|steps| - 1]);
      if mid.None? then None else Next(mid.value, steps[|steps| - 1])
  }

  /** A viewer that has just opened the page, of a store that may have been filled before. */
  predicate Opened(v: View) {
    && !v.connected && !v.subscribed && !v.draining && v.queue == [] && v.hand.None? && v.wire == []
    && v.buffer == map[] && v.seen.None? && !v.overflowed && v.maxSamples >= 1
  }

  // ---- streams -------------------------------------------------------------------------------

  lemma {:induction false} StreamPrefix(batches: seq<Batch>, more: seq<Batch>, n: nat, m: string)
    requires n <= |batches|
    ensures Stream(batches + more, n, m) == Stream(batches, n, m)
  {
    if n > 0 {
      StreamPrefix(batches, more, n - 1, m);
    }
  }

  lemma StreamStep(batches: seq<Batch>, n: nat, m: string)
    requires n <= |batches|
    ensures Stream(batches, n, m) == if n == 0 then [] else Stream(batches, n - 1, m) + At(batches[n - 1], m)
  {
  }

  lemma {:induction false} StreamNamed(batches: seq<Batch>, n: nat, m: string)
    requires n <= |batches| && Stream(batches, n, m) != []
    ensures m in CurveNames(batches)
  {
    hide Stream;
    StreamStep(batches, n, m);
    if m !in batches[n - 1] {
      StreamNamed(batches, n - 1, m);
    }
  }

  lemma {:induction false} StreamGrows(batches: seq<Batch>, n: nat, k: nat, m: string)
    requires n <= k <= |batches|
    ensures Stream(batches, n, m) <= Stream(batches, k, m)
    decreases k
  {
    if n < k {
      StreamGrows(batches, n, k - 1, m);
    }
  }

  // ---- the invariant -------------------------------------------------------------------------

  /** The fewest points a curve with enough history shows. */
  function Shown(v: View): nat {
    Min(v.window, Min(SNAPSHOT_LIMIT, v.maxSamples))
  }

  /** `points` are the newest of `stream`, at most the window and, history permitting, at least `shown`. */
  ghost predicate IsTail(points: seq<Point>, stream: seq<Point>, window: nat, shown: nat) {
    && |points| <= window && |points| <= |stream|
    && points == stream[|stream| - |points|..]
    && |points| >= Min(|stream|, shown)
  }

  ghost predicate BufferIsTail(v: View, n: nat)
    requires n <= |v.batches|
  {
    forall m :: IsTail(At(v.buffer, m), Stream(v.batches, n, m), v.window, Shown(v))
  }

  predicate Genuine(v: View, m: Message) {
    if m.SnapshotFrame? then m.version <= |v.batches| && m.curves == SnapshotOf(v.maxSamples, v.batches[..m.version])
    else m.version < |v.batches| && m.curves == v.batches[m.version]
  }

  function After(m: Message): nat {
    if m.SnapshotFrame? then m.version else m.version + 1
  }

  /** Versions never go back along the messages. */
  predicate Ascending(from: nat, messages: seq<Message>)
    decreases |messages|
  {
    messages == [] || (messages[0].version >= from && Ascending(After(messages[0]), messages[1..]))
  }

  /** Data continues exactly where the message before it ended. */
  predicate Chained(from: Option<nat>, messages: seq<Message>)
    decreases |messages|
  {
    messages == [] ||
    ((messages[0].DataFrame? ==> from == Some(messages[0].version)) && Chained(Some(After(messages[0])), messages[1..]))
  }

  function EndOf(from: Option<nat>, messages: seq<Message>): Option<nat> {
    if messages == [] then from else Some(After(messages[|messages| - 1]))
  }

  /** What is on its way: the socket, then the drain task's hand, then the queue. */
  function Pending(v: View): seq<Message> {
    v.wire + (if v.hand.Some? then [v.hand.value] else []) + v.queue
  }

  function SeenOr0(v: View): nat {
    if v.seen.Some? then v.seen.value else 0
  }

  /** What of the invariant does not depend on the messages under way. */
  ghost predicate BrowserInv(v: View) {
    && v.maxSamples >= 1
    && (v.seen.Some? ==> v.seen.value <= |v.batches|)
    && (forall m :: At(v.buffer, m) != [] ==> v.seen.Some? && Stream(v.batches, v.seen.value, m) != [])
    && (v.seen.Some? && v.intact ==> BufferIsTail(v, v.seen.value))
  }

  /** What holds of the messages under way. */
  ghost predicate PendingInv(v: View) {
    && (forall i :: 0 <= i < |Pending(v)| ==> Genuine(v, Pending(v)[i]))
    && Ascending(SeenOr0(v), Pending(v))
    && (v.seen.None? && Pending(v) != [] ==> Pending(v)[0].SnapshotFrame?)
    && (forall i :: 0 <= i < |v.queue| ==> v.queue[i].DataFrame?)
    && (v.hand.Some? ==> v.hand.value.DataFrame?)
    && (!v.subscribed ==> v.hand.None? && v.queue == [])
    && (!v.connected ==> !v.subscribed && v.wire == [])
    && (v.subscribed ==> EndOf(v.seen, Pending(v)) == Some(|v.batches|))
    && |v.queue| <= QUEUE_SIZE
    && (!v.overflowed ==> (v.seen.Some? ==> v.intact) && Chained(v.seen, Pending(v)))
  }

  ghost predicate ViewInv(v: View) {
    BrowserInv(v) && PendingInv(v)
  }

  // ---- chains of messages --------------------------------------------------------------------

  lemma {:induction false} ChainedConcat(from: Option<nat>, a: seq<Message>, b: seq<Message>)
    ensures Chained(from, a + b) <==> Chained(from, a) && Chained(EndOf(from, a), b)
    ensures EndOf(from, a + b) == EndOf(EndOf(from, a), b)
    decreases |a|
  {
    if a == [] {
      assert a + b == b;
    } else {
      assert (a + b)[1..] == a[1..] + b;
      ChainedConcat(Some(After(a[0])), a[1..], b);
      assert EndOf(from, a) == EndOf(Some(After(a[0])), a[1..]);
    }
  }

  function Reach(from: nat, messages: seq<Message>): nat {
    if messages == [] then from else After(messages[|messages| - 1])
  }

  lemma {:induction false} AscendingConcat(from: nat, a: seq<Message>, b: seq<Message>)
    ensures Ascending(from, a + b) <==> Ascending(from, a) && Ascending(Reach(from, a), b)
    decreases |a|
  {
    if a == [] {
      assert a + b == b;
    } else {
      assert (a + b)[1..] == a[1..] + b;
      AscendingConcat(After(a[0]), a[1..], b);
      assert Reach(from, a) == Reach(After(a[0]), a[1..]);
    }
  }

  /** Dropping a message from the middle keeps the order of versions. */
  lemma AscendingDrop(from: nat, a: seq<Message>, x: Message, b: seq<Message>)
    requires Ascending(from, a + [x] + b)
    ensures Ascending(from, a + b)
  {
    assert a + [x] + b == a + ([x] + b);
    AscendingConcat(from, a, [x] + b);
    AscendingConcat(from, a, b);
    assert ([x] + b)[1..] == b;
    AscendingFromLower(Reach(from, a), After(x), b);
  }

  lemma AscendingFromLower(low: nat, high: nat, b: seq<Message>)
    requires low <= high && Ascending(high, b)
    ensures Ascending(low, b)
  {
  }

  // ---- growth of the stream ------------------------------------------------------------------

  lemma GenuineGrows(v: View, batch: Batch, m: Message)
    requires Genuine(v, m)
    ensures Genuine(v.(batches := v.batches + [batch]), m)
  {
    hide SnapshotOf;
    if m.SnapshotFrame? {
      assert (v.batches + [batch])[..m.version] == v.batches[..m.version];
    }
  }

  lemma TailGrows(v: View, batch: Batch, n: nat)
    requires n <= |v.batches| && BufferIsTail(v, n)
    ensures BufferIsTail(v.(batches := v.batches + [batch]), n)
  {
    hide IsTail, Stream;
    forall m
      ensures Stream(v.batches + [batch], n, m) == Stream(v.batches, n, m)
    {
      StreamPrefix(v.batches, [batch], n, m);
    }
  }

  lemma BrowserGrows(v: View, batch: Batch)
    requires BrowserInv(v)
    ensures BrowserInv(v.(batches := v.batches + [batch]))
  {
    hide BufferIsTail, Stream;
    if v.seen.Some? {
      var n := v.seen.value;
      if v.intact {
        TailGrows(v, batch, n);
      }
      forall m
        ensures Stream(v.batches + [batch], n, m) == Stream(v.batches, n, m)
      {
        StreamPrefix(v.batches, [batch], n, m);
      }
    }
  }

  // ---- the browser handles a message ---------------------------------------------------------

  lemma TailOfTail(stream: seq<Point>, max: nat, window: nat, shown: nat)
    requires shown == Min(window, Min(SNAPSHOT_LIMIT, max))
    ensures IsTail(LastN(LastN(LastN(stream, max), SNAPSHOT_LIMIT), window), stream, window, shown)
  {
    hide LastN, IsTail;
    LastNShorter(stream, max, SNAPSHOT_LIMIT);
    LastNShorter(stream, Min(SNAPSHOT_LIMIT, max), window);
    NewestAreTail(stream, window, shown);
  }

  lemma NewestAreTail(stream: seq<Point>, window: nat, shown: nat)
    requires shown <= window
    ensures IsTail(LastN(stream, shown), stream, window, shown)
  {
    LastNIsTail(stream, shown);
  }

  lemma TailExtends(points: seq<Point>, stream: seq<Point>, more: seq<Point>, window: nat, shown: nat)
    requires IsTail(points, stream, window, shown) && shown <= window
    ensures IsTail(LastN(points + more, window), stream + more, window, shown)
  {
    var all := stream + more;
    assert points + more == all[|stream| - |points|..];
    var r := LastN(points + more, window);
    SuffixOfSuffix(all, |stream| - |points|, |points + more| - |r|);
  }

  lemma ReceiveSnapshot(v: View, m: Message)
    requires BrowserInv(v) && m.SnapshotFrame? && Genuine(v, m) && m.version >= SeenOr0(v)
    ensures BrowserInv(v.(buffer := Windowed(v.buffer, m.curves, v.window, true), intact := true,
                          seen := Some(m.version)))
  {
    hide Windowed, IsTail, LastN, Stream;
    var n := m.version;
    var w := v.(buffer := Windowed(v.buffer, m.curves, v.window, true), intact := true, seen := Some(n));
    forall c
      ensures IsTail(At(w.buffer, c), Stream(v.batches, n, c), v.window, Shown(v))
      ensures At(w.buffer, c) != [] ==> Stream(v.batches, n, c) != []
    {
      SnapshotCurve(v, m, c);
    }
  }

  /** A snapshot holds the newest samples of every curve. */
  lemma SnapshotAt(max: nat, batches: seq<Batch>, c: string)
    ensures At(SnapshotOf(max, batches), c) == LastN(LastN(Stream(batches, |batches|, c), max), SNAPSHOT_LIMIT)
  {
    hide Stream, CurveNames;
    var stream := Stream(batches, |batches|, c);
    if stream != [] {
      StreamNamed(batches, |batches|, c);
    }
  }

  lemma WindowedCurve(target: Batch, incoming: Batch, window: nat, replace: bool, c: string)
    ensures At(Windowed(target, incoming, window, replace), c) ==
            if At(incoming, c) != [] then LastN((if replace then [] else At(target, c)) + At(incoming, c), window)
            else At(target, c)
  {
    hide Windowed, LastN;
    WindowedAt(target, incoming, window, replace, c);
  }

  lemma SnapshotCurve(v: View, m: Message, c: string)
    requires BrowserInv(v) && m.SnapshotFrame? && Genuine(v, m) && m.version >= SeenOr0(v)
    ensures var shown := At(Windowed(v.buffer, m.curves, v.window, true), c);
            && IsTail(shown, Stream(v.batches, m.version, c), v.window, Shown(v))
            && (shown != [] ==> Stream(v.batches, m.version, c) != [])
  {
    hide Windowed, BufferIsTail, Stream, SnapshotOf, LastN;
    var n := m.version;
    var stream := Stream(v.batches, n, c);
    SplitStream(v.batches, n, c);
    SnapshotAt(v.maxSamples, v.batches[..n], c);
    WindowedCurve(v.buffer, m.curves, v.window, true, c);
    var newest := LastN(LastN(stream, v.maxSamples), SNAPSHOT_LIMIT);
    NewestEmpty(stream, v.maxSamples);
    if stream == [] {
      if v.seen.Some? {
        StreamGrows(v.batches, v.seen.value, n, c);
      }
      assert At(v.buffer, c) == [];
    } else {
      assert [] + newest == newest;
      TailOfTail(stream, v.maxSamples, v.window, Shown(v));
    }
  }

  lemma NewestEmpty(stream: seq<Point>, max: nat)
    requires max >= 1
    ensures LastN(LastN(stream, max), SNAPSHOT_LIMIT) == [] <==> stream == []
  {
  }

  lemma SplitStream(batches: seq<Batch>, n: nat, c: string)
    requires n <= |batches|
    ensures |batches[..n]| == n && Stream(batches[..n], n, c) == Stream(batches, n, c)
  {
    assert batches[..n] + batches[n..] == batches;
    StreamPrefix(batches[..n], batches[n..], n, c);
  }

  lemma ReceiveData(v: View, m: Message)
    requires BrowserInv(v) && m.DataFrame? && Genuine(v, m) && v.seen.Some? && m.version >= v.seen.value
    ensures BrowserInv(v.(buffer := Windowed(v.buffer, m.curves, v.window, false),
                          intact := v.intact && v.seen == Some(m.version), seen := Some(m.version + 1)))
  {
    hide Windowed, IsTail, LastN, Stream;
    var n := m.version;
    var w := v.(buffer := Windowed(v.buffer, m.curves, v.window, false),
                intact := v.intact && v.seen == Some(m.version), seen := Some(n + 1));
    forall c
      ensures At(w.buffer, c) != [] ==> Stream(v.batches, n + 1, c) != []
      ensures w.intact ==> IsTail(At(w.buffer, c), Stream(v.batches, n + 1, c), v.window, Shown(v))
    {
      DataCurve(v, m, c);
    }
  }

  lemma DataCurve(v: View, m: Message, c: string)
    requires BrowserInv(v) && m.DataFrame? && Genuine(v, m) && v.seen.Some? && m.version >= v.seen.value
    ensures var shown := At(Windowed(v.buffer, m.curves, v.window, false), c);
            && (shown != [] ==> Stream(v.batches, m.version + 1, c) != [])
            && (v.intact && v.seen == Some(m.version) ==>
                  IsTail(shown, Stream(v.batches, m.version + 1, c), v.window, Shown(v)))
  {
    hide Windowed, Stream;
    var n := m.version;
    StreamStep(v.batches, n + 1, c);
    WindowedAt(v.buffer, m.curves, v.window, false, c);
    StreamGrows(v.batches, v.seen.value, n, c);
    if v.intact && v.seen == Some(n) {
      TailExtends(At(v.buffer, c), Stream(v.batches, n, c), At(m.curves, c), v.window, Shown(v));
      TailFits(At(v.buffer, c), Stream(v.batches, n, c), v.window, Shown(v));
    }
  }

  lemma TailFits(points: seq<Point>, stream: seq<Point>, window: nat, shown: nat)
    requires IsTail(points, stream, window, shown)
    ensures LastN(points + [], window) == points && stream + [] == stream
  {
    assert points + [] == points;
  }

  // ---- every step keeps the invariant --------------------------------------------------------

  lemma PendingGrows(v: View, batch: Batch)
    requires PendingInv(v) && !v.subscribed
    ensures PendingInv(v.(batches := v.batches + [batch]))
  {
    hide Genuine, Ascending, Chained;
    forall i | 0 <= i < |Pending(v)|
      ensures Genuine(v.(batches := v.batches + [batch]), Pending(v)[i])
    {
      GenuineGrows(v, batch, Pending(v)[i]);
    }
  }

  /** A message that continues the pending ones. */
  lemma PendingPlus(v: View, w: View, m: Message)
    requires PendingInv(v) && v.subscribed && w.subscribed && w.connected && v.connected
    requires w.seen == v.seen && w.intact == v.intact && w.hand == v.hand && w.overflowed == v.overflowed
    requires Pending(w) == Pending(v) + [m] && |w.queue| <= QUEUE_SIZE
    requires forall i :: 0 <= i < |w.queue| ==> w.queue[i].DataFrame?
    requires forall i :: 0 <= i < |Pending(w)| ==> Genuine(w, Pending(w)[i])
    requires m == DataFrame(m.curves, |v.batches|) && |w.batches| == |v.batches| + 1
    ensures PendingInv(w)
  {
    hide Genuine, Pending;
    ChainedConcat(v.seen, Pending(v), [m]);
    AscendingConcat(SeenOr0(v), Pending(v), [m]);
    PendingReach(v);
    assert [m][1..] == [];
  }

  lemma PendingReach(v: View)
    requires PendingInv(v) && v.subscribed
    ensures Reach(SeenOr0(v), Pending(v)) == |v.batches|
  {
    hide Genuine, Pending, Ascending, Chained;
  }

  lemma AppendKeeps(v: View, batch: Batch)
    requires ViewInv(v)
    ensures ViewInv(Next(v, AppendAndPublish(batch)).value)
  {
    hide BrowserInv, Genuine, Ascending, Chained, EndOf, PendingInv;
    var w := Next(v, AppendAndPublish(batch)).value;
    BrowserGrows(v, batch);
    BrowserSame(v.(batches := v.batches + [batch]), w);
    if !v.subscribed {
      PendingGrows(v, batch);
    } else {
      PublishKeeps(v, batch);
    }
  }

  lemma BrowserSame(v: View, w: View)
    requires BrowserInv(v)
    requires w.maxSamples == v.maxSamples && w.window == v.window && w.batches == v.batches
    requires w.buffer == v.buffer && w.seen == v.seen && w.intact == v.intact
    ensures BrowserInv(w)
  {
    hide IsTail, Stream;
  }

  lemma PublishKeeps(v: View, batch: Batch)
    requires PendingInv(v) && v.subscribed
    ensures PendingInv(Next(v, AppendAndPublish(batch)).value)
  {
    hide Ascending, Chained, Genuine;
    var w := Next(v, AppendAndPublish(batch)).value;
    var m := DataFrame(batch, |v.batches|);
    if |v.queue| < QUEUE_SIZE {
      assert w.queue == v.queue + [m];
      assert Pending(w) == Pending(v) + [m];
      GenuinePlus(v, w, batch, Pending(v), m);
      PendingPlus(v, w, m);
    } else {
      assert w.queue == v.queue[1..] + [m];
      OverflowKeeps(v, w, batch, m);
    }
  }

  lemma GenuinePlus(v: View, w: View, batch: Batch, messages: seq<Message>, m: Message)
    requires forall i :: 0 <= i < |messages| ==> Genuine(v, messages[i])
    requires w.batches == v.batches + [batch] && w.maxSamples == v.maxSamples && m == DataFrame(batch, |v.batches|)
    ensures forall i :: 0 <= i < |messages + [m]| ==> Genuine(w, (messages + [m])[i])
  {
    hide SnapshotOf;
    forall i | 0 <= i < |messages|
      ensures Genuine(w, messages[i])
    {
      GenuineGrows(v, batch, messages[i]);
    }
  }

  /** A full queue gives up its oldest message: versions still ascend, the end is still the newest. */
  lemma OverflowKeeps(v: View, w: View, batch: Batch, m: Message)
    requires PendingInv(v) && v.subscribed && |v.queue| == QUEUE_SIZE
    requires m == DataFrame(batch, |v.batches|)
    requires w == v.(batches := v.batches + [batch], queue := v.queue[1..] + [m], overflowed := true)
    ensures PendingInv(w)
  {
    hide Genuine, Chained, Ascending, Reach;
    var front := v.wire + (if v.hand.Some? then [v.hand.value] else []);
    var rest := v.queue[1..];
    assert Pending(v) == front + [v.queue[0]] + rest;
    assert Pending(w) == front + rest + [m];
    PendingReach(v);
    OverflowAscends(SeenOr0(v), front, v.queue[0], rest, m);
    forall i | 0 <= i < |front + rest|
      ensures Genuine(v, (front + rest)[i])
    {
      assert (front + rest)[i] == Pending(v)[if i < |front| then i else i + 1];
    }
    GenuinePlus(v, w, batch, front + rest, m);
    if v.seen.None? {
      assert Pending(v)[0] == (front + [v.queue[0]])[0];
      assert v.queue[0].DataFrame?;
      assert Pending(w)[0] == front[0] == Pending(v)[0];
    }
  }

  /** Dropping a message and adding one that comes after all of them keeps the versions ascending. */
  lemma OverflowAscends(from: nat, front: seq<Message>, x: Message, rest: seq<Message>, m: Message)
    requires Ascending(from, front + [x] + rest)
    requires m.version >= Reach(from, front + [x] + rest)
    ensures Ascending(from, front + rest + [m])
  {
    AscendingDrop(from, front, x, rest);
    LowerReach(from, front, x, rest);
    AscendingConcat(from, front + rest, [m]);
    assert [m][1..] == [];
  }

  lemma LowerReach(from: nat, a: seq<Message>, x: Message, b: seq<Message>)
    requires Ascending(from, a + [x] + b)
    ensures Reach(from, a + b) <= Reach(from, a + [x] + b)
  {
    assert a + [x] + b == a + ([x] + b);
    AscendingConcat(from, a, [x] + b);
    if b == [] {
      assert a + b == a;
      assert (a + [x] + b)[|a|] == x;
    }
  }

  /** Messages that are only a beginning of the pending ones. */
  lemma PendingPrefix(v: View, prefix: seq<Message>, suffix: seq<Message>)
    requires PendingInv(v) && Pending(v) == prefix + suffix
    ensures forall i :: 0 <= i < |prefix| ==> Genuine(v, prefix[i])
    ensures Ascending(SeenOr0(v), prefix)
    ensures v.seen.None? && prefix != [] ==> prefix[0].SnapshotFrame?
    ensures !v.overflowed ==> Chained(v.seen, prefix)
  {
    hide Genuine, Pending;
    AscendingConcat(SeenOr0(v), prefix, suffix);
    ChainedConcat(v.seen, prefix, suffix);
    forall i | 0 <= i < |prefix|
      ensures Genuine(v, prefix[i])
    {
      assert prefix[i] == Pending(v)[i];
    }
  }

  lemma WirePrefix(v: View)
    ensures Pending(v) == v.wire + ((if v.hand.Some? then [v.hand.value] else []) + v.queue)
  {
  }

  lemma SubscribeKeeps(v: View)
    requires ViewInv(v) && v.connected
    ensures ViewInv(Next(v, Subscribe).value)
  {
    hide BrowserInv, Ascending, Chained, SnapshotOf;
    var w := Next(v, Subscribe).value;
    var m := SnapshotFrame(SnapshotOf(v.maxSamples, v.batches), |v.batches|);
    BrowserSame(v, w);
    WirePrefix(v);
    PendingPrefix(v, v.wire, (if v.hand.Some? then [v.hand.value] else []) + v.queue);
    assert Pending(w) == v.wire + [m];
    assert v.batches[..|v.batches|] == v.batches;
    assert Genuine(w, m);
    forall i | 0 <= i < |v.wire|
      ensures Genuine(w, v.wire[i])
    {
      assert Genuine(v, v.wire[i]);
    }
    ChainedConcat(v.seen, v.wire, [m]);
    AscendingConcat(SeenOr0(v), v.wire, [m]);
    OneMessage(EndOf(v.seen, v.wire), Reach(SeenOr0(v), v.wire), m);
    WireReach(v);
  }

  lemma OneMessage(end: Option<nat>, reach: nat, m: Message)
    ensures m.SnapshotFrame? ==> Chained(end, [m])
    ensures m.version >= reach ==> Ascending(reach, [m])
  {
    assert [m][1..] == [];
  }

  lemma WireReach(v: View)
    requires ViewInv(v)
    ensures Reach(SeenOr0(v), v.wire) <= |v.batches|
  {
    hide Ascending, Chained, SnapshotOf, BufferIsTail;
    if v.wire != [] {
      assert Pending(v)[|v.wire| - 1] == v.wire[|v.wire| - 1];
      assert Genuine(v, Pending(v)[|v.wire| - 1]);
    }
  }

  lemma UnsubscribeKeeps(v: View)
    requires ViewInv(v) && v.connected
    ensures ViewInv(Next(v, Unsubscribe).value)
  {
    hide BrowserInv, Ascending, Chained, Genuine;
    var w := Next(v, Unsubscribe).value;
    BrowserSame(v, w);
    WirePrefix(v);
    PendingPrefix(v, v.wire, (if v.hand.Some? then [v.hand.value] else []) + v.queue);
    assert Pending(w) == v.wire;
    SameGenuine(v, w, v.wire);
  }

  lemma SameGenuine(v: View, w: View, messages: seq<Message>)
    requires w.batches == v.batches && w.maxSamples == v.maxSamples
    ensures forall i :: 0 <= i < |messages| ==> (Genuine(w, messages[i]) <==> Genuine(v, messages[i]))
  {
  }

  lemma DisconnectKeeps(v: View)
    requires ViewInv(v) && v.connected
    ensures ViewInv(Next(v, Disconnect).value)
  {
    hide BrowserInv, Genuine;
    BrowserSame(v, Next(v, Disconnect).value);
  }

  lemma ForwardKeeps(v: View, s: ViewStep)
    requires ViewInv(v) && Next(v, s).Some? && (s.Take? || s.Send? || s.StartDrain? || s.Connect?)
    ensures ViewInv(Next(v, s).value)
  {
    hide BrowserInv, Ascending, Chained, Genuine;
    var w := Next(v, s).value;
    BrowserSame(v, w);
    assert Pending(w) == Pending(v);
    SameGenuine(v, w, Pending(v));
  }

  lemma ReceiveKeeps(v: View)
    requires ViewInv(v) && v.wire != []
    ensures ViewInv(Next(v, Receive).value)
  {
    hide BrowserInv, Genuine, Windowed;
    var m := v.wire[0];
    var w := Next(v, Receive).value;
    assert Pending(v)[0] == m && Genuine(v, m);
    assert Pending(w) == Pending(v)[1..];
    if m.SnapshotFrame? {
      ReceiveSnapshot(v, m);
      BrowserSame(v.(buffer := w.buffer, intact := w.intact, seen := w.seen), w);
    } else {
      assert v.seen.Some?;
      ReceiveData(v, m);
      BrowserSame(v.(buffer := w.buffer, intact := w.intact, seen := w.seen), w);
    }
    forall i | 0 <= i < |Pending(w)|
      ensures Genuine(w, Pending(w)[i])
    {
      assert Pending(w)[i] == Pending(v)[i + 1];
      SameGenuine(v, w, [Pending(w)[i]]);
      assert [Pending(w)[i]][0] == Pending(w)[i];
    }
  }

  lemma ViewStepKeeps(v: View, s: ViewStep)
    requires ViewInv(v) && Next(v, s).Some?
    ensures ViewInv(Next(v, s).value)
  {
    hide ViewInv;
    match s
    case AppendAndPublish(batch) => AppendKeeps(v, batch);
    case Subscribe => SubscribeKeeps(v);
    case Unsubscribe => UnsubscribeKeeps(v);
    case Receive => ReceiveKeeps(v);
    case Disconnect => DisconnectKeeps(v);
    case _ => ForwardKeeps(v, s);
  }

  lemma OpenedHolds(v: View)
    requires Opened(v)
    ensures ViewInv(v)
  {
    hide BufferIsTail;
  }

  lemma {:induction false} ViewRunKeeps(v: View, steps: seq<ViewStep>)
    requires Opened(v) && Run(v, steps).Some?
    ensures ViewInv(Run(v, steps).value)
  {
    hide ViewInv, Next;
    if steps == [] {
      OpenedHolds(v);
    } else {
      ViewRunKeeps(v, steps[..|steps| - 1]);
      ViewStepKeeps(Run(v, steps[..|steps| - 1]).value, steps[|steps| - 1]);
    }
  }

  /**
   * The live view. Over any run of appends, publishes, drains, resubscriptions, disconnects and reconnects, from
   * the first snapshot on and unless a full queue dropped a frame, each curve the browser shows is the newest
   * part of the server's stream up to some append: contiguous, at most the window long, and not shorter than
   * history, window, snapshot and ring allow. With nothing left under way it is the newest part of it all.
   */
  lemma BrowserShowsTail(v0: View, steps: seq<ViewStep>, m: string)
    requires Opened(v0) && Run(v0, steps).Some?
    ensures var v := Run(v0, steps).value;
            && (v.seen.Some? ==> v.seen.value <= |v.batches|)
            && (v.seen.Some? && !v.overflowed ==> v.intact)
            && (v.seen.Some? && v.intact ==>
                  IsTail(At(v.buffer, m), Stream(v.batches, v.seen.value, m), v.window, Shown(v)))
            && (v.seen.None? ==> At(v.buffer, m) == [])
            && (v.subscribed && Pending(v) == [] ==> v.seen == Some(|v.batches|))
  {
    hide Run, Ascending, Chained, Genuine, IsTail;
    ViewRunKeeps(v0, steps);
  }

  /** A snapshot always heals the view, whatever was dropped before it. */
  lemma SnapshotHeals(v0: View, steps: seq<ViewStep>, m: string)
    requires Opened(v0) && Run(v0, steps).Some?
    requires var v := Run(v0, steps).value; v.wire != [] && v.wire[0].SnapshotFrame?
    ensures var v := Next(Run(v0, steps).value, Receive).value;
            v.seen.Some? && v.seen.value <= |v.batches| &&
            IsTail(At(v.buffer, m), Stream(v.batches, v.seen.value, m), v.window, Shown(v))
  {
    hide Run, Ascending, Chained, Genuine, IsTail, Windowed;
    ViewRunKeeps(v0, steps);
    ViewStepKeeps(Run(v0, steps).value, Receive);
  }
}
