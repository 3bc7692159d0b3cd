/** The warm store: bounded per-curve buffers, log states, and bounded subscriber queues that drop the oldest. */
module RingBuffer {
  import opened Order
  import opened Blocks
  import opened Ingestion
  import opened IndexCache

  function LastN<T>(s: seq<T>, n: nat): (r: seq<T>)
    ensures |r| == if |s| <= n then |s| else n
  {
    if |s| <= n then s else s[|s| - n..]
  }

  lemma LastNTwice<T>(s: seq<T>, t: seq<T>, n: nat)
    ensures LastN(LastN(s, n) + t, n) == LastN(s + t, n)
  {
    hide LastN;
    LastNIsSuffix(s, n);
    if |s| > n {
      var k := |s| - n;
      SuffixOfConcat(s, t, k);
      SuffixOfSuffix(s + t, k, |t|);
      LastNIsSuffix(s[k..] + t, n);
      LastNIsSuffix(s + t, n);
    }
  }

  lemma LastNIsSuffix<T>(s: seq<T>, n: nat)
    ensures LastN(s, n) == if |s| <= n then s else s[|s| - n..]
  {
  }

  lemma SuffixOfConcat<T>(s: seq<T>, t: seq<T>, k: nat)
    requires k <= |s|
    ensures s[k..] + t == (s + t)[k..]
  {
  }

  lemma SuffixOfSuffix<T>(s: seq<T>, i: nat, j: nat)
    requires i + j <= |s|
    ensures s[i..][j..] == s[i + j..]
  {
  }

  lemma LastNShorter<T>(s: seq<T>, m: nat, n: nat)
    ensures LastN(LastN(s, m), n) == LastN(s, if m < n then m else n)
  {
    if n < m < |s| {
      SuffixOfSuffix(s, |s| - m, m - n);
    }
  }

  lemma LastNIsTail<T>(s: seq<T>, n: nat)
    ensures |LastN(s, n)| <= |s| && LastN(s, n) == s[|s| - |LastN(s, n)|..]
  {
  }

  // ---- bounded queues ------------------------------------------------------------------------

  /** What a queue holds after an offer: a full queue gives up its oldest item. A bound of 0 is no bound. */
  function Offer<T>(items: seq<T>, maxsize: nat, x: T): seq<T> {
    if maxsize == 0 then items + [x] else LastN(items + [x], maxsize)
  }

  class BoundedQueue<T> {
    var items: seq<T>
    const maxsize: nat

    predicate Valid()
      reads this
    {
      maxsize > 0 ==> |items| <= maxsize
    }

    constructor (maxsize: nat)
      ensures this.maxsize == maxsize && items == [] && Valid()
    {
      this.maxsize := maxsize;
      items := [];
    }

    predicate Full()
      reads this
    {
      maxsize > 0 && |items| >= maxsize
    }

    method GetNowait() returns (r: Option<T>)
      requires Valid()
      modifies this
      ensures Valid()
      ensures if old(items) == [] then r == None && items == []
              else r == Some(old(items)[0]) && items == old(items)[1..]
    {
      if items == [] {
        return None;
      }
      r := Some(items[0]);
      items := items[1..];
    }

    method PutNowait(x: T) returns (ok: bool)
      requires Valid()
      modifies this
      ensures Valid()
      ensures ok == !old(Full()) && items == if ok then old(items) + [x] else old(items)
    {
      ok := !Full();
      if ok {
        items := items + [x];
      }
    }
  }

  /** One sample on the wire, and the frame that carries a poll's samples to the viewers of a well. */
  datatype Point = Point(i: real, v: Option<real>, t: Option<string>, u: Option<string>)

  datatype Frame = Frame(well: string, curves: map<string, seq<Point>>)

  function ToWire(s: Sample): Point {
    Point(s.index.at, s.value, s.text, s.uom)
  }

  /** The points say what the samples do, each its own, in the same order. */
  predicate Conveys(points: seq<Point>, samples: seq<Sample>) {
    && |points| == |samples|
    && forall i :: 0 <= i < |points| ==>
         && points[i].i == samples[i].index.at && points[i].u == samples[i].uom
         && points[i].v == samples[i].value && points[i].t == samples[i].text
  }

  type Curves = map<(string, string), seq<Sample>>

  function Curve(curves: Curves, well: string, m: string): seq<Sample> {
    if (well, m) in curves then curves[(well, m)] else []
  }

  /** The samples of one mnemonic, in order. */
  function OfCurve(samples: seq<Sample>, m: string): seq<Sample> {
    if samples == [] then [] else
      var front := OfCurve(samples[..|samples| - 1], m);
      var s := samples[|samples| - 1];
      if s.mnemonic == m then front + [s] else front
  }

  function Appended(curves: Curves, well: string, samples: seq<Sample>, max: nat): Curves {
    if samples == [] then curves else
      var front := Appended(curves, well, samples[..|samples| - 1], max);
      var s := samples[|samples| - 1];
      front[(well, s.mnemonic) := LastN(Curve(front, well, s.mnemonic) + [s], max)]
  }

  lemma NothingAppended(curves: Curves, well: string, max: nat)
    ensures Appended(curves, well, [], max) == curves
  {
  }

  lemma AppendedStep(curves: Curves, well: string, samples: seq<Sample>, s: Sample, max: nat)
    ensures var front := Appended(curves, well, samples, max);
            Appended(curves, well, samples + [s], max) ==
            front[(well, s.mnemonic) := LastN(Curve(front, well, s.mnemonic) + [s], max)]
  {
    assert (samples + [s])[..|samples|] == samples;
  }

  /** After an append each curve of the well is the newest part of what it held and gained; no other curve changes. */
  lemma {:induction false} AppendedCurve(curves: Curves, well: string, samples: seq<Sample>, max: nat,
                                         w: string, m: string)
    requires |Curve(curves, w, m)| <= max
    ensures Curve(Appended(curves, well, samples, max), w, m) ==
            if w == well then LastN(Curve(curves, w, m) + OfCurve(samples, m), max) else Curve(curves, w, m)
  {
    hide LastN;
    if samples == [] {
      ShortEnough(Curve(curves, w, m), max);
      assert Curve(curves, w, m) + [] == Curve(curves, w, m);
    } else {
      var n := |samples| - 1;
      AppendedCurve(curves, well, samples[..n], max, w, m);
      if w == well && samples[n].mnemonic == m {
        LastNTwice(Curve(curves, w, m) + OfCurve(samples[..n], m), [samples[n]], max);
        assert Curve(curves, w, m) + OfCurve(samples, m) ==
               Curve(curves, w, m) + OfCurve(samples[..n], m) + [samples[n]];
      }
    }
  }

  /** The samples a sequence of appends gives one curve. */
  function Appends(appends: seq<seq<Sample>>, m: string): seq<Sample> {
    if appends == [] then [] else Appends(appends[..|appends| - 1], m) + OfCurve(appends[|appends| - 1], m)
  }

  function AppendedAll(curves: Curves, well: string, appends: seq<seq<Sample>>, max: nat): Curves {
    if appends == [] then curves
    else Appended(AppendedAll(curves, well, appends[..|appends| - 1], max), well, appends[|appends| - 1], max)
  }

  /** A store that began empty holds, for each curve, the newest part of everything appended to it. */
  lemma {:induction false} RingHoldsNewest(well: string, appends: seq<seq<Sample>>, max: nat, m: string)
    ensures Curve(AppendedAll(map[], well, appends, max), well, m) == LastN(Appends(appends, m), max)
  {
    hide LastN, Appended;
    if appends == [] {
      ShortEnough<Sample>([], max);
    } else {
      var n := |appends| - 1;
      var before := AppendedAll(map[], well, appends[..n], max);
      RingHoldsNewest(well, appends[..n], max, m);
      AppendedCurve(before, well, appends[n], max, well, m);
      LastNTwice(Appends(appends[..n], m), OfCurve(appends[n], m), max);
    }
  }

  lemma ShortEnough<T>(s: seq<T>, n: nat)
    requires |s| <= n
    ensures LastN(s, n) == s
  {
  }

  function Newer(items: seq<Sample>, since: Option<Index>): seq<Sample> {
    if since.None? then items
    else if items == [] then []
    else
      var front := Newer(items[..|items| - 1], since);
      var s := items[|items| - 1];
      if s.index.at > since.value.at then front + [s] else front
  }

  /** `items[-limit:]`: a limit of 0 cuts nothing off. */
  /** What `since` leaves: the samples beyond it, in order. */
  lemma {:induction false} NewerMeaning(items: seq<Sample>, since: Index, s: Sample)
    ensures s in Newer(items, Some(since)) <==> s in items && s.index.at > since.at
  {
    if items != [] {
      var n := |items| - 1;
      assert items == items[..n] + [items[n]];
      NewerMeaning(items[..n], since, s);
    }
  }

  lemma {:induction false} NewerInOrder(items: seq<Sample>, since: Index)
    ensures Subsequence(Newer(items, Some(since)), items)
  {
    hide Subsequence;
    if items != [] {
      var n := |items| - 1;
      NewerInOrder(items[..n], since);
      assert items == items[..n] + [items[n]];
      SubsequenceSkips(Newer(items[..n], Some(since)), items[..n], items[n]);
      SubsequenceTakes(Newer(items[..n], Some(since)), items[..n], items[n]);
    } else {
      NothingIsSubsequence(items);
    }
  }

  function Capped(items: seq<Sample>, limit: Option<nat>): seq<Sample> {
    if limit.None? || limit.value == 0 then items else LastN(items, limit.value)
  }

  /** The mnemonics a reader asks for: those named, or all of the well's when none is named. */
  /** What a reader gets of a curve: the newest samples beyond `since`, and all of them below the limit. */
  lemma RecentMeaning(items: seq<Sample>, since: Option<Index>, limit: Option<nat>, s: Sample)
    ensures var r := Capped(Newer(items, since), limit);
            && r == Newer(items, since)[|Newer(items, since)| - |r|..]
            && (s in r ==> s in items && (since.Some? ==> s.index.at > since.value.at))
            && (limit.Some? && limit.value > 0 ==> |r| <= limit.value)
            && (limit.None? || limit.value == 0 || |r| < limit.value ==>
                  (s in items && (since.Some? ==> s.index.at > since.value.at) ==> s in r))
  {
    hide Newer;
    var all := Newer(items, since);
    if since.Some? {
      NewerMeaning(items, since.value, s);
    } else {
      AllNewer(items);
    }
    if limit.Some? && limit.value > 0 {
      LastNIsSuffix(all, limit.value);
    }
  }

  lemma AllNewer(items: seq<Sample>)
    ensures Newer(items, None) == items
  {
  }

  function Wanted(curves: Curves, well: string, mnemonics: seq<string>): set<string> {
    if mnemonics == [] then set k | k in curves && k.0 == well :: k.1 else set m | m in mnemonics
  }

  lemma WantedMeaning(curves: Curves, well: string, mnemonics: seq<string>)
    ensures forall m :: Curve(curves, well, m) != [] ==>
              (m in Wanted(curves, well, mnemonics) <==> mnemonics == [] || m in mnemonics)
  {
    forall m | Curve(curves, well, m) != []
      ensures m in Wanted(curves, well, mnemonics) <==> mnemonics == [] || m in mnemonics
    {
      assert (well, m) in curves && (well, m).0 == well;
    }
  }

  class RingBufferStore {
    const maxSamples: nat
    var curves: Curves
    var states: map<LogKey, LogState>
    var subscribers: map<string, set<BoundedQueue<Frame>>>

    function Queues(well: string): set<BoundedQueue<Frame>>
      reads this
    {
      if well in subscribers then subscribers[well] else {}
    }

    constructor (maxSamples: nat)
      ensures this.maxSamples == maxSamples
      ensures curves == map[] && states == map[] && subscribers == map[]
    {
      this.maxSamples := maxSamples;
      curves, states, subscribers := map[], map[], map[];
    }

    method Append(well: string, samples: seq<Sample>)
      modifies this`curves
      ensures curves == Appended(old(curves), well, samples, maxSamples)
    {
      hide LastN, Appended;
      NothingAppended(curves, well, maxSamples);
      for i := 0 to |samples|
        invariant curves == Appended(old(curves), well, samples[..i], maxSamples)
      {
        assert samples[..i + 1] == samples[..i] + [samples[i]];
        AppendedStep(old(curves), well, samples[..i], samples[i], maxSamples);
        var key := (well, samples[i].mnemonic);
        var buffer := if key in curves then curves[key] else [];
        curves := curves[key := LastN(buffer + [samples[i]], maxSamples)];
      }
      assert samples[..|samples|] == samples;
    }

    method GetRecent(well: string, mnemonics: seq<string>, since: Option<Index>, limit: Option<nat>)
      returns (out: map<string, seq<Sample>>)
      ensures out.Keys == set m | m in Wanted(curves, well, mnemonics) && Curve(curves, well, m) != []
      ensures forall m :: m in out <==> Curve(curves, well, m) != [] && (mnemonics == [] || m in mnemonics)
      ensures forall m :: m in out ==> out[m] == Capped(Newer(Curve(curves, well, m), since), limit)
    {
      out := map[];
      var wanted := Wanted(curves, well, mnemonics);
      var rest := wanted;
      while rest != {}
        invariant rest <= wanted
        invariant out.Keys == set m | m in wanted - rest && Curve(curves, well, m) != []
        invariant forall m :: m in out ==> out[m] == Capped(Newer(Curve(curves, well, m), since), limit)
        decreases |rest|
      {
        var m :| m in rest;
        rest := rest - {m};
        var buffer := Curve(curves, well, m);
        if buffer != [] {
          out := out[m := Capped(Newer(buffer, since), limit)];
        }
      }
      WantedMeaning(curves, well, mnemonics);
    }

    method PutLogState(key: LogKey, state: LogState)
      modifies this`states
      ensures states == old(states)[key := state]
    {
      states := states[key := state];
    }

    method Subscribe(well: string, maxsize: nat) returns (q: BoundedQueue<Frame>)
      modifies this`subscribers
      ensures fresh(q) && q.maxsize == maxsize && q.items == [] && q.Valid()
      ensures subscribers == old(subscribers)[well := old(Queues(well)) + {q}]
    {
      q := new BoundedQueue(maxsize);
      subscribers := subscribers[well := Queues(well) + {q}];
    }

    method Unsubscribe(well: string, q: BoundedQueue<Frame>)
      modifies this`subscribers
      ensures subscribers == if well in old(subscribers) then old(subscribers)[well := old(Queues(well)) - {q}]
                             else old(subscribers)
    {
      if well in subscribers {
        subscribers := subscribers[well := subscribers[well] - {q}];
      }
    }

    /** Fan-out without blocking: every queue of the well takes the payload, a full one giving up its oldest. */
    method Publish(well: string, payload: Frame)
      requires forall q :: q in Queues(well) ==> q.Valid()
      modifies Queues(well)
      ensures forall q :: q in Queues(well) ==> q.Valid() && q.items == Offer(old(q.items), q.maxsize, payload)
    {
      var rest := Queues(well);
      while rest != {}
        invariant rest <= Queues(well)
        invariant forall q :: q in rest ==> q.Valid() && q.items == old(q.items)
        invariant forall q :: q in Queues(well) - rest ==>
                                q.Valid() && q.items == Offer(old(q.items), q.maxsize, payload)
        decreases |rest|
      {
        var q :| q in rest;
        rest := rest - {q};
        if q.Full() {
          var _ := q.GetNowait();
        }
        var _ := q.PutNowait(payload);
      }
    }
  }
}
