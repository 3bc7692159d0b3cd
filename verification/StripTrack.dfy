/** The strip track: collapsing samples into contiguous bands of equal state. */
module StripTrack {
  import opened Numbers

  datatype Point = Point(i: real, v: real)

  /** Integers are keyed exactly, other values by their decimal rounded to one place (the sign is printed apart). */
  datatype Key = Whole(n: int) | Tenths(negative: bool, n: int)

  datatype Segment = Segment(key: Key, start: real, end: real, color: nat)

  const PALETTE: nat := 10

  function KeyFor(v: real): Key {
    if v == v.Floor as real then Whole(v.Floor) else Tenths(v < 0.0, (Abs(v) * 10.0 + 0.5).Floor)
  }

  /** Values in one band are less than a tenth apart. */
  lemma KeyBuckets(v: real, w: real)
    requires KeyFor(v) == KeyFor(w)
    ensures Abs(v - w) < 0.1
  {
  }

  /** The tenths of a value printed with one decimal: a value half way between two goes away from zero. */
  predicate RoundsTo(v: real, n: int) {
    n as real - 0.5 <= Abs(v) * 10.0 < n as real + 0.5
  }

  predicate IsWhole(v: real) {
    v.Floor as real == v
  }

  /** Two values share a key if they are equal, or both fractional, of one sign and rounded to the same tenth. */
  lemma KeysAgreeIff(v: real, w: real)
    ensures KeyFor(v) == KeyFor(w) <==>
            v == w || (!IsWhole(v) && !IsWhole(w) && (v < 0.0 <==> w < 0.0) &&
                       exists n :: RoundsTo(v, n) && RoundsTo(w, n))
  {
    RoundsOnce(v);
    RoundsOnce(w);
    if !IsWhole(v) && !IsWhole(w) {
      var n := (Abs(v) * 10.0 + 0.5).Floor;
      assert KeyFor(v) == Tenths(v < 0.0, n);
      assert RoundsTo(v, n);
      assert RoundsTo(w, n) <==> KeyFor(w).n == n;
    }
  }

  lemma RoundsOnce(v: real)
    ensures forall n :: RoundsTo(v, n) <==> n == (Abs(v) * 10.0 + 0.5).Floor
  {
  }

  // ---- sorting -------------------------------------------------------------------------------

  predicate Rising(s: seq<Point>) {
    forall a, b :: 0 <= a < b < |s| ==> s[a].i <= s[b].i
  }

  /** Into a rising list, after every point with the same index. */
  function Insert(s: seq<Point>, p: Point): seq<Point> {
    if s == [] || s[|s| - 1].i <= p.i then s + [p]
    else Insert(s[..|s| - 1], p) + [s[|s| - 1]]
  }

  /** The built-in sort by index, which is stable. */
  function StableSort(points: seq<Point>): seq<Point> {
    if points == [] then [] else Insert(StableSort(points[..|points| - 1]), points[|points| - 1])
  }

  /** The points at one index, in order. */
  function AtIndex(s: seq<Point>, x: real): seq<Point> {
    if s == [] then []
    else if s[|s| - 1].i == x then AtIndex(s[..|s| - 1], x) + [s[|s| - 1]]
    else AtIndex(s[..|s| - 1], x)
  }

  lemma {:induction false} InsertRises(s: seq<Point>, p: Point)
    requires Rising(s)
    ensures Rising(Insert(s, p)) && forall q :: q in Insert(s, p) ==> q in s || q == p
  {
    var n := |s|;
    if s != [] && s[n - 1].i > p.i {
      InsertRises(s[..n - 1], p);
      var r := Insert(s[..n - 1], p);
      forall a | 0 <= a < |r|
        ensures r[a].i <= s[n - 1].i
      {
        assert r[a] in r;
      }
    }
  }

  lemma {:induction false} InsertAdds(s: seq<Point>, p: Point)
    ensures multiset(Insert(s, p)) == multiset(s) + multiset{p}
  {
    var n := |s|;
    if s != [] && s[n - 1].i > p.i {
      InsertAdds(s[..n - 1], p);
      assert s == s[..n - 1] + [s[n - 1]];
    }
  }

  lemma AtIndexStep(s: seq<Point>, p: Point, x: real)
    ensures AtIndex(s + [p], x) == AtIndex(s, x) + (if p.i == x then [p] else [])
  {
    assert (s + [p])[..|s|] == s;
  }

  lemma {:induction false} InsertIsStable(s: seq<Point>, p: Point, x: real)
    requires Rising(s)
    ensures AtIndex(Insert(s, p), x) == AtIndex(s, x) + (if p.i == x then [p] else [])
  {
    hide AtIndex;
    var n := |s|;
    if s == [] || s[n - 1].i <= p.i {
      AtIndexStep(s, p, x);
    } else {
      var front, last := s[..n - 1], s[n - 1];
      assert s == front + [last];
      InsertIsStable(front, p, x);
      AtIndexStep(front, last, x);
      AtIndexStep(Insert(front, p), last, x);
    }
  }

  lemma NothingAt(x: real)
    ensures AtIndex([], x) == []
  {
  }

  /** Sorting is stable: rising, a permutation, and points at the same index keep their order. */
  lemma {:induction false} SortIsStable(points: seq<Point>, x: real)
    ensures Rising(StableSort(points)) && multiset(StableSort(points)) == multiset(points)
    ensures AtIndex(StableSort(points), x) == AtIndex(points, x)
  {
    hide Insert, AtIndex;
    if points == [] {
      NothingAt(x);
    } else {
      var n := |points| - 1;
      SortIsStable(points[..n], x);
      AtIndexStep(points[..n], points[n], x);
      InsertRises(StableSort(points[..n]), points[n]);
      InsertAdds(StableSort(points[..n]), points[n]);
      InsertIsStable(StableSort(points[..n]), points[n], x);
      assert points == points[..n] + [points[n]];
    }
  }

  // ---- segments ------------------------------------------------------------------------------

  /** Where the last point's band ends: one mean step further, or one unit when that comes to zero. */
  function LastEnd(s: seq<Point>): real
    requires s != []
  {
    var last := s[|s| - 1].i;
    var end := last + (last - s[0].i) / (|s| as real);
    if end == 0.0 then last + 1.0 else end
  }

  function EndAt(s: seq<Point>, idx: nat): real
    requires idx < |s|
  {
    if idx + 1 < |s| then s[idx + 1].i else LastEnd(s)
  }

  /** The color of each key, in order of first appearance among the first `k` points. */
  function Colors(s: seq<Point>, k: nat): map<Key, nat>
    requires k <= |s|
  {
    if k == 0 then map[] else
      var m := Colors(s, k - 1);
      var key := KeyFor(s[k - 1].v);
      if key in m then m else m[key := |m| % PALETTE]
  }

  /** A point extends the last segment to its end, or begins a new one. */
  function AddPoint(done: seq<Segment>, key: Key, start: real, end: real, color: nat): seq<Segment> {
    if done != [] && done[|done| - 1].key == key
    then done[..|done| - 1] + [done[|done| - 1].(end := end)]
    else done + [Segment(key, start, end, color)]
  }

  /** The segments after the first `k` points. */
  function Bands(s: seq<Point>, k: nat): seq<Segment>
    requires k <= |s|
  {
    if k == 0 then [] else
      ColorsKnow(s, k, k - 1);
      var key := KeyFor(s[k - 1].v);
      AddPoint(Bands(s, k - 1), key, s[k - 1].i, EndAt(s, k - 1), Colors(s, k)[key])
  }

  lemma {:induction false} ColorsKnow(s: seq<Point>, k: nat, p: nat)
    requires p < k <= |s|
    ensures KeyFor(s[p].v) in Colors(s, k)
  {
    if p < k - 1 {
      ColorsKnow(s, k - 1, p);
    }
  }

  datatype Strip = Strip(segments: seq<Segment>, min: real, max: real)

  /** `buildSegments`. */
  method BuildSegments(points: seq<Point>) returns (r: Strip)
    ensures points == [] ==> r == Strip([], 0.0, 1.0)
    ensures points != [] ==>
              var s := StableSort(points);
              |s| == |points| && r == Strip(Bands(s, |s|), s[0].i, s[|s| - 1].i)
  {
    hide StableSort, KeyFor, Bands, Colors;
    if points == [] {
      return Strip([], 0.0, 1.0);
    }
    var sorted := StableSort(points);
    SortIsStable(points, 0.0);
    assert |sorted| == |multiset(sorted)| == |multiset(points)| == |points|;
    var min, max := sorted[0].i, sorted[|sorted| - 1].i;
    var colorByKey: map<Key, nat> := map[];
    var segments: seq<Segment> := [];
    NoPoints(sorted);
    for idx := 0 to |sorted|
      invariant segments == Bands(sorted, idx)
      invariant colorByKey == Colors(sorted, idx)
      invariant segments != [] ==> segments[|segments| - 1].key in colorByKey
    {
      PointStep(sorted, idx);
      var p := sorted[idx];
      var key := KeyFor(p.v);
      var step := p.i + (max - min) / (|sorted| as real);
      var end := if idx + 1 < |sorted| then sorted[idx + 1].i else if step != 0.0 then step else p.i + 1.0;
      var last := |segments| - 1;
      if last >= 0 && segments[last].key == key {
        segments := segments[..last] + [segments[last].(end := end)];
      } else {
        if key !in colorByKey {
          colorByKey := colorByKey[key := |colorByKey| % PALETTE];
        }
        segments := segments + [Segment(key, p.i, end, colorByKey[key])];
      }
    }
    return Strip(segments, min, max);
  }

  lemma NoPoints(s: seq<Point>)
    ensures Bands(s, 0) == [] && Colors(s, 0) == map[]
  {
  }

  lemma PointStep(s: seq<Point>, idx: nat)
    requires idx < |s|
    ensures var key := KeyFor(s[idx].v);
            var m := Colors(s, idx);
            && Colors(s, idx + 1) == (if key in m then m else m[key := |m| % PALETTE])
            && key in Colors(s, idx + 1)
            && Bands(s, idx + 1) ==
               AddPoint(Bands(s, idx), key, s[idx].i, EndAt(s, idx), Colors(s, idx + 1)[key])
  {
    hide KeyFor, AddPoint, EndAt;
  }

  // ---- the tiling ----------------------------------------------------------------------------

  /** Bands without gap or overlap from the first index to where the last point's band ends. */
  predicate Tiles(segs: seq<Segment>, from: real, to: real) {
    && segs != []
    && segs[0].start == from && segs[|segs| - 1].end == to
    && (forall a :: 0 <= a < |segs| ==> segs[a].start <= segs[a].end)
    && (forall a, b :: 0 <= a && b == a + 1 < |segs| ==> segs[a].end == segs[b].start && segs[a].key != segs[b].key)
  }

  lemma EndAfter(s: seq<Point>, idx: nat)
    requires Rising(s) && idx < |s|
    ensures s[idx].i <= EndAt(s, idx)
  {
    var width := s[|s| - 1].i - s[0].i;
    assert width >= 0.0;
    assert width / (|s| as real) >= 0.0;
  }

  /** Adding a point where the tiling ends continues it; earlier segments keep their keys and starts. */
  lemma PointTiles(done: seq<Segment>, from: real, mid: real, key: Key, end: real, color: nat)
    requires if done == [] then from == mid else Tiles(done, from, mid)
    requires mid <= end
    ensures var now := AddPoint(done, key, mid, end, color);
            && Tiles(now, from, end)
            && now[|now| - 1].key == key && now[|now| - 1].start <= mid
            && |done| <= |now| <= |done| + 1
            && (forall j :: 0 <= j < |done| ==>
                  now[j].key == done[j].key && now[j].start == done[j].start && done[j].end <= now[j].end)
            && (forall j :: 0 <= j < |now| - 1 ==> now[j] == done[j])
            && (|now| > |done| ==> now[|done|].start == mid)
  {
    if done != [] {
      assert done[|done| - 1].end == mid;
    }
  }

  /** An exact run-length tiling: each segment ends where the next begins, and neighbours differ. */
  lemma {:induction false} BandsTile(s: seq<Point>, k: nat)
    requires Rising(s) && 0 < k <= |s|
    ensures Tiles(Bands(s, k), s[0].i, EndAt(s, k - 1))
    ensures Bands(s, k)[|Bands(s, k)| - 1].key == KeyFor(s[k - 1].v)
    ensures Bands(s, k)[|Bands(s, k)| - 1].start <= s[k - 1].i
  {
    hide KeyFor, EndAt, AddPoint, Tiles, Bands, Colors;
    PointStep(s, k - 1);
    EndAfter(s, k - 1);
    if k > 1 {
      BandsTile(s, k - 1);
      EndIsNext(s, k - 2);
      TilesNonEmpty(Bands(s, k - 1), s[0].i, s[k - 1].i);
    } else {
      NoPoints(s);
    }
    PointTiles(Bands(s, k - 1), s[0].i, s[k - 1].i, KeyFor(s[k - 1].v), EndAt(s, k - 1),
               Colors(s, k)[KeyFor(s[k - 1].v)]);
  }

  lemma TilesNonEmpty(segs: seq<Segment>, from: real, to: real)
    requires Tiles(segs, from, to)
    ensures segs != []
  {
  }

  /** How one more point changes a tiling that has begun. */
  lemma BandsGrow(s: seq<Point>, k: nat)
    requires Rising(s) && 1 < k <= |s|
    ensures var done, now := Bands(s, k - 1), Bands(s, k);
            && Tiles(done, s[0].i, s[k - 1].i)
            && |done| <= |now| <= |done| + 1
            && (forall j :: 0 <= j < |done| ==>
                  now[j].key == done[j].key && now[j].start == done[j].start && done[j].end <= now[j].end)
            && (forall j :: 0 <= j < |now| - 1 ==> now[j] == done[j])
            && (|now| > |done| ==> now[|done|].start == s[k - 1].i)
  {
    hide KeyFor, EndAt, AddPoint, Tiles, Bands, Colors;
    PointStep(s, k - 1);
    EndAfter(s, k - 1);
    BandsTile(s, k - 1);
    EndIsNext(s, k - 2);
    TilesNonEmpty(Bands(s, k - 1), s[0].i, s[k - 1].i);
    PointTiles(Bands(s, k - 1), s[0].i, s[k - 1].i, KeyFor(s[k - 1].v), EndAt(s, k - 1),
               Colors(s, k)[KeyFor(s[k - 1].v)]);
  }

  lemma EndIsNext(s: seq<Point>, idx: nat)
    requires idx + 1 < |s|
    ensures EndAt(s, idx) == s[idx + 1].i
  {
  }

  lemma {:induction false} TilesInOrder(segs: seq<Segment>, from: real, to: real, a: nat, b: nat)
    requires Tiles(segs, from, to) && a < b < |segs|
    ensures segs[a].end <= segs[b].start
    decreases b
  {
    if a + 1 < b {
      TilesInOrder(segs, from, to, a, b - 1);
      assert segs[b - 1].end == segs[b].start;
    }
  }

  /** Every sample lies in a segment with its own key, whatever the input order and repeated indices. */
  lemma {:induction false} SampleInOwnBand(s: seq<Point>, k: nat, p: nat)
    requires Rising(s) && p < k <= |s|
    ensures exists j :: 0 <= j < |Bands(s, k)| && Bands(s, k)[j].key == KeyFor(s[p].v) &&
                        Bands(s, k)[j].start <= s[p].i <= Bands(s, k)[j].end
  {
    hide KeyFor, EndAt, Bands;
    EndAfter(s, k - 1);
    BandsTile(s, k);
    var now := Bands(s, k);
    if p == k - 1 {
      assert now[|now| - 1].key == KeyFor(s[p].v);
    } else {
      BandsGrow(s, k);
      var done := Bands(s, k - 1);
      SampleInOwnBand(s, k - 1, p);
      var j :| 0 <= j < |done| && done[j].key == KeyFor(s[p].v) && done[j].start <= s[p].i <= done[j].end;
      assert now[j].key == done[j].key && now[j].start <= s[p].i <= now[j].end;
    }
  }

  /** The last of the sorted points at or before `x`. */
  function Governing(s: seq<Point>, x: real): (g: int)
    ensures -1 <= g < |s|
    ensures g >= 0 ==> s[g].i <= x
    ensures forall p :: g < p < |s| ==> s[p].i > x
  {
    if s == [] then -1
    else if s[|s| - 1].i <= x then |s| - 1
    else Governing(s[..|s| - 1], x)
  }

  predicate Covers(seg: Segment, x: real) {
    seg.start <= x < seg.end
  }

  /** What is drawn at `x` is the state of the last point at or before it. */
  lemma {:induction false} BandShowsState(s: seq<Point>, k: nat, j: nat, x: real)
    requires Rising(s) && 0 < k <= |s| && j < |Bands(s, k)| && Covers(Bands(s, k)[j], x)
    ensures Governing(s, x) >= 0 && Bands(s, k)[j].key == KeyFor(s[Governing(s, x)].v)
  {
    hide KeyFor, EndAt, Governing, Bands;
    BandsTile(s, k);
    var now := Bands(s, k);
    if x >= s[k - 1].i {
      GoverningIs(s, k, x, now, j);
    } else if k == 1 {
      assert now[0].start == s[0].i;
      TilesFrom(now, s[0].i, EndAt(s, 0), j);
      assert false;
    } else {
      BandsGrow(s, k);
      var done := Bands(s, k - 1);
      if j == |done| {
        assert false;
      }
      assert done[|done| - 1].end == s[k - 1].i;
      assert Covers(done[j], x);
      BandShowsState(s, k - 1, j, x);
    }
  }

  lemma TilesFrom(segs: seq<Segment>, from: real, to: real, j: nat)
    requires Tiles(segs, from, to) && j < |segs|
    ensures from <= segs[j].start
  {
    if j > 0 {
      TilesInOrder(segs, from, to, 0, j);
    }
  }

  lemma GoverningIs(s: seq<Point>, k: nat, x: real, now: seq<Segment>, j: nat)
    requires Rising(s) && 0 < k <= |s| && now == Bands(s, k) && j < |now| && Covers(now[j], x)
    requires x >= s[k - 1].i
    ensures Governing(s, x) == k - 1 && now[j].key == KeyFor(s[k - 1].v)
  {
    hide KeyFor, Governing, Bands, LastEnd;
    BandsTile(s, k);
    var end := EndAt(s, k - 1);
    if j < |now| - 1 {
      TilesInOrder(now, s[0].i, end, j, |now| - 1);
      assert false;
    }
    assert now[j].end == end;
    var g := Governing(s, x);
    assert g >= k - 1;
    if k < |s| {
      assert s[k].i == end;
      assert g < k;
    }
  }

  lemma {:induction false} SomeBandCovers(segs: seq<Segment>, from: real, to: real, x: real)
    requires Tiles(segs, from, to) && from <= x < to
    ensures exists j :: 0 <= j < |segs| && Covers(segs[j], x)
  {
    var n := |segs| - 1;
    if segs[n].start <= x {
      assert Covers(segs[n], x);
    } else {
      assert n > 0;
      var front := segs[..n];
      assert segs[n - 1].end == segs[n].start;
      SomeBandCovers(front, from, segs[n - 1].end, x);
      var j :| 0 <= j < |front| && Covers(front[j], x);
      assert Covers(segs[j], x);
    }
  }

  /** The bands of the strip tile it from the smallest index on, and every sample lies in one with its own key. */
  lemma StripTiles(points: seq<Point>, p: Point)
    requires p in points
    ensures var s := StableSort(points);
            && s != []
            && Tiles(Bands(s, |s|), s[0].i, LastEnd(s))
            && s[0].i <= p.i <= s[|s| - 1].i <= LastEnd(s)
            && (var end := s[|s| - 1].i + (s[|s| - 1].i - s[0].i) / (|points| as real);
                LastEnd(s) == if end == 0.0 then s[|s| - 1].i + 1.0 else end)
            && exists j :: 0 <= j < |Bands(s, |s|)| && Bands(s, |s|)[j].key == KeyFor(p.v) &&
                           Bands(s, |s|)[j].start <= p.i <= Bands(s, |s|)[j].end
  {
    hide StableSort, Bands, KeyFor, Tiles;
    var s := StableSort(points);
    SortIsStable(points, 0.0);
    assert p in multiset(points);
    assert p in s;
    var a :| 0 <= a < |s| && s[a] == p;
    BandsTile(s, |s|);
    EndAfter(s, |s| - 1);
    SampleInOwnBand(s, |s|, a);
  }

  /** The `j`-th band of the finished strip is drawn at `x`. */
  predicate IsBandAt(s: seq<Point>, j: int, x: real) {
    0 <= j < |Bands(s, |s|)| && Covers(Bands(s, |s|)[j], x)
  }

  /**
   * The strip is the step function of the samples: every position from the smallest index up to the end of the last
   * band lies in exactly one band, which has the key of the last sample at or before it.
   */
  lemma StripIsStepFunction(points: seq<Point>, x: real)
    requires points != []
    ensures var s := StableSort(points);
            && s != []
            && (s[0].i <= x < LastEnd(s) ==>
                  && Governing(s, x) >= 0
                  && (exists j :: IsBandAt(s, j, x))
                  && (forall j, l :: IsBandAt(s, j, x) && IsBandAt(s, l, x) ==> j == l)
                  && (forall j :: IsBandAt(s, j, x) ==>
                        Bands(s, |s|)[j].key == KeyFor(s[Governing(s, x)].v)))
  {
    hide StableSort, Bands, KeyFor, LastEnd, Governing;
    var s := StableSort(points);
    SortIsStable(points, x);
    assert |s| == |multiset(s)| == |multiset(points)| == |points|;
    if s[0].i <= x < LastEnd(s) {
      var segs := Bands(s, |s|);
      BandsTile(s, |s|);
      assert EndAt(s, |s| - 1) == LastEnd(s);
      SomeBandCovers(segs, s[0].i, LastEnd(s), x);
      var b :| 0 <= b < |segs| && Covers(segs[b], x);
      assert IsBandAt(s, b, x);
      forall j, l | IsBandAt(s, j, x) && IsBandAt(s, l, x)
        ensures j == l
      {
        if j < l {
          TilesInOrder(segs, s[0].i, LastEnd(s), j, l);
        } else if l < j {
          TilesInOrder(segs, s[0].i, LastEnd(s), l, j);
        }
      }
      forall j | IsBandAt(s, j, x)
        ensures Governing(s, x) >= 0 && segs[j].key == KeyFor(s[Governing(s, x)].v)
      {
        BandShowsState(s, |s|, j, x);
      }
    }
  }

  // ---- colors --------------------------------------------------------------------------------

  lemma {:induction false} ColorsOfPalette(s: seq<Point>, k: nat)
    requires k <= |s|
    ensures forall a :: a in Colors(s, k) ==> Colors(s, k)[a] < 10
  {
    if k > 0 {
      ColorsOfPalette(s, k - 1);
    }
  }

  /** Up to a palette of keys have different colors. */
  lemma {:induction false} ColorsDiffer(s: seq<Point>, k: nat)
    requires k <= |s| && |Colors(s, k)| <= 10
    ensures forall a :: a in Colors(s, k) ==> Colors(s, k)[a] < |Colors(s, k)|
    ensures forall a, b :: a in Colors(s, k) && b in Colors(s, k) && a != b ==> Colors(s, k)[a] != Colors(s, k)[b]
  {
    hide KeyFor, Colors, Bands, AddPoint, EndAt;
    if k == 0 {
      NoPoints(s);
    } else {
      PointStep(s, k - 1);
      var m, m' := Colors(s, k - 1), Colors(s, k);
      var key := KeyFor(s[k - 1].v);
      if key in m {
        ColorsDiffer(s, k - 1);
      } else {
        assert |m'| == |m| + 1;
        ColorsDiffer(s, k - 1);
        assert m'[key] == |m|;
      }
    }
  }

  /** Bands of one key share a color. */
  lemma {:induction false} ColorsTell(s: seq<Point>, k: nat)
    requires k <= |s|
    ensures forall j :: 0 <= j < |Bands(s, k)| ==>
                          Bands(s, k)[j].key in Colors(s, k) && Bands(s, k)[j].color == Colors(s, k)[Bands(s, k)[j].key]
  {
    hide KeyFor, EndAt, Bands, Colors;
    if k == 0 {
      NoPoints(s);
    } else {
      PointStep(s, k - 1);
      ColorsTell(s, k - 1);
    }
  }
}
