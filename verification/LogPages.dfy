/** One page of a range query: which stored indices the server returns, and when it says "truncated". */
module LogPages {
  import opened Order

  /** How a cursor reaches the server: depths exactly, instants floored to the millisecond. */
  datatype Wire = Exact | Millis

  function OnWire(w: Wire, x: Index): Index {
    if w.Exact? then x else Index(x.at.Floor as real)
  }

  function BoundOnWire(w: Wire, x: Option<Index>): Option<Index> {
    if x.None? then None else Some(OnWire(w, x.value))
  }

  predicate Aligned(w: Wire, x: Index) {
    OnWire(w, x) == x
  }

  /** Flooring never moves a cursor forward in an increasing log, nor an aligned one anywhere. */
  predicate Safe(d: Direction, w: Wire, x: Index) {
    d.Increasing? || Aligned(w, x)
  }

  lemma OnWireLaws(d: Direction, w: Wire, x: Index, y: Index)
    ensures OnWire(w, OnWire(w, x)) == OnWire(w, x)
    ensures !Before(d, y, x) ==> !Before(d, OnWire(w, y), OnWire(w, x))
    ensures Safe(d, w, x) ==> !Before(d, x, OnWire(w, x))
  {
    FloorOfInt(x.at.Floor);
    FloorMonotone(x.at, y.at);
    FloorMonotone(y.at, x.at);
  }

  lemma FloorOfInt(n: int)
    ensures (n as real).Floor == n
  {
  }

  lemma FloorMonotone(a: real, b: real)
    ensures a <= b ==> a.Floor <= b.Floor
  {
  }

  /** The inclusive range test of the server, on bounds as received. */
  predicate InRange(d: Direction, start: Option<Index>, end: Option<Index>, x: Index) {
    !(start.Some? && Before(d, x, start.value)) && !(end.Some? && Before(d, end.value, x))
  }

  function Selected(keys: set<Index>, d: Direction, start: Option<Index>, end: Option<Index>): set<Index> {
    set x | x in keys && InRange(d, start, end, x)
  }

  /** A limit that is absent, zero or negative does not truncate. */
  predicate Truncates(maxNodes: Option<int>, count: nat) {
    maxNodes.Some? && 0 < maxNodes.value < count
  }

  function PageOf(keys: set<Index>, d: Direction, start: Option<Index>, end: Option<Index>, maxNodes: Option<int>)
    : (page: (seq<Index>, bool))
    ensures page.1 <==> Truncates(maxNodes, |Selected(keys, d, start, end)|)
  {
    var all := Sorted(d, Selected(keys, d, start, end));
    if Truncates(maxNodes, |all|) then (all[..maxNodes.value], true) else (all, false)
  }

  /**
   * A page is the listing of a set of selected indices closed towards the start: everything that was
   * selected when it is not truncated, exactly `maxNodes` indices when it is.
   */
  lemma PageShape(keys: set<Index>, d: Direction, start: Option<Index>, end: Option<Index>, maxNodes: Option<int>)
    returns (page: set<Index>)
    ensures PageOf(keys, d, start, end, maxNodes).0 == Sorted(d, page)
    ensures page <= Selected(keys, d, start, end)
    ensures forall x, y :: x in Selected(keys, d, start, end) && y in page && !Before(d, y, x) ==> x in page
    ensures if PageOf(keys, d, start, end, maxNodes).1 then maxNodes.Some? && |page| == maxNodes.value
            else page == Selected(keys, d, start, end)
  {
    var selected := Selected(keys, d, start, end);
    if Truncates(maxNodes, |selected|) {
      PrefixOfSorted(d, selected, maxNodes.value);
      page := Elements(Sorted(d, selected)[..maxNodes.value]);
    } else {
      page := selected;
    }
  }

  /** The indices a log gains are all strictly beyond those it had. */
  ghost predicate GrowsBeyond(d: Direction, old_: set<Index>, new_: set<Index>) {
    old_ <= new_ && forall x, y :: x in new_ && x !in old_ && y in old_ ==> Before(d, y, x)
  }

  /**
   * Re-querying from a cursor as received by the server returns every row beyond the cursor, whatever the log
   * holds, exactly when the log is increasing or the cursor is aligned to the wire's resolution.
   */
  lemma RequeryCoversIffSafe(d: Direction, w: Wire, c: Index)
    ensures (forall keys: set<Index>, x: Index :: x in keys && Before(d, c, x) ==>
               x in Selected(keys, d, Some(OnWire(w, c)), None)) <==> Safe(d, w, c)
  {
    if Safe(d, w, c) {
      OnWireLaws(d, w, c, c);
    } else {
      var x := Index((c.at + OnWire(w, c).at) / 2.0);
      assert Before(d, c, x) && Before(d, x, OnWire(w, c));
      assert x in {x} && x !in Selected({x}, d, Some(OnWire(w, c)), None);
    }
  }
}
