/** Repeated polls of a log that stopped growing: how soon they catch up, and when they cannot. */
module PollCost {
  import opened Numbers
  import opened Order
  import opened Blocks
  import opened LogPages
  import opened Client
  import opened FetchRun
  import opened FetchCost

  /** The rows of the log strictly beyond a cursor. */
  function Unseen(log: Log, d: Direction, c: Index): set<Index> {
    set x | x in log && Before(d, c, x)
  }

  /** The cursor after one poll from `c`: the newest index of what the poll fetched. */
  function PollOnce(log: Log, q: Query, c: Index, cap: nat): Index {
    var r := Newest(q.d, Fetched(FetchAll(log, q, Some(c), cap)).Keys);
    if r.None? then c else r.value
  }

  function PollTimes(log: Log, q: Query, c: Index, cap: nat, times: nat): Index
    decreases times
  {
    if times == 0 then c else PollTimes(log, q, PollOnce(log, q, c, cap), cap, times - 1)
  }

  /** The rows a poll is sure to advance by, with at most `s` rows to a wire form. */
  function Gain(q: Query, cap: nat, s: nat): int
    requires q.maxNodes.Some?
  {
    cap * (q.maxNodes.value - s)
  }

  /** What a poll can count on: a log whose cursors are safe, and pages longer than any crowd. */
  ghost predicate Pollable(log: Log, q: Query, s: nat) {
    SafeLog(log, q) && Sparse(log, q, s) && Limited(q) && s < q.maxNodes.value && q.end.None?
  }

  lemma GainPositive(q: Query, cap: nat, s: nat)
    requires Limited(q) && s < q.maxNodes.value && cap >= 1
    ensures Gain(q, cap, s) >= 1
    ensures q.maxNodes.value + (cap - 1) * (q.maxNodes.value - s) == Gain(q, cap, s) + s
  {
    MulMonotone(1, cap, q.maxNodes.value - s);
  }

  /** A poll asks for what is unseen and for the few rows that look like its cursor. */
  lemma ScopeFromRow(log: Log, q: Query, c: Index, s: nat)
    requires Pollable(log, q, s) && c in log
    ensures c in Scope(log, q, Some(c)) && Unseen(log, q.d, c) <= Scope(log, q, Some(c))
    ensures |Unseen(log, q.d, c)| + 1 <= |Scope(log, q, Some(c))| <= |Unseen(log, q.d, c)| + s
  {
    hide OnWire;
    OnWireLaws(q.d, q.wire, c, c);
    var scope, unseen := Scope(log, q, Some(c)), Unseen(log, q.d, c);
    var again := scope - unseen;
    forall x | x in again
      ensures x in Alike(log, q, c)
    {
      LooksLike(q, c, x);
    }
    SubsetSize(again, Alike(log, q, c));
    SubsetSize({c}, again);
    assert scope == unseen + again;
    assert |unseen + again| == |unseen| + |again|;
  }

  lemma PollRest(f: Fetch, log: Log, q: Query, c: Index)
    requires SafeLog(log, q) && q.end.None? && c in log
    requires FetchInv(f, log, q, Some(c)) && Fetched(f) != map[]
    ensures var n := Newest(q.d, Fetched(f).Keys).value;
            n in log && |Unseen(log, q.d, n)| == |Scope(log, q, Some(c))| - |Fetched(f)|
  {
    hide Fetched, Regained, Headed, OnWire;
    var got := Fetched(f).Keys;
    var n := Newest(q.d, got).value;
    var scope := Scope(log, q, Some(c));
    assert Unseen(log, q.d, n) == scope - got;
    assert |scope| == |scope - got| + |got| by {
      assert scope == (scope - got) + got;
    }
  }

  /** One poll brings the cursor to a row that leaves at most `unseen - cap * (k - s)` rows unseen. */
  lemma PollGain(log: Log, q: Query, c: Index, cap: nat, s: nat)
    requires Pollable(log, q, s) && cap >= 1 && c in log
    ensures var c' := PollOnce(log, q, c, cap);
            c' in log && |Unseen(log, q.d, c')| <= Max(0, |Unseen(log, q.d, c)| - Gain(q, cap, s))
  {
    hide FetchAll, Fetched, Scope, Unseen, FetchInv, Newest, SafeLog, Sparse, Whole, Gain;
    var f := FetchAll(log, q, Some(c), cap);
    SparseFetchCompletes(log, q, Some(c), cap, s);
    GainPositive(q, cap, s);
    ScopeFromRow(log, q, c, s);
    assert Fetched(f) != map[];
    PollRest(f, log, q, c);
  }

  /** With a row to each wire form it leaves exactly that many. */
  lemma PollGainExactly(log: Log, q: Query, c: Index, cap: nat)
    requires LonePages(log, q) && q.end.None? && cap >= 1 && c in log
    ensures var c' := PollOnce(log, q, c, cap);
            c' in log && |Unseen(log, q.d, c')| == Max(0, |Unseen(log, q.d, c)| - Gain(q, cap, 1))
  {
    hide FetchAll, Fetched, Scope, Unseen, FetchInv, Newest, SafeLog, OneEach, Sparse, RequestsNeeded;
    var f := FetchAll(log, q, Some(c), cap);
    OneEachIsSparse(log, q);
    CostOfFetch(log, q, Some(c), cap);
    CostHolds(log, q, Some(c), cap);
    ScopeFromRow(log, q, c, 1);
    GainPositive(q, cap, 1);
    assert Fetched(f) != map[];
    PollRest(f, log, q, c);
  }

  /**
   * Repeated polls of a log that stopped growing, depths and floored instants alike, reach its frontier after
   * `ceil(unseen / (cap * (k - s)))` polls at the latest.
   */
  lemma {:induction false} PollsCatchUp(log: Log, q: Query, c: Index, cap: nat, s: nat, times: nat)
    requires Pollable(log, q, s) && cap >= 1 && c in log
    ensures q.maxNodes.Some? && Gain(q, cap, s) > 0
    ensures var rest := Unseen(log, q.d, PollTimes(log, q, c, cap, times));
            && |rest| <= Max(0, |Unseen(log, q.d, c)| - times * Gain(q, cap, s))
            && (times >= CeilDiv(|Unseen(log, q.d, c)|, Gain(q, cap, s)) ==> rest == {})
    decreases times
  {
    hide PollOnce, Unseen, CeilDiv, Gain, Pollable;
    Sure(log, q, cap, s);
    var gain := Gain(q, cap, s);
    if times > 0 {
      PollGain(log, q, c, cap, s);
      PollsCatchUp(log, q, PollOnce(log, q, c, cap), cap, s, times - 1);
      TimesSplit(times, gain);
    }
    CeilDivAtMost(|Unseen(log, q.d, c)|, gain, times);
  }

  lemma Sure(log: Log, q: Query, cap: nat, s: nat)
    requires Pollable(log, q, s) && cap >= 1
    ensures Limited(q) && Gain(q, cap, s) > 0
  {
    GainPositive(q, cap, s);
  }

  /** With a row to each wire form they reach it after exactly that many. */
  lemma {:induction false} PollsCatchUpExactly(log: Log, q: Query, c: Index, cap: nat, times: nat)
    requires LonePages(log, q) && q.end.None? && cap >= 1 && c in log
    ensures Gain(q, cap, 1) > 0
    ensures var rest := Unseen(log, q.d, PollTimes(log, q, c, cap, times));
            && |rest| == Max(0, |Unseen(log, q.d, c)| - times * Gain(q, cap, 1))
            && (rest == {} <==> times >= CeilDiv(|Unseen(log, q.d, c)|, Gain(q, cap, 1)))
    decreases times
  {
    hide PollOnce, Unseen, CeilDiv, Gain, SafeLog, OneEach;
    var gain := Gain(q, cap, 1);
    GainPositive(q, cap, 1);
    if times > 0 {
      PollGainExactly(log, q, c, cap);
      PollsCatchUpExactly(log, q, PollOnce(log, q, c, cap), cap, times - 1);
      TimesSplit(times, gain);
    }
    CeilDivAtMost(|Unseen(log, q.d, c)|, gain, times);
  }

  lemma TimesSplit(times: nat, gain: int)
    requires times > 0 && gain > 0
    ensures times * gain == (times - 1) * gain + gain && (times - 1) * gain >= 0
  {
    MulMonotone(0, times - 1, gain);
  }

  // ---- a decreasing log with instants between milliseconds -----------------------------------

  /** Without a node limit the first page is the whole answer. */
  lemma UnlimitedFetch(log: Log, q: Query, start: Option<Index>, cap: nat)
    requires !Limited(q) && cap >= 1
    ensures Fetched(FetchAll(log, q, start, cap)) == Whole(log, q, start)
  {
    hide Serve, Absorb, Sorted, Scope, Fetched, RowsAt, IsPage;
    var page := PageFacts(log, q, start);
    var g := Absorb(Begin(start), Serve(log, q, start), q.d);
    AbsorbedRows(Begin(start), Serve(log, q, start), log, q, page);
    NothingFetched(start);
    StopsOnSuccess(Begin(start), Serve(log, q, start), q.d);
    assert Drive(StaticServer(log, q), g, q.d, cap) == g;
    assert Fetched(g) == map[] + Restrict(log, page);
  }

  lemma NothingFetched(start: Option<Index>)
    ensures Fetched(Begin(start)) == map[]
  {
  }

  function Skipping(): Log {
    map[Index(10.5) := [], Index(10.25) := [], Index(9.0) := []]
  }

  function Backwards(): Query {
    Query(Decreasing, Millis, None, None, [], [])
  }

  lemma SkippingFetch(c: Index, cap: nat)
    requires c in {Index(10.5), Index(9.0)} && cap >= 1
    ensures Fetched(FetchAll(Skipping(), Backwards(), Some(c), cap)).Keys == {Index(9.0)}
    ensures PollOnce(Skipping(), Backwards(), c, cap) == Index(9.0)
  {
    hide FetchAll, Fetched;
    UnlimitedFetch(Skipping(), Backwards(), Some(c), cap);
    assert OnWire(Millis, Index(10.5)) == Index(10.0) && OnWire(Millis, Index(9.0)) == Index(9.0);
    assert Scope(Skipping(), Backwards(), Some(c)) == {Index(9.0)};
  }

  /**
   * The floored cursor of a decreasing log lies beyond the cursor. A log grows by two rows after its first was
   * fetched; the one in the cursor's own millisecond is on no later poll's fetch, however often it polls.
   */
  lemma {:induction false} FlooredCursorSkips(cap: nat, times: nat)
    requires cap >= 1
    ensures var seen: Log := map[Index(10.5) := []];
            var c := PollTimes(Skipping(), Backwards(), Index(10.5), cap, times);
            && Grows(Decreasing, seen, Skipping())
            && Index(10.25) in Unseen(Skipping(), Decreasing, Index(10.5))
            && Index(10.25) !in Fetched(FetchAll(Skipping(), Backwards(), Some(c), cap))
            && (times > 0 ==> Unseen(Skipping(), Decreasing, c) == {})
  {
    hide FetchAll, Fetched, PollOnce;
    PollsStay(Index(10.5), cap, times);
    SkippingFetch(PollTimes(Skipping(), Backwards(), Index(10.5), cap, times), cap);
  }

  lemma {:induction false} PollsStay(c: Index, cap: nat, times: nat)
    requires c in {Index(10.5), Index(9.0)} && cap >= 1
    ensures PollTimes(Skipping(), Backwards(), c, cap, times) == if times == 0 then c else Index(9.0)
    decreases times
  {
    hide PollOnce, FetchAll, Fetched, Skipping, Backwards;
    if times > 0 {
      SkippingFetch(c, cap);
      PollsStay(Index(9.0), cap, times - 1);
    }
  }

  // ---- an instant that fills a page ----------------------------------------------------------

  /** Three rows in one millisecond and pages of two: whatever the budget, the row after them is not reached. */
  lemma CrowdedInstantStops(cap: nat)
    ensures var q := Query(Increasing, Millis, None, Some(2), [], []);
            var log: Log := map[Index(1.0) := [], Index(1.25) := [], Index(1.5) := [], Index(2.0) := []];
            SafeLog(log, q) && !FetchAll(log, q, None, cap).status.Complete?
  {
    hide FetchAll;
    var q := Query(Increasing, Millis, None, Some(2), [], []);
    var log: Log := map[Index(1.0) := [], Index(1.25) := [], Index(1.5) := [], Index(2.0) := []];
    var c := Index(1.0);
    assert OnWire(Millis, c) == c && OnWire(Millis, Index(1.25)) == c && OnWire(Millis, Index(1.5)) == c;
    assert Scope(log, q, Some(c)) == log.Keys && |log.Keys| == 4 by {
      assert log.Keys == {Index(1.0), Index(1.25), Index(1.5), Index(2.0)};
    }
    SubsetSize({Index(1.0), Index(1.25), Index(1.5)}, Together(log, q, c));
    assert CrowdedAt(log, q, c);
    assert c in Scope(log, q, None);
    HowAFetchEnds(log, q, None, cap);
  }
}
