/** On a log that does not grow: when a fetch is complete, what it costs, and how soon polling catches up. */
module FetchCost {
  import opened Numbers
  import opened Order
  import opened Blocks
  import opened Polling
  import opened LogPages
  import opened Client
  import opened FetchRun

  function StaticServer(log: Log, q: Query): Server {
    (n: nat, c: Option<Index>) => Serve(log, q, c)
  }

  /** A fetch of a log that does not grow meanwhile. */
  function FetchAll(log: Log, q: Query, start: Option<Index>, cap: nat): Fetch {
    Drive(StaticServer(log, q), Begin(start), q.d, cap)
  }

  /** The indices a request from `c` returns that look like `c` on the wire. */
  function Together(log: Log, q: Query, c: Index): set<Index> {
    set x | x in Scope(log, q, Some(c)) && OnWire(q.wire, x) == OnWire(q.wire, c)
  }

  /** Some index shares its wire form with at least a page of indices while more than a page remains. */
  ghost predicate Crowded(log: Log, q: Query, start: Option<Index>) {
    Limited(q) && exists c :: c in Scope(log, q, start) && CrowdedAt(log, q, c)
  }

  predicate CrowdedAt(log: Log, q: Query, c: Index) {
    q.maxNodes.Some? && |Scope(log, q, Some(c))| > q.maxNodes.value && |Together(log, q, c)| >= q.maxNodes.value
  }

  lemma LooksLike(q: Query, c: Index, x: Index)
    requires !Before(q.d, x, OnWire(q.wire, c)) && !Before(q.d, c, x)
    ensures OnWire(q.wire, x) == OnWire(q.wire, c)
  {
    OnWireLaws(q.d, q.wire, OnWire(q.wire, c), x);
    OnWireLaws(q.d, q.wire, x, c);
    OnWireLaws(q.d, q.wire, c, c);
  }

  /** A truncated page that does not get past the cursor is a crowd. */
  lemma StuckPageIsCrowd(log: Log, q: Query, c: Index, page: set<Index>)
    requires IsPage(log, q, Some(c), page)
    requires page != {} && Newest(q.d, page) == Some(c)
    ensures page <= Together(log, q, c)
  {
    forall x | x in page
      ensures x in Together(log, q, c)
    {
      LooksLike(q, c, x);
    }
  }

  lemma StuckIsCrowded(f: Fetch, log: Log, q: Query, start: Option<Index>, page: set<Index>)
    requires FetchInv(f, log, q, start) && f.cursor.Some? && f.cursor.value in Fetched(f)
    requires Limited(q) && |page| == q.maxNodes.value < |Scope(log, q, f.cursor)|
    requires IsPage(log, q, f.cursor, page) && Newest(q.d, page) == f.cursor
    ensures Crowded(log, q, start)
  {
    var c := f.cursor.value;
    StuckPageIsCrowd(log, q, c, page);
    SubsetSize(page, Together(log, q, c));
    FetchedInScope(f, log, q, start, c);
    assert CrowdedAt(log, q, c);
  }

  // ---- how far one page gets -----------------------------------------------------------------

  /** The rows of the log that look like `c` on the wire. */
  function Alike(log: Log, q: Query, c: Index): set<Index> {
    set x | x in log && OnWire(q.wire, x) == OnWire(q.wire, c)
  }

  /** No wire form is shared by more than `s` rows. */
  ghost predicate Sparse(log: Log, q: Query, s: nat) {
    forall c :: c in log ==> |Alike(log, q, c)| <= s
  }

  /** No two rows share a wire form: any log with exact cursors, and a time log with at most a row per millisecond. */
  ghost predicate OneEach(log: Log, q: Query) {
    forall x, y :: x in log && y in log && OnWire(q.wire, x) == OnWire(q.wire, y) ==> x == y
  }

  lemma OneEachIsSparse(log: Log, q: Query)
    ensures OneEach(log, q) <==> Sparse(log, q, 1)
    ensures q.wire.Exact? ==> OneEach(log, q) && SafeLog(log, q)
  {
    if OneEach(log, q) {
      forall c | c in log
        ensures |Alike(log, q, c)| <= 1
      {
        SubsetSize(Alike(log, q, c), {c});
      }
    }
    if Sparse(log, q, 1) {
      forall x, y | x in log && y in log && OnWire(q.wire, x) == OnWire(q.wire, y)
        ensures x == y
      {
        SubsetSize({x, y}, Alike(log, q, x));
      }
    }
  }

  /** What is left from the cursor on, and what was fetched, share only rows that look like the cursor. */
  lemma CursorSplits(f: Fetch, log: Log, q: Query, start: Option<Index>)
    requires SafeLog(log, q) && FetchInv(f, log, q, start) && f.status.Running? && f.requests > 0
    ensures f.cursor.Some? && f.cursor.value in Fetched(f) && f.cursor.value in Scope(log, q, f.cursor)
    ensures Fetched(f).Keys + Scope(log, q, f.cursor) == Scope(log, q, start)
    ensures Fetched(f).Keys * Scope(log, q, f.cursor) <= Alike(log, q, f.cursor.value)
    ensures forall x :: x in Fetched(f) ==> !Before(q.d, f.cursor.value, x)
  {
    hide Fetched, Regained, Headed, OnWire;
    FetchedNothing(f, log, q, start);
    var c := f.cursor.value;
    var got, rest := Fetched(f).Keys, Scope(log, q, f.cursor);
    OnWireLaws(q.d, q.wire, c, c);
    if start.Some? {
      OnWireLaws(q.d, q.wire, OnWire(q.wire, start.value), c);
      OnWireLaws(q.d, q.wire, start.value, c);
    }
    forall x | x in got * rest
      ensures x in Alike(log, q, c)
    {
      LooksLike(q, c, x);
    }
    assert rest <= Scope(log, q, start);
    assert forall x :: x in Scope(log, q, start) && Before(q.d, c, x) ==> x in rest;
    assert forall x :: x in Scope(log, q, start) && !Before(q.d, c, x) ==> x in got;
  }

  /** A page that is not all of what is left leaves a row that is neither on it nor fetched before. */
  lemma PageLeavesRow(f: Fetch, log: Log, q: Query, start: Option<Index>, page: set<Index>)
    requires SafeLog(log, q) && FetchInv(f, log, q, start) && f.status.Running? && f.requests > 0
    requires IsPage(log, q, f.cursor, page) && f.cursor.Some? && f.cursor.value in page
    requires |page| < |Scope(log, q, f.cursor)|
    ensures |Fetched(f).Keys + page| < |Scope(log, q, start)|
  {
    hide Fetched, FetchInv, OnWire, SafeLog;
    CursorSplits(f, log, q, start);
    var rest := Scope(log, q, f.cursor);
    if rest <= page {
      SubsetSize(rest, page);
      assert false;
    }
    var z :| z in rest && z !in page;
    assert z !in Fetched(f).Keys + page;
    SubsetSize(Fetched(f).Keys + page + {z}, Scope(log, q, start));
  }

  /** Every truncated page after the first brings at least `gain` rows. */
  ghost predicate Advances(log: Log, q: Query, start: Option<Index>, gain: nat) {
    Limited(q) ==>
      && 1 <= gain
      && ((gain == 1 && !Crowded(log, q, start)) ||
          (gain <= q.maxNodes.value && Sparse(log, q, q.maxNodes.value - gain)))
  }

  lemma FullPageGains(f: Fetch, log: Log, q: Query, start: Option<Index>, page: set<Index>, gain: nat)
    requires SafeLog(log, q) && Advances(log, q, start, gain) && Limited(q)
    requires FetchInv(f, log, q, start) && f.status.Running? && f.requests > 0
    requires IsPage(log, q, f.cursor, page) && f.cursor.Some? && f.cursor.value in page
    requires |page| == q.maxNodes.value < |Scope(log, q, f.cursor)|
    ensures Newest(q.d, page) != f.cursor
    ensures |Fetched(f).Keys + page| >= |Fetched(f)| + gain
  {
    hide Fetched, FetchInv, Scope, SafeLog, Newest;
    var c := f.cursor.value;
    var got := Fetched(f).Keys;
    CursorSplits(f, log, q, start);
    if gain == 1 && !Crowded(log, q, start) {
      NewOnPage(f, log, q, start, page);
      var n := Newest(q.d, page).value;
      SubsetSize(got + {n}, got + page);
    } else {
      assert c in log by {
        InLog(f, log, q, start, c);
      }
      if Newest(q.d, page) == f.cursor {
        StuckPageIsCrowd(log, q, c, page);
        TogetherIsAlike(log, q, c);
        SubsetSize(page, Alike(log, q, c));
        assert false;
      }
      assert got * page <= got * Scope(log, q, f.cursor);
      SubsetSize(got * page, Alike(log, q, c));
      assert |got + page| == |got| + |page| - |got * page|;
    }
  }

  lemma InLog(f: Fetch, log: Log, q: Query, start: Option<Index>, c: Index)
    requires FetchInv(f, log, q, start) && c in Fetched(f)
    ensures c in log
  {
    FetchedInScope(f, log, q, start, c);
  }

  lemma TogetherIsAlike(log: Log, q: Query, c: Index)
    ensures Together(log, q, c) <= Alike(log, q, c)
  {
  }

  lemma NewOnPage(f: Fetch, log: Log, q: Query, start: Option<Index>, page: set<Index>)
    requires SafeLog(log, q) && !Crowded(log, q, start) && Limited(q)
    requires FetchInv(f, log, q, start) && f.status.Running? && f.requests > 0
    requires IsPage(log, q, f.cursor, page) && f.cursor.Some? && f.cursor.value in page
    requires |page| == q.maxNodes.value < |Scope(log, q, f.cursor)|
    ensures Newest(q.d, page).Some? && Newest(q.d, page) != f.cursor
    ensures Newest(q.d, page).value in page && Newest(q.d, page).value !in Fetched(f)
  {
    hide Fetched, FetchInv, Scope, SafeLog, Crowded, IsPage;
    CursorSplits(f, log, q, start);
    if Newest(q.d, page) == f.cursor {
      StuckIsCrowded(f, log, q, start, page);
      assert false;
    }
  }

  lemma FetchedInScope(f: Fetch, log: Log, q: Query, start: Option<Index>, c: Index)
    requires FetchInv(f, log, q, start) && c in Fetched(f)
    ensures c in Scope(log, q, start)
  {
  }

  // ---- when a fetch is complete --------------------------------------------------------------

  /** The rows a fetch has after so many full pages, at the least. */
  function AtLeast(q: Query, requests: nat, gain: nat): int
    requires q.maxNodes.Some?
  {
    if requests == 0 then 0 else q.maxNodes.value + (requests - 1) * gain
  }

  ghost predicate ProgressInv(f: Fetch, log: Log, q: Query, start: Option<Index>, gain: nat) {
    && FetchInv(f, log, q, start)
    && (f.status.Running? || f.status.Complete?)
    && (f.status.Running? && f.requests > 0 ==>
          Limited(q) && AtLeast(q, f.requests, gain) <= |Fetched(f)| < |Scope(log, q, start)|)
    && (f.status.Complete? ==> f.requests > 0 && Fetched(f) == Whole(log, q, start))
  }

  /** A truncated page, the first or a later one. */
  lemma TruncatedPage(f: Fetch, log: Log, q: Query, start: Option<Index>, page: set<Index>, gain: nat)
    requires SafeLog(log, q) && Advances(log, q, start, gain) && Limited(q)
    requires ProgressInv(f, log, q, start, gain) && f.status.Running?
    requires IsPage(log, q, f.cursor, page) && page <= log.Keys
    requires f.requests > 0 ==> f.cursor.Some? && f.cursor.value in page
    requires |page| == q.maxNodes.value < |Scope(log, q, f.cursor)|
    ensures var n := |Fetched(f) + Restrict(log, page)|;
            AtLeast(q, f.requests + 1, gain) <= n < |Scope(log, q, start)|
    ensures Newest(q.d, page).Some? && Newest(q.d, page) != f.last
  {
    hide FetchInv, SafeLog, Advances, Fetched, Scope, IsPage, Newest;
    FetchedNothing(f, log, q, start);
    assert page != {};
    if f.requests == 0 {
      FirstPage(f, log, q, page);
    } else {
      assert (Fetched(f) + Restrict(log, page)).Keys == Fetched(f).Keys + page;
      FullPageGains(f, log, q, start, page, gain);
      PageLeavesRow(f, log, q, start, page);
    }
  }

  lemma Absorbs(f: Fetch, reply: Reply, d: Direction, next: Option<Index>)
    requires f.status.Running? && reply.code == RC_PARTIAL_SUCCESS && reply.batch != []
    requires next == ContinuationIndex(reply.batch[0].rows, d) && next.Some? && next != f.last
    ensures Absorb(f, reply, d).status.Running?
  {
  }

  lemma ProgressStep(f: Fetch, log: Log, q: Query, start: Option<Index>, gain: nat)
    requires SafeLog(log, q) && Advances(log, q, start, gain)
    requires ProgressInv(f, log, q, start, gain) && f.status.Running?
    ensures ProgressInv(Absorb(f, Serve(log, q, f.cursor), q.d), log, q, start, gain)
  {
    hide FetchInv, SafeLog, Advances, Serve, Whole, Fetched, Scope, IsPage, Contiguous, Newest, Absorb, AtLeast,
         ContinuationIndex;
    assert Grows(q.d, log, log);
    var g := StepThenGrow(f, log, log, q, start);
    var page := NextPage(f, log, q, start);
    var reply := Serve(log, q, f.cursor);
    if reply.code == RC_PARTIAL_SUCCESS {
      assert Limited(q);
      TruncatedPage(f, log, q, start, page, gain);
      assert page != {};
      Absorbs(f, reply, q.d, Newest(q.d, page));
    } else {
      StopsOnSuccess(f, reply, q.d);
    }
  }

  lemma StopsOnSuccess(f: Fetch, reply: Reply, d: Direction)
    requires reply.code == RC_SUCCESS
    ensures Absorb(f, reply, d).status.Complete?
  {
  }

  lemma FirstPage(f: Fetch, log: Log, q: Query, page: set<Index>)
    requires Fetched(f) == map[] && page <= log.Keys
    ensures |Fetched(f) + Restrict(log, page)| == |page|
  {
    assert (Fetched(f) + Restrict(log, page)).Keys == page;
  }

  /** The state a fetch ends in when every page advances, whatever the request budget. */
  lemma FetchAdvances(log: Log, q: Query, start: Option<Index>, cap: nat, gain: nat)
    requires SafeLog(log, q) && Advances(log, q, start, gain)
    ensures var f := FetchAll(log, q, start, cap);
            ProgressInv(f, log, q, start, gain) && (f.status.Running? ==> f.requests == cap) && f.requests <= cap
  {
    hide SafeLog, Advances, Serve, Absorb, Drive, FetchInv, ProgressInv;
    var server := StaticServer(log, q);
    var inv := f => ProgressInv(f, log, q, start, gain) && f.requests <= cap;
    forall f | inv(f) && !Finished(f, cap)
      ensures inv(Absorb(f, server(f.requests, f.cursor), q.d))
    {
      RunningNow(f, log, q, start, gain, cap);
      ProgressStep(f, log, q, start, gain);
      var g := StepCounts(f, Serve(log, q, f.cursor), q.d);
    }
    BeginProgress(log, q, start, gain);
    DriveKeeps(server, Begin(start), q.d, cap, inv);
    RunsToCap(FetchAll(log, q, start, cap), log, q, start, gain, cap);
  }

  lemma RunningNow(f: Fetch, log: Log, q: Query, start: Option<Index>, gain: nat, cap: nat)
    requires ProgressInv(f, log, q, start, gain) && !Finished(f, cap)
    ensures f.status.Running? && f.requests < cap
  {
  }

  lemma RunsToCap(f: Fetch, log: Log, q: Query, start: Option<Index>, gain: nat, cap: nat)
    requires ProgressInv(f, log, q, start, gain) && Finished(f, cap) && f.requests <= cap
    ensures f.status.Running? ==> f.requests == cap
  {
  }

  lemma BeginProgress(log: Log, q: Query, start: Option<Index>, gain: nat)
    ensures ProgressInv(Begin(start), log, q, start, gain)
  {
    BeginHolds(log, q, start);
  }

  lemma StepCounts(f: Fetch, reply: Reply, d: Direction) returns (g: Fetch)
    ensures g == Absorb(f, reply, d) && g.requests == f.requests + 1
  {
    g := Absorb(f, reply, d);
  }

  // ---- a crowd stops every fetch short -------------------------------------------------------

  predicate AtOrBefore(q: Query, cursor: Option<Index>, c: Index) {
    cursor.None? || !Before(q.d, OnWire(q.wire, c), OnWire(q.wire, cursor.value))
  }

  ghost predicate StuckInv(f: Fetch, log: Log, q: Query, start: Option<Index>, c: Index) {
    && FetchInv(f, log, q, start)
    && !f.status.Complete?
    && (f.status.Running? ==> AtOrBefore(q, f.cursor, c))
  }

  /** A request from at or before a crowd is truncated, and its page does not get past the crowd. */
  lemma CrowdStops(log: Log, q: Query, cursor: Option<Index>, c: Index, page: set<Index>)
    requires Limited(q) && CrowdedAt(log, q, c) && AtOrBefore(q, cursor, c)
    requires IsPage(log, q, cursor, page)
    ensures Truncates(q.maxNodes, |Scope(log, q, cursor)|)
    ensures page != {} ==> AtOrBefore(q, Newest(q.d, page), c)
  {
    assert Scope(log, q, Some(c)) <= Scope(log, q, cursor);
    SubsetSize(Scope(log, q, Some(c)), Scope(log, q, cursor));
    if page != {} && !AtOrBefore(q, Newest(q.d, page), c) {
      var n := Newest(q.d, page).value;
      var together := Together(log, q, c);
      forall x | x in together
        ensures x in page && x != n
      {
        OnWireLaws(q.d, q.wire, n, x);
        OnWireLaws(q.d, q.wire, x, n);
      }
      SubsetSize(together + {n}, page);
      assert false;
    }
  }

  lemma StuckStep(f: Fetch, log: Log, q: Query, start: Option<Index>, c: Index)
    requires SafeLog(log, q) && Limited(q) && CrowdedAt(log, q, c)
    requires StuckInv(f, log, q, start, c) && f.status.Running?
    ensures StuckInv(Absorb(f, Serve(log, q, f.cursor), q.d), log, q, start, c)
  {
    hide FetchInv, SafeLog, CrowdedAt, Serve, Fetched, IsPage, Contiguous, AtOrBefore;
    var page := NextPage(f, log, q, start);
    StepKeepsFetch(f, log, q, start);
    CrowdStops(log, q, f.cursor, c, page);
  }

  lemma StuckForever(log: Log, q: Query, start: Option<Index>, cap: nat, c: Index)
    requires SafeLog(log, q) && Limited(q)
    requires c in Scope(log, q, start) && CrowdedAt(log, q, c)
    ensures !FetchAll(log, q, start, cap).status.Complete?
  {
    hide SafeLog, CrowdedAt, Serve, Absorb, Drive, FetchInv, Limited;
    var server := StaticServer(log, q);
    var inv := f => StuckInv(f, log, q, start, c);
    forall f | inv(f) && !Finished(f, cap)
      ensures inv(Absorb(f, server(f.requests, f.cursor), q.d))
    {
      StuckStep(f, log, q, start, c);
    }
    BeginHolds(log, q, start);
    if start.Some? {
      OnWireLaws(q.d, q.wire, OnWire(q.wire, start.value), c);
      OnWireLaws(q.d, q.wire, start.value, c);
    }
    DriveKeeps(server, Begin(start), q.d, cap, inv);
  }

  /**
   * How a fetch of a log that does not grow ends, whatever the request budget. Without a crowd the stall guard never
   * fires: the fetch is complete, or has used up its budget. With one it is never complete. A complete fetch holds
   * the whole range.
   */
  lemma HowAFetchEnds(log: Log, q: Query, start: Option<Index>, cap: nat)
    requires SafeLog(log, q)
    ensures var f := FetchAll(log, q, start, cap);
            && (Crowded(log, q, start) ==> !f.status.Complete?)
            && (!Crowded(log, q, start) ==> f.status.Complete? || (f.status.Running? && f.requests == cap))
            && (f.status.Complete? ==> Fetched(f) == Whole(log, q, start))
  {
    hide CrowdedAt, FetchAll, Fetched, Whole, SafeLog, Scope, FetchInv;
    if Crowded(log, q, start) {
      var c :| c in Scope(log, q, start) && CrowdedAt(log, q, c);
      StuckForever(log, q, start, cap, c);
    } else {
      FetchAdvances(log, q, start, cap, 1);
    }
  }

  /**
   * A fetch is complete exactly when there is no crowd, once the budget lets every page after the first bring a
   * single row.
   */
  lemma CompleteIffNoCrowd(log: Log, q: Query, start: Option<Index>, cap: nat)
    requires SafeLog(log, q) && cap >= 1
    requires Limited(q) ==> |Scope(log, q, start)| < q.maxNodes.value + cap
    ensures FetchAll(log, q, start, cap).status.Complete? <==> !Crowded(log, q, start)
  {
    hide Crowded, FetchAll, Fetched, Whole, SafeLog, Scope, FetchInv;
    HowAFetchEnds(log, q, start, cap);
    if !Crowded(log, q, start) {
      FetchAdvances(log, q, start, cap, 1);
    }
  }

  /** A log none of whose wire forms fills a page has no crowd. */
  lemma SparseIsNotCrowded(log: Log, q: Query, start: Option<Index>, s: nat)
    requires Sparse(log, q, s) && (Limited(q) ==> s < q.maxNodes.value)
    ensures !Crowded(log, q, start)
  {
    if Crowded(log, q, start) {
      var c :| c in Scope(log, q, start) && CrowdedAt(log, q, c);
      TogetherIsAlike(log, q, c);
      SubsetSize(Together(log, q, c), Alike(log, q, c));
      assert false;
    }
  }

  /**
   * With at most `s` rows to a wire form and pages of `k > s` rows, a fetch has `min(n, k + (cap - 1) * (k - s))`
   * of its `n` rows at the least, and is complete whenever that is all of them.
   */
  lemma SparseFetchCompletes(log: Log, q: Query, start: Option<Index>, cap: nat, s: nat)
    requires SafeLog(log, q) && Sparse(log, q, s) && Limited(q) && s < q.maxNodes.value && cap >= 1
    ensures var f, n, k := FetchAll(log, q, start, cap), |Scope(log, q, start)|, q.maxNodes.value;
            && |Fetched(f)| >= Min(n, k + (cap - 1) * (k - s))
            && (n <= k + (cap - 1) * (k - s) ==> f.status.Complete? && Fetched(f) == Whole(log, q, start))
            && (f.status.Complete? || (f.status.Running? && f.requests == cap))
            && FetchInv(f, log, q, start)
  {
    hide FetchAll, Fetched, SafeLog, Scope, FetchInv, Sparse;
    var k := q.maxNodes.value;
    assert Sparse(log, q, k - (k - s));
    FetchAdvances(log, q, start, cap, k - s);
    WholeSize(log, q, start);
  }

  lemma WholeSize(log: Log, q: Query, start: Option<Index>)
    ensures |Whole(log, q, start)| == |Scope(log, q, start)|
  {
    assert Whole(log, q, start).Keys == Scope(log, q, start);
  }

  // ---- the exact cost of a fetch -------------------------------------------------------------

  function CeilDiv(a: int, b: int): int
    requires b > 0
  {
    (a + b - 1) / b
  }

  lemma CeilDivAtMost(a: int, b: int, r: int)
    requires b > 0
    ensures CeilDiv(a, b) <= r <==> a <= r * b
  {
    var c := CeilDiv(a, b);
    assert c * b <= a + b - 1 < c * b + b;
    if c <= r {
      MulMonotone(c, r, b);
    } else {
      MulMonotone(r + 1, c, b);
    }
  }

  lemma MulMonotone(x: int, y: int, b: int)
    requires x <= y && b > 0
    ensures x * b <= y * b
  {
  }

  /** The requests a fetch of `n` rows takes with `k` rows to a page. */
  function RequestsNeeded(n: nat, k: int): int
    requires k >= 2
  {
    Max(1, CeilDiv(n - 1, k - 1))
  }

  /** Each page after the first repeats one row, so `j` full pages hold this many rows. */
  function RowsAfter(j: nat, k: int): int {
    if j == 0 then 0 else 1 + j * (k - 1)
  }

  lemma RowsAfterNext(j: nat, k: int)
    ensures RowsAfter(j + 1, k) == if j == 0 then k else RowsAfter(j, k) + k - 1
  {
  }

  ghost predicate CostInv(f: Fetch, log: Log, q: Query, start: Option<Index>)
    requires q.maxNodes.Some?
  {
    var n, k := |Scope(log, q, start)|, q.maxNodes.value;
    && FetchInv(f, log, q, start)
    && (f.status.Running? || f.status.Complete?)
    && (f.status.Running? ==> |Fetched(f)| == RowsAfter(f.requests, k))
    && (f.status.Running? && f.requests > 0 ==> n > RowsAfter(f.requests, k))
    && (f.status.Complete? ==> |Fetched(f)| == n && 0 < f.requests && n <= RowsAfter(f.requests, k))
    && (f.status.Complete? && f.requests > 1 ==> n > RowsAfter(f.requests - 1, k))
  }

  ghost predicate LonePages(log: Log, q: Query) {
    SafeLog(log, q) && OneEach(log, q) && q.maxNodes.Some? && q.maxNodes.value >= 2
  }

  /** With a row to each wire form what is left overlaps what was fetched in the cursor's row alone. */
  lemma RestOverlap(f: Fetch, log: Log, q: Query, start: Option<Index>)
    requires LonePages(log, q) && FetchInv(f, log, q, start) && f.status.Running? && f.requests > 0
    ensures f.cursor.Some? && Fetched(f).Keys * Scope(log, q, f.cursor) == {f.cursor.value}
    ensures |Scope(log, q, f.cursor)| == |Scope(log, q, start)| - |Fetched(f)| + 1
  {
    hide Fetched, FetchInv, Scope, OnWire, SafeLog;
    CursorSplits(f, log, q, start);
    var got, rest := Fetched(f).Keys, Scope(log, q, f.cursor);
    InLog(f, log, q, start, f.cursor.value);
    assert got * rest == {f.cursor.value};
    assert |got + rest| == |got| + |rest| - |got * rest|;
  }

  /** So does a page. */
  lemma PageOverlap(f: Fetch, log: Log, q: Query, start: Option<Index>, page: set<Index>)
    requires LonePages(log, q) && page <= log.Keys
    requires FetchInv(f, log, q, start) && f.status.Running? && f.requests > 0
    requires IsPage(log, q, f.cursor, page) && f.cursor.Some? && f.cursor.value in page
    ensures |Fetched(f) + Restrict(log, page)| == |Fetched(f)| + |page| - 1
    ensures |Scope(log, q, f.cursor)| == |Scope(log, q, start)| - |Fetched(f)| + 1
  {
    hide Fetched, FetchInv, Scope, LonePages;
    RestOverlap(f, log, q, start);
    var c := f.cursor.value;
    var got := Fetched(f).Keys;
    assert c in got * Scope(log, q, f.cursor);
    assert (Fetched(f) + Restrict(log, page)).Keys == got + page;
    assert got * page == {c};
    assert |got + page| == |got| + |page| - |got * page|;
  }

  lemma CostStep(f: Fetch, log: Log, q: Query, start: Option<Index>)
    requires LonePages(log, q)
    requires CostInv(f, log, q, start) && f.status.Running?
    ensures CostInv(Absorb(f, Serve(log, q, f.cursor), q.d), log, q, start)
  {
    hide FetchInv, SafeLog, Serve, Scope, IsPage, Contiguous, Newest, RowsAfter, OneEach;
    StepKeepsFetch(f, log, q, start);
    if f.requests == 0 {
      CostFirst(f, log, q, start);
    } else {
      CostNext(f, log, q, start);
    }
  }

  lemma CostFirst(f: Fetch, log: Log, q: Query, start: Option<Index>)
    requires LonePages(log, q)
    requires CostInv(f, log, q, start) && f.status.Running? && f.requests == 0
    requires FetchInv(Absorb(f, Serve(log, q, f.cursor), q.d), log, q, start)
    ensures CostInv(Absorb(f, Serve(log, q, f.cursor), q.d), log, q, start)
  {
    hide FetchInv, SafeLog, Serve, Scope, IsPage, Contiguous, Newest, RowsAfter, OneEach;
    var page := NextPage(f, log, q, start);
    FetchedNothing(f, log, q, start);
    RowsAfterNext(0, q.maxNodes.value);
    PageLimit(log, q, f.cursor, page);
    FirstPage(f, log, q, page);
  }

  lemma CostNext(f: Fetch, log: Log, q: Query, start: Option<Index>)
    requires LonePages(log, q)
    requires CostInv(f, log, q, start) && f.status.Running? && f.requests > 0
    requires FetchInv(Absorb(f, Serve(log, q, f.cursor), q.d), log, q, start)
    ensures CostInv(Absorb(f, Serve(log, q, f.cursor), q.d), log, q, start)
  {
    hide FetchInv, SafeLog, Serve, Scope, IsPage, Contiguous, Newest, RowsAfter, OneEach;
    var page := NextPage(f, log, q, start);
    FetchedNothing(f, log, q, start);
    RowsAfterNext(f.requests, q.maxNodes.value);
    PageLimit(log, q, f.cursor, page);
    PageOverlap(f, log, q, start, page);
    if |page| >= 2 {
      InLog(f, log, q, start, f.cursor.value);
      PageIsNew(log, q, f.cursor.value, page);
    }
  }

  lemma PageLimit(log: Log, q: Query, cursor: Option<Index>, page: set<Index>)
    requires Limited(q) && IsPage(log, q, cursor, page)
    ensures |page| <= q.maxNodes.value
  {
  }

  lemma PageIsNew(log: Log, q: Query, c: Index, page: set<Index>)
    requires OneEach(log, q) && IsPage(log, q, Some(c), page) && |page| >= 2 && c in log
    ensures Newest(q.d, page) != Some(c)
  {
    hide OnWire;
    if Newest(q.d, page) == Some(c) {
      StuckPageIsCrowd(log, q, c, page);
      assert page <= {c};
      SubsetSize(page, {c});
      assert false;
    }
  }

  lemma BeginCost(log: Log, q: Query, start: Option<Index>)
    requires q.maxNodes.Some?
    ensures CostInv(Begin(start), log, q, start)
  {
    BeginHolds(log, q, start);
  }

  /**
   * The exact cost of a fetch when no two rows share a wire form: `max(1, ceil((n - 1) / (k - 1)))` requests up to
   * the cap, and `min(n, 1 + cap * (k - 1))` rows; a truncated page always moves the cursor.
   */
  lemma CostOfFetch(log: Log, q: Query, start: Option<Index>, cap: nat)
    requires LonePages(log, q) && cap >= 1
    ensures var f, n, k := FetchAll(log, q, start, cap), |Scope(log, q, start)|, q.maxNodes.value;
            && f.requests == Min(cap, RequestsNeeded(n, k))
            && |Fetched(f)| == Min(n, 1 + cap * (k - 1))
            && (f.status.Complete? <==> RequestsNeeded(n, k) <= cap)
            && (f.status.Running? || f.status.Complete?)
  {
    hide FetchInv, Scope, FetchAll, Fetched, SafeLog, OneEach, CeilDiv;
    var f, n, k := FetchAll(log, q, start, cap), |Scope(log, q, start)|, q.maxNodes.value;
    CostHolds(log, q, start, cap);
    CeilDivAtMost(n - 1, k - 1, cap);
    if f.status.Complete? {
      CeilDivAtMost(n - 1, k - 1, f.requests);
      CeilDivAtMost(n - 1, k - 1, f.requests - 1);
      MulMonotone(f.requests, cap, k - 1);
    }
  }

  lemma CostHolds(log: Log, q: Query, start: Option<Index>, cap: nat)
    requires LonePages(log, q)
    ensures var f := FetchAll(log, q, start, cap);
            CostInv(f, log, q, start) && (f.status.Running? ==> f.requests == cap) && f.requests <= cap
  {
    hide SafeLog, OneEach, Serve, Absorb, Drive, FetchInv, CostInv;
    var server := StaticServer(log, q);
    var inv := f requires q.maxNodes.Some? => CostInv(f, log, q, start) && f.requests <= cap;
    forall f | inv(f) && !Finished(f, cap)
      ensures inv(Absorb(f, server(f.requests, f.cursor), q.d))
    {
      CostStep(f, log, q, start);
      var g := StepCounts(f, Serve(log, q, f.cursor), q.d);
    }
    BeginCost(log, q, start);
    DriveKeeps(server, Begin(start), q.d, cap, inv);
  }

  // ---- one row to a page ---------------------------------------------------------------------

  ghost predicate SingleInv(f: Fetch, log: Log, q: Query, start: Option<Index>) {
    && FetchInv(f, log, q, start)
    && (f.requests == 0 ==> f.status.Running?)
    && (f.requests > 0 ==> |Fetched(f)| == 1)
    && (f.requests == 1 ==> f.status.Running?)
    && (f.requests == 2 ==> f.status.Stalled?)
    && f.requests <= 2
  }

  lemma SingleStep(f: Fetch, log: Log, q: Query, start: Option<Index>)
    requires SafeLog(log, q) && q.maxNodes == Some(1) && |Scope(log, q, start)| >= 2
    requires SingleInv(f, log, q, start) && f.status.Running?
    ensures SingleInv(Absorb(f, Serve(log, q, f.cursor), q.d), log, q, start)
  {
    hide FetchInv, Serve, Scope, Contiguous, Newest, IsPage;
    var g := Absorb(f, Serve(log, q, f.cursor), q.d);
    var page := NextPage(f, log, q, start);
    StepKeepsFetch(f, log, q, start);
    FetchedNothing(f, log, q, start);
    if f.requests == 0 {
      FirstPage(f, log, q, page);
    } else {
      SingleOverlap(f, log, q, start, page);
    }
  }

  lemma SingleOverlap(f: Fetch, log: Log, q: Query, start: Option<Index>, page: set<Index>)
    requires SafeLog(log, q) && q.maxNodes == Some(1) && page <= log.Keys
    requires FetchInv(f, log, q, start) && f.status.Running? && f.requests > 0 && |Fetched(f)| == 1
    requires IsPage(log, q, f.cursor, page) && f.cursor.Some? && f.cursor.value in page
    requires |Scope(log, q, start)| >= 2
    ensures page == {f.cursor.value} && |Fetched(f) + Restrict(log, page)| == 1
    ensures Newest(q.d, page) == f.cursor
    ensures |Scope(log, q, f.cursor)| > 1
  {
    hide Fetched, Regained, Headed, OnWire;
    var c := f.cursor.value;
    SubsetSize({c}, page);
    SubsetSize({c}, Fetched(f).Keys);
    assert forall x :: x in Scope(log, q, start) ==> !Before(q.d, x, c) by {
      OnlyFirst(f, log, q, start);
    }
    assert (Fetched(f) + Restrict(log, page)).Keys == {c};
    assert Scope(log, q, start) <= Scope(log, q, f.cursor);
    SubsetSize(Scope(log, q, start), Scope(log, q, f.cursor));
  }

  /** With one row to a page the stall guard stops the loop at the second request, with exactly the first row. */
  lemma OneRowPagesStall(log: Log, q: Query, start: Option<Index>, cap: nat)
    requires SafeLog(log, q) && q.maxNodes == Some(1) && |Scope(log, q, start)| >= 2 && cap >= 2
    ensures var f := FetchAll(log, q, start, cap);
            && f.status.Stalled? && f.requests == 2
            && Fetched(f) == Restrict(log, {First(q.d, Scope(log, q, start))})
  {
    hide Serve, Absorb, Drive, FetchInv, Scope;
    var server := StaticServer(log, q);
    var inv := f => SingleInv(f, log, q, start);
    forall f | inv(f) && !Finished(f, cap)
      ensures inv(Absorb(f, server(f.requests, f.cursor), q.d))
    {
      SingleStep(f, log, q, start);
    }
    BeginHolds(log, q, start);
    DriveKeeps(server, Begin(start), q.d, cap, inv);
    OnlyFirst(FetchAll(log, q, start, cap), log, q, start);
  }

  lemma OnlyFirst(f: Fetch, log: Log, q: Query, start: Option<Index>)
    requires FetchInv(f, log, q, start) && |Fetched(f)| == 1 && Scope(log, q, start) != {}
    ensures Fetched(f) == Restrict(log, {First(q.d, Scope(log, q, start))})
  {
    var got := Fetched(f);
    var first := First(q.d, Scope(log, q, start));
    assert got != map[];
    var y :| y in got;
    assert first in got;
    SubsetSize({first}, got.Keys);
  }
}
