/** The loop invariant of a paged fetch against the store's paging rule. */
module FetchRun {
  import opened Order
  import opened Blocks
  import opened Polling
  import opened LogPages
  import opened Client

  /** What stays fixed during a fetch. */
  datatype Query = Query(d: Direction, wire: Wire, end: Option<Index>, maxNodes: Option<int>,
                         mnemonics: seq<string>, units: seq<Option<string>>)

  /** The store's reply to one data request: a reply without rows carries no data block. */
  function Serve(log: Log, q: Query, cursor: Option<Index>): Reply {
    var (order, cut) := PageOf(log.Keys, q.d, BoundOnWire(q.wire, cursor), BoundOnWire(q.wire, q.end), q.maxNodes);
    Reply(if cut then RC_PARTIAL_SUCCESS else RC_SUCCESS,
          if order == [] then [] else [Block(q.mnemonics, q.units, PageRows(log, q, cursor))])
  }

  function PageRows(log: Log, q: Query, cursor: Option<Index>): seq<Row> {
    var order := PageOf(log.Keys, q.d, BoundOnWire(q.wire, cursor), BoundOnWire(q.wire, q.end), q.maxNodes).0;
    PageInLog(log, q, cursor);
    RowsAt(log, order)
  }

  lemma PageInLog(log: Log, q: Query, cursor: Option<Index>)
    ensures var order := PageOf(log.Keys, q.d, BoundOnWire(q.wire, cursor), BoundOnWire(q.wire, q.end), q.maxNodes).0;
            forall x :: x in order ==> x in log
  {
    var page := PageShape(log.Keys, q.d, BoundOnWire(q.wire, cursor), BoundOnWire(q.wire, q.end), q.maxNodes);
  }

  /** The indices one unpaged range query from `start` selects. */
  function Scope(log: Log, q: Query, start: Option<Index>): set<Index> {
    Selected(log.Keys, q.d, BoundOnWire(q.wire, start), BoundOnWire(q.wire, q.end))
  }

  function Fetched(f: Fetch): Log {
    ByIndex(AllRows(f.blocks))
  }

  /** `got` is a piece of the log that begins at the first row in scope and has no gap. */
  ghost predicate Contiguous(got: Log, log: Log, q: Query, start: Option<Index>) {
    && got.Keys <= Scope(log, q, start)
    && (forall x :: x in got ==> got[x] == log[x])
    && (forall x, y :: x in Scope(log, q, start) && y in got && !Before(q.d, y, x) ==> x in got)
  }

  /** The stored indices a request from cursor `c` sends again, up to and including `c`. */
  function Resent(keys: set<Index>, q: Query, c: Index): set<Index> {
    set x | x in keys && !Before(q.d, x, OnWire(q.wire, c)) && !Before(q.d, c, x)
  }

  predicate Limited(q: Query) {
    q.maxNodes.Some? && q.maxNodes.value > 0
  }

  /** One page from cursor `c` reaches at least `c` again. */
  predicate Regained(log: Log, q: Query, c: Index) {
    Limited(q) ==> |Resent(log.Keys, q, c)| <= q.maxNodes.value
  }

  ghost predicate SafeLog(log: Log, q: Query) {
    forall x :: x in log ==> Safe(q.d, q.wire, x)
  }

  ghost predicate Headed(blocks: seq<Block>, q: Query) {
    forall i :: 0 <= i < |blocks| ==> blocks[i].mnemonics == q.mnemonics && blocks[i].units == q.units
  }

  /** What every iteration keeps. */
  ghost predicate FetchInv(f: Fetch, log: Log, q: Query, start: Option<Index>) {
    && Contiguous(Fetched(f), log, q, start)
    && Headed(f.blocks, q)
    && (f.requests == 0 ==> f == Begin(start))
    && (f.requests > 0 && f.status.Running? ==>
          f.cursor.Some? && f.cursor == f.last == Newest(q.d, Fetched(f).Keys))
    && (Fetched(f) != map[] ==> Regained(log, q, Newest(q.d, Fetched(f).Keys).value))
  }

  /** The log keeps its rows and gains rows only beyond all of them. */
  ghost predicate Grows(d: Direction, log: Log, log': Log) {
    GrowsBeyond(d, log.Keys, log'.Keys) && forall x :: x in log ==> log'[x] == log[x]
  }

  lemma GrowthKeepsFetch(f: Fetch, log: Log, log': Log, q: Query, start: Option<Index>)
    requires FetchInv(f, log, q, start) && Grows(q.d, log, log')
    ensures FetchInv(f, log', q, start)
  {
    var got := Fetched(f);
    if got != map[] {
      var c := Newest(q.d, got.Keys).value;
      assert Resent(log'.Keys, q, c) == Resent(log.Keys, q, c);
    }
  }

  /** A set of selected indices closed towards the cursor, within the node limit. */
  ghost predicate IsPage(log: Log, q: Query, cursor: Option<Index>, page: set<Index>) {
    && page <= Scope(log, q, cursor)
    && (forall x, y :: x in Scope(log, q, cursor) && y in page && !Before(q.d, y, x) ==> x in page)
    && (Limited(q) ==> |page| <= q.maxNodes.value)
  }

  /** The page of a reply, as a set. */
  lemma PageFacts(log: Log, q: Query, cursor: Option<Index>) returns (page: set<Index>)
    ensures IsPage(log, q, cursor, page) && page <= log.Keys
    ensures var reply := Serve(log, q, cursor);
            && (if reply.code == RC_PARTIAL_SUCCESS then Limited(q) && |page| == q.maxNodes.value
                else reply.code == RC_SUCCESS && page == Scope(log, q, cursor))
            && (reply.code == RC_PARTIAL_SUCCESS <==> Truncates(q.maxNodes, |Scope(log, q, cursor)|))
            && reply.batch == if page == {} then [] else [Block(q.mnemonics, q.units, RowsAt(log, Sorted(q.d, page)))]
  {
    page := PageShape(log.Keys, q.d, BoundOnWire(q.wire, cursor), BoundOnWire(q.wire, q.end), q.maxNodes);
    assert |Sorted(q.d, page)| == |page|;
  }

  /** A request from an index the log holds gets that index back. */
  lemma CursorOnPage(log: Log, q: Query, c: Index, page: set<Index>)
    requires c in Scope(log, q, Some(c)) && Regained(log, q, c)
    requires IsPage(log, q, Some(c), page)
    requires page == Scope(log, q, Some(c)) || (Limited(q) && |page| == q.maxNodes.value)
    ensures c in page
  {
    if c !in page {
      var resent := Resent(log.Keys, q, c);
      assert forall y :: y in page ==> Before(q.d, y, c);
      assert page + {c} <= resent;
      SubsetSize(page + {c}, resent);
      assert false;
    }
  }

  function Restrict(log: Log, keys: set<Index>): Log {
    map x | x in log && x in keys :: log[x]
  }

  /** The answer of one unpaged range query. */
  function Whole(log: Log, q: Query, start: Option<Index>): Log {
    Restrict(log, Scope(log, q, start))
  }

  lemma AbsorbedRows(f: Fetch, reply: Reply, log: Log, q: Query, page: set<Index>)
    requires page <= log.Keys
    requires reply.code in {RC_SUCCESS, RC_PARTIAL_SUCCESS}
    requires reply.batch ==
             if page == {} then [] else [Block(q.mnemonics, q.units, RowsAt(log, Sorted(q.d, page)))]
    ensures Fetched(Absorb(f, reply, q.d)) == Fetched(f) + Restrict(log, page)
    ensures page != {} ==> ContinuationIndex(reply.batch[0].rows, q.d) == Newest(q.d, page)
  {
    hide Sorted, ByIndex, Newest, RowsAt;
    var g := Absorb(f, reply, q.d);
    PageAsLog(log, q.d, page);
    if page == {} {
      assert g.blocks == f.blocks;
      assert Restrict(log, page) == map[];
    } else {
      assert g.blocks[..|g.blocks| - 1] == f.blocks;
      assert AllRows(g.blocks) == AllRows(f.blocks) + reply.batch[0].rows;
      ByIndexConcat(AllRows(f.blocks), reply.batch[0].rows);
    }
  }

  lemma PageAsLog(log: Log, d: Direction, page: set<Index>)
    requires page <= log.Keys
    ensures ByIndex(RowsAt(log, Sorted(d, page))) == Restrict(log, page)
    ensures RowIndices(RowsAt(log, Sorted(d, page))) == page
  {
    hide Sorted, ByIndex, Before;
    var order := Sorted(d, page);
    ByIndexRowsAt(d, log, order);
    ByIndexKeys(RowsAt(log, order));
    assert (map x | x in order :: log[x]) == Restrict(log, page);
  }

  /** A page requested from the newest index fetched so far continues the run without a gap. */
  lemma PageContinues(got: Log, log: Log, q: Query, start: Option<Index>, cursor: Option<Index>, page: set<Index>)
    requires SafeLog(log, q)
    requires Contiguous(got, log, q, start)
    requires got == map[] ==> cursor == start
    requires got != map[] ==> cursor == Newest(q.d, got.Keys)
    requires IsPage(log, q, cursor, page)
    requires got != map[] ==> cursor.value in page
    ensures Contiguous(got + Restrict(log, page), log, q, start)
    ensures Newest(q.d, (got + Restrict(log, page)).Keys) == Newest(q.d, page)
    ensures page == Scope(log, q, cursor) ==> (got + Restrict(log, page)).Keys == Scope(log, q, start)
  {
    hide OnWire, Scope;
    var all := got + Restrict(log, page);
    ScopeInLog(log, q, cursor);
    assert all.Keys == got.Keys + page;
    if got == map[] {
      assert all.Keys == page;
    } else {
      var c := cursor.value;
      CursorNarrows(log, q, start, c);
      assert forall x :: x in Scope(log, q, start) && !Before(q.d, c, x) ==> x in got;
    }
  }

  lemma ScopeInLog(log: Log, q: Query, start: Option<Index>)
    ensures Scope(log, q, start) <= log.Keys
  {
  }

  /** A re-query from a row in the range stays in the range and leaves out nothing newer than that row. */
  lemma CursorNarrows(log: Log, q: Query, start: Option<Index>, c: Index)
    requires SafeLog(log, q) && c in Scope(log, q, start)
    ensures Scope(log, q, Some(c)) <= Scope(log, q, start)
    ensures forall x :: x in Scope(log, q, start) && Before(q.d, c, x) ==> x in Scope(log, q, Some(c))
  {
    hide OnWire;
    OnWireLaws(q.d, q.wire, c, c);
    if start.Some? {
      OnWireLaws(q.d, q.wire, OnWire(q.wire, start.value), c);
      OnWireLaws(q.d, q.wire, start.value, c);
    }
  }

  /** Every index of a limited page can be regained from it. */
  lemma PageRegained(log: Log, q: Query, cursor: Option<Index>, page: set<Index>)
    requires IsPage(log, q, cursor, page) && page != {}
    ensures Regained(log, q, Newest(q.d, page).value)
  {
    var c := Newest(q.d, page).value;
    if cursor.Some? {
      OnWireLaws(q.d, q.wire, OnWire(q.wire, cursor.value), c);
      OnWireLaws(q.d, q.wire, cursor.value, c);
    }
    assert Resent(log.Keys, q, c) <= page;
    SubsetSize(Resent(log.Keys, q, c), page);
  }

  lemma CursorInScope(got: Log, log: Log, q: Query, start: Option<Index>, c: Index)
    requires SafeLog(log, q) && Contiguous(got, log, q, start) && c in got
    ensures c in Scope(log, q, Some(c))
  {
    OnWireLaws(q.d, q.wire, c, c);
  }

  lemma FetchedNothing(f: Fetch, log: Log, q: Query, start: Option<Index>)
    requires FetchInv(f, log, q, start) && f.status.Running?
    ensures f.requests == 0 ==> Fetched(f) == map[] && f.cursor == start && f.last == None
    ensures f.requests > 0 ==> Fetched(f) != map[] && f.cursor == f.last == Newest(q.d, Fetched(f).Keys)
  {
  }

  /** The page a running fetch is served. */
  lemma NextPage(f: Fetch, log: Log, q: Query, start: Option<Index>) returns (page: set<Index>)
    requires SafeLog(log, q)
    requires FetchInv(f, log, q, start) && f.status.Running?
    ensures IsPage(log, q, f.cursor, page) && page <= log.Keys
    ensures f.requests > 0 ==> f.cursor.Some? && f.cursor.value in page
    ensures var reply := Serve(log, q, f.cursor);
            && (if reply.code == RC_PARTIAL_SUCCESS then Limited(q) && |page| == q.maxNodes.value
                else reply.code == RC_SUCCESS && page == Scope(log, q, f.cursor))
            && (reply.code == RC_PARTIAL_SUCCESS <==> Truncates(q.maxNodes, |Scope(log, q, f.cursor)|))
            && (page == {} <==> reply.batch == [])
    ensures var g := Absorb(f, Serve(log, q, f.cursor), q.d);
            && Fetched(g) == Fetched(f) + Restrict(log, page)
            && Contiguous(Fetched(g), log, q, start)
            && Newest(q.d, Fetched(g).Keys) == Newest(q.d, page)
            && (page == Scope(log, q, f.cursor) ==> Fetched(g).Keys == Scope(log, q, start))
    ensures page != {} ==> ContinuationIndex(Serve(log, q, f.cursor).batch[0].rows, q.d) == Newest(q.d, page)
  {
    page := PageFacts(log, q, f.cursor);
    FetchedNothing(f, log, q, start);
    if f.requests > 0 {
      CursorInScope(Fetched(f), log, q, start, f.cursor.value);
      CursorOnPage(log, q, f.cursor.value, page);
    }
    AbsorbedRows(f, Serve(log, q, f.cursor), log, q, page);
    PageContinues(Fetched(f), log, q, start, f.cursor, page);
  }

  /** One iteration keeps the invariant, never fails, and a "+1" reply completes the run. */
  lemma StepKeepsFetch(f: Fetch, log: Log, q: Query, start: Option<Index>)
    requires SafeLog(log, q)
    requires FetchInv(f, log, q, start) && f.status.Running?
    ensures var g := Absorb(f, Serve(log, q, f.cursor), q.d);
            FetchInv(g, log, q, start) && !g.status.Failed? &&
            (g.status.Complete? ==> Fetched(g).Keys == Scope(log, q, start))
  {
    hide Serve, Scope, Contiguous, IsPage, Headed, Regained, Sorted, ByIndex, AllRows, RowIndices, Fetched, Newest;
    var reply := Serve(log, q, f.cursor);
    var g := Absorb(f, reply, q.d);
    var page := NextPage(f, log, q, start);
    HeadedStep(f, log, q);
    if page == {} {
      assert g.status.Complete?;
      assert g.blocks == f.blocks;
    } else {
      PageRegained(log, q, f.cursor, page);
      assert Newest(q.d, Fetched(g).Keys).Some?;
      assert g.status.Running? ==> g.cursor == g.last == Newest(q.d, page);
    }
  }

  lemma HeadedStep(f: Fetch, log: Log, q: Query)
    requires Headed(f.blocks, q)
    ensures Headed(Absorb(f, Serve(log, q, f.cursor), q.d).blocks, q)
  {
  }

  lemma StepThenGrow(f: Fetch, log: Log, log': Log, q: Query, start: Option<Index>) returns (g: Fetch)
    requires SafeLog(log, q) && Grows(q.d, log, log')
    requires FetchInv(f, log, q, start) && f.status.Running?
    ensures g == Absorb(f, Serve(log, q, f.cursor), q.d) && g.requests == f.requests + 1
    ensures FetchInv(g, log', q, start)
    ensures !g.status.Failed?
    ensures g.status.Complete? ==> Fetched(g) == Whole(log, q, start)
  {
    hide FetchInv, Serve, Scope, Contiguous, Whole, SafeLog, Grows;
    g := Absorb(f, Serve(log, q, f.cursor), q.d);
    StepKeepsFetch(f, log, q, start);
    FetchIsContiguous(g, log, q, start);
    GrowthKeepsFetch(g, log, log', q, start);
    if g.status.Complete? {
      WholeScope(Fetched(g), log, q, start);
    }
  }

  lemma FetchIsContiguous(f: Fetch, log: Log, q: Query, start: Option<Index>)
    requires FetchInv(f, log, q, start)
    ensures Contiguous(Fetched(f), log, q, start)
  {
    hide Contiguous, Headed, Regained, Fetched;
  }

  lemma WholeScope(got: Log, log: Log, q: Query, start: Option<Index>)
    requires Contiguous(got, log, q, start) && got.Keys == Scope(log, q, start)
    ensures got == Whole(log, q, start)
  {
  }

  lemma BeginHolds(log: Log, q: Query, start: Option<Index>)
    ensures FetchInv(Begin(start), log, q, start)
  {
  }

  lemma OutcomeListsFetched(f: Fetch, q: Query)
    requires Headed(f.blocks, q) && !f.status.Failed?
    ensures var r := Outcome(f, q.mnemonics);
            r.Ok? && r.value.mnemonics == q.mnemonics && r.value.rows == Listing(Increasing, Fetched(f))
  {
    if f.blocks == [] {
      assert Sorted(Increasing, Fetched(f).Keys) == [];
    } else {
      assert HeadBlock(f.blocks) in f.blocks;
    }
  }

  /** A fetch that starts from a row of the log it can regain has that row from its first page on. */
  ghost predicate Anchored(f: Fetch, log: Log, q: Query, c: Index) {
    && c in Scope(log, q, Some(c))
    && Regained(log, q, c)
    && (f.requests > 0 ==> c in Fetched(f))
  }

  lemma StepKeepsAnchor(f: Fetch, log: Log, q: Query, c: Index)
    requires SafeLog(log, q)
    requires FetchInv(f, log, q, Some(c)) && f.status.Running? && Anchored(f, log, q, c)
    ensures Anchored(Absorb(f, Serve(log, q, f.cursor), q.d), log, q, c)
  {
    hide Serve, Scope, Contiguous, Headed, Regained, Fetched, Newest, FetchInv;
    FetchedNothing(f, log, q, Some(c));
    var page := NextPage(f, log, q, Some(c));
    if f.requests == 0 {
      CursorOnPage(log, q, c, page);
    }
  }

  lemma GrowthKeepsAnchor(f: Fetch, log: Log, log': Log, q: Query, c: Index)
    requires Anchored(f, log, q, c) && Grows(q.d, log, log')
    ensures Anchored(f, log', q, c)
  {
    assert Resent(log'.Keys, q, c) == Resent(log.Keys, q, c);
  }
}
