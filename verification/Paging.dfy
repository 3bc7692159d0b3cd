/**
 * A paged fetch against the store's paging rule, while the log grows between pages, is one gap-free and
 * duplicate-free run of the log.
 */
module Paging {
  import opened Order
  import opened Blocks
  import opened LogPages
  import opened Client
  import opened FetchRun

  /** The log as it stands when request number `i` of a fetch arrives: it may grow between any two requests. */
  ghost predicate GrowingLog(content: nat -> Log, q: Query) {
    && (forall i: nat :: SafeLog(content(i), q))
    && (forall i: nat, j: nat :: j == i + 1 ==> Grows(q.d, content(i), content(j)))
  }

  ghost predicate ServedBy(server: Server, content: nat -> Log, q: Query) {
    forall i: nat, c: Option<Index> :: server(i, c) == Serve(content(i), q, c)
  }

  /** What a query asks for: rows between its two ends, both included, with a time start and end cut to milliseconds. */
  predicate Requested(q: Query, start: Option<Index>, x: Index) {
    var cut := (v: Index) => if q.wire.Millis? then v.at.Floor as real else v.at;
    if q.d.Increasing?
    then (start.Some? ==> cut(start.value) <= x.at) && (q.end.Some? ==> x.at <= cut(q.end.value))
    else (start.Some? ==> x.at <= cut(start.value)) && (q.end.Some? ==> cut(q.end.value) <= x.at)
  }

  lemma ScopeIsAsked(log: Log, q: Query, start: Option<Index>)
    ensures forall x :: x in Scope(log, q, start) <==> x in log && Requested(q, start, x)
  {
  }

  /** What the loop keeps while the log grows between its requests. */
  ghost predicate PagingInv(f: Fetch, content: nat -> Log, q: Query, start: Option<Index>) {
    && FetchInv(f, content(f.requests), q, start)
    && !f.status.Failed?
    && (f.status.Complete? ==> f.requests > 0)
    && (f.status.Complete? ==> Fetched(f) == Whole(content(f.requests - 1), q, start))
  }

  lemma PagedStep(server: Server, content: nat -> Log, q: Query, start: Option<Index>, f: Fetch)
    requires GrowingLog(content, q) && ServedBy(server, content, q)
    requires PagingInv(f, content, q, start) && f.status.Running?
    ensures PagingInv(Absorb(f, server(f.requests, f.cursor), q.d), content, q, start)
  {
    hide FetchInv, Grows, SafeLog, Serve, Absorb, Whole, Fetched;
    var log, log' := content(f.requests), content(f.requests + 1);
    var g := StepThenGrow(f, log, log', q, start);
    assert g == Absorb(f, server(f.requests, f.cursor), q.d);
    assert content(g.requests) == log';
    assert content(g.requests - 1) == log;
  }

  lemma DriveKeepsPaging(server: Server, content: nat -> Log, q: Query, start: Option<Index>, cap: nat)
    requires GrowingLog(content, q) && ServedBy(server, content, q)
    ensures PagingInv(Drive(server, Begin(start), q.d, cap), content, q, start)
  {
    forall f | PagingInv(f, content, q, start) && !Finished(f, cap)
      ensures PagingInv(Absorb(f, server(f.requests, f.cursor), q.d), content, q, start)
    {
      PagedStep(server, content, q, start, f);
    }
    BeginHolds(content(0), q, start);
    DriveKeeps(server, Begin(start), q.d, cap, f => PagingInv(f, content, q, start));
  }

  /**
   * Paging refines one range query. Whatever the log gains between pages, and in either direction,
   * `get_log_data` returns the ascending listing of one contiguous run of the final log that begins at the
   * first row at or after `start`; when the last page was "+1" the run is the whole unpaged answer at that moment.
   */
  lemma PagedFetchIsOneRun(server: Server, content: nat -> Log, q: Query, start: Option<Index>)
    requires GrowingLog(content, q) && ServedBy(server, content, q)
    ensures var f := Drive(server, Begin(start), q.d, MAX_TRUNCATION_ITERATIONS);
            var r := Outcome(f, q.mnemonics);
            && r.Ok? && r.value.mnemonics == q.mnemonics
            && r.value.rows == Listing(Increasing, Fetched(f))
            && Contiguous(Fetched(f), content(f.requests), q, start)
            && (f.status.Complete? ==> f.requests > 0)
            && (f.status.Complete? ==> Fetched(f) == Whole(content(f.requests - 1), q, start))
            && (forall x :: x in Fetched(f) ==> Requested(q, start, x))
            && (f.status.Complete? ==>
                  forall x :: x in content(f.requests - 1) && Requested(q, start, x) ==> x in Fetched(f))
  {
    DriveKeepsPaging(server, content, q, start, MAX_TRUNCATION_ITERATIONS);
    var f := Drive(server, Begin(start), q.d, MAX_TRUNCATION_ITERATIONS);
    OutcomeListsFetched(f, q);
    ScopeIsAsked(content(f.requests), q, start);
    if f.status.Complete? {
      ScopeIsAsked(content(f.requests - 1), q, start);
    }
  }

  // ---- a fetch that resumes from a row -------------------------------------------------------

  ghost predicate ResumeInv(f: Fetch, content: nat -> Log, q: Query, c: Index) {
    PagingInv(f, content, q, Some(c)) && Anchored(f, content(f.requests), q, c)
  }

  lemma ResumedStep(server: Server, content: nat -> Log, q: Query, c: Index, f: Fetch)
    requires GrowingLog(content, q) && ServedBy(server, content, q)
    requires ResumeInv(f, content, q, c) && f.status.Running?
    ensures ResumeInv(Absorb(f, server(f.requests, f.cursor), q.d), content, q, c)
  {
    hide FetchInv, Grows, SafeLog, Serve, Absorb, Whole, Fetched, Anchored;
    PagedStep(server, content, q, Some(c), f);
    var log, log' := content(f.requests), content(f.requests + 1);
    var g := StepThenGrow(f, log, log', q, Some(c));
    StepKeepsAnchor(f, log, q, c);
    GrowthKeepsAnchor(g, log, log', q, c);
    assert content(g.requests) == log';
  }

  /** A fetch from a row of the log that one page can regain still has that row at the end. */
  lemma DriveResumes(server: Server, content: nat -> Log, q: Query, c: Index, cap: nat)
    requires GrowingLog(content, q) && ServedBy(server, content, q)
    requires c in Scope(content(0), q, Some(c)) && Regained(content(0), q, c)
    ensures ResumeInv(Drive(server, Begin(Some(c)), q.d, cap), content, q, c)
  {
    forall f | ResumeInv(f, content, q, c) && !Finished(f, cap)
      ensures ResumeInv(Absorb(f, server(f.requests, f.cursor), q.d), content, q, c)
    {
      ResumedStep(server, content, q, c, f);
    }
    BeginHolds(content(0), q, Some(c));
    DriveKeeps(server, Begin(Some(c)), q.d, cap, f => ResumeInv(f, content, q, c));
  }
}
