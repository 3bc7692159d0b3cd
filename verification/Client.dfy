/** The bounded "+2" loop that fetches one log from a paging store while the log may grow. */
module Client {
  import opened Order
  import opened Blocks
  import opened Polling
  import opened LogPages

  /** Hard cap on the requests of one fetch. */
  const MAX_TRUNCATION_ITERATIONS: nat := 1000

  const RC_SUCCESS := 1
  const RC_PARTIAL_SUCCESS := 2

  predicate IsError(code: int) { code <= 0 }

  predicate IsSuccess(code: int) { code > 0 }

  predicate IsTruncated(code: int) { code == RC_PARTIAL_SUCCESS }

  /** A return code and the log blocks parsed from the reply (at most the first is used). */
  datatype Reply = Reply(code: int, batch: seq<Block>)

  datatype Status = Running | Complete | Stalled | Failed(code: int)

  /** The variables of the loop between two requests. */
  datatype Fetch = Fetch(cursor: Option<Index>, last: Option<Index>, blocks: seq<Block>, requests: nat,
                         status: Status)

  function Begin(start: Option<Index>): Fetch {
    Fetch(start, None, [], 0, Running)
  }

  /** One loop iteration: take in the reply, then stop or move the cursor. */
  function Absorb(f: Fetch, reply: Reply, d: Direction): Fetch {
    var g := f.(requests := f.requests + 1);
    if IsError(reply.code) then g.(status := Failed(reply.code))
    else
      var blocks := if reply.batch == [] then f.blocks else f.blocks + [reply.batch[0]];
      var next := if reply.batch == [] then None else ContinuationIndex(reply.batch[0].rows, d);
      if !IsTruncated(reply.code) then g.(blocks := blocks, status := Complete)
      else if next.None? || next == f.last then g.(blocks := blocks, status := Stalled)
      else g.(blocks := blocks, cursor := next, last := next)
  }

  predicate Finished(f: Fetch, cap: nat) {
    f.status != Running || f.requests >= cap
  }

  /** The store as the client meets it: the reply to the n-th request, sent from a given cursor. */
  type Server = (nat, Option<Index>) -> Reply

  function Drive(server: Server, f: Fetch, d: Direction, cap: nat): Fetch
    decreases cap - f.requests
  {
    if Finished(f, cap) then f
    else Drive(server, Absorb(f, server(f.requests, f.cursor), d), d, cap)
  }

  /** The loop rule: what every iteration keeps holds when the loop stops. */
  lemma {:induction false} DriveKeeps(server: Server, f: Fetch, d: Direction, cap: nat, inv: Fetch -> bool)
    requires inv(f)
    requires forall g :: inv(g) && !Finished(g, cap) ==> inv(Absorb(g, server(g.requests, g.cursor), d))
    ensures inv(Drive(server, f, d, cap))
    ensures Finished(Drive(server, f, d, cap), cap)
    decreases cap - f.requests
  {
    if !Finished(f, cap) {
      DriveKeeps(server, Absorb(f, server(f.requests, f.cursor), d), d, cap, inv);
    }
  }

  datatype FetchError = StoreError(code: int) | MergeFailure(error: MergeError)

  /** What a finished fetch returns to its caller. */
  function Outcome(f: Fetch, mnemonics: seq<string>): Result<Block, FetchError> {
    if f.status.Failed? then Err(StoreError(f.status.code))
    else if f.blocks == [] then Ok(Block(mnemonics, seq(|mnemonics|, i => None), []))
    else
      match Merged(f.blocks)
      case Ok(b) => Ok(b)
      case Err(e) => Err(MergeFailure(e))
  }

  // ---- the fetch, request by request ---------------------------------------------------------

  /** The most advanced index of a reply. */
  function Reached(reply: Reply, d: Direction): Option<Index> {
    if reply.batch == [] then None else ContinuationIndex(reply.batch[0].rows, d)
  }

  /** The cursor of the n-th request of a fetch that gets that far: where the reply before it ended. */
  function Asked(server: Server, start: Option<Index>, d: Direction, n: nat): Option<Index>
    decreases n, 0
  {
    if n == 0 then start else Reached(ReplyTo(server, start, d, n - 1), d)
  }

  function ReplyTo(server: Server, start: Option<Index>, d: Direction, n: nat): Reply
    decreases n, 1
  {
    server(n, Asked(server, start, d, n))
  }

  /** A "truncated" reply that got further than the one before it. */
  predicate Continues(server: Server, start: Option<Index>, d: Direction, n: nat) {
    var reached := Reached(ReplyTo(server, start, d, n), d);
    ReplyTo(server, start, d, n).code == 2 && reached.Some? && (n > 0 ==> reached != Asked(server, start, d, n))
  }

  ghost predicate Sent(server: Server, start: Option<Index>, d: Direction, n: nat) {
    n < 1000 && forall k: nat :: k < n ==> Continues(server, start, d, k)
  }

  function FirstBlocks(server: Server, start: Option<Index>, d: Direction, n: nat): seq<Block> {
    if n == 0 then []
    else
      var batch := ReplyTo(server, start, d, n - 1).batch;
      FirstBlocks(server, start, d, n - 1) + if batch == [] then [] else [batch[0]]
  }

  /**
   * What a fetch returns that ends with its n-th request: the reply's code as an error if it is not positive,
   * otherwise the merge of the first blocks of all replies.
   */
  ghost predicate EndsWith(server: Server, start: Option<Index>, d: Direction, mnemonics: seq<string>, n: nat,
                           r: Result<Block, FetchError>) {
    && Sent(server, start, d, n) && (n + 1 < 1000 ==> !Continues(server, start, d, n))
    && var code, blocks := ReplyTo(server, start, d, n).code, FirstBlocks(server, start, d, n + 1);
       if code <= 0 then r == Err(StoreError(code))
       else if blocks == [] then r == Ok(Block(mnemonics, seq(|mnemonics|, i => None), []))
       else if Merged(blocks).Ok? then r == Ok(Merged(blocks).value)
       else r == Err(MergeFailure(Merged(blocks).error))
  }

  /** The loop after n requests. */
  function Between(server: Server, start: Option<Index>, d: Direction, n: nat): Fetch {
    var cursor := Asked(server, start, d, n);
    Fetch(cursor, if n == 0 then None else cursor, FirstBlocks(server, start, d, n), n, Running)
  }

  lemma NextBetween(server: Server, start: Option<Index>, d: Direction, n: nat)
    ensures var f, reply := Between(server, start, d, n), ReplyTo(server, start, d, n);
            && server(f.requests, f.cursor) == reply
            && (Continues(server, start, d, n) ==>
                  reply.code > 0 && Absorb(f, reply, d) == Between(server, start, d, n + 1))
            && (!Continues(server, start, d, n) ==>
                  Absorb(f, reply, d).status == if reply.code <= 0 then Failed(reply.code)
                                                else if reply.code == 2 then Stalled else Complete)
            && (reply.code > 0 ==> Absorb(f, reply, d).blocks == FirstBlocks(server, start, d, n + 1))
  {
  }

  /** Some request is the last one, and the loop ends as its reply says. */
  lemma {:induction false} FetchEnds(server: Server, start: Option<Index>, d: Direction, mnemonics: seq<string>,
                                     n: nat) returns (last: nat)
    requires Sent(server, start, d, n)
    ensures var f := Drive(server, Between(server, start, d, n), d, MAX_TRUNCATION_ITERATIONS);
            EndsWith(server, start, d, mnemonics, last, Outcome(f, mnemonics))
    decreases 1000 - n
  {
    hide Merged, Asked, FirstBlocks, Absorb, Continues, Outcome;
    if n + 1 < 1000 && Continues(server, start, d, n) {
      NextBetween(server, start, d, n);
      last := FetchEnds(server, start, d, mnemonics, n + 1);
    } else {
      LastReply(server, start, d, mnemonics, n);
      last := n;
    }
  }

  lemma LastReply(server: Server, start: Option<Index>, d: Direction, mnemonics: seq<string>, n: nat)
    requires Sent(server, start, d, n) && (n + 1 < 1000 ==> !Continues(server, start, d, n))
    ensures var f := Drive(server, Between(server, start, d, n), d, MAX_TRUNCATION_ITERATIONS);
            EndsWith(server, start, d, mnemonics, n, Outcome(f, mnemonics))
  {
    hide Merged, Asked, FirstBlocks, Absorb, Continues;
    NextBetween(server, start, d, n);
    var g := Absorb(Between(server, start, d, n), ReplyTo(server, start, d, n), d);
    assert Drive(server, Between(server, start, d, n), d, MAX_TRUNCATION_ITERATIONS) ==
           Drive(server, g, d, MAX_TRUNCATION_ITERATIONS);
    assert Finished(g, MAX_TRUNCATION_ITERATIONS);
  }

  /** There is one last request. */
  lemma LastRequest(server: Server, start: Option<Index>, d: Direction, mnemonics: seq<string>, n: nat,
                    r: Result<Block, FetchError>)
    requires EndsWith(server, start, d, mnemonics, n, r)
    ensures forall k: nat :: Sent(server, start, d, k) && k != n ==> k < n && ReplyTo(server, start, d, k).code > 0
    ensures r.Ok? ==> ReplyTo(server, start, d, n).code > 0
  {
    hide Asked, FirstBlocks, Merged;
    forall k: nat | Sent(server, start, d, k) && k != n
      ensures k < n && ReplyTo(server, start, d, k).code > 0
    {
      if k > n {
        assert false;
      }
      assert Continues(server, start, d, k);
    }
  }

  lemma FetchMeaning(server: Server, start: Option<Index>, d: Direction, mnemonics: seq<string>)
    ensures var r := Outcome(Drive(server, Begin(start), d, MAX_TRUNCATION_ITERATIONS), mnemonics);
            && (exists n: nat :: EndsWith(server, start, d, mnemonics, n, r))
            && (forall n: nat :: Sent(server, start, d, n) && ReplyTo(server, start, d, n).code <= 0 ==>
                                   r == Err(StoreError(ReplyTo(server, start, d, n).code)))
            && (r.Ok? ==> forall n: nat :: Sent(server, start, d, n) ==> ReplyTo(server, start, d, n).code > 0)
  {
    var r := Outcome(Drive(server, Begin(start), d, MAX_TRUNCATION_ITERATIONS), mnemonics);
    assert Between(server, start, d, 0) == Begin(start);
    var last := FetchEnds(server, start, d, mnemonics, 0);
    LastRequest(server, start, d, mnemonics, last, r);
    hide ReplyTo, Outcome, Drive, Merged, Continues;
    forall n: nat | Sent(server, start, d, n) && ReplyTo(server, start, d, n).code <= 0
      ensures r == Err(StoreError(ReplyTo(server, start, d, n).code))
    {
      assert n == last;
    }
  }

  /**
   * `WitsmlClient.get_log_data`: it raises the first code that is not positive, and no other; a result means that
   * every reply had a positive code.
   */
  method GetLogData(server: Server, d: Direction, start: Option<Index>, mnemonics: seq<string>)
    returns (r: Result<Block, FetchError>)
    ensures r == Outcome(Drive(server, Begin(start), d, MAX_TRUNCATION_ITERATIONS), mnemonics)
    ensures exists n: nat :: EndsWith(server, start, d, mnemonics, n, r)
    ensures forall n: nat :: Sent(server, start, d, n) && ReplyTo(server, start, d, n).code <= 0 ==>
                               r == Err(StoreError(ReplyTo(server, start, d, n).code))
    ensures r.Ok? ==> forall n: nat :: Sent(server, start, d, n) ==> ReplyTo(server, start, d, n).code > 0
  {
    FetchMeaning(server, start, d, mnemonics);
    hide Sent, EndsWith, ReplyTo, Continues, Between, Merged;
    var blocks: seq<Block> := [];
    var cursor, lastIndex := start, None;
    ghost var whole := Drive(server, Begin(start), d, MAX_TRUNCATION_ITERATIONS);
    for i := 0 to MAX_TRUNCATION_ITERATIONS
      invariant whole == Drive(server, Fetch(cursor, lastIndex, blocks, i, Running), d, MAX_TRUNCATION_ITERATIONS)
    {
      ghost var f := Fetch(cursor, lastIndex, blocks, i, Running);
      var reply := server(i, cursor);
      if IsError(reply.code) {
        assert whole == Absorb(f, reply, d);
        return Err(StoreError(reply.code));
      }
      var next := None;
      if reply.batch != [] {
        blocks := blocks + [reply.batch[0]];
        next := ContinuationIndex(reply.batch[0].rows, d);
      }
      if IsSuccess(reply.code) && !IsTruncated(reply.code) {
        assert whole == Absorb(f, reply, d);
        break;
      }
      if next.None? || next == lastIndex {
        assert whole == Absorb(f, reply, d);
        break;
      }
      lastIndex := next;
      cursor := next;
      assert Absorb(f, reply, d) == Fetch(cursor, lastIndex, blocks, i + 1, Running);
    }
    assert whole.blocks == blocks && !whole.status.Failed?;
    if blocks == [] {
      return Ok(Block(mnemonics, seq(|mnemonics|, i => None), []));
    }
    var merged := MergeBlocks(blocks);
    match merged {
      case Ok(b) => return Ok(b);
      case Err(e) => return Err(MergeFailure(e));
    }
  }
}
