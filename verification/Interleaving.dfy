/**
 * Any interleaving of the workers of a tick is equivalent to running them one log after another, in each log's own
 * state and in what each log contributes to the store they share.
 */
module Interleaving {
  import opened Order
  import opened Blocks
  import opened Client
  import opened FetchRun
  import opened Ingestion
  import opened EngineRuns

  /** What happened to one log, in order. */
  function Local(steps: seq<Step>, k: LogKey): seq<Action> {
    if steps == [] then [] else
      var front := Local(steps[..|steps| - 1], k);
      var s := steps[|steps| - 1];
      if s.Do? && s.key == k then front + [s.action] else front
  }

  function DoAll(k: LogKey, acts: seq<Action>): seq<Step> {
    seq(|acts|, i requires 0 <= i < |acts| => Do(k, acts[i]))
  }

  /** The same actions, one log after another. */
  function Serial(steps: seq<Step>, keys: seq<LogKey>): seq<Step> {
    if keys == [] then [] else
      var k := keys[|keys| - 1];
      Serial(steps, keys[..|keys| - 1]) + DoAll(k, Local(steps, k))
  }

  ghost function Fold(r: LogRun, acts: seq<Action>): Option<LogRun> {
    if acts == [] then Some(r)
    else
      var mid := Fold(r, acts[..|acts| - 1]);
      if mid.None? then None else Act(mid.value, acts[|acts| - 1])
  }

  /** The appends a log's own actions make. */
  ghost function HandedBy(r: LogRun, acts: seq<Action>): seq<seq<Sample>>
    requires Fold(r, acts).Some?
  {
    if acts == [] then [] else
      var front := acts[..|acts| - 1];
      var samples := HandedOver(Fold(r, front).value, acts[|acts| - 1]);
      HandedBy(r, front) + if samples == [] then [] else [samples]
  }

  /** The appends of one log among those of all. */
  function Ours(warm: seq<Append>, k: LogKey): seq<seq<Sample>> {
    if warm == [] then [] else
      var a := warm[|warm| - 1];
      Ours(warm[..|warm| - 1], k) + if a.key == k then [a.samples] else []
  }

  lemma OursStep(warm: seq<Append>, j: LogKey, samples: seq<Sample>, k: LogKey)
    ensures Ours(WithAppend(warm, j, samples), k) ==
            Ours(warm, k) + if j == k && samples != [] then [samples] else []
  {
    var more := WithAppend(warm, j, samples);
    if samples != [] {
      assert more[..|more| - 1] == warm;
    } else {
      assert Ours(warm, k) + [] == Ours(warm, k);
    }
  }

  ghost predicate WorkersOnly(steps: seq<Step>) {
    forall i :: 0 <= i < |steps| ==> steps[i].Do?
  }

  /**
   * Isolation: within a tick a log depends on its own actions alone. Its cursor, what it handed over and what it
   * contributes to the shared store are what its own actions make them, whatever any other log does, even one with
   * the same log uid in another wellbore.
   */
  lemma {:induction false} LogsAreIsolated(e: Engine, steps: seq<Step>, k: LogKey)
    requires WorkersOnly(steps) && Run(e, steps).Some? && k in e.logs
    ensures var e' := Run(e, steps).value;
            && e'.logs.Keys == e.logs.Keys && e'.ticking == e.ticking && e'.limit == e.limit
            && Fold(e.logs[k], Local(steps, k)) == Some(e'.logs[k])
            && Ours(e'.warm, k) == Ours(e.warm, k) + HandedBy(e.logs[k], Local(steps, k))
  {
    hide Next, Ours, Act, HandedOver;
    if steps == [] {
      assert Ours(e.warm, k) + [] == Ours(e.warm, k);
    } else {
      var n := |steps| - 1;
      LogsAreIsolated(e, steps[..n], k);
      StepIsolated(Run(e, steps[..n]).value, steps[n], k);
      if steps[n].key == k {
        var acts := Local(steps, k);
        assert acts[..|acts| - 1] == Local(steps[..n], k);
      }
    }
  }

  lemma StepIsolated(e: Engine, s: Step, k: LogKey)
    requires s.Do? && Next(e, s).Some? && k in e.logs
    ensures var e' := Next(e, s).value;
            && e'.logs.Keys == e.logs.Keys && e'.ticking == e.ticking && e'.limit == e.limit
            && (s.key == k ==> Act(e.logs[k], s.action) == Some(e'.logs[k]))
            && (s.key != k ==> e'.logs[k] == e.logs[k])
            && Ours(e'.warm, k) ==
               Ours(e.warm, k) + if s.key == k && HandedOver(e.logs[k], s.action) != []
                                 then [HandedOver(e.logs[k], s.action)] else []
  {
    hide Act, ActiveKeys, HandedOver, Permits, Ours;
    OursStep(e.warm, s.key, HandedOver(e.logs[s.key], s.action), k);
  }

  lemma {:induction false} RunConcat(e: Engine, a: seq<Step>, b: seq<Step>)
    requires Run(e, a).Some?
    ensures Run(e, a + b) == Run(Run(e, a).value, b)
  {
    hide Next;
    if b == [] {
      assert a + b == a;
    } else {
      assert (a + b)[..|a + b| - 1] == a + b[..|b| - 1];
      RunConcat(e, a, b[..|b| - 1]);
    }
  }

  lemma {:induction false} LocalConcat(a: seq<Step>, b: seq<Step>, k: LogKey)
    ensures Local(a + b, k) == Local(a, k) + Local(b, k)
  {
    if b == [] {
      assert a + b == a;
    } else {
      assert (a + b)[..|a + b| - 1] == a + b[..|b| - 1];
      LocalConcat(a, b[..|b| - 1], k);
    }
  }

  lemma {:induction false} LocalOfOne(k: LogKey, acts: seq<Action>, j: LogKey)
    ensures Local(DoAll(k, acts), j) == if j == k then acts else []
  {
    if acts != [] {
      var n := |acts| - 1;
      assert DoAll(k, acts)[..n] == DoAll(k, acts[..n]);
      LocalOfOne(k, acts[..n], j);
    }
  }

  lemma {:induction false} SameShape(e: Engine, steps: seq<Step>)
    requires WorkersOnly(steps) && Run(e, steps).Some?
    ensures var e' := Run(e, steps).value;
            e'.logs.Keys == e.logs.Keys && e'.ticking == e.ticking && e'.limit == e.limit
  {
    hide Act, Active, HandedOver, Permits;
    if steps != [] {
      SameShape(e, steps[..|steps| - 1]);
    }
  }

  ghost predicate OthersOut(e: Engine, k: LogKey) {
    forall j :: j in e.logs && j != k ==> !Active(e.logs[j])
  }

  /** With nobody inside, all permits are free. */
  lemma AllFree(e: Engine, k: LogKey)
    requires EngineInv(e) && OthersOut(e, k) && k in e.logs && !Active(e.logs[k])
    ensures e.free == e.limit
  {
    hide LogInv;
    assert ActiveKeys(e.logs) == {};
  }

  lemma OthersStay(e: Engine, k: LogKey, acts: seq<Action>)
    requires Run(e, DoAll(k, acts)).Some? && k in e.logs && OthersOut(e, k)
    ensures var e' := Run(e, DoAll(k, acts)).value;
            OthersOut(e', k) && k in e'.logs && Fold(e.logs[k], acts) == Some(e'.logs[k])
            && e'.ticking == e.ticking && e'.limit == e.limit
  {
    hide Run, Fold, Active;
    var steps := DoAll(k, acts);
    LogsAreIsolated(e, steps, k);
    LocalOfOne(k, acts, k);
    var e' := Run(e, steps).value;
    forall j | j in e'.logs && j != k
      ensures !Active(e'.logs[j])
    {
      LogsAreIsolated(e, steps, j);
      LocalOfOne(k, acts, j);
      FoldNothing(e.logs[j]);
    }
  }

  lemma FoldNothing(r: LogRun)
    ensures Fold(r, []) == Some(r)
  {
  }

  /** While no other log has a worker inside, the actions of one log can be run on their own. */
  lemma {:induction false} RunAlone(e: Engine, k: LogKey, acts: seq<Action>)
    requires EngineInv(e) && e.ticking && e.limit >= 1 && k in e.logs && OthersOut(e, k)
    requires Fold(e.logs[k], acts).Some?
    ensures Run(e, DoAll(k, acts)).Some?
  {
    hide Act, Active, EngineInv, OthersOut, HandedOver, Permits;
    if acts != [] {
      var n := |acts| - 1;
      RunAlone(e, k, acts[..n]);
      var front := DoAll(k, acts[..n]);
      assert DoAll(k, acts)[..n] == front;
      OthersStay(e, k, acts[..n]);
      RunKeepsFrom(e, front);
      var mid := Run(e, front).value;
      if acts[n].Acquire? {
        QueuedBefore(mid.logs[k]);
        AllFree(mid, k);
      }
    }
  }

  lemma QueuedBefore(r: LogRun)
    requires Act(r, Acquire).Some?
    ensures !Active(r)
  {
  }

  ghost predicate AllIdle(e: Engine) {
    forall k :: k in e.logs ==> e.logs[k].phase.Idle?
  }

  ghost predicate Schedulable(e: Engine, steps: seq<Step>, keys: seq<LogKey>) {
    && EngineInv(e) && WorkersOnly(steps) && Run(e, steps).Some?
    && e.ticking && e.limit >= 1 && AllIdle(e) && AllIdle(Run(e, steps).value)
    && (forall k :: k in keys ==> k in e.logs)
    && (forall i, j :: 0 <= i < j < |keys| ==> keys[i] != keys[j])
  }

  lemma {:induction false} SerialLocal(steps: seq<Step>, keys: seq<LogKey>, j: LogKey)
    requires forall a, b :: 0 <= a < b < |keys| ==> keys[a] != keys[b]
    ensures Local(Serial(steps, keys), j) == if j in keys then Local(steps, j) else []
  {
    hide Local, DoAll;
    if keys == [] {
      NoSteps(j);
    } else {
      var n := |keys| - 1;
      var front, k := keys[..n], keys[n];
      SerialLocal(steps, front, j);
      LocalConcat(Serial(steps, front), DoAll(k, Local(steps, k)), j);
      LocalOfOne(k, Local(steps, k), j);
      assert keys == front + [k];
      assert k !in front;
    }
  }

  lemma {:induction false} SerialWorkers(steps: seq<Step>, keys: seq<LogKey>)
    ensures WorkersOnly(Serial(steps, keys))
  {
    if keys != [] {
      var n := |keys| - 1;
      SerialWorkers(steps, keys[..n]);
      AllDo(keys[n], Local(steps, keys[n]));
    }
  }

  lemma NoSteps(j: LogKey)
    ensures Local([], j) == []
  {
  }

  lemma AllDo(k: LogKey, acts: seq<Action>)
    ensures WorkersOnly(DoAll(k, acts))
  {
  }

  /** After the first few logs have run to their ends, those are done and the others untouched. */
  lemma SerialState(e: Engine, steps: seq<Step>, keys: seq<LogKey>, k: LogKey)
    requires Schedulable(e, steps, keys) && Run(e, Serial(steps, keys)).Some? && k in e.logs
    ensures var done, s := Run(e, steps).value, Run(e, Serial(steps, keys)).value;
            && k in done.logs && k in s.logs && s.logs.Keys == e.logs.Keys == done.logs.Keys
            && s.ticking == e.ticking == done.ticking && s.limit == e.limit == done.limit
            && s.logs[k] == (if k in keys then done.logs[k] else e.logs[k])
            && (k in keys ==> Ours(s.warm, k) == Ours(done.warm, k))
  {
    hide Run, Local, Fold, Ours, EngineInv, AllIdle, HandedBy;
    SerialLocal(steps, keys, k);
    SerialWorkers(steps, keys);
    LogsAreIsolated(e, steps, k);
    LogsAreIsolated(e, Serial(steps, keys), k);
    FoldNothing(e.logs[k]);
  }

  lemma {:induction false} SerialRuns(e: Engine, steps: seq<Step>, keys: seq<LogKey>)
    requires Schedulable(e, steps, keys)
    ensures Run(e, Serial(steps, keys)).Some?
  {
    hide Local, DoAll, Next, EngineInv;
    if keys != [] {
      var n := |keys| - 1;
      var front, k := keys[..n], keys[n];
      SerialRuns(e, steps, front);
      var mid := Run(e, Serial(steps, front)).value;
      RunKeepsFrom(e, Serial(steps, front));
      forall j | j in e.logs
        ensures j in mid.logs && !Active(mid.logs[j])
      {
        SerialState(e, steps, front, j);
      }
      SerialState(e, steps, front, k);
      assert k !in front;
      LogsAreIsolated(e, steps, k);
      RunAlone(mid, k, Local(steps, k));
      RunConcat(e, Serial(steps, front), DoAll(k, Local(steps, k)));
    }
  }

  /**
   * Serialisability. Whatever the order in which the workers of a tick queue, enter the semaphore, suspend at
   * their pages, fail or persist, and in which the store grows meanwhile, running one log after another ends in the
   * same state of every log and of the semaphore, and every log has made the same appends to the shared store.
   */
  lemma TickIsSerial(e: Engine, steps: seq<Step>, keys: seq<LogKey>)
    requires Schedulable(e, steps, keys) && forall k :: k in e.logs ==> k in keys
    ensures Run(e, Serial(steps, keys)).Some?
    ensures var done, s := Run(e, steps).value, Run(e, Serial(steps, keys)).value;
            && s.logs == done.logs && s.ticking == done.ticking && s.free == done.free
            && forall k :: k in e.logs ==> Ours(s.warm, k) == Ours(done.warm, k)
  {
    hide Run, Serial, Ours, LogInv;
    SerialRuns(e, steps, keys);
    var done, s := Run(e, steps).value, Run(e, Serial(steps, keys)).value;
    forall k | k in e.logs
      ensures k in done.logs && k in s.logs && s.logs[k] == done.logs[k] && Ours(s.warm, k) == Ours(done.warm, k)
    {
      SerialState(e, steps, keys, k);
    }
    SameShape(e, steps);
    SerialWorkers(steps, keys);
    SameShape(e, Serial(steps, keys));
    assert s.logs == done.logs;
    RunKeepsFrom(e, steps);
    RunKeepsFrom(e, Serial(steps, keys));
  }
}
