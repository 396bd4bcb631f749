/**
 The sentinel-terminated worker pool of backend/scripts/sync_sanmar_full.py. The event loop switches
 only at an await, so a step is what a worker does between two of them: take an item off the queue,
 or finish one and mark it done.
 */
module WorkerPool {
  import opened Prelude

  datatype Item = Sku(sku: string) | Sentinel

  datatype Worker = AtGet | Busy(sku: string) | Returned

  datatype Pool = Pool(
    queue: seq<Item>, unfinished: int, workers: seq<Worker>,
    done: nat, failed: nat, failedSkus: seq<string>, handled: seq<string>)

  datatype Step = Take(w: nat) | Finish(w: nat, ok: bool)

  // ---------------------------------------------------------------- counting

  function CountItems(queue: seq<Item>): nat {
    if queue == [] then 0 else (if queue[0].Sku? then 1 else 0) + CountItems(queue[1..])
  }

  function CountSentinels(queue: seq<Item>): nat {
    if queue == [] then 0 else (if queue[0].Sentinel? then 1 else 0) + CountSentinels(queue[1..])
  }

  /** How often a SKU is queued. */
  function Queued(queue: seq<Item>, x: string): nat {
    if queue == [] then 0 else (if queue[0] == Sku(x) then 1 else 0) + Queued(queue[1..], x)
  }

  function CountLive(workers: seq<Worker>): nat {
    if workers == [] then 0 else (if workers[0].Returned? then 0 else 1) + CountLive(workers[1..])
  }

  function CountBusy(workers: seq<Worker>): nat {
    if workers == [] then 0 else (if workers[0].Busy? then 1 else 0) + CountBusy(workers[1..])
  }

  /** How many workers are busy with a SKU. */
  function InFlight(workers: seq<Worker>, x: string): nat {
    if workers == [] then 0 else (if workers[0] == Busy(x) then 1 else 0) + InFlight(workers[1..], x)
  }

  // ---------------------------------------------------------------- the pool

  function AsItems(skus: seq<string>, sentinels: nat): seq<Item> {
    seq(|skus| + sentinels, i requires 0 <= i < |skus| + sentinels => if i < |skus| then Sku(skus[i]) else Sentinel)
  }

  /** main: every SKU, then one sentinel per worker. */
  function Start(skus: seq<string>, workers: nat): Pool {
    Pool(AsItems(skus, workers), |skus| + workers, seq(workers, i => AtGet), 0, 0, [], [])
  }

  predicate Enabled(p: Pool, step: Step) {
    match step
    case Take(w) => w < |p.workers| && p.workers[w].AtGet? && p.queue != []
    case Finish(w, ok) => w < |p.workers| && p.workers[w].Busy?
  }

  function Apply(p: Pool, step: Step): Pool
    requires Enabled(p, step)
  {
    match step
    case Take(w) =>
      (match p.queue[0]
       case Sku(sku) => p.(queue := p.queue[1..], workers := p.workers[w := Busy(sku)])
       case Sentinel => p.(queue := p.queue[1..], workers := p.workers[w := Returned], unfinished := p.unfinished - 1))
    case Finish(w, ok) =>
      var sku := p.workers[w].sku;
      var q := p.(workers := p.workers[w := AtGet], unfinished := p.unfinished - 1, handled := p.handled + [sku]);
      if ok then q.(done := p.done + 1) else q.(failed := p.failed + 1, failedSkus := p.failedSkus + [sku])
  }

  ghost predicate ValidRun(p: Pool, steps: seq<Step>)
    decreases |steps|
  {
    steps == [] || (Enabled(p, steps[0]) && ValidRun(Apply(p, steps[0]), steps[1..]))
  }

  ghost function After(p: Pool, steps: seq<Step>): Pool
    requires ValidRun(p, steps)
    decreases |steps|
  {
    if steps == [] then p else After(Apply(p, steps[0]), steps[1..])
  }

  /** queue.join() has been released. */
  predicate Joined(p: Pool) {
    p.unfinished == 0
  }

  predicate AllReturned(p: Pool) {
    forall w :: 0 <= w < |p.workers| ==> p.workers[w].Returned?
  }

  /** SKUs come before sentinels. */
  predicate SkusFirst(queue: seq<Item>) {
    forall i, j :: 0 <= i < j < |queue| && queue[j].Sku? ==> queue[i].Sku?
  }

  /** A SKU is handled, in flight or queued. */
  function Accounted(p: Pool, x: string): nat {
    multiset(p.handled)[x] + InFlight(p.workers, x) + Queued(p.queue, x)
  }

  ghost predicate Inv(p: Pool, skus: seq<string>, workers: nat) {
    && |p.workers| == workers
    && SkusFirst(p.queue)
    && CountSentinels(p.queue) == CountLive(p.workers)
    && p.unfinished == |p.queue| + CountBusy(p.workers)
    && p.done + p.failed == |p.handled|
    && CountItems(p.queue) + CountBusy(p.workers) + |p.handled| == |skus|
    && p.failed == |p.failedSkus|
    && (CountLive(p.workers) == workers || CountItems(p.queue) == 0)
    && forall x :: Accounted(p, x) == multiset(skus)[x]
  }

  /** Each step brings the end exactly one step nearer. */
  function Distance(p: Pool): nat {
    2 * CountItems(p.queue) + CountSentinels(p.queue) + CountBusy(p.workers)
  }

  lemma {:induction false} QueueLength(queue: seq<Item>)
    ensures |queue| == CountItems(queue) + CountSentinels(queue)
  {
    if queue != [] {
      QueueLength(queue[1..]);
    }
  }

  /** Replacing one worker's state changes each count by that worker alone. */
  lemma {:induction false} ReplaceWorker(workers: seq<Worker>, w: nat, x: Worker)
    requires w < |workers|
    ensures CountLive(workers[w := x])
              == CountLive(workers) - (if workers[w].Returned? then 0 else 1) + (if x.Returned? then 0 else 1)
    ensures CountBusy(workers[w := x])
              == CountBusy(workers) - (if workers[w].Busy? then 1 else 0) + (if x.Busy? then 1 else 0)
  {
    if w == 0 {
      assert workers[w := x][1..] == workers[1..];
    } else {
      ReplaceWorker(workers[1..], w - 1, x);
      assert workers[w := x][1..] == workers[1..][w - 1 := x];
    }
  }

  lemma {:induction false} ReplaceInFlight(workers: seq<Worker>, w: nat, x: Worker, sku: string)
    requires w < |workers|
    ensures InFlight(workers[w := x], sku)
              == InFlight(workers, sku) - (if workers[w] == Busy(sku) then 1 else 0) + (if x == Busy(sku) then 1 else 0)
  {
    if w == 0 {
      assert workers[w := x][1..] == workers[1..];
    } else {
      ReplaceInFlight(workers[1..], w - 1, x, sku);
      assert workers[w := x][1..] == workers[1..][w - 1 := x];
    }
  }

  lemma AccountedStep(p: Pool, step: Step, x: string)
    requires Enabled(p, step)
    ensures Accounted(Apply(p, step), x) == Accounted(p, x)
  {
    var q := Apply(p, step);
    match step
    case Take(w) => ReplaceInFlight(p.workers, w, q.workers[w], x);
    case Finish(w, ok) => ReplaceInFlight(p.workers, w, AtGet, x);
  }

  lemma {:induction false} NoMoreSkus(queue: seq<Item>)
    requires SkusFirst(queue) && queue != [] && queue[0].Sentinel?
    ensures CountItems(queue) == 0
  {
    if |queue| > 1 {
      assert queue[1].Sentinel?;
      assert forall i :: 0 <= i < |queue| - 1 ==> queue[1..][i] == queue[i + 1];
      NoMoreSkus(queue[1..]);
    }
  }

  lemma TailSkusFirst(queue: seq<Item>)
    requires SkusFirst(queue) && queue != []
    ensures SkusFirst(queue[1..])
  {
    assert forall i :: 0 <= i < |queue| - 1 ==> queue[1..][i] == queue[i + 1];
  }

  lemma StepKeepsInv(p: Pool, step: Step, skus: seq<string>, workers: nat)
    requires Inv(p, skus, workers) && Enabled(p, step)
    ensures Inv(Apply(p, step), skus, workers)
    ensures Distance(Apply(p, step)) == Distance(p) - 1
  {
    hide SkusFirst, Accounted;
    var q := Apply(p, step);
    forall x ensures Accounted(q, x) == multiset(skus)[x] {
      AccountedStep(p, step, x);
    }
    match step
    case Take(w) =>
      ReplaceWorker(p.workers, w, q.workers[w]);
      TailSkusFirst(p.queue);
      if p.queue[0].Sentinel? { NoMoreSkus(p.queue); }
    case Finish(w, ok) =>
      ReplaceWorker(p.workers, w, AtGet);
  }

  lemma {:induction false} StartCounts(skus: seq<string>, sentinels: nat)
    ensures var queue := AsItems(skus, sentinels);
            && CountItems(queue) == |skus| && CountSentinels(queue) == sentinels
            && forall x :: Queued(queue, x) == multiset(skus)[x]
    decreases |skus|, sentinels
  {
    var queue := AsItems(skus, sentinels);
    if skus != [] {
      assert queue[1..] == AsItems(skus[1..], sentinels);
      StartCounts(skus[1..], sentinels);
      assert skus == [skus[0]] + skus[1..];
    } else if sentinels > 0 {
      assert queue[1..] == AsItems(skus, sentinels - 1);
      StartCounts(skus, sentinels - 1);
    }
  }

  lemma {:induction false} AllAtGet(workers: seq<Worker>)
    requires forall w :: 0 <= w < |workers| ==> workers[w].AtGet?
    ensures CountLive(workers) == |workers| && CountBusy(workers) == 0 && forall x :: InFlight(workers, x) == 0
  {
    if workers != [] {
      AllAtGet(workers[1..]);
    }
  }

  lemma StartInv(skus: seq<string>, workers: nat)
    ensures Inv(Start(skus, workers), skus, workers)
    ensures Distance(Start(skus, workers)) == 2 * |skus| + workers
  {
    StartCounts(skus, workers);
    AllAtGet(Start(skus, workers).workers);
  }

  lemma {:induction false} RunKeepsInv(p: Pool, steps: seq<Step>, skus: seq<string>, workers: nat)
    requires Inv(p, skus, workers) && ValidRun(p, steps)
    ensures Inv(After(p, steps), skus, workers)
    ensures Distance(After(p, steps)) + |steps| == Distance(p)
    decreases |steps|
  {
    hide Inv, Distance, Apply;
    if steps != [] {
      StepKeepsInv(p, steps[0], skus, workers);
      RunKeepsInv(Apply(p, steps[0]), steps[1..], skus, workers);
    }
  }

  lemma {:induction false} LiveWorkers(workers: seq<Worker>)
    ensures CountLive(workers) == 0 <==> forall w :: 0 <= w < |workers| ==> workers[w].Returned?
    ensures forall w :: 0 <= w < |workers| && !workers[w].Returned? ==> CountLive(workers) > 0
    ensures CountLive(workers) == 0 ==> CountBusy(workers) == 0
  {
    if workers != [] {
      LiveWorkers(workers[1..]);
      assert forall w :: 0 < w < |workers| ==> workers[w] == workers[1..][w - 1];
    }
  }

  // ---------------------------------------------------------------- what is counted

  /** One SKU that a worker finished, and whether its sync succeeded. */
  datatype Outcome = Outcome(sku: string, ok: bool)

  function OutcomeOf(p: Pool, step: Step): seq<Outcome>
    requires Enabled(p, step)
  {
    if step.Finish? then [Outcome(p.workers[step.w].sku, step.ok)] else []
  }

  /** The SKUs that the steps finish, in order. */
  ghost function Finished(p: Pool, steps: seq<Step>): seq<Outcome>
    requires ValidRun(p, steps)
    decreases |steps|
  {
    if steps == [] then [] else OutcomeOf(p, steps[0]) + Finished(Apply(p, steps[0]), steps[1..])
  }

  function Successes(outcomes: seq<Outcome>): nat {
    if outcomes == [] then 0 else (if outcomes[0].ok then 1 else 0) + Successes(outcomes[1..])
  }

  function Failures(outcomes: seq<Outcome>): seq<string> {
    if outcomes == [] then [] else (if outcomes[0].ok then [] else [outcomes[0].sku]) + Failures(outcomes[1..])
  }

  function Skus(outcomes: seq<Outcome>): seq<string> {
    if outcomes == [] then [] else [outcomes[0].sku] + Skus(outcomes[1..])
  }

  lemma {:induction false} OutcomesAppend(a: seq<Outcome>, b: seq<Outcome>)
    ensures Successes(a + b) == Successes(a) + Successes(b)
    ensures Failures(a + b) == Failures(a) + Failures(b)
    ensures Skus(a + b) == Skus(a) + Skus(b)
  {
    if a == [] {
      assert a + b == b;
    } else {
      assert (a + b)[1..] == a[1..] + b;
      OutcomesAppend(a[1..], b);
    }
  }

  lemma StepCounted(p: Pool, step: Step)
    requires Enabled(p, step)
    ensures var q, outcomes := Apply(p, step), OutcomeOf(p, step);
            && q.done == p.done + Successes(outcomes)
            && q.failedSkus == p.failedSkus + Failures(outcomes)
            && q.handled == p.handled + Skus(outcomes)
  {
  }

  /** Over every run, done counts the successes, and the failed SKUs are listed in the order in which they failed. */
  lemma {:induction false} OutcomesCounted(p: Pool, steps: seq<Step>)
    requires ValidRun(p, steps)
    ensures var q, outcomes := After(p, steps), Finished(p, steps);
            && q.done == p.done + Successes(outcomes)
            && q.failedSkus == p.failedSkus + Failures(outcomes)
            && q.handled == p.handled + Skus(outcomes)
    decreases |steps|
  {
    hide Apply, Enabled, OutcomeOf;
    if steps == [] {
      assert p.handled + [] == p.handled && p.failedSkus + [] == p.failedSkus;
    } else {
      StepCounted(p, steps[0]);
      OutcomesCounted(Apply(p, steps[0]), steps[1..]);
      OutcomesAppend(OutcomeOf(p, steps[0]), Finished(Apply(p, steps[0]), steps[1..]));
    }
  }

  // ---------------------------------------------------------------- what every run keeps

  /** No live worker ever waits on an empty queue, and unless all have returned some step is possible. */
  lemma NeverStuck(skus: seq<string>, workers: nat, steps: seq<Step>, w: nat)
    requires ValidRun(Start(skus, workers), steps) && w < workers
    ensures var p := After(Start(skus, workers), steps);
            && |p.workers| == workers
            && (p.workers[w].AtGet? ==> Enabled(p, Take(w)))
            && (p.workers[w].Busy? ==> Enabled(p, Finish(w, true)) && Enabled(p, Finish(w, false)))
  {
    var p := After(Start(skus, workers), steps);
    StartInv(skus, workers);
    RunKeepsInv(Start(skus, workers), steps, skus, workers);
    LiveWorkers(p.workers);
    QueueLength(p.queue);
  }

  /** No run is longer than two steps per SKU and one per worker, and a run of that length is over. */
  lemma {:induction false} RunsAreBounded(skus: seq<string>, workers: nat, steps: seq<Step>)
    requires ValidRun(Start(skus, workers), steps)
    ensures |steps| <= 2 * |skus| + workers
    ensures workers > 0 ==> (AllReturned(After(Start(skus, workers), steps)) <==> |steps| == 2 * |skus| + workers)
  {
    var p := After(Start(skus, workers), steps);
    StartInv(skus, workers);
    RunKeepsInv(Start(skus, workers), steps, skus, workers);
    LiveWorkers(p.workers);
    if AllReturned(p) && workers > 0 {
      DrainedQueue(p, skus, workers, steps);
    }
  }

  lemma DrainedQueue(p: Pool, skus: seq<string>, workers: nat, steps: seq<Step>)
    requires ValidRun(Start(skus, workers), steps) && p == After(Start(skus, workers), steps)
    requires workers > 0 && AllReturned(p)
    ensures p.queue == [] && Distance(p) == 0
  {
    StartInv(skus, workers);
    RunKeepsInv(Start(skus, workers), steps, skus, workers);
    LiveWorkers(p.workers);
    QueueLength(p.queue);
  }

  lemma {:induction false} NothingPending(queue: seq<Item>, workers: seq<Worker>, x: string)
    ensures CountItems(queue) == 0 ==> Queued(queue, x) == 0
    ensures CountBusy(workers) == 0 ==> InFlight(workers, x) == 0
    decreases |queue| + |workers|
  {
    if queue != [] {
      NothingPending(queue[1..], workers, x);
    } else if workers != [] {
      NothingPending(queue, workers[1..], x);
    }
  }

  /**
   With at least one worker, join is released exactly when every worker has returned, and then every SKU has been
   handled exactly as often as it was queued, done counts the successes, and exactly the failures are listed, in order.
   */
  lemma JoinMeansDone(skus: seq<string>, workers: nat, steps: seq<Step>)
    requires workers > 0 && ValidRun(Start(skus, workers), steps)
    ensures var p := After(Start(skus, workers), steps);
            && (Joined(p) <==> AllReturned(p))
            && (Joined(p) ==>
                  && p.queue == []
                  && multiset(p.handled) == multiset(skus)
                  && p.done + p.failed == |skus|
                  && p.failed == |p.failedSkus|
                  && p.handled == Skus(Finished(Start(skus, workers), steps))
                  && p.done == Successes(Finished(Start(skus, workers), steps))
                  && p.failedSkus == Failures(Finished(Start(skus, workers), steps)))
  {
    OutcomesCounted(Start(skus, workers), steps);
    assert forall s: seq<string> :: [] + s == s;
    var p := After(Start(skus, workers), steps);
    StartInv(skus, workers);
    RunKeepsInv(Start(skus, workers), steps, skus, workers);
    LiveWorkers(p.workers);
    QueueLength(p.queue);
    if AllReturned(p) {
      DrainedQueue(p, skus, workers, steps);
    }
    if Joined(p) {
      JoinedIsDone(p, skus, workers);
    }
  }

  /** Some run releases join. */
  ghost predicate CanJoin(skus: seq<string>, workers: nat) {
    exists steps :: Joins(skus, workers, steps)
  }

  ghost predicate Joins(skus: seq<string>, workers: nat, steps: seq<Step>) {
    ValidRun(Start(skus, workers), steps) && Joined(After(Start(skus, workers), steps))
  }

  /** Some run releases join exactly when there is a worker or nothing to do. */
  lemma JoinReachableIff(skus: seq<string>, workers: nat)
    ensures CanJoin(skus, workers) <==> workers > 0 || skus == []
  {
    hide Inv, ValidRun, After, Start, Joined;
    if workers > 0 {
      StartInv(skus, workers);
      var steps := Complete(Start(skus, workers), skus, workers);
      assert Joins(skus, workers, steps);
    } else {
      NoWorkersNoSteps(skus);
      assert Joins(skus, workers, []) <==> skus == [];
    }
  }

  lemma NoWorkersNoSteps(skus: seq<string>)
    ensures ValidRun(Start(skus, 0), []) && forall steps :: ValidRun(Start(skus, 0), steps) <==> steps == []
    ensures Joined(After(Start(skus, 0), [])) <==> skus == []
  {
    forall steps ensures ValidRun(Start(skus, 0), steps) <==> steps == [] {
      if steps != [] { assert !Enabled(Start(skus, 0), steps[0]); }
    }
  }

  /** From any state of the invariant the pool can be run to the end. */
  lemma {:induction false} Complete(p: Pool, skus: seq<string>, workers: nat) returns (steps: seq<Step>)
    requires Inv(p, skus, workers) && workers > 0
    ensures ValidRun(p, steps) && Joined(After(p, steps))
    decreases Distance(p)
  {
    LiveWorkers(p.workers);
    QueueLength(p.queue);
    if w :| 0 <= w < |p.workers| && !p.workers[w].Returned? {
      var step := if p.workers[w].AtGet? then Take(w) else Finish(w, true);
      StepKeepsInv(p, step, skus, workers);
      var rest := Complete(Apply(p, step), skus, workers);
      steps := [step] + rest;
      assert steps[1..] == rest;
    } else {
      steps := [];
    }
  }

  // ---------------------------------------------------------------- main

  class Stats {
    var done: nat
    var failed: nat
    var failedSkus: seq<string>
    const total: nat

    constructor (total: nat)
      ensures this.total == total && done == 0 && failed == 0 && failedSkus == []
    {
      this.total := total;
      done, failed, failedSkus := 0, 0, [];
    }
  }

  lemma Progress(p: Pool, skus: seq<string>, workers: nat)
    requires Inv(p, skus, workers) && !Joined(p)
    requires workers > 0 || skus == []
    ensures exists w: nat :: w < |p.workers| && !p.workers[w].Returned?
    ensures forall w: nat :: w < |p.workers| && p.workers[w].AtGet? ==> Enabled(p, Take(w))
  {
    LiveWorkers(p.workers);
    QueueLength(p.queue);
  }

  lemma JoinedIsDone(p: Pool, skus: seq<string>, workers: nat)
    requires Inv(p, skus, workers) && Joined(p)
    ensures multiset(p.handled) == multiset(skus) && p.done + p.failed == |skus| && AllReturned(p)
    ensures p.failed == |p.failedSkus|
  {
    LiveWorkers(p.workers);
    QueueLength(p.queue);
    forall x ensures multiset(p.handled)[x] == multiset(skus)[x] {
      NothingPending(p.queue, p.workers, x);
      assert Accounted(p, x) == multiset(skus)[x];
    }
    assert multiset(p.handled) == multiset(skus);
    assert |multiset(p.handled)| == |multiset(skus)|;
  }

  function CountTrue(outcomes: seq<bool>): nat {
    if outcomes == [] then 0 else CountTrue(Init(outcomes)) + if Last(outcomes) then 1 else 0
  }

  /** The handled SKUs whose sync failed, in the order in which they were handled. */
  function FailedOf(handled: seq<string>, outcomes: seq<bool>): seq<string>
    requires |handled| == |outcomes|
  {
    if handled == [] then []
    else FailedOf(Init(handled), Init(outcomes)) + if Last(outcomes) then [] else [Last(handled)]
  }

  lemma {:induction false} AllTrue(handled: seq<string>, outcomes: seq<bool>)
    requires |handled| == |outcomes|
    ensures CountTrue(outcomes) + |FailedOf(handled, outcomes)| == |outcomes|
    ensures FailedOf(handled, outcomes) == [] <==> forall i :: 0 <= i < |outcomes| ==> outcomes[i]
  {
    if handled != [] {
      AllTrue(Init(handled), Init(outcomes));
      assert forall i :: 0 <= i < |outcomes| - 1 ==> Init(outcomes)[i] == outcomes[i];
    }
  }

  /**
   The run of the pool under any scheduling and any failures; outcomes says of each SKU, in the order in which they are
   handled, whether its sync succeeds. The run ends, every SKU is handled once, the successes are counted, exactly the
   failures are listed, and the exit code is zero if and only if there is none. Without workers a non-empty queue would
   never be joined.
   */
  method SyncAll(skus: seq<string>, workers: nat, outcomes: seq<bool>)
    returns (stats: Stats, handled: seq<string>, exitCode: int)
    requires workers > 0 || skus == []
    requires |outcomes| == |skus|
    ensures |handled| == |skus| && multiset(handled) == multiset(skus)
    ensures stats.total == |skus|
    ensures stats.done == CountTrue(outcomes) && stats.failed == |skus| - CountTrue(outcomes)
    ensures stats.failedSkus == FailedOf(handled, outcomes)
    ensures exitCode == if forall i :: 0 <= i < |outcomes| ==> outcomes[i] then 0 else 1
  {
    hide Inv, Distance, CountTrue, FailedOf;
    stats := new Stats(|skus|);
    NothingTallied();
    handled := [];
    var queue, unfinished, pool := AsItems(skus, workers), |skus| + workers, seq(workers, i => AtGet);
    StartInv(skus, workers);
    while unfinished != 0
      invariant stats.total == |skus| && |handled| <= |skus|
      invariant Inv(Pool(queue, unfinished, pool, stats.done, stats.failed, stats.failedSkus, handled), skus, workers)
      invariant stats.done == CountTrue(outcomes[..|handled|])
      invariant stats.failedSkus == FailedOf(handled, outcomes[..|handled|])
      decreases Distance(Pool(queue, unfinished, pool, stats.done, stats.failed, stats.failedSkus, handled))
    {
      ghost var p := Pool(queue, unfinished, pool, stats.done, stats.failed, stats.failedSkus, handled);
      Progress(p, skus, workers);
      var w: nat :| w < |pool| && !pool[w].Returned?;
      match pool[w]
      case AtGet =>
        StepKeepsInv(p, Take(w), skus, workers);
        var item := queue[0];
        queue := queue[1..];
        match item {
          case Sku(sku) => pool := pool[w := Busy(sku)];
          case Sentinel =>
            unfinished := unfinished - 1;
            pool := pool[w := Returned];
        }
      case Busy(sku) =>
        OneLeft(p, skus, workers, w);
        var ok := outcomes[|handled|];
        StepKeepsInv(p, Finish(w, ok), skus, workers);
        TallyMore(handled, sku, outcomes);
        if ok {
          stats.done := stats.done + 1;
        } else {
          stats.failed := stats.failed + 1;
          stats.failedSkus := stats.failedSkus + [sku];
        }
        handled := handled + [sku];
        unfinished := unfinished - 1;
        pool := pool[w := AtGet];
    }
    JoinedIsDone(Pool(queue, unfinished, pool, stats.done, stats.failed, stats.failedSkus, handled), skus, workers);
    SameLength(handled, skus);
    assert outcomes[..|handled|] == outcomes;
    AllTrue(handled, outcomes);
    exitCode := if stats.failed == 0 then 0 else 1;
  }

  lemma NothingTallied()
    ensures CountTrue([]) == 0 && FailedOf([], []) == []
  {
  }

  lemma TallyMore(handled: seq<string>, sku: string, outcomes: seq<bool>)
    requires |handled| < |outcomes|
    ensures var n := |handled|;
            && CountTrue(outcomes[..n + 1]) == CountTrue(outcomes[..n]) + (if outcomes[n] then 1 else 0)
            && FailedOf(handled + [sku], outcomes[..n + 1])
               == FailedOf(handled, outcomes[..n]) + if outcomes[n] then [] else [sku]
  {
    assert Init(outcomes[..|handled| + 1]) == outcomes[..|handled|] && Init(handled + [sku]) == handled;
  }

  lemma SameLength(a: seq<string>, b: seq<string>)
    requires multiset(a) == multiset(b)
    ensures |a| == |b|
  {
    assert |multiset(a)| == |multiset(b)|;
  }

  /** While a worker is busy not every SKU has been handled. */
  lemma OneLeft(p: Pool, skus: seq<string>, workers: nat, w: nat)
    requires Inv(p, skus, workers) && w < |p.workers| && p.workers[w].Busy?
    ensures |p.handled| < |skus|
  {
    ReplaceWorker(p.workers, w, Returned);
  }
}
