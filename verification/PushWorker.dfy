/** Push jobs, their retries and the capped dead-letter list: backend/worker.py. */
module PushWorker {
  import opened Prelude

  const MAX_ENTRIES: nat := 1000
  const MAX_TRIES: nat := 3

  datatype Entry = Entry(pushLog: nat, error: string, excType: string, tries: nat)

  function Min(a: nat, b: nat): nat {
    if a <= b then a else b
  }

  /** LTRIM 0 MAX_ENTRIES-1 */
  function Trimmed(list: seq<Entry>): seq<Entry> {
    list[..Min(|list|, MAX_ENTRIES)]
  }

  // ---------------------------------------------------------------- concurrent writers

  /**
   The list, with every entry ever pushed (newest first), the writers between their push and their trim,
   and the pushes whose trim failed since the last trim that succeeded.
   */
  datatype DeadLetters = DeadLetters(list: seq<Entry>, history: seq<Entry>, midway: set<nat>, untrimmed: nat)

  datatype Step =
    | Push(writer: nat, entry: Entry)
    | PushFails(writer: nat)
    | Trim(writer: nat)
    | TrimFails(writer: nat)

  predicate Enabled(d: DeadLetters, step: Step) {
    match step
    case Push(w, _) => w !in d.midway
    case PushFails(w) => w !in d.midway
    case Trim(w) => w in d.midway
    case TrimFails(w) => w in d.midway
  }

  function Apply(d: DeadLetters, step: Step): DeadLetters
    requires Enabled(d, step)
  {
    match step
    case Push(w, e) => d.(list := [e] + d.list, history := [e] + d.history, midway := d.midway + {w})
    case PushFails(w) => d
    case Trim(w) => d.(list := Trimmed(d.list), midway := d.midway - {w}, untrimmed := 0)
    case TrimFails(w) => d.(midway := d.midway - {w}, untrimmed := d.untrimmed + 1)
  }

  ghost predicate ValidRun(d: DeadLetters, steps: seq<Step>)
    decreases |steps|
  {
    steps == [] || (Enabled(d, steps[0]) && ValidRun(Apply(d, steps[0]), steps[1..]))
  }

  ghost function After(d: DeadLetters, steps: seq<Step>): DeadLetters
    requires ValidRun(d, steps)
    decreases |steps|
  {
    if steps == [] then d else After(Apply(d, steps[0]), steps[1..])
  }

  ghost predicate Inv(d: DeadLetters) {
    && d.list <= d.history
    && Min(|d.history|, MAX_ENTRIES) <= |d.list| <= MAX_ENTRIES + |d.midway| + d.untrimmed
  }

  lemma StepKeepsInv(d: DeadLetters, step: Step)
    requires Inv(d) && Enabled(d, step)
    ensures Inv(Apply(d, step))
  {
    var d' := Apply(d, step);
    match step
    case Push(w, e) =>
      assert |d'.midway| == |d.midway| + 1;
      assert d'.history[..|d'.list|] == [e] + d.history[..|d.list|];
    case Trim(w) =>
      assert d.midway == d'.midway + {w};
    case TrimFails(w) =>
      assert d.midway == d'.midway + {w};
    case _ =>
  }

  lemma {:induction false} RunKeepsInv(d: DeadLetters, steps: seq<Step>)
    requires Inv(d) && ValidRun(d, steps)
    ensures Inv(After(d, steps))
    decreases |steps|
  {
    if steps != [] {
      StepKeepsInv(d, steps[0]);
      RunKeepsInv(Apply(d, steps[0]), steps[1..]);
    }
  }

  ghost predicate TrimsSucceed(steps: seq<Step>) {
    forall i :: 0 <= i < |steps| ==> !steps[i].TrimFails?
  }

  lemma {:induction false} NothingUntrimmed(d: DeadLetters, steps: seq<Step>)
    requires ValidRun(d, steps) && d.untrimmed == 0 && TrimsSucceed(steps)
    ensures After(d, steps).untrimmed == 0
    decreases |steps|
  {
    if steps != [] {
      assert !steps[0].TrimFails?;
      assert forall i :: 0 <= i < |steps| - 1 ==> steps[1..][i] == steps[i + 1];
      NothingUntrimmed(Apply(d, steps[0]), steps[1..]);
    }
  }

  /**
   In every interleaving the list is a prefix of the newest-first history and holds at least the newest thousand
   entries. If trims succeed it never exceeds a thousand by more than the writers midway, and it is exactly
   the newest thousand whenever none is. A failed trim is made up for by the next one that succeeds.
   */
  lemma NewestThousand(steps: seq<Step>)
    requires ValidRun(DeadLetters([], [], {}, 0), steps)
    ensures var d := After(DeadLetters([], [], {}, 0), steps);
            && d.list <= d.history
            && (|d.history| <= 1000 ==> |d.list| == |d.history|) && (|d.history| > 1000 ==> |d.list| >= 1000)
            && (TrimsSucceed(steps) ==> |d.list| <= 1000 + |d.midway|)
            && (TrimsSucceed(steps) && d.midway == {} ==>
                  d.list == if |d.history| <= 1000 then d.history else d.history[..1000])
            && forall w :: w in d.midway ==>
                 |Apply(d, Trim(w)).list| == if |d.history| <= 1000 then |d.history| else 1000
  {
    var start := DeadLetters([], [], {}, 0);
    RunKeepsInv(start, steps);
    if TrimsSucceed(steps) {
      NothingUntrimmed(start, steps);
    }
  }

  // ---------------------------------------------------------------- one job

  datatype PushLog = PushLog(status: string, error: string, pushedAt: int)

  datatype Failure = Failure(excType: string, error: string)

  /** One call of execute_push: what it leaves in the table, and what it raises if it raises. */
  datatype Execution = Execution(rows: map<nat, PushLog>, raised: Option<Failure>)

  /** What the services around one attempt do. */
  datatype Services = Services(redis: bool, lpush: bool, ltrim: bool, database: bool, now: int)

  predicate Terminal(status: string) {
    status == "pushed" || status == "failed" || status == "partial_failure" || status == "dry_run_pushed"
  }

  class Worker {
    var rows: map<nat, PushLog>
    var list: seq<Entry>

    method WriteDeadLetter(id: nat, failure: Failure, tries: nat, env: Services)
      modifies this`list
      ensures list == DeadLettered(old(list), id, failure, tries, env)
    {
      DeadLetteredIs(list, id, failure, tries, env);
      if !env.redis {
        return;
      }
      if env.lpush {
        list := [Entry(id, failure.error, failure.excType, tries)] + list;
        if env.ltrim {
          list := Trimmed(list);
        }
      }
    }

    /** Changes the row exactly when it exists and is in none of the four terminal statuses. */
    method FinalizePushLogFailed(id: nat, failure: Failure, tries: nat, env: Services)
      modifies this`rows
      ensures rows == if id in old(rows) && !Terminal(old(rows)[id].status) && env.database
                      then old(rows)[id := PushLog("failed", FinalError(tries, failure), env.now)] else old(rows)
    {
      if id !in rows {
        return;
      }
      if Terminal(rows[id].status) {
        return;
      }
      if env.database {
        rows := rows[id := PushLog("failed", FinalError(tries, failure), env.now)];
      }
    }

    /** One attempt; true asks arq to schedule the next. */
    method RunPushJob(
      id: nat, jobTry: nat, maxTries: nat, execution: Execution, env: Services)
      returns (reschedule: bool)
      modifies this
      ensures (rows, list, reschedule) == Attempt(old(list), id, jobTry, maxTries, execution, env)
    {
      rows := execution.rows;
      match execution.raised
      case None => return false;
      case Some(failure) =>
        if jobTry < maxTries {
          return true;
        }
        WriteDeadLetter(id, failure, jobTry, env);
        FinalizePushLogFailed(id, failure, jobTry, env);
        return false;
    }

    /** arq's retry contract: attempts numbered from one, the next one only when the last one asks for it. */
    method RunToEnd(id: nat, executions: seq<Execution>, env: Services) returns (tries: nat)
      requires |executions| == 3
      modifies this
      ensures 1 <= tries <= 3
      ensures (rows, list) == Job(old(list), id, 1, executions, env)
      ensures tries < 3 ==> executions[tries - 1].raised.None?
      ensures forall i :: 0 <= i < tries - 1 ==> executions[i].raised.Some?
    {
      tries := 1;
      var again := RunPushJob(id, tries, MAX_TRIES, executions[0], env);
      while again
        invariant 1 <= tries <= MAX_TRIES
        invariant (rows, list, again) == Attempt(old(list), id, tries, MAX_TRIES, executions[tries - 1], env)
        invariant Job(old(list), id, tries, executions, env) == Job(old(list), id, 1, executions, env)
        invariant forall i :: 0 <= i < tries - 1 ==> executions[i].raised.Some?
        decreases MAX_TRIES - tries
      {
        tries := tries + 1;
        again := RunPushJob(id, tries, MAX_TRIES, executions[tries - 1], env);
      }
    }
  }

  function Digits(n: nat): string {
    if n < 10 then ['0' + n as char] else Digits(n / 10) + ['0' + (n % 10) as char]
  }

  /** The number that a text of decimal digits stands for. */
  function NumberOf(text: string): int {
    if text == "" then 0 else 10 * NumberOf(text[..|text| - 1]) + (text[|text| - 1] as int - '0' as int)
  }

  lemma {:induction false} DigitsRead(n: nat)
    ensures NumberOf(Digits(n)) == n
    ensures Digits(n) != "" && forall i :: 0 <= i < |Digits(n)| ==> '0' <= Digits(n)[i] <= '9'
    ensures n > 0 ==> Digits(n)[0] != '0'
  {
    if n >= 10 {
      DigitsRead(n / 10);
      assert Digits(n)[..|Digits(n)| - 1] == Digits(n / 10);
    } else {
      assert Digits(n)[..0] == "";
    }
  }

  function FinalError(tries: nat, failure: Failure): string {
    "Exhausted " + Digits(tries) + " retries: " + failure.excType + ": " + failure.error
  }

  /** One writer's call: a push and then a trim, as far as the connection answers. */
  function WriterSteps(w: nat, id: nat, failure: Failure, tries: nat, env: Services): seq<Step> {
    if !env.redis || !env.lpush then [PushFails(w)]
    else [Push(w, Entry(id, failure.error, failure.excType, tries)), if env.ltrim then Trim(w) else TrimFails(w)]
  }

  lemma WriterRuns(d: DeadLetters, w: nat, id: nat, failure: Failure, tries: nat, env: Services)
    requires w !in d.midway
    ensures ValidRun(d, WriterSteps(w, id, failure, tries, env))
    ensures var entry := Entry(id, failure.error, failure.excType, tries);
            After(d, WriterSteps(w, id, failure, tries, env))
            == if !env.redis || !env.lpush then d
               else Apply(Apply(d, Push(w, entry)), if env.ltrim then Trim(w) else TrimFails(w))
  {
    var steps := WriterSteps(w, id, failure, tries, env);
    if env.redis && env.lpush {
      var pushed := Apply(d, steps[0]);
      assert steps[1..] == [steps[1]] && [steps[1]][1..] == [];
      assert Enabled(pushed, steps[1]);
      assert After(pushed, [steps[1]]) == Apply(pushed, steps[1]);
    } else {
      assert steps[1..] == [];
    }
  }

  /** The list after one writer's call, as the protocol of concurrent writers has it. */
  ghost function DeadLettered(list: seq<Entry>, id: nat, failure: Failure, tries: nat, env: Services): seq<Entry> {
    WriterRuns(DeadLetters(list, [], {}, 0), 0, id, failure, tries, env);
    After(DeadLetters(list, [], {}, 0), WriterSteps(0, id, failure, tries, env)).list
  }

  lemma DeadLetteredIs(list: seq<Entry>, id: nat, failure: Failure, tries: nat, env: Services)
    ensures DeadLettered(list, id, failure, tries, env)
         == if !env.redis || !env.lpush then list
            else
              var pushed := [Entry(id, failure.error, failure.excType, tries)] + list;
              if env.ltrim then Trimmed(pushed) else pushed
  {
    hide After, ValidRun, WriterSteps;
    WriterRuns(DeadLetters(list, [], {}, 0), 0, id, failure, tries, env);
  }

  function Finalized(rows: map<nat, PushLog>, id: nat, failure: Failure, tries: nat, env: Services): map<nat, PushLog> {
    if id in rows && !Terminal(rows[id].status) && env.database
    then rows[id := PushLog("failed", FinalError(tries, failure), env.now)] else rows
  }

  ghost function Attempt(list: seq<Entry>, id: nat, jobTry: nat, maxTries: nat, execution: Execution, env: Services)
    : (map<nat, PushLog>, seq<Entry>, bool)
  {
    match execution.raised
    case None => (execution.rows, list, false)
    case Some(failure) =>
      if jobTry < maxTries then (execution.rows, list, true)
      else (Finalized(execution.rows, id, failure, jobTry, env), DeadLettered(list, id, failure, jobTry, env), false)
  }

  ghost function Job(
    list: seq<Entry>, id: nat, jobTry: nat, executions: seq<Execution>, env: Services): (map<nat, PushLog>, seq<Entry>)
    requires 1 <= jobTry <= |executions|
    decreases |executions| - jobTry
  {
    var (rows, l, again) := Attempt(list, id, jobTry, |executions|, executions[jobTry - 1], env);
    if again && jobTry < |executions| then Job(l, id, jobTry + 1, executions, env) else (rows, l)
  }

  /**
   A call among concurrent writers leaves the list as it would alone: the new entry heads it, what follows is a prefix
   of the old list, and after a trim it holds a thousand at most; the writer is no longer midway.
   */
  lemma WriteIsPushThenTrim(d: DeadLetters, w: nat, id: nat, failure: Failure, tries: nat, env: Services)
    requires w !in d.midway
    ensures var steps := WriterSteps(w, id, failure, tries, env);
            var list := DeadLettered(d.list, id, failure, tries, env);
            && ValidRun(d, steps) && After(d, steps).list == list && After(d, steps).midway == d.midway
            && (if !env.redis || !env.lpush then list == d.list
                else list != [] && list[0] == Entry(id, failure.error, failure.excType, tries) && list[1..] <= d.list
                     && |list| == if env.ltrim && |d.list| >= 1000 then 1000 else |d.list| + 1)
  {
    hide After, ValidRun, WriterSteps;
    WriterRuns(d, w, id, failure, tries, env);
    DeadLetteredIs(d.list, id, failure, tries, env);
    assert d.midway + {w} - {w} == d.midway;
  }

  /** When every attempt raises, only the last one's row and failure matter. */
  lemma {:induction false} AllTriesFail(
    list: seq<Entry>, id: nat, jobTry: nat, executions: seq<Execution>, env: Services)
    requires 1 <= jobTry <= |executions|
    requires forall i :: jobTry - 1 <= i < |executions| ==> executions[i].raised.Some?
    ensures var last := executions[|executions| - 1];
            var failure := last.raised.value;
            Job(list, id, jobTry, executions, env)
            == (Finalized(last.rows, id, failure, |executions|, env),
                DeadLettered(list, id, failure, |executions|, env))
    decreases |executions| - jobTry
  {
    hide Finalized, DeadLettered;
    if jobTry < |executions| {
      AllTriesFail(list, id, jobTry + 1, executions, env);
    }
  }

  /**
   A job ends in one of two ways. Either some attempt succeeds: then no dead letter is written and the table is as
   that attempt left it. Or all of them raise: then, as far as the services answer, exactly one dead letter is written,
   for the last failure, and the row is terminal; a row already terminal is not touched.
   */
  lemma {:induction false} JobOutcome(list: seq<Entry>, id: nat, jobTry: nat, executions: seq<Execution>, env: Services)
    requires 1 <= jobTry <= |executions|
    ensures var (rows, l) := Job(list, id, jobTry, executions, env);
            var last := executions[|executions| - 1];
            if exists i :: jobTry - 1 <= i < |executions| && executions[i].raised.None? then
              l == list && exists i :: jobTry - 1 <= i < |executions| && executions[i].raised.None?
                                       && rows == executions[i].rows
                                       && forall j :: jobTry - 1 <= j < i ==> executions[j].raised.Some?
            else
              && last.raised.Some?
              && (env.redis && env.lpush ==>
                    var pushed := [Entry(id, last.raised.value.error, last.raised.value.excType, |executions|)] + list;
                    l == if env.ltrim then Trimmed(pushed) else pushed)
              && (!env.redis || !env.lpush ==> l == list)
              && (env.database && id in rows ==> Terminal(rows[id].status))
              && (id in last.rows && Terminal(last.rows[id].status) ==> rows == last.rows)
              && (forall other :: other in last.rows && other != id ==>
                   other in rows && rows[other] == last.rows[other])
    decreases |executions| - jobTry
  {
    hide FinalError, Trimmed, DeadLettered;
    if executions[jobTry - 1].raised.Some? && jobTry < |executions| {
      JobOutcome(list, id, jobTry + 1, executions, env);
    } else if executions[jobTry - 1].raised.Some? {
      DeadLetteredIs(list, id, executions[jobTry - 1].raised.value, jobTry, env);
    }
  }

  lemma ThreeRetries(error: string)
    ensures FinalError(3, Failure("RuntimeError", error)) == "Exhausted 3 retries: RuntimeError: " + error
  {
    assert Digits(3) == "3";
    assert "Exhausted " + "3" + " retries: " + "RuntimeError" + ": " == "Exhausted 3 retries: RuntimeError: ";
  }

  /** The statuses that the push-request endpoints report as final. */
  predicate Final(status: string) {
    status in ["pushed", "failed", "partial_failure", "rejected", "dry_run_pushed", "canceled"]
  }

  /** A job whose attempts all raise leaves a final row alone exactly when the finalizer's own list has its status. */
  lemma FinalRowKeptIff(list: seq<Entry>, id: nat, executions: seq<Execution>, env: Services)
    requires executions != [] && forall i :: 0 <= i < |executions| ==> executions[i].raised.Some?
    requires var rows := executions[|executions| - 1].rows; id in rows && Final(rows[id].status)
    ensures var before := executions[|executions| - 1].rows;
            var after := Job(list, id, 1, executions, env).0;
            && (after == before <==>
                  !env.database || (before[id].status != "rejected" && before[id].status != "canceled"))
            && (after != before ==> id in after && after[id].status == "failed")
  {
    hide DeadLettered, FinalError;
    AllTriesFail(list, id, 1, executions, env);
    assert "rejected"[0] == 'r' && "canceled"[0] == 'c' && "failed"[0] == 'f';
    assert "pushed"[0] == "partial_failure"[0] == 'p' && "dry_run_pushed"[0] == 'd';
  }

  /** execute_push on a row that is not waiting to be claimed: it returns on the four statuses, else it raises. */
  function Unclaimable(rows: map<nat, PushLog>, id: nat, error: string): Execution
    requires id in rows && rows[id].status != "accepted"
  {
    Execution(rows, if Terminal(rows[id].status) then None else Some(Failure("RuntimeError", error)))
  }

  /**
   A job whose row is not waiting to be claimed: on the four statuses nothing happens; on any other every try fails,
   a dead letter is written and the row becomes failed, a rejected or canceled one included.
   */
  lemma UnclaimedJob(list: seq<Entry>, rows: map<nat, PushLog>, id: nat, error: string, env: Services)
    requires id in rows && rows[id].status != "accepted"
    ensures var attempt := Unclaimable(rows, id, error);
            var (after, l) := Job(list, id, 1, [attempt, attempt, attempt], env);
            var failure := Failure("RuntimeError", error);
            && (Terminal(rows[id].status) ==> after == rows && l == list)
            && (!Terminal(rows[id].status) ==>
                  && l == DeadLettered(list, id, failure, 3, env)
                  && after == if env.database
                              then rows[id := PushLog("failed", "Exhausted 3 retries: RuntimeError: " + error, env.now)]
                              else rows)
            && (Final(rows[id].status) && env.database ==>
                  (after == rows <==> rows[id].status != "rejected" && rows[id].status != "canceled"))
  {
    hide FinalError, DeadLettered;
    var attempt := Unclaimable(rows, id, error);
    var tries := [attempt, attempt, attempt];
    if attempt.raised.Some? {
      AllTriesFail(list, id, 1, tries, env);
      ThreeRetries(error);
      if Final(rows[id].status) {
        FinalRowKeptIff(list, id, tries, env);
      }
    } else {
      assert rows[id].status != "rejected" && rows[id].status != "canceled" by {
        assert "rejected"[0] == 'r' && "canceled"[0] == 'c' && "failed"[0] == 'f';
        assert "pushed"[0] == "partial_failure"[0] == 'p' && "dry_run_pushed"[0] == 'd';
      }
    }
  }

  /**
   The job as it usually fails: a try raises past the claim and leaves its row in processing, so every later try
   raises at the claim. The push is not executed again, and neither the dead letter nor the row tells the first cause.
   */
  lemma FirstCauseIsLost(list: seq<Entry>, id: nat, first: Execution, error: string, env: Services)
    requires first.raised.Some? && id in first.rows && first.rows[id].status == "processing"
    ensures var later := Unclaimable(first.rows, id, error);
            var failure := Failure("RuntimeError", error);
            && later.raised == Some(failure) && later.rows == first.rows
            && Job(list, id, 1, [first, later, later], env)
               == (if env.database
                   then first.rows[id := PushLog("failed", "Exhausted 3 retries: RuntimeError: " + error, env.now)]
                   else first.rows,
                   DeadLettered(list, id, failure, 3, env))
  {
    hide FinalError, DeadLettered;
    assert "processing"[1] == 'r' && "pushed"[1] == 'u' && "partial_failure"[1] == 'a';
    assert "failed"[0] == 'f' && "dry_run_pushed"[0] == 'd';
    var later := Unclaimable(first.rows, id, error);
    AllTriesFail(list, id, 1, [first, later, later], env);
    ThreeRetries(error);
  }
}
