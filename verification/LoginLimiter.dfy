/**
 The per-email login limiter: a pruned queue of timestamps per key, swept opportunistically
 (backend/limiter.py), and the limiter it stands for, which remembers every accepted attempt.
 */
module LoginLimiter {
  import opened Text

  const WINDOW: real := 900.0
  const MAX_ATTEMPTS: nat := 5
  const GC_THRESHOLD: nat := 10000

  type Buckets = map<string, seq<real>>

  datatype Verdict = Admitted | Rejected(retryIn: int, retryAfter: int)

  datatype Call = Call(email: string, now: real)

  function Key(email: string): string {
    Lower(Strip(email))
  }

  /** Python's int() on a float: truncation toward zero. */
  function Truncate(x: real): int {
    if x >= 0.0 then x.Floor else -((-x).Floor)
  }

  function Refusal(oldest: real, now: real): (v: Verdict)
    ensures v.Rejected?
  {
    var retryIn := Truncate(oldest + WINDOW - now);
    Rejected(retryIn, if retryIn >= 1 then retryIn else 1)
  }

  // ---------------------------------------------------------------- the limiter as it runs

  function Bucket(m: Buckets, key: string): seq<real> {
    if key in m then m[key] else []
  }

  predicate Aged(b: seq<real>, cutoff: real) {
    b == [] || b[|b| - 1] < cutoff
  }

  function DropAged(b: seq<real>, cutoff: real): seq<real> {
    if b != [] && b[0] < cutoff then DropAged(b[1..], cutoff) else b
  }

  function Swept(m: Buckets, cutoff: real): Buckets {
    if |m| > GC_THRESHOLD then map k | k in m && !Aged(m[k], cutoff) :: m[k] else m
  }

  function Step(m: Buckets, key: string, now: real): (Buckets, Verdict) {
    var swept := Swept(m, now - WINDOW);
    var b := DropAged(Bucket(swept, key), now - WINDOW);
    if |b| >= MAX_ATTEMPTS then
      (swept[key := b], Refusal(b[0], now))
    else
      (swept[key := b + [now]], Admitted)
  }

  function Run(m: Buckets, calls: seq<Call>): (Buckets, seq<Verdict>)
    decreases |calls|
  {
    if calls == [] then (m, [])
    else
      var (m', v) := Step(m, Key(calls[0].email), calls[0].now);
      var (m'', vs) := Run(m', calls[1..]);
      (m'', [v] + vs)
  }

  class EmailLimiter {
    const enabled: bool
    var attempts: Buckets

    constructor (enabled: bool)
      ensures this.enabled == enabled && attempts == map[]
    {
      this.enabled := enabled;
      attempts := map[];
    }

    /** One login attempt: the sweep, the pruning of the key's own queue, the verdict. */
    method EnforceEmailLoginLimit(email: string, now: real) returns (verdict: Verdict)
      modifies this
      ensures !enabled ==> verdict == Admitted && attempts == old(attempts)
      ensures enabled ==> (attempts, verdict) == Step(old(attempts), Key(email), now)
    {
      if !enabled {
        return Admitted;
      }
      var key := Key(email);
      var cutoff := now - WINDOW;
      Sweep(cutoff);
      ghost var swept, kept := attempts, DropAged(Bucket(attempts, key), cutoff);
      Prune(key, cutoff);
      if |attempts[key]| >= MAX_ATTEMPTS {
        return Refusal(attempts[key][0], now);
      }
      attempts := attempts[key := attempts[key] + [now]];
      assert attempts == swept[key := kept + [now]];
      verdict := Admitted;
    }

    /** The opportunistic sweep: deletes the aged-out keys one by one once the table has grown too large. */
    method Sweep(cutoff: real)
      modifies this
      ensures attempts == Swept(old(attempts), cutoff)
    {
      if |attempts| > GC_THRESHOLD {
        var stale := set k | k in attempts && Aged(attempts[k], cutoff);
        while stale != {}
          invariant forall k :: k in stale <==> k in attempts && Aged(attempts[k], cutoff)
          invariant forall k :: k in attempts ==> k in old(attempts) && attempts[k] == old(attempts)[k]
          invariant forall k :: k in old(attempts) && !Aged(old(attempts)[k], cutoff) ==> k in attempts
          decreases |stale|
        {
          var k :| k in stale;
          attempts := attempts - {k};
          stale := stale - {k};
        }
        assert attempts == Swept(old(attempts), cutoff);
      }
    }

    /** Looks up the key's queue, creating it if need be, and pops the attempts that have aged out. */
    method Prune(key: string, cutoff: real)
      modifies this
      ensures attempts == old(attempts)[key := DropAged(Bucket(old(attempts), key), cutoff)]
    {
      if key !in attempts {
        attempts := attempts[key := []];
      }
      while attempts[key] != [] && attempts[key][0] < cutoff
        invariant key in attempts
        invariant attempts == old(attempts)[key := attempts[key]]
        invariant DropAged(attempts[key], cutoff) == DropAged(Bucket(old(attempts), key), cutoff)
        decreases |attempts[key]|
      {
        attempts := attempts[key := attempts[key][1..]];
      }
    }
  }

  // ---------------------------------------------------------------- the limiter it stands for

  /** The accepted attempts that are not older than the cutoff. */
  function Recent(h: seq<real>, cutoff: real): seq<real> {
    if h == [] then []
    else (if h[0] >= cutoff then [h[0]] else []) + Recent(h[1..], cutoff)
  }

  /** A limiter that never forgets: its histories only grow. */
  function IdealStep(h: Buckets, key: string, now: real): (Buckets, Verdict) {
    var recent := Recent(Bucket(h, key), now - WINDOW);
    if |recent| >= MAX_ATTEMPTS then
      (h, Refusal(recent[0], now))
    else
      (h[key := Bucket(h, key) + [now]], Admitted)
  }

  function IdealRun(h: Buckets, calls: seq<Call>): (Buckets, seq<Verdict>)
    decreases |calls|
  {
    if calls == [] then (h, [])
    else
      var (h', v) := IdealStep(h, Key(calls[0].email), calls[0].now);
      var (h'', vs) := IdealRun(h', calls[1..]);
      (h'', [v] + vs)
  }

  // ---------------------------------------------------------------- order of timestamps

  predicate Sorted(h: seq<real>) {
    forall i, j :: 0 <= i < j < |h| ==> h[i] <= h[j]
  }

  predicate UpTo(h: seq<real>, now: real) {
    forall i :: 0 <= i < |h| ==> h[i] <= now
  }

  /** The clock never runs backwards, and starts no earlier than t. */
  predicate Clocked(t: real, calls: seq<Call>)
    decreases |calls|
  {
    calls == [] || (t <= calls[0].now && Clocked(calls[0].now, calls[1..]))
  }

  /** The stored queue is the full history minus a prefix that has aged out. */
  predicate Forgets(b: seq<real>, h: seq<real>, cutoff: real) {
    && |b| <= |h|
    && b == h[|h| - |b|..]
    && forall i :: 0 <= i < |h| - |b| ==> h[i] < cutoff
  }

  lemma {:induction false} RecentIsDrop(h: seq<real>, cutoff: real)
    requires Sorted(h)
    ensures Recent(h, cutoff) == DropAged(h, cutoff)
  {
    if h != [] {
      if h[0] < cutoff {
        RecentIsDrop(h[1..], cutoff);
      } else {
        AllRecent(h, cutoff);
      }
    }
  }

  lemma {:induction false} AllRecent(h: seq<real>, cutoff: real)
    requires forall i :: 0 <= i < |h| ==> h[i] >= cutoff
    ensures Recent(h, cutoff) == h
  {
    if h != [] {
      AllRecent(h[1..], cutoff);
    }
  }

  /** Popping from the front of the shortened queue or of the full history leaves the same. */
  lemma {:induction false} DropForgotten(b: seq<real>, h: seq<real>, cutoff: real)
    requires Forgets(b, h, cutoff)
    ensures DropAged(b, cutoff) == DropAged(h, cutoff)
  {
    if |b| < |h| {
      assert h[1..][|h| - 1 - |b|..] == h[|h| - |b|..];
      DropForgotten(b, h[1..], cutoff);
    } else {
      assert b == h;
    }
  }

  lemma {:induction false} DropIsForgets(h: seq<real>, cutoff: real)
    ensures Forgets(DropAged(h, cutoff), h, cutoff)
    ensures DropAged(h, cutoff) != [] ==> DropAged(h, cutoff)[0] >= cutoff
  {
    if h != [] && h[0] < cutoff {
      var d := DropAged(h[1..], cutoff);
      DropIsForgets(h[1..], cutoff);
      assert h[1..][|h| - 1 - |d|..] == h[|h| - |d|..];
      assert forall i :: 0 < i < |h| - |d| ==> h[i] == h[1..][i - 1];
    } else {
      assert h[0..] == h;
    }
  }

  // ---------------------------------------------------------------- one step, one key

  /**
   What one call does to the queue of one key k, whatever else the call sweeps: the queue
   still is k's history minus aged-out attempts, and it decides k's verdict as the full history does.
   */
  lemma {:induction false} StepOnKey(m: Buckets, h: seq<real>, k: string, t: real, key: string, now: real)
    requires Forgets(Bucket(m, k), h, t - WINDOW) && Sorted(h) && t <= now
    ensures var (m', v) := Step(m, key, now);
            var d := DropAged(h, now - WINDOW);
            && (key != k ==> Forgets(Bucket(m', k), h, now - WINDOW))
            && (key == k ==> v == if |d| >= MAX_ATTEMPTS then Refusal(d[0], now) else Admitted)
            && (key == k && v.Rejected? ==> Forgets(Bucket(m', k), h, now - WINDOW))
            && (key == k && v.Admitted? ==> Forgets(Bucket(m', k), h + [now], now - WINDOW))
  {
    hide Swept, Refusal, Sorted, Forgets, DropAged;
    var cutoff := now - WINDOW;
    var swept := Swept(m, cutoff);
    ForgetsMore(Bucket(m, k), h, t - WINDOW, cutoff);
    SweepForgets(m, h, k, cutoff);
    DropForgotten(Bucket(swept, k), h, cutoff);
    DropIsForgets(h, cutoff);
    AppendForgets(DropAged(h, cutoff), h, now, cutoff);
  }

  lemma ForgetsMore(b: seq<real>, h: seq<real>, cutoff: real, later: real)
    requires Forgets(b, h, cutoff) && cutoff <= later
    ensures Forgets(b, h, later)
  {
  }

  lemma AppendForgets(b: seq<real>, h: seq<real>, now: real, cutoff: real)
    requires Forgets(b, h, cutoff)
    ensures Forgets(b + [now], h + [now], cutoff)
  {
    assert (h + [now])[|h| - |b|..] == h[|h| - |b|..] + [now];
  }

  /** The sweep drops a key's queue whole, and only when all of it has aged out. */
  lemma SweepForgets(m: Buckets, h: seq<real>, k: string, cutoff: real)
    requires Forgets(Bucket(m, k), h, cutoff) && Sorted(h)
    ensures Forgets(Bucket(Swept(m, cutoff), k), h, cutoff)
  {
    var b := Bucket(m, k);
    if Bucket(Swept(m, cutoff), k) != b {
      assert Bucket(Swept(m, cutoff), k) == [] && Aged(b, cutoff);
      assert b != [] ==> b[|b| - 1] == h[|h| - 1];
      assert h[|h|..] == [];
    }
  }

  // ---------------------------------------------------------------- refinement over runs

  predicate Follows(b: seq<real>, h: seq<real>, now: real) {
    Forgets(b, h, now - WINDOW) && Sorted(h) && UpTo(h, now)
  }

  ghost predicate Refines(m: Buckets, h: Buckets, now: real) {
    forall k :: Follows(Bucket(m, k), Bucket(h, k), now)
  }

  lemma {:induction false} StepFollows(m: Buckets, h: Buckets, t: real, k: string, key: string, now: real)
    requires Follows(Bucket(m, k), Bucket(h, k), t) && t <= now
    ensures key == k ==> Step(m, key, now).1 == IdealStep(h, key, now).1
    ensures key == k || Bucket(IdealStep(h, key, now).0, k) == Bucket(h, k)
    ensures Follows(Bucket(Step(m, key, now).0, k), Bucket(IdealStep(h, key, now).0, k), now)
  {
    hide Step, DropAged, Recent, Forgets, Sorted, UpTo, Refusal;
    StepOnKey(m, Bucket(h, k), k, t, key, now);
    RecentIsDrop(Bucket(h, k), now - WINDOW);
    Later(Bucket(h, k), t, now);
    IdealOnKey(h, k, key, now);
  }

  lemma IdealOnKey(h: Buckets, k: string, key: string, now: real)
    ensures var (h', v) := IdealStep(h, key, now);
            Bucket(h', k) == if key == k && v.Admitted? then Bucket(h, k) + [now] else Bucket(h, k)
  {
    hide Recent, Refusal;
  }

  lemma Later(h: seq<real>, t: real, now: real)
    requires Sorted(h) && UpTo(h, t) && t <= now
    ensures UpTo(h, now) && Sorted(h + [now]) && UpTo(h + [now], now)
  {
  }

  lemma {:induction false} StepRefines(m: Buckets, h: Buckets, t: real, key: string, now: real)
    requires Refines(m, h, t) && t <= now
    ensures Step(m, key, now).1 == IdealStep(h, key, now).1
    ensures Refines(Step(m, key, now).0, IdealStep(h, key, now).0, now)
  {
    hide Step, IdealStep, Follows;
    StepFollows(m, h, t, key, key, now);
    forall k ensures Follows(Bucket(Step(m, key, now).0, k), Bucket(IdealStep(h, key, now).0, k), now) {
      StepFollows(m, h, t, k, key, now);
    }
  }

  lemma {:induction false} RunRefines(m: Buckets, h: Buckets, t: real, calls: seq<Call>)
    requires Refines(m, h, t) && Clocked(t, calls)
    ensures Run(m, calls).1 == IdealRun(h, calls).1
    decreases |calls|
  {
    if calls != [] {
      var key, now := Key(calls[0].email), calls[0].now;
      StepRefines(m, h, t, key, now);
      RunRefines(Step(m, key, now).0, IdealStep(h, key, now).0, now, calls[1..]);
    }
  }

  /** Sweeping and front-popping are unobservable: every serialised run is answered as if nothing was forgotten. */
  lemma {:induction false} RunMatchesIdeal(calls: seq<Call>)
    requires calls == [] || Clocked(calls[0].now, calls)
    ensures Run(map[], calls).1 == IdealRun(map[], calls).1
  {
    if calls != [] {
      RunRefines(map[], map[], calls[0].now, calls);
    }
  }

  // ---------------------------------------------------------------- at most five per window

  /** The times at which calls of this key were admitted. */
  function Accepted(key: string, calls: seq<Call>, verdicts: seq<Verdict>): seq<real>
    requires |calls| == |verdicts|
  {
    if calls == [] then []
    else
      (if Key(calls[0].email) == key && verdicts[0].Admitted? then [calls[0].now] else [])
      + Accepted(key, calls[1..], verdicts[1..])
  }

  lemma {:induction false} RunLength(m: Buckets, calls: seq<Call>)
    ensures |Run(m, calls).1| == |calls|
    decreases |calls|
  {
    if calls != [] {
      RunLength(Step(m, Key(calls[0].email), calls[0].now).0, calls[1..]);
    }
  }

  /** How many of the times lie in the closed window of 900 seconds that begins then. */
  function InWindow(h: seq<real>, from: real): nat {
    if h == [] then 0
    else (if from <= h[0] <= from + 900.0 then 1 else 0) + InWindow(h[1..], from)
  }

  predicate Spaced(h: seq<real>) {
    forall i :: 0 <= i && i + MAX_ATTEMPTS < |h| ==> h[i + MAX_ATTEMPTS] - h[i] > WINDOW
  }

  lemma {:induction false} NoneInWindow(h: seq<real>, from: real)
    requires forall i :: 0 <= i < |h| ==> h[i] > from + WINDOW
    ensures InWindow(h, from) == 0
  {
    if h != [] {
      NoneInWindow(h[1..], from);
    }
  }

  lemma {:induction false} WindowAtMost(h: seq<real>, from: real)
    ensures InWindow(h, from) <= |h|
  {
    if h != [] {
      WindowAtMost(h[1..], from);
    }
  }

  lemma {:induction false} WindowSplit(a: seq<real>, b: seq<real>, from: real)
    ensures InWindow(a + b, from) == InWindow(a, from) + InWindow(b, from)
  {
    if a == [] {
      assert a + b == b;
    } else {
      assert (a + b)[1..] == a[1..] + b;
      WindowSplit(a[1..], b, from);
    }
  }

  lemma {:induction false} SpacedBounds(h: seq<real>, from: real)
    requires Sorted(h) && Spaced(h)
    ensures InWindow(h, from) <= MAX_ATTEMPTS
  {
    if |h| <= MAX_ATTEMPTS {
      WindowAtMost(h, from);
    } else if h[0] < from {
      forall i | 0 <= i && i + MAX_ATTEMPTS < |h[1..]|
        ensures h[1..][i + MAX_ATTEMPTS] - h[1..][i] > WINDOW
      {
        assert h[(i + 1) + MAX_ATTEMPTS] - h[i + 1] > WINDOW;
      }
      SpacedBounds(h[1..], from);
    } else {
      var a, b := h[..MAX_ATTEMPTS], h[MAX_ATTEMPTS..];
      assert h == a + b;
      assert h[0 + MAX_ATTEMPTS] - h[0] > WINDOW;
      assert forall i :: 0 <= i < |b| ==> b[i] == h[i + MAX_ATTEMPTS] >= h[MAX_ATTEMPTS];
      NoneInWindow(b, from);
      WindowAtMost(a, from);
      WindowSplit(a, b, from);
    }
  }

  /** Appending an admitted attempt keeps a sorted history spaced. */
  lemma AdmittedKeepsSpacing(h: seq<real>, now: real)
    requires Sorted(h) && Spaced(h) && UpTo(h, now)
    requires |DropAged(h, now - WINDOW)| < MAX_ATTEMPTS
    ensures Spaced(h + [now])
  {
    DropIsForgets(h, now - WINDOW);
    var d := DropAged(h, now - WINDOW);
    forall i | 0 <= i && i + MAX_ATTEMPTS < |h + [now]|
      ensures (h + [now])[i + MAX_ATTEMPTS] - (h + [now])[i] > WINDOW
    {
      if i + MAX_ATTEMPTS == |h| {
        assert i < |h| - |d|;
      }
    }
  }

  lemma {:induction false} AcceptedSpaced(m: Buckets, h: seq<real>, key: string, t: real, calls: seq<Call>)
    requires Forgets(Bucket(m, key), h, t - WINDOW) && Sorted(h) && Spaced(h) && UpTo(h, t)
    requires Clocked(t, calls)
    requires |Run(m, calls).1| == |calls|
    ensures var all := h + Accepted(key, calls, Run(m, calls).1);
            Sorted(all) && Spaced(all)
    decreases |calls|
  {
    hide Step, Forgets, Sorted, Spaced, DropAged, UpTo;
    if calls == [] {
      assert h + [] == h;
    } else {
      var k, now := Key(calls[0].email), calls[0].now;
      var (m', v) := Step(m, k, now);
      var rest := Run(m', calls[1..]).1;
      assert Run(m, calls).1 == [v] + rest;
      assert ([v] + rest)[1..] == rest;
      StepOnKey(m, h, key, t, k, now);
      Later(h, t, now);
      if k == key && v.Admitted? {
        AdmittedKeepsSpacing(h, now);
        AcceptedSpaced(m', h + [now], key, now, calls[1..]);
        assert h + Accepted(key, calls, [v] + rest) == h + [now] + Accepted(key, calls[1..], rest);
      } else {
        AcceptedSpaced(m', h, key, now, calls[1..]);
        assert Accepted(key, calls, [v] + rest) == Accepted(key, calls[1..], rest);
      }
    }
  }

  lemma {:induction false} AtMostFivePerKey(calls: seq<Call>, key: string, from: real)
    requires calls == [] || Clocked(calls[0].now, calls)
    ensures |Run(map[], calls).1| == |calls|
    ensures InWindow(Accepted(key, calls, Run(map[], calls).1), from) <= 5
  {
    RunLength(map[], calls);
    if calls != [] {
      AcceptedSpaced(map[], [], key, calls[0].now, calls);
      var a := Accepted(key, calls, Run(map[], calls).1);
      assert [] + a == a;
      SpacedBounds(a, from);
    }
  }

  // ---------------------------------------------------------------- whom a key stands for

  /** Two emails share a key exactly when, but for blanks at the ends, they agree up to letter case. */
  lemma KeyIdentifies(u: string, s: string, v: string, u': string, t: string, v': string)
    requires AllBlank(u) && AllBlank(v) && AllBlank(u') && AllBlank(v') && Bare(s) && Bare(t)
    ensures Key(u + s + v) == Key(u' + t + v') <==> SameText(s, t)
  {
    StripIs(u, s, v);
    StripIs(u', t, v');
    LowerAgrees(s, t);
  }

  /** The email is written as s, but for blanks at the ends and letter case. */
  ghost predicate IsAccount(email: string, s: string) {
    exists u, t, v :: Written(email, u, t, v) && SameText(t, s)
  }

  ghost predicate Written(email: string, u: string, t: string, v: string) {
    AllBlank(u) && AllBlank(v) && Bare(t) && email == u + t + v
  }

  lemma AccountIs(email: string, s: string)
    requires Bare(s)
    ensures IsAccount(email, s) <==> Key(email) == Key(s)
  {
    hide Key, AllBlank, Bare;
    assert AllBlank("") by { NoBlanks(); }
    assert "" + s + "" == s;
    var u, t, v := Split(email);
    assert Written(email, u, t, v);
    KeyIdentifies(u, t, v, "", s, "");
    forall u', t', v' | Written(email, u', t', v') ensures Key(email) == Key(s) <==> SameText(t', s) {
      KeyIdentifies(u', t', v', "", s, "");
    }
  }

  lemma NoBlanks()
    ensures AllBlank("")
  {
  }

  /** The times at which calls with this email, however written, were admitted. */
  ghost function AcceptedAs(s: string, calls: seq<Call>, verdicts: seq<Verdict>): seq<real>
    requires |calls| == |verdicts|
  {
    if calls == [] then []
    else
      (if IsAccount(calls[0].email, s) && verdicts[0].Admitted? then [calls[0].now] else [])
      + AcceptedAs(s, calls[1..], verdicts[1..])
  }

  lemma {:induction false} AcceptedAsKey(s: string, calls: seq<Call>, verdicts: seq<Verdict>)
    requires Bare(s) && |calls| == |verdicts|
    ensures AcceptedAs(s, calls, verdicts) == Accepted(Key(s), calls, verdicts)
  {
    hide Key, IsAccount;
    if calls != [] {
      AccountIs(calls[0].email, s);
      AcceptedAsKey(s, calls[1..], verdicts[1..]);
    }
  }

  /** On every run, no closed window of 900 seconds holds more than five accepted attempts of one email. */
  lemma AtMostFivePerWindow(calls: seq<Call>, s: string, from: real)
    requires Bare(s) && (calls == [] || Clocked(calls[0].now, calls))
    ensures |Run(map[], calls).1| == |calls|
    ensures InWindow(AcceptedAs(s, calls, Run(map[], calls).1), from) <= 5
  {
    AtMostFivePerKey(calls, Key(s), from);
    AcceptedAsKey(s, calls, Run(map[], calls).1);
  }

  lemma {:induction false} IdealHistory(h: Buckets, key: string, calls: seq<Call>, t: real)
    requires Clocked(t, calls) && UpTo(Bucket(h, key), t)
    ensures var (h', vs) := IdealRun(h, calls);
            && |vs| == |calls|
            && Bucket(h', key) == Bucket(h, key) + Accepted(key, calls, vs)
            && UpTo(Bucket(h', key), if calls == [] then t else calls[|calls| - 1].now)
    decreases |calls|
  {
    hide Key, IdealStep, UpTo, Bucket, IdealRun, Accepted;
    IdealUnfold(h, calls);
    if calls == [] {
      assert Bucket(h, key) + [] == Bucket(h, key);
      AcceptedNone(key);
    } else {
      var k, now := Key(calls[0].email), calls[0].now;
      var (h', v) := IdealStep(h, k, now);
      IdealOnKey(h, key, k, now);
      StillUpTo(Bucket(h, key), t, now);
      IdealHistory(h', key, calls[1..], now);
      var rest := IdealRun(h', calls[1..]).1;
      AcceptedMore(key, calls, v, rest);
    }
  }

  lemma IdealUnfold(h: Buckets, calls: seq<Call>)
    ensures calls == [] ==> IdealRun(h, calls) == (h, [])
    ensures calls != [] ==> var (h', v) := IdealStep(h, Key(calls[0].email), calls[0].now);
                            && IdealRun(h, calls).0 == IdealRun(h', calls[1..]).0
                            && IdealRun(h, calls).1 == [v] + IdealRun(h', calls[1..]).1
  {
    hide IdealStep, Key;
  }

  lemma AcceptedNone(key: string)
    ensures Accepted(key, [], []) == []
  {
  }

  lemma AcceptedMore(key: string, calls: seq<Call>, v: Verdict, rest: seq<Verdict>)
    requires |calls| == |rest| + 1
    ensures Accepted(key, calls, [v] + rest)
         == (if Key(calls[0].email) == key && v.Admitted? then [calls[0].now] else [])
            + Accepted(key, calls[1..], rest)
  {
    hide Key;
    assert ([v] + rest)[1..] == rest;
  }

  lemma {:induction false} IdealAppend(h: Buckets, calls: seq<Call>, c: Call)
    ensures IdealRun(h, calls + [c]).1
         == IdealRun(h, calls).1 + [IdealStep(IdealRun(h, calls).0, Key(c.email), c.now).1]
    decreases |calls|
  {
    hide Key, IdealStep;
    if calls == [] {
      assert [] + [c] == [c] && [c][1..] == [];
    } else {
      var h' := IdealStep(h, Key(calls[0].email), calls[0].now).0;
      assert (calls + [c])[1..] == calls[1..] + [c];
      IdealAppend(h', calls[1..], c);
    }
  }

  lemma {:induction false} RecentInWindow(h: seq<real>, now: real)
    requires UpTo(h, now)
    ensures |Recent(h, now - 900.0)| == InWindow(h, now - 900.0)
  {
    if h != [] {
      RecentInWindow(h[1..], now);
    }
  }

  lemma {:induction false} ClockedPrefix(t: real, calls: seq<Call>, c: Call)
    requires Clocked(t, calls + [c])
    ensures Clocked(t, calls) && (if calls == [] then t else calls[|calls| - 1].now) <= c.now
    decreases |calls|
  {
    if calls != [] {
      assert (calls + [c])[1..] == calls[1..] + [c];
      ClockedPrefix(calls[0].now, calls[1..], c);
    }
  }

  /** Exactly when a call is rejected: five earlier attempts of its email were accepted in the 900 seconds before it. */
  lemma RejectedIff(calls: seq<Call>, c: Call, s: string)
    requires Clocked((calls + [c])[0].now, calls + [c])
    requires Bare(s) && IsAccount(c.email, s)
    ensures var vs := Run(map[], calls).1;
            var verdict := Run(map[], calls + [c]).1;
            && |vs| == |calls| && |verdict| == |calls| + 1
            && (verdict[|calls|].Rejected? <==> InWindow(AcceptedAs(s, calls, vs), c.now - 900.0) >= 5)
  {
    hide Key, IsAccount, Run, IdealRun, Recent, Accepted, AcceptedAs, InWindow;
    var key, start := Key(c.email), (calls + [c])[0].now;
    AccountIs(c.email, s);
    ClockedPrefix(start, calls, c);
    RunLength(map[], calls);
    RunLength(map[], calls + [c]);
    RunMatchesIdeal(calls + [c]);
    RunMatchesIdeal(calls);
    IdealAppend(map[], calls, c);
    IdealHistory(map[], key, calls, start);
    AcceptedAsKey(s, calls, Run(map[], calls).1);
    var h := Bucket(IdealRun(map[], calls).0, key);
    assert h == [] + Accepted(key, calls, Run(map[], calls).1) == Accepted(key, calls, Run(map[], calls).1);
    StillUpTo(h, if calls == [] then start else calls[|calls| - 1].now, c.now);
    RecentInWindow(h, c.now);
  }

  lemma StillUpTo(h: seq<real>, t: real, now: real)
    requires UpTo(h, t) && t <= now
    ensures UpTo(h, now) && UpTo(h + [now], now)
  {
  }

  // ---------------------------------------------------------------- what holds after every call

  /** Every stored queue is sorted, non-empty, at most five long and not in the future. */
  predicate HealthyBucket(b: seq<real>, now: real) {
    Sorted(b) && UpTo(b, now) && 0 < |b| <= 5
  }

  predicate Healthy(m: Buckets, now: real) {
    forall k :: k in m ==> HealthyBucket(m[k], now)
  }

  lemma {:induction false} StepHealthy(m: Buckets, t: real, key: string, now: real)
    requires Healthy(m, t) && t <= now
    ensures var (m', v) := Step(m, key, now);
            && Healthy(m', now)
            && key in m'
            && m'[key][|m'[key]| - 1] >= now - WINDOW
            && (v.Rejected? ==>
                 |m'[key]| == MAX_ATTEMPTS && m'[key][0] >= now - WINDOW && v == Refusal(m'[key][0], now))
  {
    var s := Swept(m, now - WINDOW);
    var (m', v) := Step(m, key, now);
    QueueHealthy(Bucket(s, key), t, now);
    forall k | k in m' ensures HealthyBucket(m'[k], now) {
      if k != key { assert m'[k] == m[k]; }
    }
  }

  lemma {:induction false} QueueHealthy(b: seq<real>, t: real, now: real)
    requires b == [] || HealthyBucket(b, t)
    requires t <= now
    ensures var d := DropAged(b, now - WINDOW);
            && (d == [] || HealthyBucket(d, now))
            && (d != [] ==> d[0] >= now - WINDOW)
            && (|d| < MAX_ATTEMPTS ==> HealthyBucket(d + [now], now))
  {
    hide Sorted, UpTo, DropAged;
    var d := DropAged(b, now - WINDOW);
    DropIsForgets(b, now - WINDOW);
    EmptyQueue(t);
    SuffixSorted(b, t, |b| - |d|);
    Later(d, t, now);
  }

  lemma EmptyQueue(t: real)
    ensures Sorted([]) && UpTo([], t)
  {
  }

  lemma SuffixSorted(b: seq<real>, t: real, n: nat)
    requires Sorted(b) && UpTo(b, t) && n <= |b|
    ensures Sorted(b[n..]) && UpTo(b[n..], t)
  {
  }

  lemma {:induction false} RunHealthy(m: Buckets, t: real, calls: seq<Call>)
    requires Healthy(m, t) && Clocked(t, calls)
    ensures Healthy(Run(m, calls).0, if calls == [] then t else calls[|calls| - 1].now)
    decreases |calls|
  {
    if calls != [] {
      var m' := Step(m, Key(calls[0].email), calls[0].now).0;
      StepHealthy(m, t, Key(calls[0].email), calls[0].now);
      RunHealthy(m', calls[0].now, calls[1..]);
    }
  }

  /**
   After a call either at most 10,001 keys are stored or every stored key has an attempt inside the window; up to
   10,000 keys nothing is swept.
   */
  lemma StorageBound(m: Buckets, t: real, key: string, now: real)
    requires Healthy(m, t) && t <= now
    ensures var m' := Step(m, key, now).0;
            && (|m'| <= 10001 || forall k :: k in m' ==> m'[k] != [] && m'[k][|m'[k]| - 1] >= now - 900.0)
            && (|m| <= 10000 ==> m'.Keys == m.Keys + {key})
  {
    StepHealthy(m, t, key, now);
    var m' := Step(m, key, now).0;
    if |m| <= GC_THRESHOLD {
      assert m'.Keys == m.Keys + {key};
    }
  }

  // ---------------------------------------------------------------- the advertised lockout

  lemma NothingDropped(b: seq<real>, cutoff: real)
    ensures b != [] && b[0] >= cutoff ==> DropAged(b, cutoff) == b
  {
  }

  lemma {:induction false} LockedQueue(m: Buckets, key: string, b: seq<real>, t: real, calls: seq<Call>)
    requires Forgets(Bucket(m, key), b, t - WINDOW) && Sorted(b) && |b| == MAX_ATTEMPTS
    requires Clocked(t, calls)
    requires |Run(m, calls).1| == |calls|
    ensures forall i :: 0 <= i < |calls| && Key(calls[i].email) == key && calls[i].now <= b[0] + WINDOW
                        ==> Run(m, calls).1[i].Rejected?
    ensures Accepted(key, calls, Run(m, calls).1) == [] ==>
              Forgets(Bucket(Run(m, calls).0, key), b, (if calls == [] then t else calls[|calls| - 1].now) - WINDOW)
    decreases |calls|
  {
    hide Step, Sorted, DropAged, Forgets, Refusal, Key, Run, Accepted;
    var verdicts := Run(m, calls).1;
    if calls == [] {
      RunUnfold(m, calls);
    } else {
      var k, now := Key(calls[0].email), calls[0].now;
      var (m', v) := Step(m, k, now);
      var rest := Run(m', calls[1..]).1;
      RunUnfold(m, calls);
      AcceptedUnfold(key, calls, verdicts);
      assert verdicts[1..] == rest;
      StepOnKey(m, b, key, t, k, now);
      if k == key && v.Admitted? {
        // then the oldest attempt has left the window, and so has every later call
        NothingDropped(b, now - WINDOW);
        ClockedFrom(now, calls[1..]);
        assert forall i :: 0 <= i < |calls| ==> now <= calls[i].now by {
          assert forall i :: 0 < i < |calls| ==> calls[i] == calls[1..][i - 1];
        }
      } else {
        LockedQueue(m', key, b, now, calls[1..]);
        forall i | 0 <= i < |calls| && Key(calls[i].email) == key && calls[i].now <= b[0] + WINDOW
          ensures verdicts[i].Rejected?
        {
          if i > 0 { assert calls[i] == calls[1..][i - 1] && verdicts[i] == rest[i - 1]; }
        }
      }
    }
  }

  lemma RunUnfold(m: Buckets, calls: seq<Call>)
    ensures calls == [] ==> Run(m, calls) == (m, [])
    ensures calls != [] ==> var (m', v) := Step(m, Key(calls[0].email), calls[0].now);
                            && Run(m, calls).0 == Run(m', calls[1..]).0
                            && Run(m, calls).1 == [v] + Run(m', calls[1..]).1
  {
    hide Step, Key;
  }

  lemma AcceptedUnfold(key: string, calls: seq<Call>, verdicts: seq<Verdict>)
    requires |calls| == |verdicts| > 0
    ensures var own := Key(calls[0].email) == key && verdicts[0].Admitted?;
            && (own ==> Accepted(key, calls, verdicts) != [])
            && (!own ==> Accepted(key, calls, verdicts) == Accepted(key, calls[1..], verdicts[1..]))
  {
    hide Key;
  }

  lemma {:induction false} ClockedFrom(t: real, calls: seq<Call>)
    requires Clocked(t, calls)
    ensures forall i :: 0 <= i < |calls| ==> t <= calls[i].now
    decreases |calls|
  {
    if calls != [] {
      ClockedFrom(calls[0].now, calls[1..]);
    }
  }

  /**
   A refusal advertises an exact lockout. Whatever calls follow, every call of this key up to
   now + retryIn is rejected too; and if none of them was admitted meanwhile, the first call
   at now + retryIn + 1 or later is admitted: rejected calls never lengthen the lockout.
   */
  lemma LockoutIsExact(m: Buckets, t: real, key: string, now: real, calls: seq<Call>, later: real)
    requires Healthy(m, t) && t <= now && Step(m, key, now).1.Rejected?
    requires Clocked(now, calls) && (if calls == [] then now else calls[|calls| - 1].now) <= later
    ensures var (m', v) := Step(m, key, now);
            && 0 <= v.retryIn <= 900 && v.retryAfter == (if v.retryIn >= 1 then v.retryIn else 1)
            && |Run(m', calls).1| == |calls|
            && (forall i :: 0 <= i < |calls| && Key(calls[i].email) == key && calls[i].now <= now + v.retryIn as real
                            ==> Run(m', calls).1[i].Rejected?)
            && (Accepted(key, calls, Run(m', calls).1) == [] ==>
                  && (later <= now + v.retryIn as real ==> Step(Run(m', calls).0, key, later).1.Rejected?)
                  && (later >= now + v.retryIn as real + 1.0 ==> Step(Run(m', calls).0, key, later).1.Admitted?))
  {
    hide Step, Run, Accepted, Clocked, Sorted, UpTo, Refusal, DropAged, Forgets, Key;
    var (m', v) := Step(m, key, now);
    var b := Bucket(m', key);
    StepHealthy(m, t, key, now);
    assert key in m' && HealthyBucket(b, now);
    LastIsNow(b, now);
    RefusalBounds(b[0], now);
    ForgetsNothing(b, now - WINDOW);
    RunLength(m', calls);
    LockedQueue(m', key, b, now, calls);
    if Accepted(key, calls, Run(m', calls).1) == [] {
      var end := if calls == [] then now else calls[|calls| - 1].now;
      StepOnKey(Run(m', calls).0, b, key, end, key, later);
      StillLocked(b, later);
    }
  }

  lemma ForgetsNothing(b: seq<real>, cutoff: real)
    ensures Forgets(b, b, cutoff)
  {
    assert b[0..] == b;
  }

  /** The queue is full at a time exactly when its oldest attempt is still in the window. */
  lemma StillLocked(b: seq<real>, later: real)
    requires |b| == MAX_ATTEMPTS
    ensures |DropAged(b, later - WINDOW)| >= MAX_ATTEMPTS <==> later <= b[0] + WINDOW
  {
    DropIsForgets(b, later - WINDOW);
    NothingDropped(b, later - WINDOW);
  }

  lemma LastIsNow(b: seq<real>, now: real)
    requires UpTo(b, now) && b != []
    ensures b[0] <= now
  {
  }

  lemma RefusalBounds(oldest: real, now: real)
    requires now - WINDOW <= oldest <= now
    ensures var v := Refusal(oldest, now);
            && 0 <= v.retryIn <= 900 && v.retryAfter == (if v.retryIn >= 1 then v.retryIn else 1)
            && oldest + WINDOW - 1.0 < now + v.retryIn as real <= oldest + WINDOW
  {
  }
}
