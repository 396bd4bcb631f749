/**
 The recursive descendant query of backend/modules/catalog/routes.py, evaluated over a working
 table as PostgreSQL does (section 7.8.2 of its manual). It is a UNION ALL: nothing removes
 duplicates and nothing stops it but an empty working table.
 */
module CategoryTree {
  import opened Prelude
  import opened Schema
  import opened Categories

  /** The rows of the table in some scan order. */
  ghost predicate Scan(rows: seq<CategoryKey>, t: CategoryTable) {
    Distinct(rows) && forall c :: c in rows <==> c in t
  }

  function ParentOf(t: CategoryTable, c: CategoryKey): Option<CategoryKey> {
    if c in t then t[c].parent else None
  }

  /** One row of the table joined with the working table. */
  function Matching(t: CategoryTable, c: CategoryKey, working: seq<CategoryKey>): seq<CategoryKey> {
    if working == [] then []
    else (if ParentOf(t, c) == Some(working[0]) then [c] else []) + Matching(t, c, working[1..])
  }

  function Join(t: CategoryTable, rows: seq<CategoryKey>, working: seq<CategoryKey>): seq<CategoryKey> {
    if rows == [] then [] else Matching(t, rows[0], working) + Join(t, rows[1..], working)
  }

  /** The working table of round n. */
  function Working(t: CategoryTable, rows: seq<CategoryKey>, root: CategoryKey, n: nat): seq<CategoryKey> {
    if n == 0 then (if root in t then [root] else []) else Join(t, rows, Working(t, rows, root, n - 1))
  }

  /** What the query has returned before round n. */
  function Result(t: CategoryTable, rows: seq<CategoryKey>, root: CategoryKey, n: nat): seq<CategoryKey> {
    if n == 0 then [] else Result(t, rows, root, n - 1) + Working(t, rows, root, n - 1)
  }

  /** The n-th ancestor. */
  function Up(t: CategoryTable, c: CategoryKey, n: nat): Option<CategoryKey> {
    if n == 0 then Some(c)
    else match Up(t, c, n - 1)
         case None => None
         case Some(a) => ParentOf(t, a)
  }

  /** Following the parent links up from the root leads back to it. */
  ghost predicate OnCycle(t: CategoryTable, root: CategoryKey) {
    exists m: nat :: m > 0 && Up(t, root, m) == Some(root)
  }

  // ---------------------------------------------------------------- rounds are generations

  lemma {:induction false} MatchingIs(t: CategoryTable, c: CategoryKey, working: seq<CategoryKey>)
    requires Distinct(working)
    ensures Matching(t, c, working)
            == if ParentOf(t, c).Some? && ParentOf(t, c).value in working then [c] else []
  {
    if working != [] {
      MatchingIs(t, c, working[1..]);
      assert forall d :: d in working <==> d == working[0] || d in working[1..];
    }
  }

  lemma {:induction false} JoinIs(t: CategoryTable, rows: seq<CategoryKey>, working: seq<CategoryKey>)
    requires Distinct(rows) && Distinct(working)
    ensures Distinct(Join(t, rows, working))
    ensures forall c :: c in Join(t, rows, working) <==>
              c in rows && ParentOf(t, c).Some? && ParentOf(t, c).value in working
  {
    if rows != [] {
      MatchingIs(t, rows[0], working);
      JoinIs(t, rows[1..], working);
      assert forall c :: c in rows <==> c == rows[0] || c in rows[1..];
      assert rows[0] !in rows[1..];
    }
  }

  lemma {:induction false} UpSplit(t: CategoryTable, c: CategoryKey, i: nat, j: nat)
    requires Up(t, c, i).Some?
    ensures Up(t, c, i + j) == Up(t, Up(t, c, i).value, j)
  {
    if j > 0 {
      UpSplit(t, c, i, j - 1);
    }
  }

  lemma {:induction false} UpPrefix(t: CategoryTable, c: CategoryKey, i: nat, n: nat)
    requires i <= n && Up(t, c, n).Some?
    ensures Up(t, c, i).Some?
    decreases n - i
  {
    if i < n {
      UpPrefix(t, c, i + 1, n);
    }
  }

  /** The n-th ancestor is the (n-1)-th ancestor of the parent. */
  lemma {:induction false} UpFirst(t: CategoryTable, c: CategoryKey, n: nat)
    requires n > 0
    ensures Up(t, c, n) == if ParentOf(t, c).Some? then Up(t, ParentOf(t, c).value, n - 1) else None
    ensures Up(t, c, n).Some? ==> c in t
  {
    if n > 1 {
      UpFirst(t, c, n - 1);
    } else {
      assert Up(t, c, 0) == Some(c);
    }
  }

  ghost predicate InGeneration(t: CategoryTable, root: CategoryKey, c: CategoryKey, n: nat) {
    root in t && c in t && Up(t, c, n) == Some(root)
  }

  lemma NextGeneration(t: CategoryTable, root: CategoryKey, c: CategoryKey, n: nat)
    requires n > 0
    ensures InGeneration(t, root, c, n) <==>
              c in t && ParentOf(t, c).Some? && InGeneration(t, root, ParentOf(t, c).value, n - 1)
  {
    hide Up;
    UpFirst(t, c, n);
    if ParentOf(t, c).Some? {
      var d := ParentOf(t, c).value;
      if n > 1 { UpFirst(t, d, n - 1); } else { UpZero(t, d); }
    }
  }

  lemma UpZero(t: CategoryTable, c: CategoryKey)
    ensures Up(t, c, 0) == Some(c)
  {
  }

  /** Round n holds, each once, the categories whose n-th ancestor is the root. */
  lemma {:induction false} WorkingIsGeneration(t: CategoryTable, rows: seq<CategoryKey>, root: CategoryKey, n: nat)
    requires Scan(rows, t)
    ensures Distinct(Working(t, rows, root, n))
    ensures forall c :: c in Working(t, rows, root, n) <==> InGeneration(t, root, c, n)
  {
    hide Up, Join, InGeneration, Distinct;
    if n == 0 {
      FirstRound(t, rows, root);
    } else {
      WorkingIsGeneration(t, rows, root, n - 1);
      JoinIs(t, rows, Working(t, rows, root, n - 1));
      forall c ensures c in Working(t, rows, root, n) <==> InGeneration(t, root, c, n) {
        NextGeneration(t, root, c, n);
      }
    }
  }

  lemma FirstRound(t: CategoryTable, rows: seq<CategoryKey>, root: CategoryKey)
    ensures Distinct(Working(t, rows, root, 0))
    ensures forall c :: c in Working(t, rows, root, 0) <==> InGeneration(t, root, c, 0)
  {
  }

  // ---------------------------------------------------------------- when the query ends

  /** Off a cycle, the ancestors up to the root are all different. */
  lemma PathIsDistinct(t: CategoryTable, c: CategoryKey, root: CategoryKey, n: nat, i: nat, j: nat)
    requires Up(t, c, n) == Some(root) && !OnCycle(t, root)
    requires i < j <= n
    ensures Up(t, c, i).Some? && Up(t, c, i) != Up(t, c, j)
  {
    hide Up, OnCycle;
    UpPrefix(t, c, i, n);
    UpPrefix(t, c, j, n);
    if Up(t, c, i) == Up(t, c, j) {
      var x := Up(t, c, i).value;
      UpSplit(t, c, j, n - j);
      UpSplit(t, c, i, n - j);
      UpSplit(t, c, i + (n - j), j - i);
      CycleFound(t, root, j - i);
    }
  }

  lemma CycleFound(t: CategoryTable, root: CategoryKey, m: nat)
    ensures m > 0 && Up(t, root, m) == Some(root) ==> OnCycle(t, root)
  {
  }

  lemma ShortPaths(t: CategoryTable, rows: seq<CategoryKey>, root: CategoryKey, c: CategoryKey, n: nat)
    requires Scan(rows, t) && !OnCycle(t, root) && root in t && c in t && Up(t, c, n) == Some(root)
    ensures n < |rows|
  {
    forall i | 0 <= i <= n ensures Up(t, c, i).Some? {
      UpPrefix(t, c, i, n);
    }
    var path := seq(n + 1, i requires 0 <= i <= n => Up(t, c, i).value);
    forall i, j | 0 <= i < j < |path| ensures path[i] != path[j] {
      PathIsDistinct(t, c, root, n, i, j);
    }
    forall i | 0 <= i <= n ensures path[i] in rows {
      if i < n {
        assert Up(t, c, i + 1) == ParentOf(t, path[i]);
      }
    }
    DistinctCount(path);
    DistinctCount(rows);
    assert forall x :: x in path ==> x in rows;
    SubsetSize(set x | x in path, set x | x in rows);
  }

  lemma {:induction false} EmptyStays(t: CategoryTable, rows: seq<CategoryKey>, root: CategoryKey, n: nat, m: nat)
    requires n <= m && Working(t, rows, root, n) == []
    ensures Working(t, rows, root, m) == []
    decreases m - n
  {
    if n < m {
      JoinEmpty(t, rows);
      EmptyStays(t, rows, root, n + 1, m);
    }
  }

  lemma {:induction false} JoinEmpty(t: CategoryTable, rows: seq<CategoryKey>)
    ensures Join(t, rows, []) == []
  {
    if rows != [] {
      JoinEmpty(t, rows[1..]);
    }
  }

  /** On a cycle the root keeps coming back. */
  lemma {:induction false} RootReturns(t: CategoryTable, root: CategoryKey, m: nat, n: nat) returns (later: nat)
    requires m > 0 && Up(t, root, m) == Some(root)
    ensures later >= n && Up(t, root, later) == Some(root)
  {
    if n == 0 {
      later := 0;
    } else {
      var before := RootReturns(t, root, m, n - 1);
      UpSplit(t, root, before, m);
      later := before + m;
    }
  }

  /** Some round finds nothing. */
  ghost predicate QueryEnds(t: CategoryTable, rows: seq<CategoryKey>, root: CategoryKey) {
    exists n: nat :: Working(t, rows, root, n) == []
  }

  /**
   The query ends exactly when the root is missing or is not its own ancestor, and then within as
   many rounds as there are categories. Otherwise no round is ever empty.
   */
  lemma {:induction false} QueryEndsIff(t: CategoryTable, rows: seq<CategoryKey>, root: CategoryKey)
    requires Scan(rows, t)
    ensures QueryEnds(t, rows, root) <==> root !in t || !OnCycle(t, root)
    ensures root !in t || !OnCycle(t, root) ==> Working(t, rows, root, |rows|) == []
  {
    hide Up, Working;
    if root !in t || !OnCycle(t, root) {
      WorkingIsGeneration(t, rows, root, |rows|);
      var last := Working(t, rows, root, |rows|);
      if last != [] {
        assert last[0] in last;
        ShortPaths(t, rows, root, last[0], |rows|);
      }
    } else {
      var m: nat :| m > 0 && Up(t, root, m) == Some(root);
      forall n: nat ensures Working(t, rows, root, n) != [] {
        var later := RootReturns(t, root, m, n);
        WorkingIsGeneration(t, rows, root, later);
        assert root in Working(t, rows, root, later);
        if Working(t, rows, root, n) == [] {
          EmptyStays(t, rows, root, n, later);
        }
      }
    }
  }

  // ---------------------------------------------------------------- what the query returns

  ghost predicate Descends(t: CategoryTable, root: CategoryKey, c: CategoryKey, n: nat) {
    exists k: nat :: k < n && InGeneration(t, root, c, k)
  }

  /** The reflexive-transitive closure of the parent relation below the root. */
  ghost predicate Below(t: CategoryTable, root: CategoryKey, c: CategoryKey) {
    exists k: nat :: InGeneration(t, root, c, k)
  }

  lemma {:induction false} ResultIs(t: CategoryTable, rows: seq<CategoryKey>, root: CategoryKey, n: nat)
    requires Scan(rows, t) && !OnCycle(t, root)
    ensures Distinct(Result(t, rows, root, n))
    ensures forall c :: c in Result(t, rows, root, n) <==> Descends(t, root, c, n)
  {
    hide Up, Working, OnCycle;
    if n > 0 {
      ResultIs(t, rows, root, n - 1);
      WorkingIsGeneration(t, rows, root, n - 1);
      var before, round := Result(t, rows, root, n - 1), Working(t, rows, root, n - 1);
      forall c | c in before ensures c !in round {
        var k: nat :| k < n - 1 && InGeneration(t, root, c, k);
        if c in round { PathIsDistinct(t, c, root, n - 1, k, n - 1); }
      }
      DistinctAppend(before, round);
      forall c ensures Descends(t, root, c, n) <==> Descends(t, root, c, n - 1) || InGeneration(t, root, c, n - 1) {
      }
    }
  }

  lemma DistinctAppend<T>(a: seq<T>, b: seq<T>)
    requires Distinct(a) && Distinct(b) && forall x :: x in a ==> x !in b
    ensures Distinct(a + b)
  {
    assert forall i :: 0 <= i < |a| ==> a[i] in a;
    assert forall i :: 0 <= i < |b| ==> b[i] in b;
  }

  /**
   When it ends, the query returns each category of the reflexive-transitive closure below the root
   exactly once, and nothing else; a missing root gives nothing.
   */
  lemma {:induction false} QueryIsClosure(t: CategoryTable, rows: seq<CategoryKey>, root: CategoryKey)
    requires Scan(rows, t) && (root !in t || !OnCycle(t, root))
    ensures var found := Result(t, rows, root, |rows|);
            Distinct(found) && forall c :: c in found <==> Below(t, root, c)
  {
    hide Up, Result, OnCycle, Scan;
    if root !in t {
      NothingFound(t, rows, root, |rows|);
    } else {
      ResultIs(t, rows, root, |rows|);
      forall c ensures Below(t, root, c) <==> Descends(t, root, c, |rows|) {
        if k: nat :| InGeneration(t, root, c, k) {
          ShortPaths(t, rows, root, c, k);
        }
      }
    }
  }

  lemma {:induction false} NothingFound(t: CategoryTable, rows: seq<CategoryKey>, root: CategoryKey, n: nat)
    requires root !in t
    ensures Working(t, rows, root, n) == [] && Result(t, rows, root, n) == []
  {
    if n > 0 {
      NothingFound(t, rows, root, n - 1);
      JoinEmpty(t, rows);
    }
  }

  /** A chain of parent links from c up to the root, all of it rows of the table. */
  ghost predicate Chain(t: CategoryTable, root: CategoryKey, c: CategoryKey, path: seq<CategoryKey>) {
    && path != [] && path[0] == c && path[|path| - 1] == root
    && (forall i :: 0 <= i < |path| ==> path[i] in t)
    && forall i :: 0 <= i < |path| - 1 ==> t[path[i]].parent == Some(path[i + 1])
  }

  lemma {:induction false} ChainUp(t: CategoryTable, root: CategoryKey, c: CategoryKey, path: seq<CategoryKey>, n: nat)
    requires Chain(t, root, c, path) && n < |path|
    ensures Up(t, c, n) == Some(path[n])
  {
    if n > 0 {
      ChainUp(t, root, c, path, n - 1);
      assert t[path[n - 1]].parent == Some(path[n - 1 + 1]);
    }
  }

  /** A category is below the root exactly when parent links lead from it to the root. */
  lemma BelowIsChain(t: CategoryTable, root: CategoryKey, c: CategoryKey)
    ensures Below(t, root, c) <==> exists path :: Chain(t, root, c, path)
  {
    if k: nat :| InGeneration(t, root, c, k) {
      forall i | 0 <= i <= k ensures Up(t, c, i).Some? {
        UpPrefix(t, c, i, k);
      }
      var path := seq(k + 1, i requires 0 <= i <= k => Up(t, c, i).value);
      forall i | 0 <= i < k ensures path[i] in t && t[path[i]].parent == Some(path[i + 1]) {
        assert Up(t, c, i + 1) == ParentOf(t, path[i]);
      }
      assert Chain(t, root, c, path);
    }
    if path :| Chain(t, root, c, path) {
      ChainUp(t, root, c, path, |path| - 1);
      assert InGeneration(t, root, c, |path| - 1);
    }
  }

  // ---------------------------------------------------------------- over runs of category ingests

  datatype Batch = Batch(supplier: nat, entries: seq<CategoryIngest>)

  function AfterRun(t: CategoryTable, run: seq<Batch>): CategoryTable {
    if run == [] then t else Ingested(AfterRun(t, Init(run)), Last(run).supplier, Last(run).entries)
  }

  lemma {:induction false} RankForbidsCycle(t: CategoryTable, rank: CategoryKey -> nat, c: CategoryKey, n: nat)
    requires Ranked(t, rank) && Up(t, c, n).Some?
    ensures rank(Up(t, c, n).value) + n <= rank(c)
  {
    if n > 0 {
      UpPrefix(t, c, n - 1, n);
      RankForbidsCycle(t, rank, c, n - 1);
    }
  }

  lemma {:induction false} RunKeepsRank(t: CategoryTable, run: seq<Batch>, rank: CategoryKey -> nat)
    requires Ranked(t, rank)
    requires forall i :: 0 <= i < |run| ==> BatchRanked(run[i].supplier, run[i].entries, rank)
    ensures Ranked(AfterRun(t, run), rank)
  {
    if run != [] {
      RunKeepsRank(t, Init(run), rank);
      IngestKeepsRank(AfterRun(t, Init(run)), Last(run).supplier, Last(run).entries, rank);
    }
  }

  /** Over any run of ingests whose links jointly admit a rank, every descendant query ends. */
  lemma QueriesEndOverRuns(
    t: CategoryTable, run: seq<Batch>, rank: CategoryKey -> nat, rows: seq<CategoryKey>, root: CategoryKey)
    requires Ranked(t, rank)
    requires forall i :: 0 <= i < |run| ==> BatchRanked(run[i].supplier, run[i].entries, rank)
    requires Scan(rows, AfterRun(t, run))
    ensures Working(AfterRun(t, run), rows, root, |rows|) == []
  {
    RunKeepsRank(t, run, rank);
    RankedEnds(AfterRun(t, run), rank, rows, root);
  }

  // ---------------------------------------------------------------- when all queries end

  /** Without cycles no chain of ancestors is longer than the table. */
  lemma ChainsAreShort(t: CategoryTable, c: CategoryKey, n: nat)
    requires Up(t, c, n).Some? && !OnCycle(t, Up(t, c, n).value)
    ensures n <= |t|
  {
    forall i | 0 <= i <= n ensures Up(t, c, i).Some? {
      UpPrefix(t, c, i, n);
    }
    var path := seq(n, i requires 0 <= i < n => Up(t, c, i).value);
    forall i, j | 0 <= i < j < n ensures path[i] != path[j] {
      PathIsDistinct(t, c, Up(t, c, n).value, n, i, j);
    }
    forall i | 0 <= i < n ensures path[i] in t {
      assert Up(t, c, i + 1) == ParentOf(t, path[i]);
    }
    DistinctCount(path);
    SubsetSize((set x | x in path), t.Keys);
  }

  /** The number of ancestors, counted up to n. */
  ghost function Ancestors(t: CategoryTable, c: CategoryKey, n: nat): (m: nat)
    ensures m <= n && Up(t, c, m).Some?
    ensures forall k: nat :: m < k <= n ==> Up(t, c, k).None?
  {
    if Up(t, c, n).Some? then n else Ancestors(t, c, n - 1)
  }

  /** A table without cycles is ranked by the number of ancestors. */
  lemma AncestorsRank(t: CategoryTable)
    requires forall root :: root in t ==> !OnCycle(t, root)
    ensures Ranked(t, c => Ancestors(t, c, |t|))
  {
    hide Up, OnCycle;
    forall k | k in t && t[k].parent.Some? ensures Ancestors(t, t[k].parent.value, |t|) < Ancestors(t, k, |t|) {
      var parent := t[k].parent.value;
      var m := Ancestors(t, parent, |t|);
      UpFirst(t, k, m + 1);
      var top := Up(t, k, m + 1).value;
      if OnCycle(t, top) { CyclesAreStored(t, top); }
      ChainsAreShort(t, k, m + 1);
    }
  }

  lemma CyclesAreStored(t: CategoryTable, root: CategoryKey)
    requires OnCycle(t, root)
    ensures root in t
  {
    hide Up;
    var m: nat :| m > 0 && Up(t, root, m) == Some(root);
    UpFirst(t, root, m);
  }

  /** The descendant queries of all categories end exactly when the parent links admit a rank. */
  lemma AllQueriesEndIff(t: CategoryTable, rows: seq<CategoryKey>)
    requires Scan(rows, t)
    ensures (forall root :: QueryEnds(t, rows, root)) <==> exists rank: CategoryKey -> nat :: Ranked(t, rank)
  {
    hide QueryEnds, OnCycle, Scan;
    if forall root :: QueryEnds(t, rows, root) {
      forall root | root in t ensures !OnCycle(t, root) {
        assert QueryEnds(t, rows, root);
        QueryEndsIff(t, rows, root);
      }
      AncestorsRank(t);
    }
    if rank: CategoryKey -> nat :| Ranked(t, rank) {
      forall root ensures QueryEnds(t, rows, root) {
        RankedEnds(t, rank, rows, root);
      }
    }
  }

  lemma RankedEnds(t: CategoryTable, rank: CategoryKey -> nat, rows: seq<CategoryKey>, root: CategoryKey)
    requires Scan(rows, t) && Ranked(t, rank)
    ensures QueryEnds(t, rows, root) && Working(t, rows, root, |rows|) == []
  {
    hide Working, Up;
    if OnCycle(t, root) {
      var m: nat :| m > 0 && Up(t, root, m) == Some(root);
      RankForbidsCycle(t, rank, root, m);
    }
    QueryEndsIff(t, rows, root);
  }

  /** A rank over the rows that an ingest is going to leave, read off the stored table and the batch. */
  ghost predicate RankedAfter(
    t: CategoryTable, supplier: nat, batch: seq<CategoryIngest>, rank: CategoryKey -> nat)
  {
    forall k :: RowAfter(t, supplier, batch, k).Some? && RowAfter(t, supplier, batch, k).value.parent.Some? ==>
      rank(RowAfter(t, supplier, batch, k).value.parent.value) < rank(k)
  }

  /** So an ingest leaves a table on which every query ends exactly when the rows it is going to leave admit a rank. */
  lemma IngestLeavesEndingIff(t: CategoryTable, supplier: nat, batch: seq<CategoryIngest>, rows: seq<CategoryKey>)
    requires Scan(rows, Ingested(t, supplier, batch))
    ensures (forall root :: QueryEnds(Ingested(t, supplier, batch), rows, root))
       <==> exists rank: CategoryKey -> nat :: RankedAfter(t, supplier, batch, rank)
  {
    hide Ingested, RowAfter, QueryEnds;
    var after := Ingested(t, supplier, batch);
    forall rank: CategoryKey -> nat ensures Ranked(after, rank) <==> RankedAfter(t, supplier, batch, rank) {
      forall k ensures (if k in after then Some(after[k]) else None) == RowAfter(t, supplier, batch, k) {
        IngestRow(t, supplier, batch, k);
      }
    }
    AllQueriesEndIff(after, rows);
  }

  /** Nothing in the ingest guards against cycles: two entries naming each other make the query run forever. */
  lemma CyclicBatchNeverEnds(t: CategoryTable, supplier: nat, rows: seq<CategoryKey>, n: nat)
    requires Scan(rows, Ingested(t, supplier, [CategoryIngest("a", "A", Some("b"), 0),
                                               CategoryIngest("b", "B", Some("a"), 0)]))
    ensures Working(Ingested(t, supplier, [CategoryIngest("a", "A", Some("b"), 0),
                                           CategoryIngest("b", "B", Some("a"), 0)]),
                    rows, CategoryKey(supplier, "a"), n) != []
  {
    hide Ingested, Working;
    var a, b := CategoryIngest("a", "A", Some("b"), 0), CategoryIngest("b", "B", Some("a"), 0);
    var batch := [a, b];
    var after := Ingested(t, supplier, batch);
    var ka, kb := CategoryKey(supplier, "a"), CategoryKey(supplier, "b");
    IngestRow(t, supplier, batch, ka);
    IngestRow(t, supplier, batch, kb);
    assert a in batch && b in batch;
    assert batch[0] == a && batch[1] == b;
    var known := t.Keys + set c | c in batch :: KeyOf(supplier, c);
    assert KeyOf(supplier, a) == ka && KeyOf(supplier, b) == kb;
    assert ka in known && kb in known;
    assert LinkOf(known, supplier, a) == Some(kb) && LinkOf(known, supplier, b) == Some(ka);
    assert LastLinked(known, batch, supplier, ka) == 0;
    assert LastLinked(known, batch, supplier, kb) == 1;
    assert ParentOf(after, ka) == Some(kb) && ParentOf(after, kb) == Some(ka);
    assert Up(after, ka, 0) == Some(ka);
    assert Up(after, ka, 1) == Some(kb);
    assert Up(after, ka, 2) == Some(ka);
    QueryEndsIff(after, rows, ka);
  }
}
