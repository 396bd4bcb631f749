/** Two-pass category ingest of backend/modules/catalog/ingest.py. */
module Categories {
  import opened Prelude
  import opened Schema
  import opened ProductIngestion

  type CategoryTable = map<CategoryKey, Category>

  function KeyOf(supplier: nat, c: CategoryIngest): CategoryKey {
    CategoryKey(supplier, c.externalId)
  }

  /** Pass one: every row, without its parent; an existing row keeps the one it has. */
  function Listed(t: CategoryTable, supplier: nat, batch: seq<CategoryIngest>): CategoryTable {
    if batch == [] then t
    else
      var c := Last(batch);
      var before := Listed(t, supplier, Init(batch));
      var k := KeyOf(supplier, c);
      before[k :=
        if k in before then before[k].(name := c.name, sortOrder := c.sortOrder)
        else Category(c.name, None, c.sortOrder)]
  }

  /** The parent an entry asks for, if it is in the table after pass one. */
  function LinkOf(known: set<CategoryKey>, supplier: nat, c: CategoryIngest): Option<CategoryKey> {
    match c.parentExternalId
    case None => None
    case Some(ext) =>
      if ext != "" && CategoryKey(supplier, ext) in known then Some(CategoryKey(supplier, ext)) else None
  }

  /** Pass two: the resolvable parents. */
  function Linked(t: CategoryTable, known: set<CategoryKey>, supplier: nat, batch: seq<CategoryIngest>): CategoryTable {
    if batch == [] then t
    else
      var c := Last(batch);
      var before := Linked(t, known, supplier, Init(batch));
      var k := KeyOf(supplier, c);
      if LinkOf(known, supplier, c).Some? && k in before
      then before[k := before[k].(parent := LinkOf(known, supplier, c))]
      else before
  }

  function Ingested(t: CategoryTable, supplier: nat, batch: seq<CategoryIngest>): CategoryTable {
    var listed := Listed(t, supplier, batch);
    Linked(listed, listed.Keys, supplier, batch)
  }

  method IngestCategories(db: Database, supplier: nat, batch: seq<CategoryIngest>) returns (r: IngestOutcome)
    modifies db`categories, db`jobs
    ensures r == match Refused(db.suppliers, supplier) case Some(refusal) => refusal case None => Completed(|batch|)
    ensures r.Completed? ==> db.categories == Ingested(old(db.categories), supplier, batch)
                             && db.jobs == old(db.jobs) + [SyncJob(supplier, "categories", "completed", |batch|)]
    ensures !r.Completed? ==> db.categories == old(db.categories) && db.jobs == old(db.jobs)
  {
    if supplier !in db.suppliers {
      return SupplierNotFound;
    }
    if !db.suppliers[supplier] {
      return SupplierInactive;
    }
    for i := 0 to |batch|
      invariant db.categories == Listed(old(db.categories), supplier, batch[..i]) && db.jobs == old(db.jobs)
    {
      var c := batch[i];
      assert Init(batch[..i + 1]) == batch[..i];
      var k := KeyOf(supplier, c);
      if k in db.categories {
        db.categories := db.categories[k := db.categories[k].(name := c.name, sortOrder := c.sortOrder)];
      } else {
        db.categories := db.categories[k := Category(c.name, None, c.sortOrder)];
      }
    }
    assert batch[..|batch|] == batch;
    ghost var listed := db.categories;
    var known := db.categories.Keys;
    for i := 0 to |batch|
      invariant db.categories == Linked(listed, known, supplier, batch[..i]) && db.jobs == old(db.jobs)
    {
      var c := batch[i];
      assert Init(batch[..i + 1]) == batch[..i];
      var parent := LinkOf(known, supplier, c);
      var k := KeyOf(supplier, c);
      if parent.Some? && k in db.categories {
        db.categories := db.categories[k := db.categories[k].(parent := parent)];
      }
    }
    db.jobs := db.jobs + [SyncJob(supplier, "categories", "completed", |batch|)];
    r := Completed(|batch|);
  }

  // ---------------------------------------------------------------- the order-free reading

  /** The entry names a parent that is known. */
  predicate NamesParent(known: set<CategoryKey>, supplier: nat, c: CategoryIngest) {
    && c.parentExternalId.Some? && c.parentExternalId.value != ""
    && CategoryKey(supplier, c.parentExternalId.value) in known
  }

  function LastEntry(batch: seq<CategoryIngest>, supplier: nat, k: CategoryKey): int {
    LastWhere(batch, (x: CategoryIngest) => CategoryKey(supplier, x.externalId) == k)
  }

  function LastLinked(known: set<CategoryKey>, batch: seq<CategoryIngest>, supplier: nat, k: CategoryKey): int {
    LastWhere(batch, (x: CategoryIngest) => CategoryKey(supplier, x.externalId) == k && NamesParent(known, supplier, x))
  }

  ghost function BatchKeys(supplier: nat, batch: seq<CategoryIngest>): set<CategoryKey> {
    set c | c in batch :: KeyOf(supplier, c)
  }

  lemma {:induction false} ListedAt(t: CategoryTable, supplier: nat, batch: seq<CategoryIngest>, k: CategoryKey)
    ensures var i := LastEntry(batch, supplier, k);
            var after := Listed(t, supplier, batch);
            && (k in after <==> k in t || i >= 0)
            && (k in after ==>
                  && after[k].parent == (if k in t then t[k].parent else None)
                  && (i >= 0 ==> after[k].name == batch[i].name && after[k].sortOrder == batch[i].sortOrder)
                  && (i < 0 ==> after[k] == t[k]))
  {
    if batch != [] {
      ListedAt(t, supplier, Init(batch), k);
    }
  }

  lemma {:induction false} LinkedAt(
    t: CategoryTable, known: set<CategoryKey>, supplier: nat, batch: seq<CategoryIngest>, k: CategoryKey)
    ensures var j := LastLinked(known, batch, supplier, k);
            var after := Linked(t, known, supplier, batch);
            && (k in after <==> k in t)
            && (k in t ==>
                  after[k]
                  == if j >= 0 then t[k].(parent := Some(CategoryKey(supplier, batch[j].parentExternalId.value)))
                     else t[k])
  {
    if batch != [] {
      LinkedAt(t, known, supplier, Init(batch), k);
    }
  }

  lemma KnownKeys(t: CategoryTable, supplier: nat, batch: seq<CategoryIngest>)
    ensures Listed(t, supplier, batch).Keys == t.Keys + BatchKeys(supplier, batch)
  {
    forall k ensures k in Listed(t, supplier, batch) <==> k in t.Keys + BatchKeys(supplier, batch) {
      ListedAt(t, supplier, batch, k);
      if k in BatchKeys(supplier, batch) {
        var c :| c in batch && KeyOf(supplier, c) == k;
        var i :| 0 <= i < |batch| && batch[i] == c;
        assert LastEntry(batch, supplier, k) >= i;
      }
    }
  }

  /** The row of one category after an ingest: its last entry, and its last entry with a resolvable parent. */
  function RowAfter(t: CategoryTable, supplier: nat, batch: seq<CategoryIngest>, k: CategoryKey): Option<Category> {
    var known := t.Keys + set c | c in batch :: CategoryKey(supplier, c.externalId);
    var i, j := LastEntry(batch, supplier, k), LastLinked(known, batch, supplier, k);
    var parent := if j >= 0 then Some(CategoryKey(supplier, batch[j].parentExternalId.value))
                  else if k in t then t[k].parent else None;
    if i >= 0 then Some(Category(batch[i].name, parent, batch[i].sortOrder))
    else if k in t then Some(t[k])
    else None
  }

  /** The two passes leave each row as the order-free reading says; a child before its parent is linked all the same. */
  lemma IngestRow(t: CategoryTable, supplier: nat, batch: seq<CategoryIngest>, k: CategoryKey)
    ensures var after := Ingested(t, supplier, batch);
            (if k in after then Some(after[k]) else None) == RowAfter(t, supplier, batch, k)
  {
    hide Listed, Linked, LinkOf;
    var listed := Listed(t, supplier, batch);
    KnownKeys(t, supplier, batch);
    ListedAt(t, supplier, batch, k);
    LinkedAt(listed, listed.Keys, supplier, batch, k);
    assert listed.Keys == t.Keys + set c | c in batch :: KeyOf(supplier, c);
  }

  /** An ingest adds the categories of the batch and removes none. */
  lemma IngestedKeys(t: CategoryTable, supplier: nat, batch: seq<CategoryIngest>)
    ensures Ingested(t, supplier, batch).Keys == t.Keys + BatchKeys(supplier, batch)
  {
    hide Ingested, LinkOf;
    forall k ensures k in Ingested(t, supplier, batch) <==> k in t.Keys + BatchKeys(supplier, batch) {
      IngestRow(t, supplier, batch, k);
      if k in BatchKeys(supplier, batch) {
        var c :| c in batch && KeyOf(supplier, c) == k;
        var i :| 0 <= i < |batch| && batch[i] == c;
        assert LastEntry(batch, supplier, k) >= i;
      }
    }
  }

  lemma SameRows(a: CategoryTable, b: CategoryTable)
    requires forall k :: (k in a <==> k in b) && (k in a ==> a[k] == b[k])
    ensures a == b
  {
  }

  ghost predicate DistinctIds(batch: seq<CategoryIngest>) {
    forall i, j :: 0 <= i < j < |batch| ==> batch[i].externalId != batch[j].externalId
  }

  /** Every order of a batch with distinct external ids leaves the same table. */
  lemma {:induction false} IngestOrderIrrelevant(
    t: CategoryTable, supplier: nat, a: seq<CategoryIngest>, b: seq<CategoryIngest>)
    requires DistinctIds(a) && DistinctIds(b) && (forall c :: c in a <==> c in b)
    ensures Ingested(t, supplier, a) == Ingested(t, supplier, b)
  {
    hide Ingested, LinkOf, DistinctIds;
    forall k ensures RowAfter(t, supplier, a, k) == RowAfter(t, supplier, b, k) {
      SameRowAfter(t, supplier, a, b, k);
    }
    hide RowAfter;
    forall k
      ensures (k in Ingested(t, supplier, a) <==> k in Ingested(t, supplier, b))
              && (k in Ingested(t, supplier, a) ==> Ingested(t, supplier, a)[k] == Ingested(t, supplier, b)[k])
    {
      IngestRow(t, supplier, a, k);
      IngestRow(t, supplier, b, k);
    }
    SameRows(Ingested(t, supplier, a), Ingested(t, supplier, b));
  }

  lemma SameRowAfter(t: CategoryTable, supplier: nat, a: seq<CategoryIngest>, b: seq<CategoryIngest>, k: CategoryKey)
    requires DistinctIds(a) && DistinctIds(b) && (forall c :: c in a <==> c in b)
    ensures RowAfter(t, supplier, a, k) == RowAfter(t, supplier, b, k)
  {
    hide LastEntry, LastLinked, DistinctIds;
    var ka := set c | c in a :: CategoryKey(supplier, c.externalId);
    var kb := set c | c in b :: CategoryKey(supplier, c.externalId);
    assert ka == kb;
    SameLast(a, b, supplier, t.Keys + ka, k);
    SameLast(b, a, supplier, t.Keys + ka, k);
  }

  lemma SameLast(a: seq<CategoryIngest>, b: seq<CategoryIngest>, supplier: nat, known: set<CategoryKey>, k: CategoryKey)
    requires DistinctIds(b) && forall c :: c in a ==> c in b
    ensures var i, i' := LastEntry(a, supplier, k), LastEntry(b, supplier, k);
            i < |a| && i' < |b| && (i >= 0 ==> i' >= 0 && a[i] == b[i'])
    ensures var j, j' := LastLinked(known, a, supplier, k), LastLinked(known, b, supplier, k);
            j < |a| && j' < |b| && (j >= 0 ==> j' >= 0 && a[j] == b[j'])
  {
    hide LinkOf;
    var i, j := LastEntry(a, supplier, k), LastLinked(known, a, supplier, k);
    if i >= 0 { assert a[i] in b; }
    if j >= 0 { assert a[j] in b; }
  }

  /** Ingesting the same batch again changes nothing. */
  lemma IngestIdempotent(t: CategoryTable, supplier: nat, batch: seq<CategoryIngest>)
    ensures Ingested(Ingested(t, supplier, batch), supplier, batch) == Ingested(t, supplier, batch)
  {
    hide Ingested, LinkOf, LastWhere;
    var once := Ingested(t, supplier, batch);
    IngestedKeys(t, supplier, batch);
    assert once.Keys + BatchKeys(supplier, batch) == t.Keys + BatchKeys(supplier, batch);
    forall k
      ensures (k in Ingested(once, supplier, batch) <==> k in once)
              && (k in once ==> Ingested(once, supplier, batch)[k] == once[k])
    {
      IngestRow(t, supplier, batch, k);
      IngestRow(once, supplier, batch, k);
    }
    SameRows(Ingested(once, supplier, batch), once);
  }

  // ---------------------------------------------------------------- links that climb

  /** A rank that grows from parent to child over the stored links. */
  ghost predicate Ranked(t: CategoryTable, rank: CategoryKey -> nat) {
    forall k :: k in t && t[k].parent.Some? ==> rank(t[k].parent.value) < rank(k)
  }

  ghost predicate BatchRanked(supplier: nat, batch: seq<CategoryIngest>, rank: CategoryKey -> nat) {
    forall i :: 0 <= i < |batch| && batch[i].parentExternalId.Some? ==>
      rank(CategoryKey(supplier, batch[i].parentExternalId.value)) < rank(KeyOf(supplier, batch[i]))
  }

  /** If stored and batch links together admit a rank, so do the links after the ingest. */
  lemma IngestKeepsRank(t: CategoryTable, supplier: nat, batch: seq<CategoryIngest>, rank: CategoryKey -> nat)
    requires Ranked(t, rank) && BatchRanked(supplier, batch, rank)
    ensures Ranked(Ingested(t, supplier, batch), rank)
  {
    hide Ingested;
    var after := Ingested(t, supplier, batch);
    forall k | k in after && after[k].parent.Some? ensures rank(after[k].parent.value) < rank(k) {
      IngestRow(t, supplier, batch, k);
    }
  }

  /** Links never dangle: every parent is a row of the table. */
  ghost predicate Closed(t: CategoryTable) {
    forall k :: k in t && t[k].parent.Some? ==> t[k].parent.value in t
  }

  lemma IngestKeepsClosed(t: CategoryTable, supplier: nat, batch: seq<CategoryIngest>)
    requires Closed(t)
    ensures Closed(Ingested(t, supplier, batch))
  {
    hide Ingested;
    var after := Ingested(t, supplier, batch);
    forall k | k in after && after[k].parent.Some? ensures after[k].parent.value in after {
      IngestRow(t, supplier, batch, k);
      IngestedKeys(t, supplier, batch);
    }
  }
}
