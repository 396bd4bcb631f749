/** The product and pricing endpoints of backend/modules/catalog/ingest.py. */
module ProductIngestion {
  import opened Prelude
  import opened Schema
  import opened OptionUpsert
  import opened Persistence
  import opened PersistenceLaws
  import opened PersistenceFixpoint

  datatype IngestOutcome =
    | SupplierNotFound
    | SupplierInactive
    | RolledBack
    | Completed(recordsProcessed: nat)

  function Refused(suppliers: map<nat, bool>, supplier: nat): Option<IngestOutcome> {
    if supplier !in suppliers then Some(SupplierNotFound)
    else if !suppliers[supplier] then Some(SupplierInactive)
    else None
  }

  // ---------------------------------------------------------------- products

  function CategoryOf(categories: map<CategoryKey, Category>, supplier: nat, item: ProductIngest): Option<CategoryKey> {
    match item.categoryExternalId
    case None => None
    case Some(ext) =>
      if ext != "" && CategoryKey(supplier, ext) in categories then Some(CategoryKey(supplier, ext)) else None
  }

  function Entries(
    categories: map<CategoryKey, Category>, supplier: nat, batch: seq<ProductIngest>, clock: seq<int>): (r: seq<Entry>)
    requires |clock| == |batch|
    ensures |r| == |batch|
  {
    seq(|batch|, i requires 0 <= i < |batch| => Entry(batch[i], CategoryOf(categories, supplier, batch[i]), clock[i]))
  }

  function LastItem(batch: seq<ProductIngest>, sku: string): int {
    LastWhere(batch, (x: ProductIngest) => x.supplierSku == sku)
  }

  lemma {:induction false} LastEntryIs(
    categories: map<CategoryKey, Category>, supplier: nat, batch: seq<ProductIngest>, clock: seq<int>, sku: string)
    requires |clock| == |batch|
    ensures LastProduct(Entries(categories, supplier, batch, clock), supplier, ProductKey(supplier, sku), AnyEntry)
         == LastItem(batch, sku)
    decreases |batch|
  {
    hide CategoryOf;
    var entries := Entries(categories, supplier, batch, clock);
    if batch != [] {
      assert Init(entries) == Entries(categories, supplier, Init(batch), Init(clock));
      LastEntryIs(categories, supplier, Init(batch), Init(clock), sku);
    }
  }

  /**
   After an ingest a product has the columns of its last item and the clock reading of its turn; it is linked to the
   category its item names, if the supplier has one with that external id, and to none otherwise.
   */
  lemma ProductAfterIngest(
    t: Tables, categories: map<CategoryKey, Category>, supplier: nat, batch: seq<ProductIngest>, clock: seq<int>,
    sku: string)
    requires |clock| == |batch| && LastItem(batch, sku) >= 0
    ensures var after := BatchAfter(t, supplier, Entries(categories, supplier, batch, clock)).products;
            var q, i := ProductKey(supplier, sku), LastItem(batch, sku);
            var item := batch[i];
            && q in after
            && after[q].name == item.productName && after[q].brand == item.brand
            && after[q].category == item.categoryName && after[q].description == item.description
            && after[q].productType == item.productType && after[q].imageUrl == item.imageUrl
            && after[q].opsProductId == item.opsProductId && after[q].externalCatalogue == item.externalCatalogue
            && after[q].lastSynced == Some(clock[i])
            && (forall ext :: after[q].categoryId == Some(CategoryKey(supplier, ext)) <==>
                  item.categoryExternalId == Some(ext) && ext != "" && CategoryKey(supplier, ext) in categories)
            && (after[q].categoryId.Some? ==> after[q].categoryId.value.supplier == supplier)
  {
    hide BatchAfter, LastWhere;
    var entries := Entries(categories, supplier, batch, clock);
    LastEntryIs(categories, supplier, batch, clock, sku);
    ProductLookup(t, supplier, entries, ProductKey(supplier, sku));
  }

  lemma BatchStep(t: Tables, supplier: nat, batch: seq<Entry>)
    ensures batch == [] ==> BatchAfter(t, supplier, batch) == t
    ensures batch != [] ==> BatchAfter(t, supplier, batch)
                            == Persisted(BatchAfter(t, supplier, Init(batch)), supplier, Last(batch).item,
                                         Last(batch).categoryId, Last(batch).now)
  {
    hide Persisted;
  }

  /** All of the batch or nothing: one product that cannot be stored rolls the whole request back. */
  method IngestProducts(
    db: Database, supplier: nat, batch: seq<ProductIngest>, clock: seq<int>)
    returns (r: IngestOutcome)
    requires |clock| == |batch|
    modifies db
    ensures unchanged(db`categories) && unchanged(db`suppliers)
    ensures r == match Refused(db.suppliers, supplier)
                 case Some(refusal) => refusal
                 case None =>
                   if forall i :: 0 <= i < |batch| ==> Storable(batch[i]) then Completed(|batch|) else RolledBack
    ensures r.Completed? ==>
              db.Catalog() == BatchAfter(old(db.Catalog()), supplier, Entries(db.categories, supplier, batch, clock))
                             && db.jobs == old(db.jobs) + [SyncJob(supplier, "products", "completed", |batch|)]
    ensures !r.Completed? ==> db.Catalog() == old(db.Catalog()) && db.jobs == old(db.jobs)
  {
    hide Storable, Persisted, CategoryOf, BatchAfter;
    if supplier !in db.suppliers {
      return SupplierNotFound;
    }
    if !db.suppliers[supplier] {
      return SupplierInactive;
    }
    ghost var entries := Entries(db.categories, supplier, batch, clock);
    var saved := db.Catalog();
    BatchStep(saved, supplier, []);
    for i := 0 to |batch|
      invariant unchanged(db`categories) && unchanged(db`suppliers) && unchanged(db`jobs)
      invariant forall j :: 0 <= j < i ==> Storable(batch[j])
      invariant db.Catalog() == BatchAfter(saved, supplier, entries[..i])
    {
      assert Init(entries[..i + 1]) == entries[..i];
      BatchStep(saved, supplier, entries[..i + 1]);
      var ok := PersistProduct(db, supplier, batch[i], CategoryOf(db.categories, supplier, batch[i]), clock[i]);
      if !ok {
        db.Rollback(saved);
        return RolledBack;
      }
    }
    assert entries[..|batch|] == entries;
    db.jobs := db.jobs + [SyncJob(supplier, "products", "completed", |batch|)];
    r := Completed(|batch|);
  }

  // ---------------------------------------------------------------- pricing

  datatype PriceTables = PriceTables(variants: map<VariantKey, Variant>, prices: map<PriceKey, Price>)

  function Target(supplier: nat, item: PriceIngest): VariantKey {
    BySku(ProductKey(supplier, item.supplierSku), item.partId)
  }

  /** The item names a product loaded for this supplier and one of its variants. */
  predicate Matches(products: set<ProductKey>, variants: map<VariantKey, Variant>, supplier: nat, item: PriceIngest) {
    Target(supplier, item).product in products && Target(supplier, item) in variants
  }

  function Repriced(t: PriceTables, products: set<ProductKey>, supplier: nat, item: PriceIngest): PriceTables {
    var k := Target(supplier, item);
    if !Matches(products, t.variants, supplier, item) then t
    else PriceTables(
      t.variants[k := t.variants[k].(basePrice := Some(item.basePrice))],
      if item.tiers == [] then t.prices else TiersInto(WithoutPrices(t.prices, k), k, item.tiers))
  }

  function AllRepriced(t: PriceTables, products: set<ProductKey>, supplier: nat, batch: seq<PriceIngest>): PriceTables {
    if batch == [] then t
    else Repriced(AllRepriced(t, products, supplier, Init(batch)), products, supplier, Last(batch))
  }

  predicate DistinctTiers(tiers: seq<TierIngest>) {
    forall i, j :: 0 <= i < j < |tiers| ==>
      tiers[i].priceType != tiers[j].priceType || tiers[i].quantityMin != tiers[j].quantityMin
  }

  /** Plain inserts: a repeated price type and minimum quantity on a matched variant aborts the request. */
  predicate Insertable(
    products: set<ProductKey>, variants: map<VariantKey, Variant>, supplier: nat, item: PriceIngest)
  {
    Matches(products, variants, supplier, item) ==> DistinctTiers(item.tiers)
  }

  lemma {:induction false} TiersHave(prices: map<PriceKey, Price>, k: VariantKey, tiers: seq<TierIngest>, q: PriceKey)
    ensures q in TiersInto(prices, k, tiers) <==>
              q in prices || exists j :: 0 <= j < |tiers| && TierKey(k, tiers[j]) == q
  {
    if tiers != [] {
      TiersHave(prices, k, Init(tiers), q);
      assert forall j :: 0 <= j < |tiers| - 1 ==> tiers[j] == Init(tiers)[j];
    }
  }

  method InsertTiers(db: Database, k: VariantKey, tiers: seq<TierIngest>) returns (ok: bool)
    modifies db`prices
    ensures ok <==> DistinctTiers(tiers)
    ensures ok ==> db.prices == TiersInto(WithoutPrices(old(db.prices), k), k, tiers)
  {
    db.prices := WithoutPrices(db.prices, k);
    ghost var cleared := db.prices;
    for i := 0 to |tiers|
      invariant DistinctTiers(tiers[..i])
      invariant db.prices == TiersInto(cleared, k, tiers[..i])
    {
      var q := TierKey(k, tiers[i]);
      assert Init(tiers[..i + 1]) == tiers[..i];
      TiersHave(cleared, k, tiers[..i], q);
      if q in db.prices {
        var j :| 0 <= j < i && TierKey(k, tiers[j]) == q;
        return false;
      }
      db.prices := db.prices[q := Price(tiers[i].quantityMax, tiers[i].price)];
    }
    assert tiers[..|tiers|] == tiers;
    ok := true;
  }

  lemma {:induction false} RepricingKeepsKeys(
    t: PriceTables, products: set<ProductKey>, supplier: nat, batch: seq<PriceIngest>)
    ensures AllRepriced(t, products, supplier, batch).variants.Keys == t.variants.Keys
  {
    if batch != [] {
      RepricingKeepsKeys(t, products, supplier, Init(batch));
    }
  }

  method IngestPricing(db: Database, supplier: nat, batch: seq<PriceIngest>) returns (r: IngestOutcome)
    modifies db
    ensures r == match Refused(old(db.suppliers), supplier)
                 case Some(refusal) => refusal
                 case None =>
                   if forall i :: 0 <= i < |batch| ==>
                     Insertable(old(db.products).Keys, old(db.variants), supplier, batch[i])
                   then Completed(|batch|) else RolledBack
    ensures r.Completed? ==>
              && PriceTables(db.variants, db.prices)
                 == AllRepriced(PriceTables(old(db.variants), old(db.prices)), old(db.products).Keys, supplier, batch)
              && db.Catalog() == old(db.Catalog()).(variants := db.variants, prices := db.prices)
              && db.jobs == old(db.jobs) + [SyncJob(supplier, "pricing", "completed", |batch|)]
    ensures !r.Completed? ==> db.Catalog() == old(db.Catalog()) && db.jobs == old(db.jobs)
  {
    hide DistinctTiers, TiersInto, WithoutPrices;
    if supplier !in db.suppliers {
      return SupplierNotFound;
    }
    if !db.suppliers[supplier] {
      return SupplierInactive;
    }
    var saved := db.Catalog();
    ghost var start := PriceTables(db.variants, db.prices);
    var products := db.products.Keys;
    for i := 0 to |batch|
      invariant forall j :: 0 <= j < i ==> Insertable(products, start.variants, supplier, batch[j])
      invariant PriceTables(db.variants, db.prices) == AllRepriced(start, products, supplier, batch[..i])
      invariant db.Catalog() == saved.(variants := db.variants, prices := db.prices)
      invariant unchanged(db`jobs) && unchanged(db`suppliers)
    {
      var item := batch[i];
      assert Init(batch[..i + 1]) == batch[..i];
      RepricingKeepsKeys(start, products, supplier, batch[..i]);
      var k := Target(supplier, item);
      if k.product !in products || k !in db.variants {
        continue;
      }
      db.variants := db.variants[k := db.variants[k].(basePrice := Some(item.basePrice))];
      if item.tiers != [] {
        var ok := InsertTiers(db, k, item.tiers);
        if !ok {
          db.Rollback(saved);
          return RolledBack;
        }
      } else {
        assert DistinctTiers(item.tiers) by { NoTiers(); }
      }
    }
    assert batch[..|batch|] == batch;
    db.jobs := db.jobs + [SyncJob(supplier, "pricing", "completed", |batch|)];
    r := Completed(|batch|);
  }

  lemma NoTiers()
    ensures DistinctTiers([])
  {
  }

  function LastFor(batch: seq<PriceIngest>, supplier: nat, k: VariantKey): int {
    LastWhere(batch, (x: PriceIngest) => k == BySku(ProductKey(supplier, x.supplierSku), x.partId))
  }

  function LastTieredFor(batch: seq<PriceIngest>, supplier: nat, k: VariantKey): int {
    LastWhere(batch, (x: PriceIngest) => k == BySku(ProductKey(supplier, x.supplierSku), x.partId) && x.tiers != [])
  }

  lemma Cleared(prices: map<PriceKey, Price>, k: VariantKey, q: PriceKey)
    ensures Lookup(WithoutPrices(prices, k), q) == if q.variant == k then None else Lookup(prices, q)
  {
  }

  /**
   The item-by-item loop is one bulk merge: a matched variant ends with the base price of its last item
   and the tiers of its last item that has any; every other variant, of any supplier, is as it was.
   */
  lemma {:induction false} PricingIsBulkMerge(
    t: PriceTables, products: set<ProductKey>, supplier: nat, batch: seq<PriceIngest>, k: VariantKey)
    ensures var after := AllRepriced(t, products, supplier, batch);
            var matched := k.product in products && k in t.variants;
            var i, j := LastFor(batch, supplier, k), LastTieredFor(batch, supplier, k);
            && after.variants.Keys == t.variants.Keys
            && (k in t.variants ==>
                  after.variants[k]
                  == if matched && i >= 0 then t.variants[k].(basePrice := Some(batch[i].basePrice)) else t.variants[k])
            && forall q: PriceKey :: q.variant == k ==>
                 Lookup(after.prices, q)
                 == if matched && j >= 0 then TierAt(batch[j].tiers, k, q) else Lookup(t.prices, q)
  {
    hide TiersInto, WithoutPrices;
    if batch != [] {
      PricingIsBulkMerge(t, products, supplier, Init(batch), k);
      var before := AllRepriced(t, products, supplier, Init(batch));
      var item := Last(batch);
      var target := Target(supplier, item);
      forall q: PriceKey | q.variant == k
        ensures Lookup(Repriced(before, products, supplier, item).prices, q)
                == if Matches(products, t.variants, supplier, item) && target == k && item.tiers != []
                   then TierAt(item.tiers, k, q) else Lookup(before.prices, q)
      {
        Cleared(before.prices, target, q);
        TierLookup(WithoutPrices(before.prices, target), target, item.tiers, q);
      }
    }
  }
}
