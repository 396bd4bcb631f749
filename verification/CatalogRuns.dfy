/** What every catalog operation keeps, over runs that mix them all. */
module CatalogRuns {
  import opened Prelude
  import opened Schema
  import opened OptionUpsert
  import opened Persistence
  import opened PersistenceLaws
  import opened PersistenceFixpoint
  import opened Normalize
  import Ingestion = ProductIngestion
  import Collapse = OptionCollapse
  import Bulk = BulkSave
  import Tree = Categories

  /** All the tables the catalog operations write, and the suppliers they belong to. */
  datatype Store = Store(suppliers: set<nat>, categories: map<CategoryKey, Category>, catalog: Tables)

  /** Every foreign key points to a row, and the serials of sku-less variants are used up in order. */
  ghost predicate Consistent(s: Store) {
    && s.catalog.Consistent()
    && s.catalog.CategoriesIn(s.categories.Keys)
    && Tree.Closed(s.categories)
    && (forall p :: p in s.catalog.products ==> p.supplier in s.suppliers)
    && (forall c :: c in s.categories ==> c.supplier in s.suppliers)
  }

  /** One committed operation; an ingest of products resolves their categories against the table it finds. */
  datatype Operation =
    | IngestCategories(supplier: nat, categories: seq<CategoryIngest>)
    | IngestProducts(supplier: nat, batch: seq<ProductIngest>, clock: seq<int>)
    | IngestPricing(supplier: nat, items: seq<PriceIngest>)
    | DeriveOptions(product: ProductKey, scan: seq<VariantKey>)
    | BulkSaveOptions(product: ProductKey, body: seq<OptionIngest>)

  ghost predicate Enabled(s: Store, op: Operation) {
    match op
    case IngestCategories(supplier, _) => supplier in s.suppliers
    case IngestProducts(supplier, batch, clock) => supplier in s.suppliers && |clock| == |batch|
    case IngestPricing(supplier, _) => supplier in s.suppliers
    case DeriveOptions(p, scan) => Collapse.VariantScan(scan, s.catalog.variants, p)
    case BulkSaveOptions(_, _) => true
  }

  function WithOptions(t: Tables, u: OptionTables): Tables {
    t.(options := u.options, attributes := u.attributes)
  }

  ghost function Apply(s: Store, op: Operation): Store
    requires Enabled(s, op)
  {
    var t := s.catalog;
    match op
    case IngestCategories(supplier, batch) => s.(categories := Tree.Ingested(s.categories, supplier, batch))
    case IngestProducts(supplier, batch, clock) =>
      s.(catalog := BatchAfter(t, supplier, Ingestion.Entries(s.categories, supplier, batch, clock)))
    case IngestPricing(supplier, items) =>
      var u := Ingestion.AllRepriced(Ingestion.PriceTables(t.variants, t.prices), t.products.Keys, supplier, items);
      s.(catalog := t.(variants := u.variants, prices := u.prices))
    case DeriveOptions(p, scan) =>
      s.(catalog := WithOptions(t, Collapse.DerivedBy(OptionsOf(t), t.variants, p, scan)))
    case BulkSaveOptions(p, body) =>
      var saving := Bulk.Saving(t.products.Keys, Bulk.ExistingKeys(OptionsOf(t), p), OptionsOf(t), p, body);
      s.(catalog := WithOptions(t, saving.tables))
  }

  lemma {:induction false} BatchKeepsConsistency(
    t: Tables, supplier: nat, batch: seq<Entry>, known: set<CategoryKey>)
    requires t.Consistent() && t.CategoriesIn(known)
    requires forall i :: 0 <= i < |batch| && batch[i].categoryId.Some? ==> batch[i].categoryId.value in known
    ensures var u := BatchAfter(t, supplier, batch);
            && u.Consistent() && u.CategoriesIn(known)
            && forall p :: p in u.products ==> p in t.products || p.supplier == supplier
  {
    hide Persisted;
    if batch != [] {
      BatchKeepsConsistency(t, supplier, Init(batch), known);
      var e := Last(batch);
      PersistKeepsConsistency(BatchAfter(t, supplier, Init(batch)), supplier, e.item, e.categoryId, e.now, known);
    }
  }

  lemma {:induction false} PricesOnVariants(
    t: Ingestion.PriceTables, products: set<ProductKey>, supplier: nat, items: seq<PriceIngest>)
    requires forall q :: q in t.prices ==> q.variant in t.variants
    ensures var u := Ingestion.AllRepriced(t, products, supplier, items);
            u.variants.Keys == t.variants.Keys && forall q :: q in u.prices ==> q.variant in u.variants
  {
    if items != [] {
      PricesOnVariants(t, products, supplier, Init(items));
      var before := Ingestion.AllRepriced(t, products, supplier, Init(items));
      var k := Ingestion.Target(supplier, Last(items));
      TierVariants(WithoutPrices(before.prices, k), k, Last(items).tiers);
    }
  }

  ghost predicate OptionsConsistent(u: OptionTables, products: set<ProductKey>) {
    && (forall k :: k in u.options ==> k.product in products)
    && (forall a :: a in u.attributes ==> a.option in u.options)
  }

  lemma {:induction false} BulkKeepsOptions(
    products: set<ProductKey>, existing: set<string>, u: OptionTables, p: ProductKey, body: seq<OptionIngest>)
    requires OptionsConsistent(u, products)
    requires forall key :: key in existing ==> OptionKey(p, key) in u.options
    ensures OptionsConsistent(Bulk.Saving(products, existing, u, p, body).tables, products)
  {
    hide Bulk.SavedAttributes, Bulk.SavedRow, Bulk.NewTitlesOnce;
    if body != [] {
      BulkKeepsOptions(products, existing, u, p, Init(body));
      var before := Bulk.Saving(products, existing, u, p, Init(body)).tables;
      var o := Last(body);
      var k := OptionKey(p, o.optionKey);
      forall a | a in Bulk.SavedAttributes(before.attributes, k, Bulk.ListOf(o.attributes))
        ensures a in before.attributes || a.option == k
      {
        Bulk.SavedHas(before.attributes, k, Bulk.ListOf(o.attributes), a);
      }
      if o.optionKey in existing { assert OptionKey(p, o.optionKey) in u.options; }
    }
  }

  lemma KeysExist(u: OptionTables, p: ProductKey)
    ensures forall key :: key in Bulk.ExistingKeys(u, p) ==> OptionKey(p, key) in u.options
  {
  }

  lemma DeriveKeepsOptions(
    u: OptionTables, products: set<ProductKey>, p: ProductKey, colors: seq<string>, sizes: seq<string>)
    requires OptionsConsistent(u, products) && (p in products || (colors == [] && sizes == []))
    ensures OptionsConsistent(Collapse.Derived(u, p, colors, sizes), products)
  {
    hide Upserted, Collapse.Payload;
    if colors == [] && sizes == [] {
      NoPayload(u, p);
    } else {
      OptionParents(u, p, Collapse.Payload(colors, sizes));
    }
  }

  lemma NoPayload(u: OptionTables, p: ProductKey)
    ensures Upserted(u, p, Collapse.Payload([], [])) == u
  {
  }

  /** A product without variants yields no titles. */
  lemma TitlesNeedVariants(variants: map<VariantKey, Variant>, p: ProductKey, scan: seq<VariantKey>)
    requires Collapse.VariantScan(scan, variants, p)
    ensures (forall k :: k in variants ==> k.product != p) ==>
              Collapse.Colors(variants, scan) == [] && Collapse.Sizes(variants, scan) == []
  {
    if scan != [] {
      assert scan[0] in scan;
    }
  }

  lemma DeriveStep(t: Tables, p: ProductKey, scan: seq<VariantKey>)
    requires t.Consistent() && Collapse.VariantScan(scan, t.variants, p)
    ensures OptionsConsistent(Collapse.DerivedBy(OptionsOf(t), t.variants, p, scan), t.products.Keys)
  {
    hide Collapse.Titles, Collapse.Derived, Collapse.Colors, Collapse.Sizes;
    TitlesNeedVariants(t.variants, p, scan);
    NoTitles();
    DeriveKeepsOptions(OptionsOf(t), t.products.Keys, p, Collapse.Titles(ByColor, Collapse.Colors(t.variants, scan)),
                       Collapse.Titles(BySize, Collapse.Sizes(t.variants, scan)));
  }

  lemma NoTitles()
    ensures Collapse.Titles(ByColor, []) == [] && Collapse.Titles(BySize, []) == []
  {
  }

  lemma CategoryStep(s: Store, supplier: nat, batch: seq<CategoryIngest>)
    requires Consistent(s) && Enabled(s, IngestCategories(supplier, batch))
    ensures Consistent(Apply(s, IngestCategories(supplier, batch)))
  {
    hide Tree.Closed, Tree.Ingested;
    Tree.IngestKeepsClosed(s.categories, supplier, batch);
    Tree.IngestedKeys(s.categories, supplier, batch);
  }

  lemma ProductStep(s: Store, supplier: nat, batch: seq<ProductIngest>, clock: seq<int>)
    requires Consistent(s) && Enabled(s, IngestProducts(supplier, batch, clock))
    ensures Consistent(Apply(s, IngestProducts(supplier, batch, clock)))
  {
    hide BatchAfter, Tree.Closed;
    var entries := Ingestion.Entries(s.categories, supplier, batch, clock);
    BatchKeepsConsistency(s.catalog, supplier, entries, s.categories.Keys);
  }

  lemma PricingStep(s: Store, supplier: nat, items: seq<PriceIngest>)
    requires Consistent(s) && Enabled(s, IngestPricing(supplier, items))
    ensures Consistent(Apply(s, IngestPricing(supplier, items)))
  {
    hide Ingestion.AllRepriced, Tree.Closed;
    var t := s.catalog;
    PricesOnVariants(Ingestion.PriceTables(t.variants, t.prices), t.products.Keys, supplier, items);
  }

  lemma OptionsStep(s: Store, u: OptionTables)
    requires Consistent(s) && OptionsConsistent(u, s.catalog.products.Keys)
    ensures Consistent(s.(catalog := WithOptions(s.catalog, u)))
  {
    hide Tree.Closed;
  }

  lemma StepKeepsConsistency(s: Store, op: Operation)
    requires Consistent(s) && Enabled(s, op)
    ensures Consistent(Apply(s, op))
  {
    hide BatchAfter, Ingestion.AllRepriced, Collapse.DerivedBy, Bulk.Saving, Bulk.ExistingKeys;
    hide Collapse.VariantScan, Tree.Closed, OptionsConsistent;
    var t := s.catalog;
    match op
    case IngestCategories(supplier, batch) =>
      CategoryStep(s, supplier, batch);
    case IngestProducts(supplier, batch, clock) =>
      ProductStep(s, supplier, batch, clock);
    case IngestPricing(supplier, items) =>
      PricingStep(s, supplier, items);
    case DeriveOptions(p, scan) =>
      DeriveStep(t, p, scan);
      OptionsStep(s, Collapse.DerivedBy(OptionsOf(t), t.variants, p, scan));
    case BulkSaveOptions(p, body) =>
      BulkStep(t, p, body);
      OptionsStep(s, Bulk.Saving(t.products.Keys, Bulk.ExistingKeys(OptionsOf(t), p), OptionsOf(t), p, body).tables);
  }

  lemma BulkStep(t: Tables, p: ProductKey, body: seq<OptionIngest>)
    requires t.Consistent()
    ensures var saving := Bulk.Saving(t.products.Keys, Bulk.ExistingKeys(OptionsOf(t), p), OptionsOf(t), p, body);
            OptionsConsistent(saving.tables, t.products.Keys)
  {
    hide Bulk.Saving, Bulk.ExistingKeys;
    KeysExist(OptionsOf(t), p);
    BulkKeepsOptions(t.products.Keys, Bulk.ExistingKeys(OptionsOf(t), p), OptionsOf(t), p, body);
  }

  ghost predicate ValidRun(s: Store, run: seq<Operation>)
    decreases |run|
  {
    run == [] || (Enabled(s, run[0]) && ValidRun(Apply(s, run[0]), run[1..]))
  }

  ghost function After(s: Store, run: seq<Operation>): Store
    requires ValidRun(s, run)
    decreases |run|
  {
    if run == [] then s else After(Apply(s, run[0]), run[1..])
  }

  /**
   Every foreign key of the catalog stays satisfied over every run of category, product, pricing, derive and bulk-save
   requests: suppliers, categories and their parents, products and all that hangs off them.
   */
  lemma {:induction false} RunsKeepConsistency(s: Store, run: seq<Operation>)
    requires Consistent(s) && ValidRun(s, run)
    ensures Consistent(After(s, run))
    decreases |run|
  {
    hide Apply, Enabled, Consistent;
    if run != [] {
      StepKeepsConsistency(s, run[0]);
      RunsKeepConsistency(Apply(s, run[0]), run[1..]);
    }
  }

  // ---------------------------------------------------------------- a bulk save and then a re-sync

  /** An attribute that a bulk save has enabled is disabled again by the next upsert of its option. */
  lemma UpsertDisablesWhatBulkSaveEnabled(
    products: set<ProductKey>, t: OptionTables, p: ProductKey, o: OptionIngest, attributes: seq<AttributeIngest>,
    title: string)
    requires o.attributes == Listed(attributes) && title != "" && HasTitle(attributes, title)
    requires Bulk.Saveable(products, Bulk.ExistingKeys(t, p), t, p, o)
    ensures var saved := Bulk.Saving(products, Bulk.ExistingKeys(t, p), t, p, [o]).tables;
            var synced := Upserted(saved, p, [o]);
            var a := AttributeKey(OptionKey(p, o.optionKey), title);
            && a in saved.attributes && saved.attributes[a].enabled
            && a in synced.attributes && !synced.attributes[a].enabled
  {
    hide Bulk.Saveable, Bulk.ExistingKeys, Bulk.SavedOne, Upserted, Inserted, Titled, LastWhere;
    var existing := Bulk.ExistingKeys(t, p);
    var saved := Bulk.SavedOne(t, p, o);
    var k := OptionKey(p, o.optionKey);
    assert Init([o]) == [] && Last([o]) == o;
    assert Bulk.Saving(products, existing, t, p, [o]).tables == saved;
    Bulk.SavedEntry(t, p, o, title);
    OptionLookup(saved, p, [o], k);
    InsertedHas(map[], k, Titled(attributes), AttributeKey(k, title));
    TitledHas(attributes, title);
    AttributeStateIsReset(saved, p, [o], AttributeKey(k, title));
  }

  /** For one: the title Red of a color option that the bulk save creates. */
  lemma RedIsDisabledAgain(p: ProductKey)
    ensures var red := AttributeIngest("Red", 0, None, None, None, None, None, None);
            var o := OptionIngest("color", "Color", None, 0, None, None, true, true, Listed([red]));
            var saved := Bulk.Saving({p}, {}, OptionTables(map[], map[]), p, [o]).tables;
            var synced := Upserted(saved, p, [o]);
            var a := AttributeKey(OptionKey(p, "color"), "Red");
            && a in saved.attributes && saved.attributes[a].enabled
            && a in synced.attributes && !synced.attributes[a].enabled
  {
    var none := OptionTables(map[], map[]);
    var red := AttributeIngest("Red", 0, None, None, None, None, None, None);
    var o := OptionIngest("color", "Color", None, 0, None, None, true, true, Listed([red]));
    assert Bulk.ExistingKeys(none, p) == {};
    assert [red][0].title == "Red";
    assert Bulk.Saveable({p}, {}, none, p, o);
    hide Bulk.Saving, Upserted;
    UpsertDisablesWhatBulkSaveEnabled({p}, none, p, o, [red], "Red");
  }
}
