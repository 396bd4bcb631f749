/**
 Laws of persist_product over whole tables: it touches and reads only its own product's rows,
 so batches of distinct products commute; and it keeps every foreign key satisfied.
 The last_synced stamp is the clock's, so stores are compared with it blanked.
 */
module PersistenceLaws {
  import opened Prelude
  import opened Schema
  import opened OptionUpsert
  import opened Persistence

  // ---------------------------------------------------------------- stores that agree on one product

  function Unstamped(row: Option<Product>): Option<Product> {
    match row
    case None => None
    case Some(r) => Some(r.(lastSynced := None))
  }

  function BlankRows(products: map<ProductKey, Product>): map<ProductKey, Product> {
    map p | p in products :: products[p].(lastSynced := None)
  }

  function Blank(t: Tables): Tables {
    t.(products := BlankRows(t.products))
  }

  ghost predicate SameSizes(m: map<SizeKey, Size>, n: map<SizeKey, Size>, q: ProductKey) {
    forall k: SizeKey :: k.product == q ==> Lookup(m, k) == Lookup(n, k)
  }

  ghost predicate SameVariants(m: map<VariantKey, Variant>, n: map<VariantKey, Variant>, q: ProductKey) {
    forall k: VariantKey :: k.product == q ==> Lookup(m, k) == Lookup(n, k)
  }

  ghost predicate SamePrices(m: map<PriceKey, Price>, n: map<PriceKey, Price>, q: ProductKey) {
    forall k: PriceKey :: k.variant.product == q ==> Lookup(m, k) == Lookup(n, k)
  }

  ghost predicate SameStock(s: Stock, u: Stock, q: ProductKey) {
    && SameVariants(s.variants, u.variants, q)
    && SamePrices(s.prices, u.prices, q)
    && Lookup(s.serials, q) == Lookup(u.serials, q)
  }

  ghost predicate SameImages(m: map<ImageKey, Image>, n: map<ImageKey, Image>, q: ProductKey) {
    forall k: ImageKey :: k.product == q ==> Lookup(m, k) == Lookup(n, k)
  }

  ghost predicate SameOptions(s: OptionTables, u: OptionTables, q: ProductKey) {
    && (forall k: OptionKey :: k.product == q ==> Lookup(s.options, k) == Lookup(u.options, k))
    && (forall a: AttributeKey :: a.option.product == q ==> Lookup(s.attributes, a) == Lookup(u.attributes, a))
  }

  function StockOf(t: Tables): Stock {
    Stock(t.variants, t.prices, t.serials)
  }

  function OptionsOf(t: Tables): OptionTables {
    OptionTables(t.options, t.attributes)
  }

  ghost predicate Agree(t: Tables, u: Tables, q: ProductKey) {
    && Unstamped(Lookup(t.products, q)) == Unstamped(Lookup(u.products, q))
    && Lookup(t.apparel, q) == Lookup(u.apparel, q)
    && Lookup(t.printing, q) == Lookup(u.printing, q)
    && SameSizes(t.sizes, u.sizes, q)
    && SameStock(StockOf(t), StockOf(u), q)
    && SameImages(t.images, u.images, q)
    && SameOptions(OptionsOf(t), OptionsOf(u), q)
  }

  lemma SameMaps<K, V>(m: map<K, V>, n: map<K, V>)
    requires forall k :: k in m.Keys + n.Keys ==> Lookup(m, k) == Lookup(n, k)
    ensures m == n
  {
    forall k ensures k in m <==> k in n {
      if k in m.Keys + n.Keys { assert Lookup(m, k) == Lookup(n, k); }
    }
    forall k | k in m ensures m[k] == n[k] {
      assert k in m.Keys + n.Keys;
    }
  }

  ghost predicate AgreeAll(t: Tables, u: Tables) {
    forall q :: Agree(t, u, q)
  }

  lemma AgreeOnSpines(t: Tables, u: Tables)
    requires AgreeAll(t, u)
    ensures BlankRows(t.products) == BlankRows(u.products) && t.apparel == u.apparel && t.printing == u.printing
  {
    hide SameSizes, SameStock, SameImages, SameOptions;
    forall q ensures Lookup(BlankRows(t.products), q) == Lookup(BlankRows(u.products), q)
                     && Lookup(t.apparel, q) == Lookup(u.apparel, q)
                     && Lookup(t.printing, q) == Lookup(u.printing, q)
    {
      assert Agree(t, u, q);
    }
    SameMaps(BlankRows(t.products), BlankRows(u.products));
    SameMaps(t.apparel, u.apparel);
    SameMaps(t.printing, u.printing);
  }

  lemma AgreeOnStock(t: Tables, u: Tables)
    requires AgreeAll(t, u)
    ensures StockOf(t) == StockOf(u)
  {
    hide SameSizes, SameImages, SameOptions;
    forall q ensures Lookup(t.serials, q) == Lookup(u.serials, q) { assert Agree(t, u, q); }
    SameMaps(t.serials, u.serials);
    forall k: VariantKey ensures Lookup(t.variants, k) == Lookup(u.variants, k) { assert Agree(t, u, k.product); }
    SameMaps(t.variants, u.variants);
    forall k: PriceKey ensures Lookup(t.prices, k) == Lookup(u.prices, k) { assert Agree(t, u, k.variant.product); }
    SameMaps(t.prices, u.prices);
  }

  lemma AgreeOnRest(t: Tables, u: Tables)
    requires AgreeAll(t, u)
    ensures t.sizes == u.sizes && t.images == u.images && OptionsOf(t) == OptionsOf(u)
  {
    hide SameStock;
    forall k: SizeKey ensures Lookup(t.sizes, k) == Lookup(u.sizes, k) { assert Agree(t, u, k.product); }
    SameMaps(t.sizes, u.sizes);
    forall k: ImageKey ensures Lookup(t.images, k) == Lookup(u.images, k) { assert Agree(t, u, k.product); }
    SameMaps(t.images, u.images);
    forall k: OptionKey ensures Lookup(t.options, k) == Lookup(u.options, k) { assert Agree(t, u, k.product); }
    SameMaps(t.options, u.options);
    forall k: AttributeKey
      ensures Lookup(t.attributes, k) == Lookup(u.attributes, k)
    {
      assert Agree(t, u, k.option.product);
    }
    SameMaps(t.attributes, u.attributes);
  }

  /** Stores that agree on every product are the same store, up to the stamps. */
  lemma AgreeEverywhere(t: Tables, u: Tables)
    requires AgreeAll(t, u)
    ensures Blank(t) == Blank(u)
  {
    hide AgreeAll, BlankRows;
    AgreeOnSpines(t, u);
    AgreeOnStock(t, u);
    AgreeOnRest(t, u);
  }

  // ---------------------------------------------------------------- each table, seen from product q

  lemma {:induction false} SizesOn(
    m: map<SizeKey, Size>, n: map<SizeKey, Size>, p: ProductKey, given: seq<SizeIngest>, q: ProductKey)
    requires SameSizes(m, n, q)
    ensures q == p ==> SameSizes(SizesInto(m, p, given), SizesInto(n, p, given), q)
    ensures q != p ==> SameSizes(SizesInto(m, p, given), n, q)
  {
    if given != [] {
      SizesOn(m, n, p, Init(given), q);
    }
  }

  lemma SizesAfterOn(m: map<SizeKey, Size>, n: map<SizeKey, Size>, p: ProductKey, given: seq<SizeIngest>, q: ProductKey)
    requires SameSizes(m, n, q)
    ensures q == p ==> SameSizes(SizesAfter(m, p, given), SizesAfter(n, p, given), q)
    ensures q != p ==> SameSizes(SizesAfter(m, p, given), n, q)
  {
    if q == p {
      SizesOn(WithoutSizes(m, p), WithoutSizes(n, p), p, given, q);
    } else {
      SizesOn(WithoutSizes(m, p), n, p, given, q);
    }
  }

  lemma {:induction false} TiersOn(
    m: map<PriceKey, Price>, n: map<PriceKey, Price>, k: VariantKey, tiers: seq<TierIngest>, q: ProductKey)
    requires SamePrices(m, n, q)
    ensures q == k.product ==> SamePrices(TiersInto(m, k, tiers), TiersInto(n, k, tiers), q)
    ensures q != k.product ==> SamePrices(TiersInto(m, k, tiers), n, q)
  {
    if tiers != [] {
      TiersOn(m, n, k, Init(tiers), q);
    }
  }

  lemma StockStepOn(s: Stock, u: Stock, p: ProductKey, v: VariantIngest, q: ProductKey)
    requires SameStock(s, u, q)
    ensures q == p ==> SameStock(StockStep(s, p, v), StockStep(u, p, v), q)
    ensures q != p ==> SameStock(StockStep(s, p, v), u, q)
  {
    hide TiersInto, VariantRow;
    var k := KeyOf(s.serials, p, v);
    if q == p {
      assert Serial(s.serials, p) == Serial(u.serials, p);
      TiersOn(WithoutPrices(s.prices, k), WithoutPrices(u.prices, k), k, v.prices, q);
    } else {
      TiersOn(WithoutPrices(s.prices, k), u.prices, k, v.prices, q);
    }
  }

  lemma {:induction false} StockOn(s: Stock, u: Stock, p: ProductKey, given: seq<VariantIngest>, q: ProductKey)
    requires SameStock(s, u, q)
    ensures q == p ==> SameStock(StockAfter(s, p, given), StockAfter(u, p, given), q)
    ensures q != p ==> SameStock(StockAfter(s, p, given), u, q)
  {
    hide StockStep, SameStock;
    if given != [] {
      StockOn(s, u, p, Init(given), q);
      if q == p {
        StockStepOn(StockAfter(s, p, Init(given)), StockAfter(u, p, Init(given)), p, Last(given), q);
      } else {
        StockStepOn(StockAfter(s, p, Init(given)), u, p, Last(given), q);
      }
    }
  }

  lemma {:induction false} ImagesOn(
    m: map<ImageKey, Image>, n: map<ImageKey, Image>, p: ProductKey, given: seq<ImageIngest>, q: ProductKey)
    requires SameImages(m, n, q)
    ensures q == p ==> SameImages(ImagesInto(m, p, given), ImagesInto(n, p, given), q)
    ensures q != p ==> SameImages(ImagesInto(m, p, given), n, q)
  {
    hide ImageRow;
    if given != [] {
      ImagesOn(m, n, p, Init(given), q);
    }
  }

  lemma ImagesAfterOn(
    m: map<ImageKey, Image>, n: map<ImageKey, Image>, p: ProductKey, item: ProductIngest, q: ProductKey)
    requires SameImages(m, n, q)
    ensures q == p ==> SameImages(ImagesAfter(m, p, item), ImagesAfter(n, p, item), q)
    ensures q != p ==> SameImages(ImagesAfter(m, p, item), n, q)
  {
    ImagesOn(m, n, p, item.images, q);
    if item.imageUrl.Some? {
      assert q == p ==> Lookup(m, ImageKey(p, item.imageUrl.value)) == Lookup(n, ImageKey(p, item.imageUrl.value));
    }
  }

  lemma {:induction false} InsertedOn(
    m: map<AttributeKey, Attribute>, n: map<AttributeKey, Attribute>, k: OptionKey, titled: seq<AttributeIngest>,
    a: AttributeKey)
    requires Lookup(m, a) == Lookup(n, a)
    ensures Lookup(Inserted(m, k, titled), a) == Lookup(Inserted(n, k, titled), a)
    ensures a.option != k ==> Lookup(Inserted(m, k, titled), a) == Lookup(m, a)
  {
    if titled != [] {
      InsertedOn(m, n, k, Init(titled), a);
    }
  }

  lemma OptionStepOn(s: OptionTables, u: OptionTables, p: ProductKey, o: OptionIngest, q: ProductKey)
    requires SameOptions(s, u, q)
    ensures q == p ==> SameOptions(UpsertedOne(s, p, o), UpsertedOne(u, p, o), q)
    ensures q != p ==> SameOptions(UpsertedOne(s, p, o), u, q)
  {
    hide OptionRow, Titled, Inserted;
    var k := OptionKey(p, o.optionKey);
    var titled := Titled(AttributesOf(o.attributes));
    forall a: AttributeKey | a.option.product == q
      ensures q == p ==> Lookup(UpsertedOne(s, p, o).attributes, a) == Lookup(UpsertedOne(u, p, o).attributes, a)
      ensures q != p ==> Lookup(UpsertedOne(s, p, o).attributes, a) == Lookup(u.attributes, a)
    {
      InsertedOn(WithoutAttributes(s.attributes, k), WithoutAttributes(u.attributes, k), k, titled, a);
    }
  }

  lemma {:induction false} OptionsOn(
    s: OptionTables, u: OptionTables, p: ProductKey, given: seq<OptionIngest>, q: ProductKey)
    requires SameOptions(s, u, q)
    ensures q == p ==> SameOptions(Upserted(s, p, given), Upserted(u, p, given), q)
    ensures q != p ==> SameOptions(Upserted(s, p, given), u, q)
  {
    hide UpsertedOne, SameOptions;
    if given != [] {
      OptionsOn(s, u, p, Init(given), q);
      if q == p {
        OptionStepOn(Upserted(s, p, Init(given)), Upserted(u, p, Init(given)), p, Last(given), q);
      } else {
        OptionStepOn(Upserted(s, p, Init(given)), u, p, Last(given), q);
      }
    }
  }

  lemma SpineOn(
    m: map<ProductKey, Product>, n: map<ProductKey, Product>, p: ProductKey, item: ProductIngest,
    categoryId: Option<CategoryKey>, now: int, later: int, q: ProductKey)
    requires Unstamped(Lookup(m, q)) == Unstamped(Lookup(n, q))
    ensures var m' := m[p := ProductRow(Lookup(m, p), item, categoryId, now)];
            var n' := n[p := ProductRow(Lookup(n, p), item, categoryId, later)];
            && (q == p ==> Unstamped(Lookup(m', q)) == Unstamped(Lookup(n', q)))
            && (q != p ==> Unstamped(Lookup(m', q)) == Unstamped(Lookup(n, q)))
  {
  }

  lemma DetailsOn<V>(m: map<ProductKey, V>, n: map<ProductKey, V>, p: ProductKey, given: Option<V>, q: ProductKey)
    requires Lookup(m, q) == Lookup(n, q)
    ensures q == p ==> Lookup(DetailsAfter(m, p, given), q) == Lookup(DetailsAfter(n, p, given), q)
    ensures q != p ==> Lookup(DetailsAfter(m, p, given), q) == Lookup(n, q)
  {
  }

  /**
   persist_product reads and writes only rows of its own product: whatever the other rows hold,
   it leaves the same rows for its own product, and it leaves every other product's rows alone.
   */
  lemma PersistIsLocal(
    t: Tables, u: Tables, supplier: nat, item: ProductIngest, categoryId: Option<CategoryKey>, now: int, later: int,
    q: ProductKey)
    requires Agree(t, u, q)
    ensures var p := ProductKey(supplier, item.supplierSku);
            var after := Persisted(t, supplier, item, categoryId, now);
            && (q == p ==> Agree(after, Persisted(u, supplier, item, categoryId, later), q))
            && (q != p ==> Agree(after, u, q))
  {
    hide SizesAfter, StockAfter, ImagesAfter, Upserted, SameSizes, SameStock, SameImages, SameOptions;
    hide ProductRow, Unstamped, DetailsAfter, Lookup;
    var p := ProductKey(supplier, item.supplierSku);
    SpineOn(t.products, u.products, p, item, categoryId, now, later, q);
    DetailsOn(t.apparel, u.apparel, p, item.apparelDetails, q);
    DetailsOn(t.printing, u.printing, p, item.printDetails, q);
    SizesAfterOn(t.sizes, u.sizes, p, item.sizes, q);
    StockOn(StockOf(t), StockOf(u), p, item.variants, q);
    ImagesAfterOn(t.images, u.images, p, item, q);
    OptionsOn(OptionsOf(t), OptionsOf(u), p, item.options, q);
  }

  lemma AgreeRefl(t: Tables, q: ProductKey)
    ensures Agree(t, t, q)
  {
  }

  /**
   Two different products can be persisted in either order: the stores are equal if each product's turn reads the same
   clock in both orders, and equal but for the stamps whatever the clocks read.
   */
  lemma {:induction false} PersistCommutes(
    t: Tables, supplier: nat, a: ProductIngest, ca: Option<CategoryKey>, na: int, ma: int,
    other: nat, b: ProductIngest, cb: Option<CategoryKey>, nb: int, mb: int)
    requires ProductKey(supplier, a.supplierSku) != ProductKey(other, b.supplierSku)
    ensures var ab := Persisted(Persisted(t, supplier, a, ca, na), other, b, cb, nb);
            var ba := Persisted(Persisted(t, other, b, cb, mb), supplier, a, ca, ma);
            && Blank(ab) == Blank(ba)
            && (na == ma && nb == mb ==> ab == ba)
  {
    hide Agree, Persisted, BlankRows, Lookup;
    var ta, tb := Persisted(t, supplier, a, ca, na), Persisted(t, other, b, cb, mb);
    var tab, tba := Persisted(ta, other, b, cb, nb), Persisted(tb, supplier, a, ca, ma);
    forall q ensures Agree(tab, tba, q) {
      if q == ProductKey(other, b.supplierSku) {
        CommutesAt(t, other, b, cb, mb, nb, supplier, a, ca, ma, na, q);
        AgreeSym(tba, tab, q);
      } else {
        CommutesAt(t, supplier, a, ca, na, ma, other, b, cb, nb, mb, q);
      }
    }
    AgreeEverywhere(tab, tba);
    if na == ma && nb == mb {
      SpinesCommute(t, supplier, a, ca, na, other, b, cb, nb);
    }
  }

  lemma SpinesCommute(
    t: Tables, supplier: nat, a: ProductIngest, ca: Option<CategoryKey>, na: int,
    other: nat, b: ProductIngest, cb: Option<CategoryKey>, nb: int)
    requires ProductKey(supplier, a.supplierSku) != ProductKey(other, b.supplierSku)
    ensures Persisted(Persisted(t, supplier, a, ca, na), other, b, cb, nb).products
         == Persisted(Persisted(t, other, b, cb, nb), supplier, a, ca, na).products
  {
    hide ProductRow, StockAfter, ImagesAfter, Upserted, SizesAfter, DetailsAfter;
  }

  lemma {:induction false} CommutesAt(
    t: Tables, supplier: nat, a: ProductIngest, ca: Option<CategoryKey>, na: int, ma: int,
    other: nat, b: ProductIngest, cb: Option<CategoryKey>, nb: int, mb: int, q: ProductKey)
    requires ProductKey(supplier, a.supplierSku) != ProductKey(other, b.supplierSku)
    requires q != ProductKey(other, b.supplierSku)
    ensures Agree(Persisted(Persisted(t, supplier, a, ca, na), other, b, cb, nb),
                  Persisted(Persisted(t, other, b, cb, mb), supplier, a, ca, ma), q)
  {
    hide Agree, Persisted;
    var ta, tb := Persisted(t, supplier, a, ca, na), Persisted(t, other, b, cb, mb);
    var tab, tba := Persisted(ta, other, b, cb, nb), Persisted(tb, supplier, a, ca, ma);
    AgreeRefl(t, q);
    AgreeRefl(ta, q);
    PersistIsLocal(ta, ta, other, b, cb, nb, nb, q);
    PersistIsLocal(t, t, other, b, cb, mb, mb, q);
    PersistIsLocal(tb, t, supplier, a, ca, ma, na, q);
    PersistIsLocal(t, t, supplier, a, ca, na, na, q);
    if q == ProductKey(supplier, a.supplierSku) {
      AgreeSym(tba, ta, q);
      AgreeTrans(tab, ta, tba, q);
    } else {
      AgreeSym(tba, t, q);
      AgreeTrans(tab, ta, t, q);
      AgreeTrans(tab, t, tba, q);
    }
  }

  lemma AgreeSym(t: Tables, u: Tables, q: ProductKey)
    requires Agree(t, u, q)
    ensures Agree(u, t, q)
  {
  }

  lemma AgreeTrans(t: Tables, u: Tables, w: Tables, q: ProductKey)
    requires Agree(t, u, q) && Agree(u, w, q)
    ensures Agree(t, w, q)
  {
  }

  // ---------------------------------------------------------------- whole batches

  /** One product of a batch, with its resolved category and the clock reading at its turn. */
  datatype Entry = Entry(item: ProductIngest, categoryId: Option<CategoryKey>, now: int)

  function BatchAfter(t: Tables, supplier: nat, batch: seq<Entry>): Tables {
    if batch == [] then t
    else
      var e := Last(batch);
      Persisted(BatchAfter(t, supplier, Init(batch)), supplier, e.item, e.categoryId, e.now)
  }

  ghost predicate DistinctSkus(batch: seq<Entry>) {
    forall i, j :: 0 <= i < j < |batch| ==> batch[i].item.supplierSku != batch[j].item.supplierSku
  }

  lemma {:induction false} BatchElsewhere(t: Tables, supplier: nat, batch: seq<Entry>, q: ProductKey)
    requires forall i :: 0 <= i < |batch| ==> ProductKey(supplier, batch[i].item.supplierSku) != q
    ensures Agree(BatchAfter(t, supplier, batch), t, q)
  {
    hide Agree, Persisted;
    if batch == [] {
      AgreeRefl(t, q);
    } else {
      BatchElsewhere(t, supplier, Init(batch), q);
      var e := Last(batch);
      PersistIsLocal(BatchAfter(t, supplier, Init(batch)), t, supplier, e.item, e.categoryId, e.now, e.now, q);
    }
  }

  /** In a batch of distinct SKUs, every product ends as if it had been persisted alone. */
  lemma {:induction false} BatchAt(t: Tables, supplier: nat, batch: seq<Entry>, i: nat, later: int)
    requires DistinctSkus(batch) && i < |batch|
    ensures Agree(BatchAfter(t, supplier, batch),
                  Persisted(t, supplier, batch[i].item, batch[i].categoryId, later),
                  ProductKey(supplier, batch[i].item.supplierSku))
  {
    hide Agree, Persisted;
    var q := ProductKey(supplier, batch[i].item.supplierSku);
    var e := Last(batch);
    var before := BatchAfter(t, supplier, Init(batch));
    if i == |batch| - 1 {
      BatchElsewhere(t, supplier, Init(batch), q);
      PersistIsLocal(before, t, supplier, e.item, e.categoryId, e.now, later, q);
    } else {
      BatchAt(t, supplier, Init(batch), i, later);
      PersistIsLocal(before, Persisted(t, supplier, batch[i].item, batch[i].categoryId, later),
                     supplier, e.item, e.categoryId, e.now, e.now, q);
    }
  }

  ghost predicate Contains(a: seq<Entry>, b: seq<Entry>) {
    forall i :: 0 <= i < |a| ==>
      exists j :: 0 <= j < |b| && b[j].item == a[i].item && b[j].categoryId == a[i].categoryId
  }

  /** ingest_products on distinct SKUs leaves the same store for every order of the batch, whatever the clock reads. */
  lemma {:induction false} BatchOrderIrrelevant(t: Tables, supplier: nat, a: seq<Entry>, b: seq<Entry>)
    requires DistinctSkus(a) && DistinctSkus(b) && Contains(a, b) && Contains(b, a)
    ensures Blank(BatchAfter(t, supplier, a)) == Blank(BatchAfter(t, supplier, b))
  {
    hide Agree, Persisted, BatchAfter;
    var ta, tb := BatchAfter(t, supplier, a), BatchAfter(t, supplier, b);
    forall q ensures Agree(ta, tb, q) {
      if i :| 0 <= i < |a| && ProductKey(supplier, a[i].item.supplierSku) == q {
        var j :| 0 <= j < |b| && b[j].item == a[i].item && b[j].categoryId == a[i].categoryId;
        BatchAt(t, supplier, a, i, 0);
        BatchAt(t, supplier, b, j, 0);
        var alone := Persisted(t, supplier, a[i].item, a[i].categoryId, 0);
        AgreeSym(tb, alone, q);
        AgreeTrans(ta, alone, tb, q);
      } else {
        BatchElsewhere(t, supplier, a, q);
        BatchElsewhere(t, supplier, b, q);
        AgreeSym(tb, t, q);
        AgreeTrans(ta, t, tb, q);
      }
    }
    AgreeEverywhere(ta, tb);
  }

  // ---------------------------------------------------------------- referential integrity

  ghost predicate StockConsistent(s: Stock, products: set<ProductKey>) {
    && (forall k :: k in s.variants ==> k.product in products)
    && (forall q :: q in s.prices ==> q.variant in s.variants)
    && (forall k :: k in s.variants && k.NoSku? ==> k.serial < Serial(s.serials, k.product))
  }

  lemma {:induction false} TierVariants(prices: map<PriceKey, Price>, k: VariantKey, tiers: seq<TierIngest>)
    ensures forall q :: q in TiersInto(prices, k, tiers) ==> q in prices || q.variant == k
  {
    if tiers != [] {
      TierVariants(prices, k, Init(tiers));
    }
  }

  lemma {:induction false} StockStaysConsistent(
    s: Stock, p: ProductKey, given: seq<VariantIngest>, products: set<ProductKey>)
    requires StockConsistent(s, products) && p in products
    ensures StockConsistent(StockAfter(s, p, given), products)
  {
    if given != [] {
      StockStaysConsistent(s, p, Init(given), products);
      var before := StockAfter(s, p, Init(given));
      var k := KeyOf(before.serials, p, Last(given));
      TierVariants(WithoutPrices(before.prices, k), k, Last(given).prices);
    }
  }

  lemma {:induction false} ImageProducts(images: map<ImageKey, Image>, p: ProductKey, given: seq<ImageIngest>)
    ensures forall k :: k in ImagesInto(images, p, given) ==> k in images || k.product == p
  {
    if given != [] {
      ImageProducts(images, p, Init(given));
    }
  }

  lemma {:induction false} OptionParents(t: OptionTables, p: ProductKey, given: seq<OptionIngest>)
    requires forall a :: a in t.attributes ==> a.option in t.options
    ensures var u := Upserted(t, p, given);
            && (forall k :: k in u.options ==> k in t.options || k.product == p)
            && (forall a :: a in u.attributes ==> a.option in u.options)
  {
    hide Titled, OptionRow;
    if given != [] {
      OptionParents(t, p, Init(given));
      var before := Upserted(t, p, Init(given));
      var o := Last(given);
      var k := OptionKey(p, o.optionKey);
      forall a | a in Upserted(t, p, given).attributes ensures a.option in Upserted(t, p, given).options {
        InsertedHas(WithoutAttributes(before.attributes, k), k, Titled(AttributesOf(o.attributes)), a);
      }
    }
  }

  /**
   persist_product keeps every foreign key satisfied, that to the categories included, and adds one product at most.
   */
  lemma PersistKeepsConsistency(
    t: Tables, supplier: nat, item: ProductIngest, categoryId: Option<CategoryKey>, now: int, known: set<CategoryKey>)
    requires t.Consistent()
    requires t.CategoriesIn(known) && (categoryId.Some? ==> categoryId.value in known)
    ensures var u := Persisted(t, supplier, item, categoryId, now);
            && u.Consistent() && u.CategoriesIn(known)
            && u.products.Keys == t.products.Keys + {ProductKey(supplier, item.supplierSku)}
  {
    hide StockAfter, ImagesAfter, Upserted, SizesAfter, DetailsAfter, ProductRow;
    var p := ProductKey(supplier, item.supplierSku);
    var u := Persisted(t, supplier, item, categoryId, now);
    CategoryColumn(Lookup(t.products, p), item, categoryId, now);
    StockStaysConsistent(StockOf(t), p, item.variants, u.products.Keys);
    ImageAndSizeProducts(t, p, item);
    OptionParents(OptionsOf(t), p, item.options);
    DetailKeys(t.apparel, p, item.apparelDetails);
    DetailKeys(t.printing, p, item.printDetails);
  }

  lemma CategoryColumn(prior: Option<Product>, item: ProductIngest, categoryId: Option<CategoryKey>, now: int)
    ensures ProductRow(prior, item, categoryId, now).categoryId == categoryId
  {
  }

  lemma DetailKeys<V>(m: map<ProductKey, V>, p: ProductKey, given: Option<V>)
    ensures DetailsAfter(m, p, given).Keys <= m.Keys + {p}
  {
  }

  lemma ImageAndSizeProducts(t: Tables, p: ProductKey, item: ProductIngest)
    ensures forall k :: k in ImagesAfter(t.images, p, item) ==> k in t.images || k.product == p
    ensures forall k :: k in SizesAfter(t.sizes, p, item.sizes) ==> k in t.sizes || k.product == p
  {
    ImageProducts(t.images, p, item.images);
    forall k | k in SizesAfter(t.sizes, p, item.sizes) ensures k in t.sizes || k.product == p {
      SizesHave(WithoutSizes(t.sizes, p), p, item.sizes, k);
    }
  }
}
