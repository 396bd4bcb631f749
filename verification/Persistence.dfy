/** persist_product of backend/modules/catalog/persistence.py: one product written across all catalog tables. */
module Persistence {
  import opened Prelude
  import opened Schema
  import opened OptionUpsert

  // ---------------------------------------------------------------- what each statement does to its table

  function ProductRow(prior: Option<Product>, item: ProductIngest, categoryId: Option<CategoryKey>, now: int): Product {
    var kept := match prior
      case Some(row) => row
      case None =>
        Product(item.productName, None, None, None, None, item.productType, None, None, None, None, None, None, None);
    kept.(name := item.productName, brand := item.brand, category := item.categoryName, categoryId := categoryId,
          description := item.description, productType := item.productType, imageUrl := item.imageUrl,
          opsProductId := item.opsProductId, externalCatalogue := item.externalCatalogue, lastSynced := Some(now))
  }

  function DetailsAfter<V>(details: map<ProductKey, V>, p: ProductKey, given: Option<V>): map<ProductKey, V> {
    if given.Some? then details[p := given.value] else details
  }

  function WithoutSizes(sizes: map<SizeKey, Size>, p: ProductKey): map<SizeKey, Size> {
    map k | k in sizes && k.product != p :: sizes[k]
  }

  function SizesInto(sizes: map<SizeKey, Size>, p: ProductKey, given: seq<SizeIngest>): map<SizeKey, Size> {
    if given == [] then sizes
    else
      var s := Last(given);
      SizesInto(sizes, p, Init(given))[SizeKey(p, s.width, s.height) := Size(s.unit, s.title)]
  }

  /** An empty list leaves the stored sizes alone; any other list replaces them. */
  function SizesAfter(sizes: map<SizeKey, Size>, p: ProductKey, given: seq<SizeIngest>): map<SizeKey, Size> {
    if given == [] then sizes else SizesInto(WithoutSizes(sizes, p), p, given)
  }

  predicate DistinctSizes(given: seq<SizeIngest>) {
    forall i, j :: 0 <= i < j < |given| ==> given[i].width != given[j].width || given[i].height != given[j].height
  }

  datatype Stock = Stock(
    variants: map<VariantKey, Variant>, prices: map<PriceKey, Price>, serials: map<ProductKey, nat>)

  function KeyOf(serials: map<ProductKey, nat>, p: ProductKey, v: VariantIngest): VariantKey {
    if v.sku.Some? then BySku(p, v.sku.value) else NoSku(p, Serial(serials, p))
  }

  function VariantRow(v: VariantIngest): Variant {
    Variant(v.color, v.size, Some(v.partId), v.basePrice, v.inventory, v.warehouse)
  }

  /** DELETE FROM variant_prices WHERE variant_id = k */
  function WithoutPrices(prices: map<PriceKey, Price>, k: VariantKey): map<PriceKey, Price> {
    map q | q in prices && q.variant != k :: prices[q]
  }

  function TierKey(k: VariantKey, t: TierIngest): PriceKey {
    PriceKey(k, t.priceType, t.quantityMin)
  }

  function TiersInto(prices: map<PriceKey, Price>, k: VariantKey, tiers: seq<TierIngest>): map<PriceKey, Price> {
    if tiers == [] then prices
    else TiersInto(prices, k, Init(tiers))[TierKey(k, Last(tiers)) := Price(Last(tiers).quantityMax, Last(tiers).price)]
  }

  function StockStep(s: Stock, p: ProductKey, v: VariantIngest): Stock {
    var k := KeyOf(s.serials, p, v);
    Stock(
      s.variants[k := VariantRow(v)],
      TiersInto(WithoutPrices(s.prices, k), k, v.prices),
      if v.sku.Some? then s.serials else s.serials[p := Serial(s.serials, p) + 1])
  }

  function StockAfter(s: Stock, p: ProductKey, given: seq<VariantIngest>): Stock {
    if given == [] then s else StockStep(StockAfter(s, p, Init(given)), p, Last(given))
  }

  /** Insert writes the given sort order; a conflict writes it or, if it is zero, the position in the list. */
  function ImageRow(prior: Option<Image>, img: ImageIngest, idx: nat): Image {
    match prior
    case None => Image(img.supplierImageUrl, img.imageType, img.color, img.sortOrder, img.checksum, None, None)
    case Some(row) =>
      row.(supplierImageUrl := img.supplierImageUrl, imageType := img.imageType, color := img.color,
           sortOrder := if img.sortOrder != 0 then img.sortOrder else idx, checksum := img.checksum)
  }

  function ImagesInto(images: map<ImageKey, Image>, p: ProductKey, given: seq<ImageIngest>): map<ImageKey, Image> {
    if given == [] then images
    else
      var before := ImagesInto(images, p, Init(given));
      var k := ImageKey(p, Last(given).url);
      before[k := ImageRow(Lookup(before, k), Last(given), |given| - 1)]
  }

  /** Without a media list, a product image URL seeds one front image, unless that image is already there. */
  function ImagesAfter(images: map<ImageKey, Image>, p: ProductKey, item: ProductIngest): map<ImageKey, Image> {
    if item.images == [] && item.imageUrl.Some? && item.imageUrl.value != "" then
      var k := ImageKey(p, item.imageUrl.value);
      if k in images then images else images[k := Image(item.imageUrl, "front", None, 0, None, None, None)]
    else
      ImagesInto(images, p, item.images)
  }

  /** No statement of the call can violate a unique constraint. */
  predicate Storable(item: ProductIngest) {
    DistinctSizes(item.sizes) && AllInsertable(item.options)
  }

  /** The catalog after persist_product. */
  function Persisted(t: Tables, supplier: nat, item: ProductIngest, categoryId: Option<CategoryKey>, now: int): Tables {
    var p := ProductKey(supplier, item.supplierSku);
    var stock := StockAfter(Stock(t.variants, t.prices, t.serials), p, item.variants);
    var opts := Upserted(OptionTables(t.options, t.attributes), p, item.options);
    Tables(
      t.products[p := ProductRow(Lookup(t.products, p), item, categoryId, now)],
      DetailsAfter(t.apparel, p, item.apparelDetails),
      DetailsAfter(t.printing, p, item.printDetails),
      SizesAfter(t.sizes, p, item.sizes),
      stock.variants, stock.prices, stock.serials,
      ImagesAfter(t.images, p, item),
      opts.options, opts.attributes)
  }

  // ---------------------------------------------------------------- the statements, in order

  lemma {:induction false} SizesHave(sizes: map<SizeKey, Size>, p: ProductKey, given: seq<SizeIngest>, k: SizeKey)
    ensures k in SizesInto(sizes, p, given) <==>
              k in sizes || exists j :: 0 <= j < |given| && k == SizeKey(p, given[j].width, given[j].height)
  {
    if given != [] {
      SizesHave(sizes, p, Init(given), k);
      assert forall j :: 0 <= j < |given| - 1 ==> given[j] == Init(given)[j];
    }
  }

  /** The product row and its apparel or print details. */
  method UpsertSpine(db: Database, p: ProductKey, item: ProductIngest, categoryId: Option<CategoryKey>, now: int)
    modifies db`products, db`apparel, db`printing
    ensures db.products == old(db.products)[p := ProductRow(Lookup(old(db.products), p), item, categoryId, now)]
    ensures db.apparel == DetailsAfter(old(db.apparel), p, item.apparelDetails)
    ensures db.printing == DetailsAfter(old(db.printing), p, item.printDetails)
  {
    db.products := db.products[p := ProductRow(Lookup(db.products, p), item, categoryId, now)];
    if item.apparelDetails.Some? {
      db.apparel := db.apparel[p := item.apparelDetails.value];
    }
    if item.printDetails.Some? {
      db.printing := db.printing[p := item.printDetails.value];
    }
  }

  /** Deletes the product's sizes and inserts the given ones; a repeated width and height aborts. */
  method ReplaceSizes(db: Database, p: ProductKey, given: seq<SizeIngest>) returns (ok: bool)
    modifies db`sizes
    ensures ok <==> DistinctSizes(given)
    ensures ok ==> db.sizes == SizesAfter(old(db.sizes), p, given)
  {
    if given == [] {
      return true;
    }
    db.sizes := WithoutSizes(db.sizes, p);
    ghost var cleared := db.sizes;
    for i := 0 to |given|
      invariant DistinctSizes(given[..i])
      invariant db.sizes == SizesInto(cleared, p, given[..i])
    {
      var k := SizeKey(p, given[i].width, given[i].height);
      assert Init(given[..i + 1]) == given[..i];
      SizesHave(cleared, p, given[..i], k);
      if k in db.sizes {
        var j :| 0 <= j < i && k == SizeKey(p, given[j].width, given[j].height);
        return false;
      }
      db.sizes := db.sizes[k := Size(given[i].unit, given[i].title)];
    }
    assert given[..|given|] == given;
    ok := true;
  }

  method UpsertTiers(db: Database, k: VariantKey, tiers: seq<TierIngest>)
    modifies db`prices
    ensures db.prices == TiersInto(WithoutPrices(old(db.prices), k), k, tiers)
  {
    db.prices := WithoutPrices(db.prices, k);
    for i := 0 to |tiers|
      invariant db.prices == TiersInto(WithoutPrices(old(db.prices), k), k, tiers[..i])
    {
      assert Init(tiers[..i + 1]) == tiers[..i];
      db.prices := db.prices[TierKey(k, tiers[i]) := Price(tiers[i].quantityMax, tiers[i].price)];
    }
    assert tiers[..|tiers|] == tiers;
  }

  method UpsertVariants(db: Database, p: ProductKey, given: seq<VariantIngest>)
    modifies db`variants, db`prices, db`serials
    ensures Stock(db.variants, db.prices, db.serials)
            == StockAfter(Stock(old(db.variants), old(db.prices), old(db.serials)), p, given)
  {
    ghost var start := Stock(db.variants, db.prices, db.serials);
    for i := 0 to |given|
      invariant Stock(db.variants, db.prices, db.serials) == StockAfter(start, p, given[..i])
    {
      var v := given[i];
      assert Init(given[..i + 1]) == given[..i];
      var k := KeyOf(db.serials, p, v);
      db.variants := db.variants[k := VariantRow(v)];
      if v.sku.None? {
        db.serials := db.serials[p := Serial(db.serials, p) + 1];
      }
      UpsertTiers(db, k, v.prices);
    }
    assert given[..|given|] == given;
  }

  method UpsertImages(db: Database, p: ProductKey, item: ProductIngest)
    modifies db`images
    ensures db.images == ImagesAfter(old(db.images), p, item)
  {
    for idx := 0 to |item.images|
      invariant db.images == ImagesInto(old(db.images), p, item.images[..idx])
    {
      var img := item.images[idx];
      assert Init(item.images[..idx + 1]) == item.images[..idx];
      var k := ImageKey(p, img.url);
      db.images := db.images[k := ImageRow(Lookup(db.images, k), img, idx)];
    }
    assert item.images[..|item.images|] == item.images;
    if item.images == [] && item.imageUrl.Some? && item.imageUrl.value != "" {
      var k := ImageKey(p, item.imageUrl.value);
      if k !in db.images {
        db.images := db.images[k := Image(item.imageUrl, "front", None, 0, None, None, None)];
      }
    }
  }

  /** The whole upsert; when it fails the session's transaction is to be rolled back. */
  method PersistProduct(db: Database, supplier: nat, item: ProductIngest, categoryId: Option<CategoryKey>, now: int)
    returns (ok: bool)
    modifies db`products, db`apparel, db`printing, db`sizes, db`variants, db`prices, db`serials, db`images,
             db`options, db`attributes
    ensures ok <==> Storable(item)
    ensures ok ==> db.Catalog() == Persisted(old(db.Catalog()), supplier, item, categoryId, now)
  {
    hide DistinctSizes, AllInsertable, StockAfter, Upserted, SizesAfter, ImagesAfter, DetailsAfter, ProductRow, Lookup;
    var p := ProductKey(supplier, item.supplierSku);
    UpsertSpine(db, p, item, categoryId, now);
    ok := ReplaceSizes(db, p, item.sizes);
    if !ok {
      return;
    }
    UpsertVariants(db, p, item.variants);
    UpsertImages(db, p, item);
    ok := UpsertOptions(db, p, item.options);
  }
}
