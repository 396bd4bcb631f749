/**
 The supplier catalog handoff of backend/modules/catalog/exporter.py: what is exported of a product,
 which reads back what was ingested, and the batches it is pushed in.
 */
module Exporter {
  import opened Prelude
  import opened Schema
  import opened OptionUpsert
  import opened Persistence
  import opened PersistenceLaws
  import opened PersistenceFixpoint

  datatype ImageOut = ImageOut(imageType: string, color: Option<string>)

  datatype PriceOut = PriceOut(priceType: string, quantityMin: int, quantityMax: Option<int>, price: real)

  datatype VariantOut = VariantOut(color: Option<string>, size: Option<string>, prices: set<PriceOut>)

  datatype OptionOut = OptionOut(title: string, attributes: set<string>)

  /** The serialized product; its lists come in no particular order, so they are kept by the key of their rows. */
  datatype Export = Export(
    supplierSku: string, name: string, brand: Option<string>, description: Option<string>, productType: string,
    category: Option<string>, images: map<string, ImageOut>, options: map<string, OptionOut>,
    variants: map<VariantKey, VariantOut>)

  function PricesOf(t: Tables, k: VariantKey): set<PriceOut> {
    set q | q in t.prices && q.variant == k ::
      PriceOut(q.priceType, q.quantityMin, t.prices[q].quantityMax, t.prices[q].price)
  }

  function TitlesOf(t: Tables, k: OptionKey): set<string> {
    set a | a in t.attributes && a.option == k :: a.title
  }

  function UrlsOf(t: Tables, p: ProductKey): set<string> {
    set k | k in t.images && k.product == p :: k.url
  }

  function KeysOf(t: Tables, p: ProductKey): set<string> {
    set k | k in t.options && k.product == p :: k.key
  }

  /** build_supplier_product; None is the 404. */
  function BuildSupplierProduct(t: Tables, p: ProductKey): Option<Export> {
    if p !in t.products then None
    else
      var row := t.products[p];
      Some(Export(
        p.sku, row.name, row.brand, row.description, row.productType, row.category,
        map url | url in UrlsOf(t, p) && ImageKey(p, url) in t.images ::
          ImageOut(t.images[ImageKey(p, url)].imageType, t.images[ImageKey(p, url)].color),
        map key | key in KeysOf(t, p) && OptionKey(p, key) in t.options ::
          OptionOut(t.options[OptionKey(p, key)].title, TitlesOf(t, OptionKey(p, key))),
        map k | k in t.variants && k.product == p ::
          VariantOut(t.variants[k].color, t.variants[k].size, PricesOf(t, k))))
  }

  // ---------------------------------------------------------------- what was ingested is exported

  /** The tiers a list leaves: for each price type and minimum quantity, the last one. */
  function LastTiers(tiers: seq<TierIngest>): set<PriceOut> {
    set i | 0 <= i < |tiers| && (forall j :: i < j < |tiers| ==>
              tiers[j].priceType != tiers[i].priceType || tiers[j].quantityMin != tiers[i].quantityMin)
          :: PriceOut(tiers[i].priceType, tiers[i].quantityMin, tiers[i].quantityMax, tiers[i].price)
  }

  function TitleSet(attributes: seq<AttributeIngest>): set<string> {
    set i | 0 <= i < |attributes| && attributes[i].title != "" :: attributes[i].title
  }

  lemma PricesReadBack(t: Tables, k: VariantKey, tiers: seq<TierIngest>)
    requires forall q: PriceKey :: q.variant == k ==> Lookup(t.prices, q) == TierAt(tiers, k, q)
    ensures PricesOf(t, k) == LastTiers(tiers)
  {
    forall x | x in PricesOf(t, k) ensures x in LastTiers(tiers) {
      var q :| q in t.prices && q.variant == k
               && x == PriceOut(q.priceType, q.quantityMin, t.prices[q].quantityMax, t.prices[q].price);
      var i := LastTier(tiers, k, q);
      assert Lookup(t.prices, q) == TierAt(tiers, k, q);
      assert forall j :: i < j < |tiers| ==> TierKey(k, tiers[j]) != TierKey(k, tiers[i]);
    }
    forall x | x in LastTiers(tiers) ensures x in PricesOf(t, k) {
      var i :| 0 <= i < |tiers|
        && x == PriceOut(tiers[i].priceType, tiers[i].quantityMin, tiers[i].quantityMax, tiers[i].price)
               && forall j :: i < j < |tiers| ==>
                    tiers[j].priceType != tiers[i].priceType || tiers[j].quantityMin != tiers[i].quantityMin;
      var q := TierKey(k, tiers[i]);
      assert LastTier(tiers, k, q) == i;
      assert Lookup(t.prices, q) == TierAt(tiers, k, q);
    }
  }

  lemma {:induction false} TitledHas(attributes: seq<AttributeIngest>, title: string)
    ensures HasTitle(Titled(attributes), title) <==> title in TitleSet(attributes)
  {
    hide HasTitle;
    if attributes == [] {
      EmptyTitles(title);
    } else {
      TitledHas(Init(attributes), title);
      HasTitleAppend(Titled(Init(attributes)), Last(attributes), title);
      assert attributes[|attributes| - 1] == Last(attributes);
      assert TitleSet(attributes)
          == TitleSet(Init(attributes)) + if Last(attributes).title != "" then {Last(attributes).title} else {};
      assert Last(attributes).title == "" ==> Titled(attributes) == Titled(Init(attributes));
    }
  }

  lemma EmptyTitles(title: string)
    ensures !HasTitle([], title)
  {
  }

  lemma TitlesReadBack(t: Tables, k: OptionKey, attributes: seq<AttributeIngest>)
    requires forall a: AttributeKey :: a.option == k ==>
               Lookup(t.attributes, a) == Lookup(Inserted(map[], k, Titled(attributes)), a)
    ensures TitlesOf(t, k) == TitleSet(attributes)
  {
    hide Titled, Inserted, TitleSet;
    forall title ensures title in TitlesOf(t, k) <==> title in TitleSet(attributes) {
      var a := AttributeKey(k, title);
      assert Lookup(t.attributes, a) == Lookup(Inserted(map[], k, Titled(attributes)), a);
      InsertedHas(map[], k, Titled(attributes), a);
      TitledHas(attributes, title);
      if title in TitlesOf(t, k) {
        var b :| b in t.attributes && b.option == k && b.title == title;
        assert b == a;
      }
    }
  }

  lemma ImagesReadBack(t: Tables, p: ProductKey, item: ProductIngest, after: Tables, url: string)
    requires after.images == ImagesAfter(t.images, p, item) && p in after.products && LastUrl(item.images, url) >= 0
    ensures var e := BuildSupplierProduct(after, p).value;
            var img := item.images[LastUrl(item.images, url)];
            url in e.images && e.images[url] == ImageOut(img.imageType, img.color)
  {
    hide ImagesInto, PricesOf, TitlesOf, KeysOf;
    ImageLookup(t.images, p, item.images, ImageKey(p, url));
    assert ImageKey(p, url) in after.images && url in UrlsOf(after, p);
  }

  lemma VariantsReadBack(t: Tables, p: ProductKey, item: ProductIngest, after: Tables, sku: string)
    requires StockOf(after) == StockAfter(StockOf(t), p, item.variants) && p in after.products
               && LastSku(item.variants, sku) >= 0
    ensures var e := BuildSupplierProduct(after, p).value;
            var v := item.variants[LastSku(item.variants, sku)];
            BySku(p, sku) in e.variants && e.variants[BySku(p, sku)] == VariantOut(v.color, v.size, LastTiers(v.prices))
  {
    hide StockAfter, LastTiers, PricesOf, TitlesOf, KeysOf, UrlsOf;
    VariantLookup(StockOf(t), p, item.variants, sku);
    PricesReadBack(after, BySku(p, sku), item.variants[LastSku(item.variants, sku)].prices);
  }

  lemma OptionsReadBack(t: Tables, p: ProductKey, item: ProductIngest, after: Tables, key: string)
    requires OptionsOf(after) == Upserted(OptionsOf(t), p, item.options) && p in after.products
               && LastOption(item.options, key) >= 0
    ensures var e := BuildSupplierProduct(after, p).value;
            var o := item.options[LastOption(item.options, key)];
            key in e.options && e.options[key] == OptionOut(o.title, TitleSet(AttributesOf(o.attributes)))
  {
    hide Upserted, TitleSet, PricesOf, TitlesOf, UrlsOf, AttributesOf;
    OptionLookup(OptionsOf(t), p, item.options, OptionKey(p, key));
    assert OptionKey(p, key) in after.options && key in KeysOf(after, p);
    TitlesReadBack(after, OptionKey(p, key), AttributesOf(item.options[LastOption(item.options, key)].attributes));
  }

  /**
   Round trip: after persist_product the export of the product shows the item. The spine is the item's; every listed
   image, variant with a sku and option shows its last entry, with exactly the last tiers and the non-blank titles.
   */
  lemma {:induction false} ExportShowsItem(
    t: Tables, supplier: nat, item: ProductIngest, c: Option<CategoryKey>, now: int)
    ensures var p := ProductKey(supplier, item.supplierSku);
            var after := Persisted(t, supplier, item, c, now);
            BuildSupplierProduct(after, p).Some? &&
            var e := BuildSupplierProduct(after, p).value;
            && e.supplierSku == item.supplierSku && e.name == item.productName && e.brand == item.brand
            && e.description == item.description && e.productType == item.productType && e.category == item.categoryName
            && (forall url :: LastUrl(item.images, url) >= 0 ==>
                  var img := item.images[LastUrl(item.images, url)];
                  url in e.images && e.images[url] == ImageOut(img.imageType, img.color))
            && (forall sku :: LastSku(item.variants, sku) >= 0 ==>
                  var v := item.variants[LastSku(item.variants, sku)];
                  BySku(p, sku) in e.variants
                    && e.variants[BySku(p, sku)] == VariantOut(v.color, v.size, LastTiers(v.prices)))
            && (forall key :: LastOption(item.options, key) >= 0 ==>
                  var o := item.options[LastOption(item.options, key)];
                  key in e.options && e.options[key] == OptionOut(o.title, TitleSet(AttributesOf(o.attributes))))
  {
    hide StockAfter, Upserted, ImagesAfter, SizesAfter, DetailsAfter, LastTiers, TitleSet, PricesOf, TitlesOf, KeysOf,
      UrlsOf;
    var p := ProductKey(supplier, item.supplierSku);
    var after := Persisted(t, supplier, item, c, now);
    forall url | LastUrl(item.images, url) >= 0 {
      ImagesReadBack(t, p, item, after, url);
    }
    forall sku | LastSku(item.variants, sku) >= 0 {
      VariantsReadBack(t, p, item, after, sku);
    }
    forall key | LastOption(item.options, key) >= 0 {
      OptionsReadBack(t, p, item, after, key);
    }
  }

  lemma PriceShown(t: Tables, k: VariantKey, x: PriceOut)
    ensures x in PricesOf(t, k) <==>
              var q := PriceKey(k, x.priceType, x.quantityMin);
              q in t.prices && t.prices[q] == Price(x.quantityMax, x.price)
  {
    var q := PriceKey(k, x.priceType, x.quantityMin);
    if q in t.prices && t.prices[q] == Price(x.quantityMax, x.price) {
      assert PriceOut(q.priceType, q.quantityMin, t.prices[q].quantityMax, t.prices[q].price) == x;
    }
  }

  /** The export shows the rows of the product that are stored, each under its key, and no others. */
  lemma ExportIsStored(t: Tables, p: ProductKey)
    ensures BuildSupplierProduct(t, p).None? <==> p !in t.products
    ensures p in t.products ==>
              var e := BuildSupplierProduct(t, p).value;
              && (forall url :: url in e.images <==> ImageKey(p, url) in t.images)
              && (forall key :: key in e.options <==> OptionKey(p, key) in t.options)
              && (forall k :: k in e.variants <==> k in t.variants && k.product == p)
              && (forall key, title :: key in e.options ==>
                    (title in e.options[key].attributes <==> AttributeKey(OptionKey(p, key), title) in t.attributes))
              && (forall k, x :: k in e.variants ==>
                    (x in e.variants[k].prices <==>
                       var q := PriceKey(k, x.priceType, x.quantityMin);
                       q in t.prices && t.prices[q] == Price(x.quantityMax, x.price)))
              && (forall k :: k in e.variants ==>
                    e.variants[k].color == t.variants[k].color && e.variants[k].size == t.variants[k].size)
  {
    if p in t.products {
      var e := BuildSupplierProduct(t, p).value;
      forall url ensures url in e.images <==> ImageKey(p, url) in t.images {
        if ImageKey(p, url) in t.images { assert url in UrlsOf(t, p); }
      }
      forall key ensures key in e.options <==> OptionKey(p, key) in t.options {
        if OptionKey(p, key) in t.options { assert key in KeysOf(t, p); }
      }
      forall key, title | key in e.options
        ensures title in e.options[key].attributes <==> AttributeKey(OptionKey(p, key), title) in t.attributes
      {
        var a := AttributeKey(OptionKey(p, key), title);
        if a in t.attributes { assert a.title in TitlesOf(t, OptionKey(p, key)); }
      }
      forall k, x: PriceOut | k in e.variants
        ensures x in e.variants[k].prices <==>
                  var q := PriceKey(k, x.priceType, x.quantityMin);
                  q in t.prices && t.prices[q] == Price(x.quantityMax, x.price)
      {
        PriceShown(t, k, x);
      }
    }
  }

  // ---------------------------------------------------------------- batches

  datatype PushResult =
    | Pushed(sent: nat, skipped: nat, batches: seq<seq<Export>>)
    | BadGateway(accepted: seq<seq<Export>>)

  /** The products that have options, in query order; the others need a derivation first. */
  function Exportable(products: seq<Export>): seq<Export> {
    if products == [] then []
    else Exportable(Init(products)) + if Last(products).options != map[] then [Last(products)] else []
  }

  function Flatten(batches: seq<seq<Export>>): seq<Export> {
    if batches == [] then [] else Flatten(Init(batches)) + Last(batches)
  }

  /** The buffer is posted once it holds this many products: a limit below one posts them singly. */
  function BatchSize(batch: int): nat {
    if batch >= 1 then batch else 1
  }

  lemma FlattenAppend(batches: seq<seq<Export>>, last: seq<Export>)
    ensures Flatten(batches + [last]) == Flatten(batches) + last
  {
    assert Init(batches + [last]) == batches;
  }

  /**
   push_products_to_graphx. Accepted batches concatenate to the exportable products in order, all full but the last;
   the first refusal ends the push with the batches before it already delivered.
   */
  method PushProductsToGraphx(products: seq<Export>, batch: int, accepts: seq<Export> -> bool) returns (r: PushResult)
    ensures r.Pushed? ==>
              && Flatten(r.batches) == Exportable(products)
              && r.sent == |Exportable(products)| && r.sent + r.skipped == |products|
              && (forall i :: 0 <= i < |r.batches| ==> accepts(r.batches[i]) && 0 < |r.batches[i]| <= BatchSize(batch))
              && (forall i :: 0 <= i < |r.batches| - 1 ==> |r.batches[i]| == BatchSize(batch))
    ensures r.BadGateway? ==>
              && Flatten(r.accepted) <= Exportable(products)
              && (forall i :: 0 <= i < |r.accepted| ==> accepts(r.accepted[i]) && |r.accepted[i]| == BatchSize(batch))
              && exists refused :: refused != [] && !accepts(refused)
                   && Flatten(r.accepted) + refused <= Exportable(products)
  {
    hide Exportable, Flatten;
    Empty();
    var sent, skipped := 0, 0;
    var batches: seq<seq<Export>>, buf: seq<Export> := [], [];
    for i := 0 to |products|
      invariant Flatten(batches) + buf == Exportable(products[..i])
      invariant |buf| < BatchSize(batch) && sent == |Flatten(batches)| && sent + |buf| + skipped == i
      invariant forall j :: 0 <= j < |batches| ==> accepts(batches[j]) && |batches[j]| == BatchSize(batch)
    {
      OneMore(products, i);
      ExportablePrefix(products, i + 1);
      if products[i].options == map[] {
        skipped := skipped + 1;
        continue;
      }
      assert Exportable(products[..i + 1]) == Flatten(batches) + (buf + [products[i]]);
      buf := buf + [products[i]];
      if |buf| >= batch {
        if !accepts(buf) {
          return BadGateway(batches);
        }
        FlattenAppend(batches, buf);
        batches := batches + [buf];
        sent := sent + |buf|;
        buf := [];
      }
    }
    assert products[..|products|] == products;
    if buf != [] {
      if !accepts(buf) {
        return BadGateway(batches);
      }
      FlattenAppend(batches, buf);
      batches := batches + [buf];
      sent := sent + |buf|;
    }
    r := Pushed(sent, skipped, batches);
  }

  lemma Empty()
    ensures Flatten([]) == [] && Exportable([]) == []
  {
  }

  lemma OneMore(products: seq<Export>, i: nat)
    requires i < |products|
    ensures Exportable(products[..i + 1])
         == Exportable(products[..i]) + if products[i].options != map[] then [products[i]] else []
  {
    assert Init(products[..i + 1]) == products[..i];
  }

  lemma {:induction false} ExportablePrefix(products: seq<Export>, n: nat)
    requires n <= |products|
    ensures Exportable(products[..n]) <= Exportable(products)
    decreases |products|
  {
    if n == |products| {
      assert products[..n] == products;
    } else {
      assert Init(products)[..n] == products[..n];
      ExportablePrefix(Init(products), n);
    }
  }
}
