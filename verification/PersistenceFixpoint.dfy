/**
 What persist_product leaves behind when it is repeated: last occurrences win, stale tiers and
 attributes go, and the store settles from the second run on.
 */
module PersistenceFixpoint {
  import opened Prelude
  import opened Schema
  import opened OptionUpsert
  import opened Persistence
  import opened PersistenceLaws

  // ---------------------------------------------------------------- tiers: the last one of each key wins

  function LastTier(tiers: seq<TierIngest>, k: VariantKey, q: PriceKey): int {
    LastWhere(tiers, (x: TierIngest) => TierKey(k, x) == q)
  }

  lemma {:induction false} TierLookup(prices: map<PriceKey, Price>, k: VariantKey, tiers: seq<TierIngest>, q: PriceKey)
    ensures var i := LastTier(tiers, k, q);
            Lookup(TiersInto(prices, k, tiers), q)
            == if i >= 0 then Some(Price(tiers[i].quantityMax, tiers[i].price)) else Lookup(prices, q)
  {
    if tiers != [] {
      TierLookup(prices, k, Init(tiers), q);
    }
  }

  function TierAt(tiers: seq<TierIngest>, k: VariantKey, q: PriceKey): Option<Price> {
    var i := LastTier(tiers, k, q);
    if i >= 0 then Some(Price(tiers[i].quantityMax, tiers[i].price)) else None
  }

  // ---------------------------------------------------------------- variants: the last one of each sku wins

  function LastSku(given: seq<VariantIngest>, sku: string): int {
    LastWhere(given, (x: VariantIngest) => x.sku == Some(sku))
  }

  /** Every column of a variant, as an entry gives it. */
  predicate Stocks(row: Variant, v: VariantIngest) {
    && row.color == v.color && row.size == v.size && row.partId == Some(v.partId) && row.basePrice == v.basePrice
    && row.inventory == v.inventory && row.warehouse == v.warehouse
  }

  lemma VariantColumns(v: VariantIngest)
    ensures Stocks(VariantRow(v), v)
  {
  }

  /** One written variant with a sku: its columns, and its tiers with no stale one left. */
  lemma {:induction false} VariantLookup(s: Stock, p: ProductKey, given: seq<VariantIngest>, sku: string)
    ensures var k := BySku(p, sku);
            var i := LastSku(given, sku);
            var after := StockAfter(s, p, given);
            && (if i >= 0 then k in after.variants && Stocks(after.variants[k], given[i])
                else Lookup(after.variants, k) == Lookup(s.variants, k))
            && forall q: PriceKey :: q.variant == k ==>
                 Lookup(after.prices, q) == if i >= 0 then TierAt(given[i].prices, k, q) else Lookup(s.prices, q)
  {
    hide TiersInto, VariantRow, Stocks;
    if given != [] {
      VariantLookup(s, p, Init(given), sku);
      VariantColumns(Last(given));
      var before := StockAfter(s, p, Init(given));
      var v := Last(given);
      var k := BySku(p, sku);
      forall q: PriceKey | q.variant == k
        ensures Lookup(StockStep(before, p, v).prices, q)
                == if v.sku == Some(sku) then TierAt(v.prices, k, q) else Lookup(before.prices, q)
      {
        TierLookup(WithoutPrices(before.prices, KeyOf(before.serials, p, v)), KeyOf(before.serials, p, v), v.prices, q);
      }
    }
  }

  /** Every other row of a key with a sku, or of another product, is left alone. */
  lemma {:induction false} OtherVariants(s: Stock, p: ProductKey, given: seq<VariantIngest>, k: VariantKey)
    requires k.product != p || (k.NoSku? && forall i :: 0 <= i < |given| ==> given[i].sku.Some?)
    ensures var after := StockAfter(s, p, given);
            && Lookup(after.variants, k) == Lookup(s.variants, k)
            && (forall q: PriceKey :: q.variant == k ==> Lookup(after.prices, q) == Lookup(s.prices, q))
            && ((forall i :: 0 <= i < |given| ==> given[i].sku.Some?) ==> after.serials == s.serials)
  {
    hide TiersInto, VariantRow;
    if given != [] {
      OtherVariants(s, p, Init(given), k);
      var before := StockAfter(s, p, Init(given));
      var v := Last(given);
      assert k.NoSku? && k.product == p ==> v.sku.Some?;
      forall q: PriceKey | q.variant == k
        ensures Lookup(StockStep(before, p, v).prices, q) == Lookup(before.prices, q)
      {
        TierLookup(WithoutPrices(before.prices, KeyOf(before.serials, p, v)), KeyOf(before.serials, p, v), v.prices, q);
      }
    }
  }

  /** A second pass over the same variants finds every row and tier with a sku as the first pass left it. */
  lemma VariantsSettle(s: Stock, p: ProductKey, given: seq<VariantIngest>, k: VariantKey)
    requires k.BySku?
    ensures var once := StockAfter(s, p, given);
            var twice := StockAfter(once, p, given);
            && Lookup(twice.variants, k) == Lookup(once.variants, k)
            && forall q: PriceKey :: q.variant == k ==> Lookup(twice.prices, q) == Lookup(once.prices, q)
  {
    hide StockAfter;
    var once := StockAfter(s, p, given);
    if k.product == p {
      VariantLookup(s, p, given, k.sku);
      VariantLookup(once, p, given, k.sku);
    } else {
      OtherVariants(once, p, given, k);
    }
  }

  lemma StockSettles(s: Stock, p: ProductKey, given: seq<VariantIngest>)
    requires forall i :: 0 <= i < |given| ==> given[i].sku.Some?
    ensures StockAfter(StockAfter(s, p, given), p, given) == StockAfter(s, p, given)
  {
    hide StockAfter;
    var once := StockAfter(s, p, given);
    var twice := StockAfter(once, p, given);
    forall k: VariantKey ensures Lookup(twice.variants, k) == Lookup(once.variants, k) {
      if k.BySku? { VariantsSettle(s, p, given, k); } else { OtherVariants(once, p, given, k); }
    }
    SameMaps(twice.variants, once.variants);
    forall q: PriceKey ensures Lookup(twice.prices, q) == Lookup(once.prices, q) {
      if q.variant.BySku? { VariantsSettle(s, p, given, q.variant); } else { OtherVariants(once, p, given, q.variant); }
    }
    SameMaps(twice.prices, once.prices);
    OtherVariants(once, p, given, NoSku(p, 0));
  }

  // ---------------------------------------------------------------- variants without a sku pile up

  function Skuless(variants: map<VariantKey, Variant>, p: ProductKey): set<VariantKey> {
    set k | k in variants && k.NoSku? && k.product == p
  }

  function CountSkuless(given: seq<VariantIngest>): nat {
    if given == [] then 0 else CountSkuless(Init(given)) + if Last(given).sku.None? then 1 else 0
  }

  /** Each run adds one row for every variant without a sku, and keeps the rows that were there. */
  lemma {:induction false} SkulessGrow(s: Stock, p: ProductKey, given: seq<VariantIngest>)
    requires forall k :: k in s.variants && k.NoSku? && k.product == p ==> k.serial < Serial(s.serials, p)
    ensures var after := StockAfter(s, p, given);
            && (forall k :: k in after.variants && k.NoSku? && k.product == p ==> k.serial < Serial(after.serials, p))
            && |Skuless(after.variants, p)| == |Skuless(s.variants, p)| + CountSkuless(given)
            && (forall k :: k in Skuless(s.variants, p) ==> Lookup(after.variants, k) == Lookup(s.variants, k))
  {
    hide StockStep, Skuless;
    if given != [] {
      SkulessGrow(s, p, Init(given));
      SkulessStep(StockAfter(s, p, Init(given)), p, Last(given));
      forall k | k in Skuless(s.variants, p)
        ensures Lookup(StockAfter(s, p, given).variants, k) == Lookup(s.variants, k)
      {
        InSkuless(s.variants, StockAfter(s, p, Init(given)).variants, p, k);
      }
    }
  }

  lemma InSkuless(m: map<VariantKey, Variant>, n: map<VariantKey, Variant>, p: ProductKey, k: VariantKey)
    requires k in Skuless(m, p) && Lookup(n, k) == Lookup(m, k)
    ensures k in Skuless(n, p)
  {
  }

  /** The key of the row that the i-th variant gets if it has no sku: the next serial at its turn. */
  function SkulessKey(s: Stock, p: ProductKey, given: seq<VariantIngest>, i: nat): VariantKey
    requires i < |given|
  {
    NoSku(p, Serial(s.serials, p) + CountSkuless(given[..i]))
  }

  lemma {:induction false} SerialAfter(s: Stock, p: ProductKey, given: seq<VariantIngest>)
    ensures Serial(StockAfter(s, p, given).serials, p) == Serial(s.serials, p) + CountSkuless(given)
  {
    hide TiersInto, VariantRow, WithoutPrices;
    if given != [] {
      SerialAfter(s, p, Init(given));
    }
  }

  /** The row that a variant without a sku adds: its columns, and exactly its tiers. */
  lemma {:induction false} SkulessRow(s: Stock, p: ProductKey, given: seq<VariantIngest>, i: nat)
    requires i < |given| && given[i].sku.None?
    ensures var k := SkulessKey(s, p, given, i);
            var after := StockAfter(s, p, given);
            && k in after.variants && Stocks(after.variants[k], given[i])
            && forall q: PriceKey :: q.variant == k ==> Lookup(after.prices, q) == TierAt(given[i].prices, k, q)
  {
    hide TiersInto, VariantRow, Stocks, TierAt;
    var before := StockAfter(s, p, Init(given));
    var v := Last(given);
    var k := SkulessKey(s, p, given, i);
    var written := KeyOf(before.serials, p, v);
    SerialAfter(s, p, Init(given));
    VariantColumns(v);
    forall q: PriceKey | q.variant == k
      ensures Lookup(StockStep(before, p, v).prices, q)
              == if written == k then TierAt(v.prices, k, q) else Lookup(before.prices, q)
    {
      TierRow(WithoutPrices(before.prices, written), written, v.prices, q);
    }
    if i < |given| - 1 {
      SkulessRow(s, p, Init(given), i);
      assert Init(given)[..i] == given[..i];
      CountsGrow(Init(given), i);
    } else {
      assert Init(given) == given[..i];
    }
  }

  lemma TierRow(prices: map<PriceKey, Price>, k: VariantKey, tiers: seq<TierIngest>, q: PriceKey)
    ensures q.variant == k && q !in prices ==> Lookup(TiersInto(prices, k, tiers), q) == TierAt(tiers, k, q)
    ensures q.variant != k ==> Lookup(TiersInto(prices, k, tiers), q) == Lookup(prices, q)
  {
    TierLookup(prices, k, tiers, q);
  }

  lemma {:induction false} CountsGrow(given: seq<VariantIngest>, i: nat)
    requires i < |given| && given[i].sku.None?
    ensures CountSkuless(given[..i]) < CountSkuless(given)
  {
    if i < |given| - 1 {
      assert Init(given)[..i] == given[..i];
      CountsGrow(Init(given), i);
    } else {
      assert Init(given) == given[..i];
    }
  }

  lemma SkulessStep(s: Stock, p: ProductKey, v: VariantIngest)
    requires forall k :: k in s.variants && k.NoSku? && k.product == p ==> k.serial < Serial(s.serials, p)
    ensures var after := StockStep(s, p, v);
            && (forall k :: k in after.variants && k.NoSku? && k.product == p ==> k.serial < Serial(after.serials, p))
            && |Skuless(after.variants, p)| == |Skuless(s.variants, p)| + (if v.sku.None? then 1 else 0)
            && (forall k :: k in Skuless(s.variants, p) ==> Lookup(after.variants, k) == Lookup(s.variants, k))
  {
    hide TiersInto, VariantRow, WithoutPrices;
    var after := StockStep(s, p, v);
    var k := KeyOf(s.serials, p, v);
    assert Skuless(after.variants, p) == if k.NoSku? then Skuless(s.variants, p) + {k} else Skuless(s.variants, p);
  }

  // ---------------------------------------------------------------- sizes

  lemma {:induction false} SizesKeepOthers(m: map<SizeKey, Size>, p: ProductKey, given: seq<SizeIngest>)
    ensures WithoutSizes(SizesInto(m, p, given), p) == WithoutSizes(m, p)
  {
    if given != [] {
      SizesKeepOthers(m, p, Init(given));
    }
  }

  /** A product's sizes after an upsert: untouched by an empty list, else exactly the listed ones, column by column. */
  lemma {:induction false} SizeLookup(m: map<SizeKey, Size>, p: ProductKey, given: seq<SizeIngest>, k: SizeKey)
    ensures var i := LastWhere(given, (x: SizeIngest) => x.width == k.width && x.height == k.height);
            Lookup(SizesAfter(m, p, given), k)
            == if given == [] || k.product != p then Lookup(m, k)
               else if i >= 0 then Some(Size(given[i].unit, given[i].title))
               else None
  {
    SizesIntoAt(WithoutSizes(m, p), p, given, k);
  }

  lemma {:induction false} SizesIntoAt(m: map<SizeKey, Size>, p: ProductKey, given: seq<SizeIngest>, k: SizeKey)
    ensures Lookup(SizesInto(m, p, given), k) == SizeOr(m, p, given, k)
  {
    if given != [] {
      SizesIntoAt(m, p, Init(given), k);
    }
  }

  function SizeOr(m: map<SizeKey, Size>, p: ProductKey, given: seq<SizeIngest>, k: SizeKey): Option<Size> {
    var i := LastWhere(given, (x: SizeIngest) => x.width == k.width && x.height == k.height);
    if k.product == p && i >= 0 then Some(Size(given[i].unit, given[i].title)) else Lookup(m, k)
  }

  lemma SizesSettle(m: map<SizeKey, Size>, p: ProductKey, given: seq<SizeIngest>)
    ensures SizesAfter(SizesAfter(m, p, given), p, given) == SizesAfter(m, p, given)
  {
    SizesKeepOthers(WithoutSizes(m, p), p, given);
    assert WithoutSizes(WithoutSizes(m, p), p) == WithoutSizes(m, p);
  }

  // ---------------------------------------------------------------- images

  function LastUrl(given: seq<ImageIngest>, url: string): int {
    LastWhere(given, (x: ImageIngest) => x.url == url)
  }

  /** What a given image leaves when a row for it is already there: its own columns on top of the kept ones. */
  function Overwritten(mirroredAt: Option<int>, opsFilename: Option<string>, img: ImageIngest, idx: nat): Image {
    Image(img.supplierImageUrl, img.imageType, img.color, if img.sortOrder != 0 then img.sortOrder else idx,
          img.checksum, mirroredAt, opsFilename)
  }

  predicate Fresh(images: map<ImageKey, Image>, k: ImageKey, given: seq<ImageIngest>) {
    && k !in images
    && LastUrl(given, k.url) >= 0
    && forall j :: 0 <= j < LastUrl(given, k.url) ==> given[j].url != k.url
  }

  lemma {:induction false} ImageLookup(m: map<ImageKey, Image>, p: ProductKey, given: seq<ImageIngest>, k: ImageKey)
    ensures var i := LastUrl(given, k.url);
            var kept := Lookup(m, k);
            Lookup(ImagesInto(m, p, given), k)
            == if k.product != p || i < 0 then kept
               else if Fresh(m, k, given) then
                 Some(Image(given[i].supplierImageUrl, given[i].imageType, given[i].color, given[i].sortOrder,
                            given[i].checksum, None, None))
               else Some(Overwritten(if kept.Some? then kept.value.mirroredAt else None,
                                     if kept.Some? then kept.value.opsFilename else None, given[i], i))
  {
    if given != [] {
      ImageLookup(m, p, Init(given), k);
      assert forall j :: 0 <= j < |given| - 1 ==> Init(given)[j] == given[j];
      assert LastUrl(Init(given), k.url) >= 0 ==> given[LastUrl(Init(given), k.url)].url == k.url;
    }
  }

  /** Without a list, a product image URL seeds one front image at order zero, unless that image is already there. */
  lemma SeededImage(m: map<ImageKey, Image>, p: ProductKey, item: ProductIngest, k: ImageKey)
    requires item.images == []
    ensures Lookup(ImagesAfter(m, p, item), k)
         == if item.imageUrl == Some(k.url) && k.url != "" && k.product == p && k !in m
            then Some(Image(Some(k.url), "front", None, 0, None, None, None))
            else Lookup(m, k)
  {
  }

  /**
   The images whose sort order a second run still changes: newly inserted, listed once, at order zero and not first.
   */
  predicate Restamped(m: map<ImageKey, Image>, p: ProductKey, given: seq<ImageIngest>, k: ImageKey) {
    && k.product == p
    && Fresh(m, k, given)
    && given[LastUrl(given, k.url)].sortOrder == 0
    && LastUrl(given, k.url) != 0
  }

  /** The second run differs from the first exactly in the sort order of the restamped images. */
  lemma ImagesSecondRun(m: map<ImageKey, Image>, p: ProductKey, item: ProductIngest, k: ImageKey)
    ensures var once := ImagesAfter(m, p, item);
            var twice := ImagesAfter(once, p, item);
            var restamped := Restamped(m, p, item.images, k);
            && (k in twice <==> k in once)
            && (k in once ==>
                 twice[k] == if restamped then once[k].(sortOrder := LastUrl(item.images, k.url)) else once[k])
            && (restamped ==> k in once && once[k].sortOrder == 0 != LastUrl(item.images, k.url))
  {
    hide ImagesInto;
    ImageLookup(m, p, item.images, k);
    ImageLookup(ImagesInto(m, p, item.images), p, item.images, k);
  }

  lemma ImagesSettle(m: map<ImageKey, Image>, p: ProductKey, item: ProductIngest)
    ensures var twice := ImagesAfter(ImagesAfter(m, p, item), p, item);
            ImagesAfter(twice, p, item) == twice
  {
    hide ImagesInto;
    var once := ImagesInto(m, p, item.images);
    var twice := ImagesInto(once, p, item.images);
    var thrice := ImagesInto(twice, p, item.images);
    forall k ensures Lookup(thrice, k) == Lookup(twice, k) {
      ImageLookup(m, p, item.images, k);
      ImageLookup(once, p, item.images, k);
      ImageLookup(twice, p, item.images, k);
    }
    SameMaps(thrice, twice);
  }

  // ---------------------------------------------------------------- options and attributes

  function LastOption(given: seq<OptionIngest>, key: string): int {
    LastWhere(given, (x: OptionIngest) => x.optionKey == key)
  }

  /** The first entry with the key; the length of the list if there is none. */
  function FirstOption(given: seq<OptionIngest>, key: string): (i: nat)
    ensures i <= |given|
    ensures i < |given| ==> given[i].optionKey == key
    ensures forall j :: 0 <= j < i ==> given[j].optionKey != key
  {
    if given == [] || given[0].optionKey == key then 0 else 1 + FirstOption(given[1..], key)
  }

  /** The columns an upsert never changes on an existing option. */
  function Owned(row: ProductOption): (int, bool, Option<int>) {
    (row.status, row.enabled, row.overriddenSort)
  }

  /** The columns an upsert always writes. */
  predicate Describes(row: ProductOption, o: OptionIngest) {
    && row.title == o.title && row.optionsType == o.optionsType && row.sortOrder == o.sortOrder
    && row.masterOptionId == o.masterOptionId && row.opsOptionId == o.opsOptionId && row.required == o.required
  }

  /** Together they are the whole row. */
  lemma SameColumns(a: ProductOption, b: ProductOption, o: OptionIngest)
    requires Describes(a, o) && Describes(b, o) && Owned(a) == Owned(b)
    ensures a == b
  {
  }

  /** One option after the upserts: its columns from its last entry, its own state kept, its attributes replaced. */
  lemma {:induction false} OptionLookup(t: OptionTables, p: ProductKey, given: seq<OptionIngest>, k: OptionKey)
    ensures var i := LastOption(given, k.key);
            var after := Upserted(t, p, given);
            && (k.product != p || i < 0 ==>
                  && Lookup(after.options, k) == Lookup(t.options, k)
                  && forall a: AttributeKey :: a.option == k ==> Lookup(after.attributes, a) == Lookup(t.attributes, a))
            && (k.product == p && i >= 0 ==>
                  && k in after.options
                  && Describes(after.options[k], given[i])
                  && (k in t.options ==> Owned(after.options[k]) == Owned(t.options[k]))
                  && (k !in t.options ==>
                       Owned(after.options[k]) == (1, given[FirstOption(given, k.key)].enabled, None))
                  && forall a: AttributeKey :: a.option == k ==>
                       Lookup(after.attributes, a)
                       == Lookup(Inserted(map[], k, Titled(AttributesOf(given[i].attributes))), a))
  {
    hide Inserted, Titled, UpsertedOne, Describes, Owned;
    if given != [] {
      OptionLookup(t, p, Init(given), k);
      OptionStep(Upserted(t, p, Init(given)), p, Last(given), k);
      FirstOptionOfInit(given, k.key);
    }
  }

  lemma FirstOptionOfInit(given: seq<OptionIngest>, key: string)
    requires given != []
    ensures var f := FirstOption(Init(given), key);
            FirstOption(given, key) == if f < |given| - 1 then f
                                       else if Last(given).optionKey == key then |given| - 1
                                       else |given|
  {
    var f, g := FirstOption(Init(given), key), FirstOption(given, key);
    assert forall j :: 0 <= j < |given| - 1 ==> Init(given)[j] == given[j];
    assert f < |given| - 1 ==> given[f].optionKey == key;
    assert g < |given| - 1 ==> Init(given)[g].optionKey == key;
  }

  /** The same for one entry. */
  lemma OptionStep(t: OptionTables, p: ProductKey, o: OptionIngest, k: OptionKey)
    ensures var after := UpsertedOne(t, p, o);
            && (k != OptionKey(p, o.optionKey) ==>
                  && Lookup(after.options, k) == Lookup(t.options, k)
                  && forall a: AttributeKey :: a.option == k ==> Lookup(after.attributes, a) == Lookup(t.attributes, a))
            && (k == OptionKey(p, o.optionKey) ==>
                  && k in after.options
                  && Describes(after.options[k], o)
                  && Owned(after.options[k]) == (if k in t.options then Owned(t.options[k]) else (1, o.enabled, None))
                  && forall a: AttributeKey :: a.option == k ==>
                       Lookup(after.attributes, a)
                       == Lookup(Inserted(map[], k, Titled(AttributesOf(o.attributes))), a))
  {
    hide Inserted, Titled;
    var written := OptionKey(p, o.optionKey);
    var titled := Titled(AttributesOf(o.attributes));
    var cleared := WithoutAttributes(t.attributes, written);
    forall a: AttributeKey | a.option == k
      ensures k != written ==> Lookup(UpsertedOne(t, p, o).attributes, a) == Lookup(t.attributes, a)
      ensures k == written ==> Lookup(UpsertedOne(t, p, o).attributes, a) == Lookup(Inserted(map[], k, titled), a)
    {
      InsertedOn(cleared, if k == written then map[] else cleared, written, titled, a);
    }
  }

  lemma {:induction false} InsertedAreNew(k: OptionKey, titled: seq<AttributeIngest>, a: AttributeKey)
    requires a in Inserted(map[], k, titled)
    ensures var row := Inserted(map[], k, titled)[a];
            !row.enabled && row.overriddenSort == None && row.numericValue == None && row.status == 1
  {
    if titled != [] && a != AttributeKey(k, Last(titled).title) {
      InsertedAreNew(k, Init(titled), a);
    }
  }

  /**
   Unlike an option's, an attribute's own state does not survive: every upsert of the option stores its attributes
   disabled.
   */
  lemma AttributeStateIsReset(t: OptionTables, p: ProductKey, given: seq<OptionIngest>, a: AttributeKey)
    requires a.option.product == p && LastOption(given, a.option.key) >= 0
    requires a in Upserted(t, p, given).attributes
    ensures var row := Upserted(t, p, given).attributes[a];
            !row.enabled && row.overriddenSort == None && row.numericValue == None && row.status == 1
  {
    hide Upserted, Inserted;
    OptionLookup(t, p, given, a.option);
    InsertedAreNew(a.option, Titled(AttributesOf(given[LastOption(given, a.option.key)].attributes)), a);
  }

  /** Every column of an attribute, as an entry gives it or as a new row has it. */
  predicate Carries(row: Attribute, a: AttributeIngest) {
    && row.sortOrder == a.sortOrder && row.opsAttributeId == a.opsAttributeId
    && row.masterAttributeId == a.masterAttributeId && row.attributeKey == a.attributeKey
    && row.multiplier == a.multiplier && row.setupCost == a.setupCost && row.price == a.price
    && row.status == 1 && !row.enabled && row.numericValue == None && row.overriddenSort == None
  }

  /** The list that a payload comes to: text that parses to a list counts as that list, anything else as none. */
  function ListedIn(payload: AttributePayload): seq<AttributeIngest> {
    if payload.Listed? then payload.attributes
    else if payload.JsonText? && payload.parsed.Some? then payload.parsed.value
    else []
  }

  lemma {:induction false} InsertedAt(k: OptionKey, attributes: seq<AttributeIngest>, a: AttributeKey)
    requires a.option == k
    ensures var rows := Inserted(map[], k, Titled(attributes));
            var j := LastTitle(attributes, a.title);
            && (a in rows <==> a.title != "" && j >= 0)
            && (a in rows ==> Carries(rows[a], attributes[j]))
  {
    hide Carries, AttributeRow;
    if attributes != [] {
      InsertedAt(k, Init(attributes), a);
      AttributeColumns(Last(attributes));
      var before := Titled(Init(attributes));
      if Last(attributes).title != "" {
        assert Titled(attributes) == before + [Last(attributes)];
        assert Init(before + [Last(attributes)]) == before;
      } else {
        assert Titled(attributes) == before;
      }
      var i := LastTitle(Init(attributes), a.title);
      assert i >= 0 ==> Init(attributes)[i] == attributes[i];
    }
  }

  lemma AttributeColumns(a: AttributeIngest)
    ensures Carries(AttributeRow(a), a)
  {
  }

  /** The attributes of an upserted option: one for each non-blank title of its last entry, column by column. */
  lemma AttributeLookup(t: OptionTables, p: ProductKey, given: seq<OptionIngest>, a: AttributeKey)
    requires a.option.product == p && LastOption(given, a.option.key) >= 0
    ensures var rows := Upserted(t, p, given).attributes;
            var listed := ListedIn(given[LastOption(given, a.option.key)].attributes);
            var j := LastTitle(listed, a.title);
            && (a in rows <==> a.title != "" && j >= 0)
            && (a in rows ==> Carries(rows[a], listed[j]))
  {
    hide Upserted, Inserted, Titled, Carries, LastTitle;
    var listed := AttributesOf(given[LastOption(given, a.option.key)].attributes);
    OptionLookup(t, p, given, a.option);
    InsertedAt(a.option, listed, a);
    assert Lookup(Upserted(t, p, given).attributes, a) == Lookup(Inserted(map[], a.option, Titled(listed)), a);
  }

  /** The columns of an attribute that no payload carries. */
  function AttributeState(row: Attribute): (bool, Option<int>, Option<real>, int) {
    (row.enabled, row.overriddenSort, row.numericValue, row.status)
  }

  /** Exactly when a stored attribute keeps its state: its option is not upserted, or it had the state of a new one. */
  lemma AttributeStateKeptIff(t: OptionTables, p: ProductKey, given: seq<OptionIngest>, a: AttributeKey)
    requires a in t.attributes && a in Upserted(t, p, given).attributes
    ensures AttributeState(Upserted(t, p, given).attributes[a]) == AttributeState(t.attributes[a])
       <==> || a.option.product != p || LastOption(given, a.option.key) < 0
            || AttributeState(t.attributes[a]) == (false, None, None, 1)
  {
    hide Upserted, Inserted;
    OptionLookup(t, p, given, a.option);
    if a.option.product == p && LastOption(given, a.option.key) >= 0 {
      AttributeStateIsReset(t, p, given, a);
    } else {
      assert Lookup(Upserted(t, p, given).attributes, a) == Lookup(t.attributes, a);
    }
  }

  lemma {:induction false} TitledHas(attributes: seq<AttributeIngest>, title: string)
    requires title != ""
    ensures HasTitle(Titled(attributes), title) <==> HasTitle(attributes, title)
  {
    if attributes != [] {
      TitledHas(Init(attributes), title);
      InitLast(attributes);
      HasTitleAppend(Init(attributes), Last(attributes), title);
      HasTitleAppend(Titled(Init(attributes)), Last(attributes), title);
      assert Titled(attributes) == if Last(attributes).title != "" then Titled(Init(attributes)) + [Last(attributes)]
                                   else Titled(Init(attributes));
    }
  }

  lemma OptionsSettle(t: OptionTables, p: ProductKey, given: seq<OptionIngest>)
    ensures Upserted(Upserted(t, p, given), p, given) == Upserted(t, p, given)
  {
    hide Upserted, Inserted, Titled;
    var once := Upserted(t, p, given);
    var twice := Upserted(once, p, given);
    forall k: OptionKey ensures Lookup(twice.options, k) == Lookup(once.options, k) {
      OptionLookup(t, p, given, k);
      OptionLookup(once, p, given, k);
      if k.product == p && LastOption(given, k.key) >= 0 {
        SameColumns(twice.options[k], once.options[k], given[LastOption(given, k.key)]);
      }
    }
    SameMaps(twice.options, once.options);
    forall a: AttributeKey ensures Lookup(twice.attributes, a) == Lookup(once.attributes, a) {
      OptionLookup(t, p, given, a.option);
      OptionLookup(once, p, given, a.option);
    }
    SameMaps(twice.attributes, once.attributes);
  }

  // ---------------------------------------------------------------- the spine: the last entry of each product wins

  datatype EntryKind = AnyEntry | WithApparel | WithPrint

  predicate IsOf(e: Entry, supplier: nat, q: ProductKey, kind: EntryKind) {
    && ProductKey(supplier, e.item.supplierSku) == q
    && (kind.WithApparel? ==> e.item.apparelDetails.Some?)
    && (kind.WithPrint? ==> e.item.printDetails.Some?)
  }

  function LastProduct(batch: seq<Entry>, supplier: nat, q: ProductKey, kind: EntryKind): int {
    LastWhere(batch, (x: Entry) => IsOf(x, supplier, q, kind))
  }

  /** The columns no upsert ever changes on a stored product. */
  function Untouched(row: Product): (Option<int>, Option<int>, Option<int>) {
    (row.archivedAt, row.lastImageFetchAt, row.lastImageFetchAttemptAt)
  }

  /** Every other column, as an entry gives it. */
  predicate Presents(row: Product, e: Entry) {
    && row.name == e.item.productName && row.brand == e.item.brand && row.category == e.item.categoryName
    && row.categoryId == e.categoryId && row.description == e.item.description
    && row.productType == e.item.productType && row.imageUrl == e.item.imageUrl
    && row.opsProductId == e.item.opsProductId && row.externalCatalogue == e.item.externalCatalogue
    && row.lastSynced == Some(e.now)
  }

  /**
   One product after a batch: its columns from its last entry, but whether it is archived and when its image was
   fetched as they were; untouched if no entry names it.
   */
  lemma {:induction false} ProductLookup(t: Tables, supplier: nat, batch: seq<Entry>, q: ProductKey)
    ensures var i := LastProduct(batch, supplier, q, AnyEntry);
            var after := BatchAfter(t, supplier, batch).products;
            if i < 0 then Lookup(after, q) == Lookup(t.products, q)
            else
              && q in after && Presents(after[q], batch[i])
              && Untouched(after[q]) == if q in t.products then Untouched(t.products[q]) else (None, None, None)
  {
    hide Persisted, Presents, ProductRow, Untouched;
    if batch != [] {
      ProductLookup(t, supplier, Init(batch), q);
      var before := BatchAfter(t, supplier, Init(batch));
      var e := Last(batch);
      PersistedSpine(before, supplier, e);
      SpineOf(Lookup(before.products, ProductKey(supplier, e.item.supplierSku)), e);
    }
  }

  /** Its details come from the last entry that gives any. */
  lemma {:induction false} DetailsLookup(t: Tables, supplier: nat, batch: seq<Entry>, q: ProductKey)
    ensures var i, j := LastProduct(batch, supplier, q, WithApparel), LastProduct(batch, supplier, q, WithPrint);
            var after := BatchAfter(t, supplier, batch);
            && Lookup(after.apparel, q) == (if i >= 0 then batch[i].item.apparelDetails else Lookup(t.apparel, q))
            && Lookup(after.printing, q) == (if j >= 0 then batch[j].item.printDetails else Lookup(t.printing, q))
  {
    hide Persisted, ProductRow;
    if batch != [] {
      DetailsLookup(t, supplier, Init(batch), q);
      PersistedSpine(BatchAfter(t, supplier, Init(batch)), supplier, Last(batch));
    }
  }

  lemma PersistedSpine(t: Tables, supplier: nat, e: Entry)
    ensures var p := ProductKey(supplier, e.item.supplierSku);
            var after := Persisted(t, supplier, e.item, e.categoryId, e.now);
            && after.products == t.products[p := ProductRow(Lookup(t.products, p), e.item, e.categoryId, e.now)]
            && after.apparel == DetailsAfter(t.apparel, p, e.item.apparelDetails)
            && after.printing == DetailsAfter(t.printing, p, e.item.printDetails)
  {
  }

  lemma SpineOf(prior: Option<Product>, e: Entry)
    ensures var row := ProductRow(prior, e.item, e.categoryId, e.now);
            Presents(row, e) && Untouched(row) == if prior.Some? then Untouched(prior.value) else (None, None, None)
  {
  }

  // ---------------------------------------------------------------- the whole upsert, repeated

  predicate AllHaveSkus(item: ProductIngest) {
    forall i :: 0 <= i < |item.variants| ==> item.variants[i].sku.Some?
  }

  /** Everything but the variants without a sku, their tiers and their serials. */
  function Keyed(t: Tables): Tables {
    var s := KeyedStock(StockOf(t));
    t.(variants := s.variants, prices := s.prices, serials := s.serials)
  }

  function KeyedStock(s: Stock): Stock {
    Stock(map k | k in s.variants && k.BySku? :: s.variants[k],
          map q | q in s.prices && q.variant.BySku? :: s.prices[q],
          map[])
  }

  lemma KeyedStockSettles(s: Stock, p: ProductKey, given: seq<VariantIngest>)
    ensures KeyedStock(StockAfter(StockAfter(s, p, given), p, given)) == KeyedStock(StockAfter(s, p, given))
  {
    hide StockAfter;
    var once := StockAfter(s, p, given);
    var twice := StockAfter(once, p, given);
    forall k ensures Lookup(KeyedStock(twice).variants, k) == Lookup(KeyedStock(once).variants, k) {
      if k.BySku? { VariantsSettle(s, p, given, k); }
    }
    SameMaps(KeyedStock(twice).variants, KeyedStock(once).variants);
    forall q ensures Lookup(KeyedStock(twice).prices, q) == Lookup(KeyedStock(once).prices, q) {
      if q.variant.BySku? { VariantsSettle(s, p, given, q.variant); }
    }
    SameMaps(KeyedStock(twice).prices, KeyedStock(once).prices);
  }

  lemma SpineSettles(
    m: map<ProductKey, Product>, p: ProductKey, item: ProductIngest, c: Option<CategoryKey>, n1: int, n2: int)
    ensures var once := m[p := ProductRow(Lookup(m, p), item, c, n1)];
            && once[p := ProductRow(Lookup(once, p), item, c, n2)] == m[p := ProductRow(Lookup(m, p), item, c, n2)]
            && BlankRows(once) == BlankRows(m[p := ProductRow(Lookup(m, p), item, c, n2)])
  {
  }

  lemma DetailsSettle<V>(m: map<ProductKey, V>, p: ProductKey, given: Option<V>)
    ensures DetailsAfter(DetailsAfter(m, p, given), p, given) == DetailsAfter(m, p, given)
  {
  }

  /**
   The second run changes nothing but the product's own last_synced stamp and its images, on the rows with a sku;
   what it changes in the images is ImagesSecondRun.
   */
  lemma SecondRun(t: Tables, supplier: nat, item: ProductIngest, c: Option<CategoryKey>, n1: int, n2: int)
    ensures var once := Persisted(t, supplier, item, c, n1);
            var twice := Persisted(once, supplier, item, c, n2);
            var images := ImagesAfter(once.images, ProductKey(supplier, item.supplierSku), item);
            && Keyed(Blank(twice)) == Keyed(Blank(once)).(images := images)
            && (AllHaveSkus(item) ==> Blank(twice) == Blank(once).(images := images))
            && twice.products == Persisted(t, supplier, item, c, n2).products
  {
    hide StockAfter, Upserted, SizesAfter, ImagesAfter, ProductRow, DetailsAfter, BlankRows, KeyedStock;
    var p := ProductKey(supplier, item.supplierSku);
    SpineSettles(t.products, p, item, c, n1, n2);
    DetailsSettle(t.apparel, p, item.apparelDetails);
    DetailsSettle(t.printing, p, item.printDetails);
    SizesSettle(t.sizes, p, item.sizes);
    KeyedStockSettles(StockOf(t), p, item.variants);
    if AllHaveSkus(item) {
      StockSettles(StockOf(t), p, item.variants);
    }
    OptionsSettle(OptionsOf(t), p, item.options);
  }

  /** From the second run on the store is at a fixpoint, up to the stamp; exactly so when every variant has a sku. */
  lemma ThirdRun(t: Tables, supplier: nat, item: ProductIngest, c: Option<CategoryKey>, n1: int, n2: int, n3: int)
    ensures var twice := Persisted(Persisted(t, supplier, item, c, n1), supplier, item, c, n2);
            var thrice := Persisted(twice, supplier, item, c, n3);
            && Keyed(Blank(thrice)) == Keyed(Blank(twice))
            && (AllHaveSkus(item) ==> Blank(thrice) == Blank(twice))
  {
    hide Keyed, Blank, ImagesAfter;
    var once := Persisted(t, supplier, item, c, n1);
    SecondRun(once, supplier, item, c, n2, n3);
    ImagesSettle(t.images, ProductKey(supplier, item.supplierSku), item);
    ImagesOf(t, supplier, item, c, n1);
    ImagesOf(once, supplier, item, c, n2);
    KeepImages(Persisted(once, supplier, item, c, n2));
  }

  lemma ImagesOf(t: Tables, supplier: nat, item: ProductIngest, c: Option<CategoryKey>, now: int)
    ensures Persisted(t, supplier, item, c, now).images
         == ImagesAfter(t.images, ProductKey(supplier, item.supplierSku), item)
  {
  }

  lemma KeepImages(t: Tables)
    ensures Keyed(Blank(t)).(images := t.images) == Keyed(Blank(t))
    ensures Blank(t).(images := t.images) == Blank(t)
  {
  }

  /**
   With n variants lacking a sku, every run adds exactly n rows to the product, each with the columns of its entry, and
   keeps those it had.
   */
  lemma EachRunAddsSkuless(t: Tables, supplier: nat, item: ProductIngest, c: Option<CategoryKey>, now: int)
    requires t.Consistent()
    ensures var p := ProductKey(supplier, item.supplierSku);
            var after := Persisted(t, supplier, item, c, now);
            && |Skuless(after.variants, p)| == |Skuless(t.variants, p)| + CountSkuless(item.variants)
            && (forall k :: k in Skuless(t.variants, p) ==> Lookup(after.variants, k) == Lookup(t.variants, k))
            && (forall i: nat :: i < |item.variants| && item.variants[i].sku.None? ==>
                  var k := SkulessKey(StockOf(t), p, item.variants, i);
                  && k !in t.variants && k in after.variants && Stocks(after.variants[k], item.variants[i]))
  {
    hide Skuless, StockAfter, CountSkuless, Stocks;
    var p := ProductKey(supplier, item.supplierSku);
    SkulessGrow(StockOf(t), p, item.variants);
    forall i: nat | i < |item.variants| && item.variants[i].sku.None? {
      SkulessRow(StockOf(t), p, item.variants, i);
    }
  }

  lemma {:induction false} SomeSkuless(given: seq<VariantIngest>)
    ensures CountSkuless(given) > 0 <==> exists i :: 0 <= i < |given| && given[i].sku.None?
  {
    if given != [] {
      SomeSkuless(Init(given));
      assert forall i :: 0 <= i < |given| - 1 ==> Init(given)[i] == given[i];
    }
  }

  /** The sort orders of images are settled after one run exactly when none is restamped. */
  lemma ImagesSettledIff(m: map<ImageKey, Image>, p: ProductKey, item: ProductIngest)
    ensures ImagesAfter(ImagesAfter(m, p, item), p, item) == ImagesAfter(m, p, item)
       <==> forall k :: !Restamped(m, p, item.images, k)
  {
    hide ImagesAfter, Restamped;
    var once := ImagesAfter(m, p, item);
    var twice := ImagesAfter(once, p, item);
    forall k
      ensures (k in twice <==> k in once)
              && (k in once ==> (twice[k] == once[k] <==> !Restamped(m, p, item.images, k)))
              && (Restamped(m, p, item.images, k) ==> k in once)
    {
      ImagesSecondRun(m, p, item, k);
    }
    if forall k :: !Restamped(m, p, item.images, k) {
      SameMaps(twice, once);
    }
  }

  /** What one request leaves: the upsert, or the store it found when a unique constraint refuses the item. */
  function Attempted(t: Tables, supplier: nat, item: ProductIngest, c: Option<CategoryKey>, now: int): Tables {
    if Storable(item) then Persisted(t, supplier, item, c, now) else t
  }

  /**
   Exactly when one call is idempotent: a second call changes nothing but the stamp if and only if the item is refused,
   or every variant has a sku and the first call inserted no image, listed once, at sort order zero past the first
   place of the list.
   */
  lemma SecondRunChangesNothingIff(
    t: Tables, supplier: nat, item: ProductIngest, c: Option<CategoryKey>, n1: int, n2: int)
    requires t.Consistent()
    ensures var p := ProductKey(supplier, item.supplierSku);
            var once := Attempted(t, supplier, item, c, n1);
            var twice := Attempted(once, supplier, item, c, n2);
            Blank(twice) == Blank(once)
            <==> !Storable(item) || (AllHaveSkus(item) && forall k :: !Restamped(t.images, p, item.images, k))
  {
    hide Persisted, Blank, Restamped, ImagesAfter, Skuless, CountSkuless, Keyed, Storable;
    if Storable(item) {
      var p := ProductKey(supplier, item.supplierSku);
      var once := Persisted(t, supplier, item, c, n1);
      var twice := Persisted(once, supplier, item, c, n2);
      SecondRun(t, supplier, item, c, n1, n2);
      ImagesOf(t, supplier, item, c, n1);
      ImagesOf(once, supplier, item, c, n2);
      ImagesSettledIff(t.images, p, item);
      KeepImages(once);
      BlankKeeps(once);
      BlankKeeps(twice);
      SomeSkuless(item.variants);
      StaysConsistent(t, supplier, item, c, n1);
      EachRunAddsSkuless(once, supplier, item, c, n2);
    }
  }

  lemma BlankKeeps(t: Tables)
    ensures Blank(t).variants == t.variants && Blank(t).images == t.images
  {
  }

  lemma StaysConsistent(t: Tables, supplier: nat, item: ProductIngest, c: Option<CategoryKey>, now: int)
    requires t.Consistent()
    ensures Persisted(t, supplier, item, c, now).Consistent()
  {
    var used := set p | p in t.products && t.products[p].categoryId.Some? :: t.products[p].categoryId.value;
    PersistKeepsConsistency(t, supplier, item, c, now, used + if c.Some? then {c.value} else {});
  }

  /** A new product with two images at sort order zero, as a supplier that numbers none sends them. */
  function TwoImages(): ProductIngest {
    var front := ImageIngest("front.jpg", None, "front", None, 0, None);
    var back := ImageIngest("back.jpg", None, "back", None, 0, None);
    ProductIngest("PC61", "Tee", None, None, "apparel", None, None, None, None, None, [], [front, back], [],
                  None, None, [])
  }

  /** It takes a second run to number them. */
  lemma OneRunIsNotEnough(n1: int, n2: int)
    ensures var none := Tables(map[], map[], map[], map[], map[], map[], map[], map[], map[], map[]);
            var once := Attempted(none, 1, TwoImages(), None, n1);
            Blank(Attempted(once, 1, TwoImages(), None, n2)) != Blank(once)
  {
    hide Persisted, Blank;
    var none := Tables(map[], map[], map[], map[], map[], map[], map[], map[], map[], map[]);
    var images := TwoImages().images;
    assert images[1].url == "back.jpg" != "front.jpg" == images[0].url by {
      assert "back.jpg"[0] != "front.jpg"[0];
    }
    assert LastUrl(images, "back.jpg") == 1;
    assert Restamped(none.images, ProductKey(1, "PC61"), images, ImageKey(ProductKey(1, "PC61"), "back.jpg"));
    SecondRunChangesNothingIff(none, 1, TwoImages(), None, n1, n2);
  }
}
