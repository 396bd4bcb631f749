/**
 The catalog tables (backend/modules/catalog/models.py) and the ingest payloads
 (backend/modules/catalog/schemas.py). Rows are keyed by the columns of their unique
 constraint; a foreign key is the key of the row it points to.
 */
module Schema {
  import opened Prelude

  // ---------------------------------------------------------------- keys

  datatype CategoryKey = CategoryKey(supplier: nat, externalId: string)

  datatype ProductKey = ProductKey(supplier: nat, sku: string)

  /**
   NULL skus never conflict with each other, so such variants have no natural key:
   they carry a serial number of their own within the product.
   */
  datatype VariantKey =
    | BySku(product: ProductKey, sku: string)
    | NoSku(product: ProductKey, serial: nat)

  datatype PriceKey = PriceKey(variant: VariantKey, priceType: string, quantityMin: int)

  datatype SizeKey = SizeKey(product: ProductKey, width: real, height: real)

  datatype ImageKey = ImageKey(product: ProductKey, url: string)

  datatype OptionKey = OptionKey(product: ProductKey, key: string)

  datatype AttributeKey = AttributeKey(option: OptionKey, title: string)

  // ---------------------------------------------------------------- rows

  datatype Category = Category(name: string, parent: Option<CategoryKey>, sortOrder: int)

  datatype Product = Product(
    name: string, brand: Option<string>, category: Option<string>, categoryId: Option<CategoryKey>,
    description: Option<string>, productType: string, imageUrl: Option<string>,
    opsProductId: Option<string>, externalCatalogue: Option<int>, lastSynced: Option<int>,
    lastImageFetchAt: Option<int>, lastImageFetchAttemptAt: Option<int>, archivedAt: Option<int>)

  datatype Apparel = Apparel(pricingMethod: string, rawPayload: Option<string>)

  datatype Print = Print(
    pricingMethod: string, minWidth: Option<real>, maxWidth: Option<real>, minHeight: Option<real>,
    maxHeight: Option<real>, sizeUnit: string, basePricePerSqUnit: Option<real>, rawPayload: Option<string>)

  datatype Size = Size(unit: string, title: Option<string>)

  datatype Variant = Variant(
    color: Option<string>, size: Option<string>, partId: Option<string>, basePrice: Option<real>,
    inventory: Option<int>, warehouse: Option<string>)

  datatype Price = Price(quantityMax: Option<int>, price: real)

  datatype Image = Image(
    supplierImageUrl: Option<string>, imageType: string, color: Option<string>, sortOrder: int,
    checksum: Option<string>, mirroredAt: Option<int>, opsFilename: Option<string>)

  datatype ProductOption = ProductOption(
    title: string, optionsType: Option<string>, sortOrder: int, masterOptionId: Option<int>,
    opsOptionId: Option<int>, required: bool, status: int, enabled: bool, overriddenSort: Option<int>)

  datatype Attribute = Attribute(
    sortOrder: int, opsAttributeId: Option<int>, masterAttributeId: Option<int>, attributeKey: Option<string>,
    multiplier: Option<real>, setupCost: Option<real>, price: Option<real>, status: int, enabled: bool,
    numericValue: Option<real>, overriddenSort: Option<int>)

  datatype SyncJob = SyncJob(supplier: nat, jobType: string, status: string, recordsProcessed: nat)

  // ---------------------------------------------------------------- payloads

  datatype TierIngest = TierIngest(priceType: string, quantityMin: int, quantityMax: Option<int>, price: real)

  datatype VariantIngest = VariantIngest(
    partId: string, color: Option<string>, size: Option<string>, sku: Option<string>, basePrice: Option<real>,
    inventory: Option<int>, warehouse: Option<string>, prices: seq<TierIngest>)

  datatype SizeIngest = SizeIngest(width: real, height: real, unit: string, title: Option<string>)

  datatype ImageIngest = ImageIngest(
    url: string, supplierImageUrl: Option<string>, imageType: string, color: Option<string>, sortOrder: int,
    checksum: Option<string>)

  datatype AttributeIngest = AttributeIngest(
    title: string, sortOrder: int, opsAttributeId: Option<int>, masterAttributeId: Option<int>,
    attributeKey: Option<string>, price: Option<real>, setupCost: Option<real>, multiplier: Option<real>)

  /** Attributes arrive as a list, as JSON text (carried here with what it parses to, if to a list), or not at all. */
  datatype AttributePayload =
    | Listed(attributes: seq<AttributeIngest>)
    | JsonText(parsed: Option<seq<AttributeIngest>>)
    | Absent

  datatype OptionIngest = OptionIngest(
    optionKey: string, title: string, optionsType: Option<string>, sortOrder: int, masterOptionId: Option<int>,
    opsOptionId: Option<int>, required: bool, enabled: bool, attributes: AttributePayload)

  datatype ProductIngest = ProductIngest(
    supplierSku: string, productName: string, brand: Option<string>, description: Option<string>,
    productType: string, imageUrl: Option<string>, opsProductId: Option<string>, externalCatalogue: Option<int>,
    categoryExternalId: Option<string>, categoryName: Option<string>, variants: seq<VariantIngest>,
    images: seq<ImageIngest>, options: seq<OptionIngest>, apparelDetails: Option<Apparel>,
    printDetails: Option<Print>, sizes: seq<SizeIngest>)

  datatype PriceIngest = PriceIngest(supplierSku: string, partId: string, basePrice: real, tiers: seq<TierIngest>)

  datatype CategoryIngest = CategoryIngest(
    externalId: string, name: string, parentExternalId: Option<string>, sortOrder: int)

  // ---------------------------------------------------------------- the database

  datatype Tables = Tables(
    products: map<ProductKey, Product>,
    apparel: map<ProductKey, Apparel>,
    printing: map<ProductKey, Print>,
    sizes: map<SizeKey, Size>,
    variants: map<VariantKey, Variant>,
    prices: map<PriceKey, Price>,
    serials: map<ProductKey, nat>,
    images: map<ImageKey, Image>,
    options: map<OptionKey, ProductOption>,
    attributes: map<AttributeKey, Attribute>)
  {
    /**
     Every foreign key among these tables points to a row, and the serials of sku-less variants are used up in order.
     */
    ghost predicate Consistent() {
      && apparel.Keys <= products.Keys
      && printing.Keys <= products.Keys
      && (forall k :: k in sizes ==> k.product in products)
      && (forall k :: k in variants ==> k.product in products)
      && (forall k :: k in prices ==> k.variant in variants)
      && (forall k :: k in images ==> k.product in products)
      && (forall k :: k in options ==> k.product in products)
      && (forall k :: k in attributes ==> k.option in options)
      && (forall k :: k in variants && k.NoSku? ==> k.serial < Serial(serials, k.product))
    }

    /** The one foreign key that leaves these tables: a product's category is a known one. */
    ghost predicate CategoriesIn(known: set<CategoryKey>) {
      forall p :: p in products && products[p].categoryId.Some? ==> products[p].categoryId.value in known
    }
  }

  function Serial(serials: map<ProductKey, nat>, p: ProductKey): nat {
    if p in serials then serials[p] else 0
  }

  /** One session's view of the database; supplier id to is_active. */
  class Database {
    var suppliers: map<nat, bool>
    var jobs: seq<SyncJob>
    var categories: map<CategoryKey, Category>
    var products: map<ProductKey, Product>
    var apparel: map<ProductKey, Apparel>
    var printing: map<ProductKey, Print>
    var sizes: map<SizeKey, Size>
    var variants: map<VariantKey, Variant>
    var prices: map<PriceKey, Price>
    var serials: map<ProductKey, nat>
    var images: map<ImageKey, Image>
    var options: map<OptionKey, ProductOption>
    var attributes: map<AttributeKey, Attribute>

    function Catalog(): Tables
      reads this
    {
      Tables(products, apparel, printing, sizes, variants, prices, serials, images, options, attributes)
    }

    /** Back to what the catalog held when the transaction began. */
    method Rollback(saved: Tables)
      modifies this`products, this`apparel, this`printing, this`sizes, this`variants, this`prices, this`serials,
               this`images, this`options, this`attributes
      ensures Catalog() == saved
    {
      products, apparel, printing, sizes := saved.products, saved.apparel, saved.printing, saved.sizes;
      variants, prices, serials := saved.variants, saved.prices, saved.serials;
      images, options, attributes := saved.images, saved.options, saved.attributes;
    }
  }
}
