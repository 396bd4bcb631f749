/** _upsert_options of backend/modules/catalog/ingest.py. */
module OptionUpsert {
  import opened Prelude
  import opened Schema

  datatype OptionTables = OptionTables(options: map<OptionKey, ProductOption>, attributes: map<AttributeKey, Attribute>)

  function AttributesOf(payload: AttributePayload): seq<AttributeIngest> {
    match payload
    case Listed(attributes) => attributes
    case JsonText(Some(attributes)) => attributes
    case JsonText(None) => []
    case Absent => []
  }

  /** The attributes that are written: blank titles are skipped. */
  function Titled(attributes: seq<AttributeIngest>): seq<AttributeIngest> {
    if attributes == [] then []
    else Titled(Init(attributes)) + (if Last(attributes).title != "" then [Last(attributes)] else [])
  }

  /** No insert can hit the (option, title) unique constraint. */
  predicate DistinctTitles(attributes: seq<AttributeIngest>) {
    forall i, j :: 0 <= i < j < |attributes| ==> attributes[i].title != attributes[j].title
  }

  predicate Insertable(o: OptionIngest) {
    DistinctTitles(Titled(AttributesOf(o.attributes)))
  }

  function OptionRow(prior: Option<ProductOption>, o: OptionIngest): ProductOption {
    match prior
    case None =>
      ProductOption(o.title, o.optionsType, o.sortOrder, o.masterOptionId, o.opsOptionId, o.required, 1, o.enabled,
                    None)
    case Some(row) =>
      row.(title := o.title, optionsType := o.optionsType, sortOrder := o.sortOrder,
           masterOptionId := o.masterOptionId, opsOptionId := o.opsOptionId, required := o.required)
  }

  function AttributeRow(a: AttributeIngest): Attribute {
    Attribute(a.sortOrder, a.opsAttributeId, a.masterAttributeId, a.attributeKey, a.multiplier, a.setupCost, a.price,
              1, false, None, None)
  }

  function Lookup<K, V>(m: map<K, V>, k: K): Option<V> {
    if k in m then Some(m[k]) else None
  }

  /** DELETE FROM product_option_attributes WHERE product_option_id = k */
  function WithoutAttributes(attributes: map<AttributeKey, Attribute>, k: OptionKey): map<AttributeKey, Attribute> {
    map a | a in attributes && a.option != k :: attributes[a]
  }

  function Inserted(attributes: map<AttributeKey, Attribute>, k: OptionKey, titled: seq<AttributeIngest>)
    : map<AttributeKey, Attribute>
  {
    if titled == [] then attributes
    else Inserted(attributes, k, Init(titled))[AttributeKey(k, Last(titled).title) := AttributeRow(Last(titled))]
  }

  function UpsertedOne(t: OptionTables, p: ProductKey, o: OptionIngest): OptionTables {
    var k := OptionKey(p, o.optionKey);
    OptionTables(
      t.options[k := OptionRow(Lookup(t.options, k), o)],
      Inserted(WithoutAttributes(t.attributes, k), k, Titled(AttributesOf(o.attributes))))
  }

  function Upserted(t: OptionTables, p: ProductKey, options: seq<OptionIngest>): OptionTables {
    if options == [] then t else UpsertedOne(Upserted(t, p, Init(options)), p, Last(options))
  }

  predicate AllInsertable(options: seq<OptionIngest>) {
    forall i :: 0 <= i < |options| ==> Insertable(options[i])
  }

  /** The last entry with the title; -1 if there is none. */
  function LastTitle(given: seq<AttributeIngest>, title: string): int {
    LastWhere(given, (x: AttributeIngest) => x.title == title)
  }

  predicate HasTitle(attributes: seq<AttributeIngest>, title: string) {
    exists j :: 0 <= j < |attributes| && attributes[j].title == title
  }

  /** The rows of option k after the inserts are those it had and those inserted. */
  lemma {:induction false} InsertedHas(
    attributes: map<AttributeKey, Attribute>, k: OptionKey, titled: seq<AttributeIngest>, a: AttributeKey)
    ensures a in Inserted(attributes, k, titled) <==> a in attributes || (a.option == k && HasTitle(titled, a.title))
    ensures a.option != k && a in attributes ==> Inserted(attributes, k, titled)[a] == attributes[a]
  {
    if titled != [] {
      InsertedHas(attributes, k, Init(titled), a);
      assert titled == Init(titled) + [Last(titled)];
      HasTitleAppend(Init(titled), Last(titled), a.title);
    }
  }

  lemma HasTitleAppend(attributes: seq<AttributeIngest>, last: AttributeIngest, title: string)
    ensures HasTitle(attributes + [last], title) <==> HasTitle(attributes, title) || last.title == title
    ensures DistinctTitles(attributes + [last]) <==> DistinctTitles(attributes) && !HasTitle(attributes, last.title)
  {
    var both := attributes + [last];
    assert both[|attributes|] == last;
    assert forall j :: 0 <= j < |attributes| ==> both[j] == attributes[j];
    assert both[..|attributes|] == attributes;
  }

  /** Inserting rows one at a time hits the unique constraint exactly when two titles agree. */
  method InsertAttributes(db: Database, k: OptionKey, attributes: seq<AttributeIngest>) returns (ok: bool)
    requires forall a :: a in db.attributes ==> a.option != k
    modifies db`attributes
    ensures ok <==> DistinctTitles(Titled(attributes))
    ensures ok ==> db.attributes == Inserted(old(db.attributes), k, Titled(attributes))
  {
    for i := 0 to |attributes|
      invariant DistinctTitles(Titled(attributes[..i]))
      invariant db.attributes == Inserted(old(db.attributes), k, Titled(attributes[..i]))
    {
      var attr := attributes[i];
      ghost var written := Titled(attributes[..i]);
      assert Init(attributes[..i + 1]) == attributes[..i];
      if attr.title == "" {
        assert Titled(attributes[..i + 1]) == written;
        continue;
      }
      assert Titled(attributes[..i + 1]) == written + [attr];
      HasTitleAppend(written, attr, attr.title);
      InsertedHas(old(db.attributes), k, written, AttributeKey(k, attr.title));
      if AttributeKey(k, attr.title) in db.attributes {
        TitledPrefix(attributes, i + 1);
        return false;
      }
      assert Init(written + [attr]) == written;
      db.attributes := db.attributes[AttributeKey(k, attr.title) := AttributeRow(attr)];
    }
    assert attributes[..|attributes|] == attributes;
    ok := true;
  }

  lemma {:induction false} TitledPrefix(attributes: seq<AttributeIngest>, n: nat)
    requires n <= |attributes|
    ensures Titled(attributes[..n]) <= Titled(attributes)
    ensures DistinctTitles(Titled(attributes)) ==> DistinctTitles(Titled(attributes[..n]))
    decreases |attributes|
  {
    if n == |attributes| {
      assert attributes[..n] == attributes;
    } else {
      assert Init(attributes)[..n] == attributes[..n];
      TitledPrefix(Init(attributes), n);
    }
  }

  /** Upserts every option and replaces its attributes; a duplicate title aborts. */
  method UpsertOptions(db: Database, p: ProductKey, options: seq<OptionIngest>) returns (ok: bool)
    modifies db`options, db`attributes
    ensures ok <==> AllInsertable(options)
    ensures ok ==> OptionTables(db.options, db.attributes)
                   == Upserted(OptionTables(old(db.options), old(db.attributes)), p, options)
  {
    hide OptionRow, Titled, Inserted, DistinctTitles, Lookup;
    for i := 0 to |options|
      invariant AllInsertable(options[..i])
      invariant OptionTables(db.options, db.attributes)
                == Upserted(OptionTables(old(db.options), old(db.attributes)), p, options[..i])
    {
      var opt := options[i];
      assert Init(options[..i + 1]) == options[..i] && Last(options[..i + 1]) == opt;
      var k := OptionKey(p, opt.optionKey);
      db.options := db.options[k := OptionRow(Lookup(db.options, k), opt)];
      db.attributes := WithoutAttributes(db.attributes, k);
      ok := InsertAttributes(db, k, AttributesOf(opt.attributes));
      if !ok {
        assert !Insertable(options[i]);
        return;
      }
    }
    assert options[..|options|] == options;
    ok := true;
  }
}
