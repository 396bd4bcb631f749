/** bulk_save_options of backend/modules/catalog/routes.py: one savepoint per option of the body. */
module BulkSave {
  import opened Prelude
  import opened Schema
  import opened OptionUpsert

  // ---------------------------------------------------------------- one entry

  function SavedRow(prior: Option<ProductOption>, o: OptionIngest): ProductOption {
    match prior
    case Some(row) => row.(title := o.title, sortOrder := o.sortOrder, enabled := true)
    case None => ProductOption(o.title, o.optionsType, o.sortOrder, None, None, o.required, 1, true, None)
  }

  function SavedAttribute(prior: Option<Attribute>, a: AttributeIngest): Attribute {
    match prior
    case Some(row) => row.(price := a.price, sortOrder := a.sortOrder, enabled := true)
    case None => Attribute(a.sortOrder, None, None, None, None, None, a.price, 1, true, None, None)
  }

  function SavedAttributes(
    attributes: map<AttributeKey, Attribute>, k: OptionKey, given: seq<AttributeIngest>): map<AttributeKey, Attribute>
  {
    if given == [] then attributes
    else
      var before := SavedAttributes(attributes, k, Init(given));
      var a := AttributeKey(k, Last(given).title);
      before[a := SavedAttribute(Lookup(before, a), Last(given))]
  }

  /** A title that is new to the option may be listed once only: the second insert would violate the constraint. */
  predicate NewTitlesOnce(attributes: map<AttributeKey, Attribute>, k: OptionKey, given: seq<AttributeIngest>) {
    forall i, j :: 0 <= i < j < |given| && given[i].title == given[j].title ==>
      AttributeKey(k, given[i].title) in attributes
  }

  function ListOf(payload: AttributePayload): seq<AttributeIngest> {
    if payload.Listed? then payload.attributes else []
  }

  /** The entry raises nothing: its product exists, its key is not inserted twice, and neither is a title. */
  predicate Saveable(
    products: set<ProductKey>, existing: set<string>, t: OptionTables, p: ProductKey, o: OptionIngest)
  {
    var k := OptionKey(p, o.optionKey);
    && (o.optionKey in existing || (p in products && k !in t.options))
    && NewTitlesOnce(t.attributes, k, ListOf(o.attributes))
  }

  function SavedOne(t: OptionTables, p: ProductKey, o: OptionIngest): OptionTables {
    var k := OptionKey(p, o.optionKey);
    OptionTables(t.options[k := SavedRow(Lookup(t.options, k), o)],
      SavedAttributes(t.attributes, k, ListOf(o.attributes)))
  }

  // ---------------------------------------------------------------- the request

  datatype Outcome = Outcome(tables: OptionTables, saved: seq<OptionIngest>, errors: seq<string>)

  function Entry(
    products: set<ProductKey>, existing: set<string>, r: Outcome, p: ProductKey, o: OptionIngest): Outcome
  {
    if Saveable(products, existing, r.tables, p, o)
    then Outcome(SavedOne(r.tables, p, o), r.saved + [o], r.errors)
    else r.(errors := r.errors + [o.optionKey])
  }

  function Saving(
    products: set<ProductKey>, existing: set<string>, t: OptionTables, p: ProductKey, body: seq<OptionIngest>): Outcome
  {
    if body == [] then Outcome(t, [], [])
    else Entry(products, existing, Saving(products, existing, t, p, Init(body)), p, Last(body))
  }

  function ExistingKeys(t: OptionTables, p: ProductKey): set<string> {
    set k | k in t.options && k.product == p :: k.key
  }

  predicate Mentions(given: seq<AttributeIngest>, title: string) {
    exists j :: 0 <= j < |given| && given[j].title == title
  }

  lemma {:induction false} SavedHas(
    attributes: map<AttributeKey, Attribute>, k: OptionKey, given: seq<AttributeIngest>, a: AttributeKey)
    ensures a in SavedAttributes(attributes, k, given) <==>
              a in attributes || (a.option == k && Mentions(given, a.title))
    ensures a.option != k ==> Lookup(SavedAttributes(attributes, k, given), a) == Lookup(attributes, a)
  {
    hide SavedAttribute;
    if given != [] {
      SavedHas(attributes, k, Init(given), a);
      MentionsLast(given, a.title);
    }
  }

  lemma MentionsLast(given: seq<AttributeIngest>, title: string)
    requires given != []
    ensures Mentions(given, title) <==> Mentions(Init(given), title) || Last(given).title == title
  {
    assert forall j :: 0 <= j < |given| - 1 ==> given[j] == Init(given)[j];
  }

  lemma NewTitlesLast(attributes: map<AttributeKey, Attribute>, k: OptionKey, given: seq<AttributeIngest>)
    requires given != []
    ensures NewTitlesOnce(attributes, k, given) <==>
              && NewTitlesOnce(attributes, k, Init(given))
              && (AttributeKey(k, Last(given).title) in attributes || !Mentions(Init(given), Last(given).title))
  {
    assert forall j :: 0 <= j < |given| - 1 ==> given[j] == Init(given)[j];
  }

  lemma NewTitlesPrefix(attributes: map<AttributeKey, Attribute>, k: OptionKey, given: seq<AttributeIngest>, n: nat)
    requires n <= |given|
    ensures NewTitlesOnce(attributes, k, given) ==> NewTitlesOnce(attributes, k, given[..n])
  {
  }

  /** The attribute loop of one entry; false is the unique violation raised when the savepoint is released. */
  method SaveAttributes(db: Database, k: OptionKey, given: seq<AttributeIngest>) returns (ok: bool)
    modifies db`attributes
    ensures ok <==> NewTitlesOnce(old(db.attributes), k, given)
    ensures ok ==> db.attributes == SavedAttributes(old(db.attributes), k, given)
  {
    ghost var before := db.attributes;
    var known := set a | a in db.attributes && a.option == k :: a.title;
    assert forall title :: title in known <==> AttributeKey(k, title) in before;
    hide NewTitlesOnce, Mentions, SavedAttribute;
    assert NewTitlesOnce(before, k, []) by { NoTitles(before, k); }
    for i := 0 to |given|
      invariant NewTitlesOnce(before, k, given[..i])
      invariant db.attributes == SavedAttributes(before, k, given[..i])
    {
      var attr := given[i];
      var a := AttributeKey(k, attr.title);
      assert Init(given[..i + 1]) == given[..i];
      SavedHas(before, k, given[..i], a);
      NewTitlesLast(before, k, given[..i + 1]);
      if attr.title in known {
        db.attributes := db.attributes[a := SavedAttribute(Some(db.attributes[a]), attr)];
      } else if a in db.attributes {
        NewTitlesPrefix(before, k, given, i + 1);
        return false;
      } else {
        db.attributes := db.attributes[a := SavedAttribute(None, attr)];
      }
    }
    assert given[..|given|] == given;
    ok := true;
  }

  lemma NoTitles(attributes: map<AttributeKey, Attribute>, k: OptionKey)
    ensures NewTitlesOnce(attributes, k, [])
  {
  }

  /** One entry inside its savepoint: saved whole, or rolled back to where it began. */
  method SaveEntry(db: Database, p: ProductKey, o: OptionIngest, existing: set<string>) returns (ok: bool)
    requires forall key :: key in existing ==> OptionKey(p, key) in db.options
    modifies db`options, db`attributes
    ensures ok <==> Saveable(db.products.Keys, existing, OptionTables(old(db.options), old(db.attributes)), p, o)
    ensures OptionTables(db.options, db.attributes)
            == if ok then SavedOne(OptionTables(old(db.options), old(db.attributes)), p, o)
               else OptionTables(old(db.options), old(db.attributes))
  {
    hide SavedRow, SavedAttributes, NewTitlesOnce;
    var k := OptionKey(p, o.optionKey);
    var options, attributes := db.options, db.attributes;
    if o.optionKey in existing {
      db.options := db.options[k := SavedRow(Some(db.options[k]), o)];
    } else if p !in db.products || k in db.options {
      return false;
    } else {
      db.options := db.options[k := SavedRow(None, o)];
    }
    ok := SaveAttributes(db, k, ListOf(o.attributes));
    if !ok {
      db.options, db.attributes := options, attributes;
    }
  }

  method BulkSaveOptions(db: Database, p: ProductKey, body: seq<OptionIngest>) returns (saved: nat, errors: seq<string>)
    modifies db`options, db`attributes
    ensures var t := OptionTables(old(db.options), old(db.attributes));
            var r := Saving(db.products.Keys, ExistingKeys(t, p), t, p, body);
            && OptionTables(db.options, db.attributes) == r.tables
            && saved == |r.saved|
            && errors == r.errors
  {
    hide Saveable, SavedOne;
    ghost var t := OptionTables(db.options, db.attributes);
    var existing := set k | k in db.options && k.product == p :: k.key;
    saved, errors := 0, [];
    for i := 0 to |body|
      invariant var r := Saving(db.products.Keys, existing, t, p, body[..i]);
                OptionTables(db.options, db.attributes) == r.tables && saved == |r.saved| && errors == r.errors
    {
      assert Init(body[..i + 1]) == body[..i];
      NothingDeleted(db.products.Keys, existing, t, p, body[..i]);
      var ok := SaveEntry(db, p, body[i], existing);
      if ok {
        saved := saved + 1;
      } else {
        errors := errors + [body[i].optionKey];
      }
    }
    assert body[..|body|] == body;
  }

  // ---------------------------------------------------------------- what a request leaves

  lemma {:induction false} AttributesKept(
    attributes: map<AttributeKey, Attribute>, k: OptionKey, given: seq<AttributeIngest>, a: AttributeKey)
    requires a in attributes
    ensures var after := SavedAttributes(attributes, k, given);
            && a in after
            && after[a] == attributes[a].(price := after[a].price, sortOrder := after[a].sortOrder,
                                          enabled := after[a].enabled)
            && (attributes[a].enabled ==> after[a].enabled)
  {
    if given != [] {
      AttributesKept(attributes, k, Init(given), a);
    }
  }

  /**
   No stored option or attribute is deleted. An option keeps all but its title, place and enabled flag,
   an attribute all but its price, place and enabled flag, and neither is ever disabled.
   */
  lemma {:induction false} NothingDeleted(
    products: set<ProductKey>, existing: set<string>, t: OptionTables, p: ProductKey, body: seq<OptionIngest>)
    ensures var after := Saving(products, existing, t, p, body).tables;
            && (forall k :: k in t.options ==>
                  && k in after.options
                  && after.options[k] == t.options[k].(title := after.options[k].title,
                                                       sortOrder := after.options[k].sortOrder,
                                                       enabled := after.options[k].enabled)
                  && (t.options[k].enabled ==> after.options[k].enabled))
            && (forall a :: a in t.attributes ==>
                  && a in after.attributes
                  && after.attributes[a] == t.attributes[a].(price := after.attributes[a].price,
                                                             sortOrder := after.attributes[a].sortOrder,
                                                             enabled := after.attributes[a].enabled)
                  && (t.attributes[a].enabled ==> after.attributes[a].enabled))
  {
    hide Saveable, SavedAttributes;
    if body != [] {
      NothingDeleted(products, existing, t, p, Init(body));
      var before := Saving(products, existing, t, p, Init(body)).tables;
      var o := Last(body);
      forall a | a in t.attributes
        ensures var after := SavedOne(before, p, o);
                && a in after.attributes
                && after.attributes[a] == before.attributes[a].(price := after.attributes[a].price,
                                                                sortOrder := after.attributes[a].sortOrder,
                                                                enabled := after.attributes[a].enabled)
                && (before.attributes[a].enabled ==> after.attributes[a].enabled)
      {
        AttributesKept(before.attributes, OptionKey(p, o.optionKey), ListOf(o.attributes), a);
      }
    }
  }

  predicate Names(entries: seq<OptionIngest>, key: string) {
    exists i :: 0 <= i < |entries| && entries[i].optionKey == key
  }

  lemma NamesAppend(entries: seq<OptionIngest>, o: OptionIngest, key: string)
    ensures Names(entries + [o], key) <==> Names(entries, key) || o.optionKey == key
  {
    assert (entries + [o])[|entries|] == o;
    assert forall i :: 0 <= i < |entries| ==> (entries + [o])[i] == entries[i];
  }

  lemma SavedElsewhere(t: OptionTables, p: ProductKey, o: OptionIngest, k: OptionKey)
    requires k != OptionKey(p, o.optionKey)
    ensures Lookup(SavedOne(t, p, o).options, k) == Lookup(t.options, k)
    ensures forall a: AttributeKey :: a.option == k ==>
              Lookup(SavedOne(t, p, o).attributes, a) == Lookup(t.attributes, a)
  {
    hide SavedRow, SavedAttributes;
    forall a: AttributeKey | a.option == k ensures Lookup(SavedOne(t, p, o).attributes, a) == Lookup(t.attributes, a) {
      SavedHas(t.attributes, OptionKey(p, o.optionKey), ListOf(o.attributes), a);
    }
  }

  /** Options the saved entries do not name, and their attributes, are as they were. */
  lemma {:induction false} OthersUntouched(
    products: set<ProductKey>, existing: set<string>, t: OptionTables, p: ProductKey, body: seq<OptionIngest>,
    k: OptionKey)
    requires k.product != p || !Names(Saving(products, existing, t, p, body).saved, k.key)
    ensures var r := Saving(products, existing, t, p, body);
            && Lookup(r.tables.options, k) == Lookup(t.options, k)
            && forall a: AttributeKey :: a.option == k ==> Lookup(r.tables.attributes, a) == Lookup(t.attributes, a)
  {
    hide Saveable, SavedOne, Names;
    if body != [] {
      var before := Saving(products, existing, t, p, Init(body));
      NamesAppend(before.saved, Last(body), k.key);
      OthersUntouched(products, existing, t, p, Init(body), k);
      if Saveable(products, existing, before.tables, p, Last(body)) {
        SavedElsewhere(before.tables, p, Last(body), k);
      }
    }
  }

  function AllSaved(t: OptionTables, p: ProductKey, entries: seq<OptionIngest>): OptionTables {
    if entries == [] then t else SavedOne(AllSaved(t, p, Init(entries)), p, Last(entries))
  }

  /**
   The final store is the saved entries applied in order to the initial store; replaying only those saves
   every one of them and ends the same, so a failing entry leaves no trace and disturbs no other.
   Every entry is either saved or reported.
   */
  lemma {:induction false} FailuresLeaveNoTrace(
    products: set<ProductKey>, existing: set<string>, t: OptionTables, p: ProductKey, body: seq<OptionIngest>)
    ensures var r := Saving(products, existing, t, p, body);
            && r.tables == AllSaved(t, p, r.saved)
            && Saving(products, existing, t, p, r.saved) == Outcome(r.tables, r.saved, [])
            && |r.saved| + |r.errors| == |body|
  {
    hide Saveable, SavedOne;
    if body != [] {
      FailuresLeaveNoTrace(products, existing, t, p, Init(body));
      var r, before := Saving(products, existing, t, p, body), Saving(products, existing, t, p, Init(body));
      if r.saved != before.saved {
        assert r.saved == before.saved + [Last(body)];
        assert Init(r.saved) == before.saved && Last(r.saved) == Last(body);
      }
    }
  }

  lemma {:induction false} StoredKeys(
    products: set<ProductKey>, t: OptionTables, p: ProductKey, body: seq<OptionIngest>, key: string)
    ensures var r := Saving(products, ExistingKeys(t, p), t, p, body);
            OptionKey(p, key) in r.tables.options <==> key in ExistingKeys(t, p) || Names(r.saved, key)
  {
    hide Saveable, SavedRow, SavedAttributes, Names;
    if body == [] {
      assert key in ExistingKeys(t, p) <==> OptionKey(p, key) in t.options;
      NoNames(key);
    } else {
      StoredKeys(products, t, p, Init(body), key);
      NamesAppend(Saving(products, ExistingKeys(t, p), t, p, Init(body)).saved, Last(body), key);
    }
  }

  lemma NoNames(key: string)
    ensures !Names([], key)
  {
  }

  /**
   Exactly when the next entry fails, and then nothing but its key is reported: the key is new and its product is
   missing or an earlier saved entry already inserted the key, or it lists a title twice that the option does not have.
   */
  lemma FailsExactlyWhen(
    products: set<ProductKey>, t: OptionTables, p: ProductKey, body: seq<OptionIngest>, o: OptionIngest)
    ensures var existing := ExistingKeys(t, p);
            var before := Saving(products, existing, t, p, body);
            var r := Saving(products, existing, t, p, body + [o]);
            var fails :=
              || (o.optionKey !in existing && (p !in products || Names(before.saved, o.optionKey)))
              || (o.attributes.Listed? && exists i, j ::
                    && 0 <= i < j < |o.attributes.attributes|
                    && o.attributes.attributes[i].title == o.attributes.attributes[j].title
                    && AttributeKey(OptionKey(p, o.optionKey), o.attributes.attributes[i].title)
                       !in before.tables.attributes);
            if fails then r == Outcome(before.tables, before.saved, before.errors + [o.optionKey])
            else r.saved == before.saved + [o] && r.errors == before.errors
  {
    hide SavedOne;
    assert Init(body + [o]) == body && Last(body + [o]) == o;
    StoredKeys(products, t, p, body, o.optionKey);
    var before := Saving(products, ExistingKeys(t, p), t, p, body);
    assert Saveable(products, ExistingKeys(t, p), before.tables, p, o) ==>
        OptionKey(p, o.optionKey) !in before.tables.options || o.optionKey in ExistingKeys(t, p);
  }

  /** Every listed title is stored, enabled, with the price and place of its last mention. */
  lemma {:induction false} ListedTitlesStored(
    attributes: map<AttributeKey, Attribute>, k: OptionKey, given: seq<AttributeIngest>, title: string)
    ensures var i := LastTitle(given, title);
            var a := AttributeKey(k, title);
            var after := SavedAttributes(attributes, k, given);
            && (i < 0 ==> Lookup(after, a) == Lookup(attributes, a))
            && (i >= 0 ==>
                 a in after && after[a].enabled && after[a].price == given[i].price
                 && after[a].sortOrder == given[i].sortOrder)
  {
    if given != [] {
      ListedTitlesStored(attributes, k, Init(given), title);
    }
  }

  /** A saved entry's option and titles are stored as it says, until a later saved entry names the option again. */
  lemma {:induction false} LastSavedWins(
    products: set<ProductKey>, existing: set<string>, t: OptionTables, p: ProductKey, body: seq<OptionIngest>, i: nat,
    title: string)
    requires var saved := Saving(products, existing, t, p, body).saved;
             i < |saved| && forall j :: i < j < |saved| ==> saved[j].optionKey != saved[i].optionKey
    ensures var r := Saving(products, existing, t, p, body);
            var o := r.saved[i];
            var k := OptionKey(p, o.optionKey);
            var listed := if o.attributes.Listed? then o.attributes.attributes else [];
            && k in r.tables.options
            && r.tables.options[k].title == o.title && r.tables.options[k].sortOrder == o.sortOrder
                 && r.tables.options[k].enabled
            && (LastTitle(listed, title) >= 0 ==>
                  var a := AttributeKey(k, title);
                  && a in r.tables.attributes
                  && r.tables.attributes[a].price == listed[LastTitle(listed, title)].price
                  && r.tables.attributes[a].sortOrder == listed[LastTitle(listed, title)].sortOrder
                  && r.tables.attributes[a].enabled)
  {
    hide Saveable, SavedOne, LastWhere;
    var r, before := Saving(products, existing, t, p, body), Saving(products, existing, t, p, Init(body));
    var o := r.saved[i];
    var k := OptionKey(p, o.optionKey);
    if i < |before.saved| {
      assert forall j :: 0 <= j < |before.saved| ==> before.saved[j] == r.saved[j];
      LastSavedWins(products, existing, t, p, Init(body), i, title);
      if r.saved != before.saved {
        assert r.saved[|before.saved|] == Last(body);
        SavedElsewhere(before.tables, p, Last(body), k);
        assert Lookup(r.tables.attributes, AttributeKey(k, title))
          == Lookup(before.tables.attributes, AttributeKey(k, title));
      }
    } else {
      assert o == Last(body) && r.tables == SavedOne(before.tables, p, o);
      SavedEntry(before.tables, p, o, title);
    }
  }

  lemma SavedEntry(t: OptionTables, p: ProductKey, o: OptionIngest, title: string)
    ensures var k := OptionKey(p, o.optionKey);
            var after := SavedOne(t, p, o);
            var listed := ListOf(o.attributes);
            && k in after.options
            && after.options[k].title == o.title && after.options[k].sortOrder == o.sortOrder
                 && after.options[k].enabled
            && (LastTitle(listed, title) >= 0 ==>
                  var a := AttributeKey(k, title);
                  && a in after.attributes
                  && after.attributes[a].price == listed[LastTitle(listed, title)].price
                  && after.attributes[a].sortOrder == listed[LastTitle(listed, title)].sortOrder
                  && after.attributes[a].enabled)
  {
    hide SavedAttributes, LastWhere;
    ListedTitlesStored(t.attributes, OptionKey(p, o.optionKey), ListOf(o.attributes), title);
  }

  // ---------------------------------------------------------------- new rows

  /** The columns of an option that a bulk save creates, but for those a later entry may overwrite. */
  predicate NewOption(row: ProductOption, o: OptionIngest) {
    && row.optionsType == o.optionsType && row.required == o.required
    && row.masterOptionId == None && row.opsOptionId == None && row.status == 1 && row.overriddenSort == None
  }

  /** The columns of an attribute that a bulk save creates, but for its price and place. */
  predicate NewAttribute(row: Attribute) {
    && row.opsAttributeId == None && row.masterAttributeId == None && row.attributeKey == None
    && row.multiplier == None && row.setupCost == None && row.status == 1 && row.numericValue == None
    && row.overriddenSort == None && row.enabled
  }

  function FirstNaming(entries: seq<OptionIngest>, key: string): (i: nat)
    ensures i <= |entries|
    ensures i < |entries| ==> entries[i].optionKey == key
    ensures forall j :: 0 <= j < i ==> entries[j].optionKey != key
  {
    if entries == [] || entries[0].optionKey == key then 0 else 1 + FirstNaming(entries[1..], key)
  }

  lemma FirstNamingAppend(entries: seq<OptionIngest>, o: OptionIngest, key: string)
    ensures var i := FirstNaming(entries, key);
            FirstNaming(entries + [o], key)
            == if i < |entries| then i else if o.optionKey == key then |entries| else |entries| + 1
  {
    var i, j := FirstNaming(entries, key), FirstNaming(entries + [o], key);
    assert forall k :: 0 <= k < |entries| ==> (entries + [o])[k] == entries[k];
    assert (entries + [o])[|entries|] == o;
    assert i < |entries| ==> (entries + [o])[i].optionKey == key;
    assert j < |entries| ==> entries[j].optionKey == key;
  }

  /** An option that a request creates has the columns of the first saved entry that names it. */
  lemma {:induction false} CreatedOptions(
    products: set<ProductKey>, existing: set<string>, t: OptionTables, p: ProductKey, body: seq<OptionIngest>,
    k: OptionKey)
    requires k !in t.options
    ensures var r := Saving(products, existing, t, p, body);
            && (k in r.tables.options ==> k.product == p && FirstNaming(r.saved, k.key) < |r.saved|)
            && (k in r.tables.options ==> NewOption(r.tables.options[k], r.saved[FirstNaming(r.saved, k.key)]))
            && (k !in r.tables.options && k.product == p ==> FirstNaming(r.saved, k.key) == |r.saved|)
  {
    hide Saveable, SavedAttributes, FirstNaming;
    if body != [] {
      CreatedOptions(products, existing, t, p, Init(body), k);
      var before := Saving(products, existing, t, p, Init(body));
      FirstNamingAppend(before.saved, Last(body), k.key);
    }
  }

  lemma {:induction false} CreatedRows(
    attributes: map<AttributeKey, Attribute>, k: OptionKey, given: seq<AttributeIngest>, a: AttributeKey)
    requires a in attributes ==> NewAttribute(attributes[a])
    ensures var after := SavedAttributes(attributes, k, given);
            a in after ==> NewAttribute(after[a])
  {
    if given != [] {
      CreatedRows(attributes, k, Init(given), a);
    }
  }

  /** An attribute that a request creates is enabled and carries nothing but its price and place. */
  lemma {:induction false} CreatedAttributes(
    products: set<ProductKey>, existing: set<string>, t: OptionTables, p: ProductKey, body: seq<OptionIngest>,
    a: AttributeKey)
    requires a !in t.attributes
    ensures var r := Saving(products, existing, t, p, body);
            a in r.tables.attributes ==> NewAttribute(r.tables.attributes[a])
  {
    hide Saveable, SavedRow, NewAttribute, SavedAttributes;
    if body != [] {
      CreatedAttributes(products, existing, t, p, Init(body), a);
      var before := Saving(products, existing, t, p, Init(body)).tables;
      CreatedRows(before.attributes, OptionKey(p, Last(body).optionKey), ListOf(Last(body).attributes), a);
    }
  }

  /** An attribute whose title no saved entry of its option lists is as it was. */
  lemma {:induction false} UnlistedUntouched(
    products: set<ProductKey>, existing: set<string>, t: OptionTables, p: ProductKey, body: seq<OptionIngest>,
    a: AttributeKey)
    requires forall o :: o in Saving(products, existing, t, p, body).saved && o.attributes.Listed?
                         && OptionKey(p, o.optionKey) == a.option ==>
               LastTitle(o.attributes.attributes, a.title) < 0
    ensures Lookup(Saving(products, existing, t, p, body).tables.attributes, a) == Lookup(t.attributes, a)
  {
    hide Saveable, SavedRow, SavedAttributes, LastTitle;
    if body != [] {
      var before := Saving(products, existing, t, p, Init(body));
      var o := Last(body);
      assert forall x :: x in before.saved ==> x in Saving(products, existing, t, p, body).saved;
      UnlistedUntouched(products, existing, t, p, Init(body), a);
      if Saveable(products, existing, before.tables, p, o) {
        assert Saving(products, existing, t, p, body).saved[|before.saved|] == o;
        if OptionKey(p, o.optionKey) == a.option {
          ListedTitlesStored(before.tables.attributes, a.option, ListOf(o.attributes), a.title);
          NotInNothing(a.title);
        } else {
          SavedHas(before.tables.attributes, OptionKey(p, o.optionKey), ListOf(o.attributes), a);
        }
      }
    }
  }

  lemma NotInNothing(title: string)
    ensures LastTitle([], title) < 0
  {
  }
}
