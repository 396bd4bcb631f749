/** Color and Size options derived from a product's variants: backend/modules/catalog/option_collapse.py. */
module OptionCollapse {
  import opened Prelude
  import opened Text
  import opened Schema
  import opened Normalize
  import opened OptionUpsert
  import opened PersistenceLaws
  import opened PersistenceFixpoint

  // ---------------------------------------------------------------- _distinct

  predicate HasFold(items: seq<string>, fold: string) {
    exists i :: 0 <= i < |items| && Lower(items[i]) == fold
  }

  /** The dictionary in insertion order: the first display form of every case-folded value. */
  function Collected(values: seq<Option<string>>): seq<string> {
    if values == [] then []
    else
      var before := Collected(Init(values));
      match Last(values)
      case None => before
      case Some(v) => if Norm(v) == "" || HasFold(before, Lower(Norm(v))) then before else before + [Norm(v)]
  }

  function Insert(axis: Axis, sorted: seq<string>, title: string): seq<string> {
    if sorted == [] || !KeyLess(KeyOf(axis, title), KeyOf(axis, Last(sorted))) then sorted + [title]
    else Insert(axis, Init(sorted), title) + [Last(sorted)]
  }

  /** list.sort with the axis's key: stable. */
  function SortedBy(axis: Axis, items: seq<string>): seq<string> {
    if items == [] then [] else Insert(axis, SortedBy(axis, Init(items)), Last(items))
  }

  function Titles(axis: Axis, values: seq<Option<string>>): seq<string> {
    SortedBy(axis, Collected(values))
  }

  method DistinctTitlesOf(axis: Axis, values: seq<Option<string>>) returns (titles: seq<string>)
    ensures titles == Titles(axis, values)
  {
    var seen: map<string, string> := map[];
    var items: seq<string> := [];
    for i := 0 to |values|
      invariant items == Collected(values[..i])
      invariant forall fold :: fold in seen <==> HasFold(items, fold)
    {
      assert Init(values[..i + 1]) == values[..i];
      if values[i].None? {
        continue;
      }
      var disp := Norm(values[i].value);
      if disp == "" {
        continue;
      }
      var k := Lower(disp);
      if k !in seen {
        HasFoldAppend(items, disp);
        seen := seen[k := disp];
        items := items + [disp];
      }
    }
    assert values[..|values|] == values;
    titles := SortedBy(axis, items);
  }

  lemma HasFoldAppend(items: seq<string>, title: string)
    ensures forall fold :: HasFold(items + [title], fold) <==> HasFold(items, fold) || fold == Lower(title)
  {
    var both := items + [title];
    assert both[|items|] == title;
    assert forall i :: 0 <= i < |items| ==> both[i] == items[i];
  }

  // ---------------------------------------------------------------- what _distinct returns

  predicate DistinctFolds(items: seq<string>) {
    forall i, j :: 0 <= i < j < |items| ==> Lower(items[i]) != Lower(items[j])
  }

  predicate AllNormal(items: seq<string>) {
    forall i :: 0 <= i < |items| ==> items[i] != "" && Normal(items[i])
  }

  predicate StrictlySorted(axis: Axis, items: seq<string>) {
    forall i, j :: 0 <= i < j < |items| ==> KeyLess(KeyOf(axis, items[i]), KeyOf(axis, items[j]))
  }

  /** Some value is not blank and folds to this once normalised. */
  ghost predicate Wanted(values: seq<Option<string>>, fold: string) {
    exists v :: Some(v) in values && Norm(v) != "" && Lower(Norm(v)) == fold
  }

  lemma {:induction false} CollectedIs(values: seq<Option<string>>)
    ensures DistinctFolds(Collected(values)) && AllNormal(Collected(values))
    ensures forall fold :: HasFold(Collected(values), fold) <==> Wanted(values, fold)
  {
    hide Norm, Lower, Normal;
    if values != [] {
      var front := Init(values);
      CollectedIs(front);
      assert forall v :: v in values <==> v in front || v == Last(values);
      var before := Collected(front);
      if Last(values).Some? && Norm(Last(values).value) != "" {
        var title := Norm(Last(values).value);
        NormIsNormal(Last(values).value);
        HasFoldAppend(before, title);
        forall fold ensures Wanted(values, fold) <==> Wanted(front, fold) || fold == Lower(title) {
          if fold == Lower(title) { assert Last(values) in values; }
        }
      } else {
        forall fold ensures Wanted(values, fold) <==> Wanted(front, fold) {
        }
      }
    }
  }

  lemma {:induction false} InsertHolds(axis: Axis, sorted: seq<string>, title: string)
    ensures forall x :: x in Insert(axis, sorted, title) <==> x in sorted || x == title
    ensures |Insert(axis, sorted, title)| == |sorted| + 1
  {
    hide KeyOf, KeyLess;
    if sorted != [] {
      InsertHolds(axis, Init(sorted), title);
      assert forall x :: x in sorted <==> x in Init(sorted) || x == Last(sorted);
    }
  }

  lemma {:induction false} InsertSorted(axis: Axis, sorted: seq<string>, title: string)
    requires StrictlySorted(axis, sorted)
    requires forall x :: x in sorted ==> KeyOf(axis, x) != KeyOf(axis, title)
    ensures StrictlySorted(axis, Insert(axis, sorted, title))
  {
    hide KeyOf, KeyLess;
    if sorted != [] {
      var last := Last(sorted);
      assert last in sorted;
      assert forall x :: x in Init(sorted) ==> x in sorted;
      KeyLessTotal(KeyOf(axis, title), KeyOf(axis, last));
      if KeyLess(KeyOf(axis, title), KeyOf(axis, last)) {
        InsertSorted(axis, Init(sorted), title);
        var rest := Insert(axis, Init(sorted), title);
        InsertHolds(axis, Init(sorted), title);
        forall i | 0 <= i < |rest| ensures KeyLess(KeyOf(axis, rest[i]), KeyOf(axis, last)) {
          assert rest[i] in rest;
          if rest[i] != title {
            assert rest[i] in Init(sorted);
            var j :| 0 <= j < |sorted| - 1 && Init(sorted)[j] == rest[i];
            assert sorted[j] == rest[i];
          }
        }
      } else {
        forall i | 0 <= i < |sorted| ensures KeyLess(KeyOf(axis, sorted[i]), KeyOf(axis, title)) {
          if i < |sorted| - 1 {
            KeyLessTransitive(KeyOf(axis, sorted[i]), KeyOf(axis, last), KeyOf(axis, title));
          }
        }
      }
    }
  }

  /** The sort orders the titles strictly and neither loses nor invents one. */
  lemma {:induction false} SortedIs(axis: Axis, items: seq<string>)
    requires DistinctFolds(items) && AllNormal(items)
    ensures StrictlySorted(axis, SortedBy(axis, items))
    ensures |SortedBy(axis, items)| == |items|
    ensures forall x :: x in SortedBy(axis, items) <==> x in items
  {
    hide KeyOf, KeyLess, Lower, Normal, Insert, StrictlySorted;
    if items == [] {
      EmptySorted(axis);
    } else {
      var front := SortedBy(axis, Init(items));
      SortedIs(axis, Init(items));
      assert forall x :: x in items <==> x in Init(items) || x == Last(items);
      forall x | x in front ensures KeyOf(axis, x) != KeyOf(axis, Last(items)) {
        var j :| 0 <= j < |items| - 1 && Init(items)[j] == x;
        assert items[j] == x;
        KeysSeparate2(axis, x, Last(items));
      }
      InsertSorted(axis, front, Last(items));
      InsertHolds(axis, front, Last(items));
    }
  }

  lemma EmptySorted(axis: Axis)
    ensures StrictlySorted(axis, [])
  {
  }

  lemma SortedFolds(axis: Axis, items: seq<string>)
    requires StrictlySorted(axis, items) && AllNormal(items)
    ensures DistinctFolds(items)
  {
    hide KeyOf, KeyLess, Lower, Normal;
    forall i, j | 0 <= i < j < |items| ensures Lower(items[i]) != Lower(items[j]) {
      if Lower(items[i]) == Lower(items[j]) {
        CaseInsensitiveKeys(items[i], items[j], axis);
        KeyLessTotal(KeyOf(axis, items[i]), KeyOf(axis, items[j]));
      }
    }
  }

  /**
   The titles of an axis: strictly sorted by its key, pairwise different even up to case, never blank,
   and covering exactly the non-blank values.
   */
  lemma {:induction false} TitlesAre(axis: Axis, values: seq<Option<string>>)
    ensures var titles := Titles(axis, values);
            && StrictlySorted(axis, titles)
            && DistinctFolds(titles)
            && AllNormal(titles)
            && forall fold :: HasFold(titles, fold) <==> Wanted(values, fold)
  {
    hide StrictlySorted, Lower, Normal, SortedBy, Collected;
    var items := Collected(values);
    var titles := SortedBy(axis, items);
    CollectedIs(values);
    SortedIs(axis, items);
    assert forall i :: 0 <= i < |items| ==> items[i] in items;
    assert forall i :: 0 <= i < |titles| ==> titles[i] in titles;
    SortedFolds(axis, titles);
  }

  /** Sizes come in the order of the chart, those not on it last, and titles of equal standing by their upper case. */
  lemma SizesFollowChart(values: seq<Option<string>>, i: nat, j: nat)
    requires i < j < |Titles(BySize, values)|
    ensures var a, b := Titles(BySize, values)[i], Titles(BySize, values)[j];
            && (forall m: nat, n: nat :: Stands(a, m) && Stands(b, n) ==> m <= n)
            && ((exists n: nat :: Stands(b, n)) ==> exists n: nat :: Stands(a, n))
            && ((forall n: nat :: Stands(a, n) <==> Stands(b, n)) ==> Less(Upper(a), Upper(b)))
  {
    hide Titles, Stands, KeyOf, KeyLess, Less, Upper, Normal;
    TitlesAre(BySize, values);
    KeysFollowChart(Titles(BySize, values)[i], Titles(BySize, values)[j]);
  }

  /** Colors come in the order of their lower case. */
  lemma ColorsByName(values: seq<Option<string>>, i: nat, j: nat)
    requires i < j < |Titles(ByColor, values)|
    ensures Less(Lower(Titles(ByColor, values)[i]), Lower(Titles(ByColor, values)[j]))
  {
    hide Titles, Less, Lower, Normal;
    TitlesAre(ByColor, values);
  }

  // ---------------------------------------------------------------- canonical

  /** Strictly sorted titles with the same folds start with the same fold. */
  lemma HeadsAgree(axis: Axis, a: seq<string>, b: seq<string>)
    requires StrictlySorted(axis, a) && StrictlySorted(axis, b) && AllNormal(a) && AllNormal(b)
    requires a != [] && b != [] && HasFold(b, Lower(a[0])) && HasFold(a, Lower(b[0]))
    ensures Lower(a[0]) == Lower(b[0])
  {
    hide KeyOf, KeyLess, Lower, Normal;
    var j :| 0 <= j < |b| && Lower(b[j]) == Lower(a[0]);
    var i :| 0 <= i < |a| && Lower(a[i]) == Lower(b[0]);
    CaseInsensitiveKeys(a[0], b[j], axis);
    CaseInsensitiveKeys(a[i], b[0], axis);
    KeyLessTotal(KeyOf(axis, a[0]), KeyOf(axis, b[0]));
    KeysSeparate2(axis, a[0], b[0]);
  }

  lemma TailSorted(axis: Axis, items: seq<string>)
    requires StrictlySorted(axis, items) && AllNormal(items) && items != []
    ensures StrictlySorted(axis, items[1..]) && AllNormal(items[1..])
  {
    hide KeyOf, KeyLess, Normal;
    assert forall k :: 0 <= k < |items| - 1 ==> items[1..][k] == items[k + 1];
  }

  lemma {:induction false} SortedUnique(axis: Axis, a: seq<string>, b: seq<string>)
    requires StrictlySorted(axis, a) && StrictlySorted(axis, b) && AllNormal(a) && AllNormal(b)
    requires forall fold :: HasFold(a, fold) <==> HasFold(b, fold)
    ensures |a| == |b| && forall i :: 0 <= i < |a| ==> Lower(a[i]) == Lower(b[i])
  {
    hide Lower, HasFold, StrictlySorted, AllNormal, DistinctFolds;
    HeadFold(a);
    HeadFold(b);
    if a != [] {
      HeadsAgree(axis, a, b);
      SortedFolds(axis, a);
      SortedFolds(axis, b);
      TailFolds(a);
      TailFolds(b);
      TailSorted(axis, a);
      TailSorted(axis, b);
      SortedUnique(axis, a[1..], b[1..]);
      forall i | 0 <= i < |a| ensures Lower(a[i]) == Lower(b[i]) {
        if i > 0 { assert a[i] == a[1..][i - 1] && b[i] == b[1..][i - 1]; }
      }
    }
  }

  lemma HeadFold(items: seq<string>)
    ensures items != [] ==> HasFold(items, Lower(items[0]))
    ensures items == [] ==> forall fold :: !HasFold(items, fold)
  {
  }

  lemma KeysSeparate2(axis: Axis, a: string, b: string)
    requires Normal(a) && Normal(b)
    ensures KeyOf(axis, a) == KeyOf(axis, b) ==> Lower(a) == Lower(b)
  {
    if KeyOf(axis, a) == KeyOf(axis, b) {
      KeysSeparate(a, b, axis);
    }
  }

  lemma TailFolds(items: seq<string>)
    requires items != [] && DistinctFolds(items)
    ensures forall fold :: HasFold(items[1..], fold) <==> HasFold(items, fold) && fold != Lower(items[0])
  {
    hide Lower;
    assert forall k :: 0 <= k < |items| - 1 ==> items[1..][k] == items[k + 1];
    forall fold ensures HasFold(items[1..], fold) <==> HasFold(items, fold) && fold != Lower(items[0]) {
      if HasFold(items, fold) && fold != Lower(items[0]) {
        var k :| 0 <= k < |items| && Lower(items[k]) == fold;
        assert Lower(items[1..][k - 1]) == fold;
      }
    }
  }

  /** Whatever order the rows come in, the case-folded titles come out in the same order. */
  lemma TitlesCanonical(axis: Axis, a: seq<Option<string>>, b: seq<Option<string>>)
    requires forall v :: v in a <==> v in b
    ensures var ta, tb := Titles(axis, a), Titles(axis, b);
            |ta| == |tb| && forall i :: 0 <= i < |ta| ==> Lower(ta[i]) == Lower(tb[i]) && Slug(ta[i]) == Slug(tb[i])
  {
    hide Titles, StrictlySorted, Lower, Norm, Slug;
    var ta, tb := Titles(axis, a), Titles(axis, b);
    TitlesAre(axis, a);
    TitlesAre(axis, b);
    forall fold ensures HasFold(ta, fold) <==> HasFold(tb, fold) {
      assert Wanted(a, fold) <==> Wanted(b, fold);
    }
    SortedUnique(axis, ta, tb);
    forall i | 0 <= i < |ta| ensures Slug(ta[i]) == Slug(tb[i]) {
      CaseInsensitiveKeys(ta[i], tb[i], axis);
    }
  }

  // ---------------------------------------------------------------- when the display form is fixed

  /** Values that agree up to letter case once normalised agree outright. */
  ghost predicate OneCase(values: seq<Option<string>>) {
    forall v, w :: Some(v) in values && Some(w) in values && SameFold(v, w) ==> Norm(v) == Norm(w)
  }

  predicate SameFold(v: string, w: string) {
    Norm(v) != "" && Lower(Norm(v)) == Lower(Norm(w))
  }

  lemma {:induction false} CollectedForms(values: seq<Option<string>>)
    ensures forall x :: x in Collected(values) ==> exists v :: Some(v) in values && Norm(v) == x != ""
  {
    hide Norm, HasFold, Lower;
    if values != [] {
      CollectedForms(Init(values));
      InitLast(values);
      forall x | x in Collected(values) ensures exists v :: Some(v) in values && Norm(v) == x != "" {
        if x in Collected(Init(values)) {
          var v :| Some(v) in Init(values) && Norm(v) == x != "";
          assert Some(v) in values;
        } else {
          assert Last(values) in values && x == Norm(Last(values).value);
        }
      }
    }
  }

  lemma {:induction false} CollectedGrows(values: seq<Option<string>>, n: nat)
    requires n <= |values|
    ensures Collected(values[..n]) <= Collected(values)
    decreases |values|
  {
    hide Norm, HasFold, Lower;
    if n == |values| {
      assert values[..n] == values;
    } else {
      assert Init(values)[..n] == values[..n];
      CollectedGrows(Init(values), n);
    }
  }

  /** Every title is the normal form of a value; that of a non-blank first value is always among them. */
  lemma TitleForms(axis: Axis, values: seq<Option<string>>)
    ensures forall x :: x in Titles(axis, values) ==> exists v :: Some(v) in values && Norm(v) == x != ""
    ensures values != [] && values[0].Some? && Norm(values[0].value) != "" ==>
              Norm(values[0].value) in Titles(axis, values)
  {
    hide Norm, SortedBy, AllNormal, DistinctFolds;
    CollectedIs(values);
    SortedIs(axis, Collected(values));
    CollectedForms(values);
    if values != [] && values[0].Some? && Norm(values[0].value) != "" {
      CollectedGrows(values, 1);
      FirstCollected(values[..1]);
      assert Collected(values)[0] == Norm(values[0].value);
    }
  }

  lemma FirstCollected(values: seq<Option<string>>)
    requires |values| == 1 && values[0].Some? && Norm(values[0].value) != ""
    ensures Collected(values) == [Norm(values[0].value)]
  {
    hide Norm, Lower;
    assert Init(values) == [];
  }

  lemma InFirstPlace(axis: Axis, values: seq<Option<string>>, w: string)
    requires values != [] && values[0].Some? && SameFold(values[0].value, w) && Norm(values[0].value) != Norm(w)
    ensures Norm(values[0].value) in Titles(axis, values) && Norm(w) !in Titles(axis, values)
  {
    hide Norm, Titles, Lower, StrictlySorted, AllNormal;
    TitleForms(axis, values);
    TitlesAre(axis, values);
  }

  /** With one letter case per value, rows in another order give the very same titles. */
  lemma OneCaseFixes(axis: Axis, a: seq<Option<string>>, b: seq<Option<string>>)
    requires OneCase(a) && forall v :: v in a <==> v in b
    ensures Titles(axis, a) == Titles(axis, b)
  {
    hide Norm, Titles, Lower, Slug;
    var ta, tb := Titles(axis, a), Titles(axis, b);
    TitlesCanonical(axis, a, b);
    TitleForms(axis, a);
    TitleForms(axis, b);
    forall i | 0 <= i < |ta| ensures ta[i] == tb[i] {
      assert ta[i] in ta && tb[i] in tb;
      var v :| Some(v) in a && Norm(v) == ta[i] != "";
      var w :| Some(w) in b && Norm(w) == tb[i] != "";
      assert SameFold(v, w);
    }
  }

  function MovedToFront<T>(s: seq<T>, i: nat): seq<T>
    requires i < |s|
  {
    [s[i]] + (s[..i] + s[i + 1..])
  }

  lemma MovedKeeps<T>(s: seq<T>, i: nat)
    requires i < |s|
    ensures multiset(MovedToFront(s, i)) == multiset(s)
  {
    assert s == s[..i] + ([s[i]] + s[i + 1..]);
  }

  /**
   The display form is that of whichever row comes first, so the titles are the same for every order of the rows
   exactly when no two values differ in letter case only.
   */
  lemma DisplayFixedIff(axis: Axis, values: seq<Option<string>>)
    ensures OneCase(values) <==> forall b :: multiset(b) == multiset(values) ==> Titles(axis, b) == Titles(axis, values)
  {
    hide Titles, Norm, Lower;
    if OneCase(values) {
      forall b | multiset(b) == multiset(values) ensures Titles(axis, b) == Titles(axis, values) {
        assert forall v :: v in b <==> v in multiset(b);
        assert forall v :: v in values <==> v in multiset(values);
        OneCaseFixes(axis, values, b);
      }
    } else {
      var v, w :| Some(v) in values && Some(w) in values && SameFold(v, w) && Norm(v) != Norm(w);
      var i, j :| 0 <= i < |values| && 0 <= j < |values| && values[i] == Some(v) && values[j] == Some(w);
      var b, c := MovedToFront(values, i), MovedToFront(values, j);
      MovedKeeps(values, i);
      MovedKeeps(values, j);
      InFirstPlace(axis, b, w);
      InFirstPlace(axis, c, v);
      assert Titles(axis, b) != Titles(axis, c);
    }
  }

  /** Two rows are enough. */
  lemma {:induction false} DisplayDependsOnOrder()
    ensures Titles(ByColor, [Some("Red"), Some("RED")]) == ["Red"]
    ensures Titles(ByColor, [Some("RED"), Some("Red")]) == ["RED"]
  {
    hide Titles, Norm;
    NormOfNormal("Red");
    NormOfNormal("RED");
    assert Lower("Red") == "red" && Lower("RED") == "red";
    OneTitle("Red", "RED");
    OneTitle("RED", "Red");
  }

  lemma OneTitle(first: string, second: string)
    requires Norm(first) == first != "" && Norm(second) == second && Lower(first) == Lower(second)
    ensures Titles(ByColor, [Some(first), Some(second)]) == [first]
  {
    var values := [Some(first), Some(second)];
    assert Init(values) == [Some(first)] && Init([Some(first)]) == [];
    assert Collected([]) == [];
    assert Collected([Some(first)]) == [first];
    assert Lower([first][0]) == Lower(second);
    assert Collected(values) == [first];
    assert Init([first]) == [];
    assert SortedBy(ByColor, []) == [];
  }

  // ---------------------------------------------------------------- derive_options

  function AttributesFor(titles: seq<string>): (r: seq<AttributeIngest>)
    ensures |r| == |titles|
  {
    seq(|titles|, i requires 0 <= i < |titles| =>
      AttributeIngest(titles[i], i, None, None, Some(Slug(titles[i])), None, None, None))
  }

  function BuiltOption(axis: Axis, titles: seq<string>): OptionIngest {
    match axis
    case ByColor =>
      OptionIngest("color", "Color", Some("swatch"), 0, None, None, titles != [], true, Listed(AttributesFor(titles)))
    case BySize =>
      OptionIngest("size", "Size", Some("dropdown"), 1, None, None, titles != [], true, Listed(AttributesFor(titles)))
  }

  function Payload(colors: seq<string>, sizes: seq<string>): seq<OptionIngest> {
    (if colors != [] then [BuiltOption(ByColor, colors)] else [])
      + (if sizes != [] then [BuiltOption(BySize, sizes)] else [])
  }

  /** DELETE of options by key, with their attributes by cascade. */
  function Pruned(t: OptionTables, p: ProductKey, stale: set<string>): OptionTables {
    OptionTables(
      map k | k in t.options && !(k.product == p && k.key in stale) :: t.options[k],
      map a | a in t.attributes && !(a.option.product == p && a.option.key in stale) :: t.attributes[a])
  }

  function Stale(colors: seq<string>, sizes: seq<string>): set<string> {
    (if colors == [] then {"color"} else {}) + (if sizes == [] then {"size"} else {})
  }

  function Derived(t: OptionTables, p: ProductKey, colors: seq<string>, sizes: seq<string>): OptionTables {
    Pruned(Upserted(t, p, Payload(colors, sizes)), p, Stale(colors, sizes))
  }

  datatype CollapseResult = CollapseResult(colors: nat, sizes: nat, colorAttrs: nat, sizeAttrs: nat)

  /** One order in which the variant query may return the product's rows; it has no ORDER BY. */
  ghost predicate VariantScan(scan: seq<VariantKey>, variants: map<VariantKey, Variant>, p: ProductKey) {
    Distinct(scan) && forall k :: k in scan <==> k in variants && k.product == p
  }

  function Colors(variants: map<VariantKey, Variant>, scan: seq<VariantKey>): seq<Option<string>>
    requires forall k :: k in scan ==> k in variants
  {
    seq(|scan|, i requires 0 <= i < |scan| => variants[scan[i]].color)
  }

  function Sizes(variants: map<VariantKey, Variant>, scan: seq<VariantKey>): seq<Option<string>>
    requires forall k :: k in scan ==> k in variants
  {
    seq(|scan|, i requires 0 <= i < |scan| => variants[scan[i]].size)
  }

  /** The options a derivation leaves when the variant query returns the rows in this order. */
  ghost function DerivedBy(t: OptionTables, variants: map<VariantKey, Variant>, p: ProductKey, scan: seq<VariantKey>)
    : OptionTables
    requires VariantScan(scan, variants, p)
  {
    Derived(t, p, Titles(ByColor, Colors(variants, scan)), Titles(BySize, Sizes(variants, scan)))
  }

  lemma {:induction false} TitledKeepsAll(attributes: seq<AttributeIngest>)
    requires forall a :: a in attributes ==> a.title != ""
    ensures Titled(attributes) == attributes
    decreases |attributes|
  {
    hide Init, Last, Titled;
    TitledUnfold(attributes);
    if attributes != [] {
      InitLast(attributes);
      TitledKeepsAll(Init(attributes));
    }
  }

  lemma TitledUnfold(attributes: seq<AttributeIngest>)
    ensures attributes == [] ==> Titled(attributes) == []
    ensures attributes != [] && Last(attributes).title != "" ==>
              Titled(attributes) == Titled(Init(attributes)) + [Last(attributes)]
    ensures attributes != [] ==> |Init(attributes)| < |attributes|
  {
  }

  /** Delete-and-reinsert can never hit the unique constraint on titles. */
  lemma BuiltInsertable(axis: Axis, titles: seq<string>)
    requires AllNormal(titles) && DistinctFolds(titles)
    ensures OptionUpsert.Insertable(BuiltOption(axis, titles))
    ensures Titled(AttributesFor(titles)) == AttributesFor(titles) && DistinctTitles(AttributesFor(titles))
  {
    hide Slug, Lower, Normal, Titled;
    TitledKeepsAll(AttributesFor(titles));
    forall i, j | 0 <= i < j < |titles| ensures titles[i] != titles[j] {
      assert Lower(titles[i]) != Lower(titles[j]);
    }
  }

  method DeleteOptions(db: Database, p: ProductKey, stale: set<string>)
    modifies db`options, db`attributes
    ensures OptionTables(db.options, db.attributes)
              == Pruned(OptionTables(old(db.options), old(db.attributes)), p, stale)
  {
    db.options := map k | k in db.options && !(k.product == p && k.key in stale) :: db.options[k];
    db.attributes :=
      map a | a in db.attributes && !(a.option.product == p && a.option.key in stale) :: db.attributes[a];
  }

  /** Rebuilds both options and removes the axes that came out empty. */
  method DeriveOptions(db: Database, p: ProductKey, scan: seq<VariantKey>) returns (r: CollapseResult)
    requires VariantScan(scan, db.variants, p)
    modifies db`options, db`attributes
    ensures var colors, sizes := Titles(ByColor, Colors(db.variants, scan)), Titles(BySize, Sizes(db.variants, scan));
            && OptionTables(db.options, db.attributes)
               == DerivedBy(OptionTables(old(db.options), old(db.attributes)), db.variants, p, scan)
            && r == CollapseResult(if colors != [] then 1 else 0, if sizes != [] then 1 else 0, |colors|, |sizes|)
  {
    hide Titles, Upserted, BuiltOption, AllInsertable, Stale, Pruned, Colors, Sizes;
    var colors := DistinctTitlesOf(ByColor, Colors(db.variants, scan));
    var sizes := DistinctTitlesOf(BySize, Sizes(db.variants, scan));
    PayloadInsertable(Colors(db.variants, scan), Sizes(db.variants, scan));
    var payload: seq<OptionIngest> := [];
    var built: set<string> := {};
    if colors != [] {
      payload := payload + [BuiltOption(ByColor, colors)];
      built := built + {"color"};
    }
    if sizes != [] {
      payload := payload + [BuiltOption(BySize, sizes)];
      built := built + {"size"};
    }
    assert payload == Payload(colors, sizes);
    StaleIs(colors, sizes, built);
    var ok := UpsertOptions(db, p, payload);
    DeleteOptions(db, p, {"color", "size"} - built);
    r := CollapseResult(if colors != [] then 1 else 0, if sizes != [] then 1 else 0, |colors|, |sizes|);
  }

  lemma StaleIs(colors: seq<string>, sizes: seq<string>, built: set<string>)
    requires built == (if colors != [] then {"color"} else {}) + (if sizes != [] then {"size"} else {})
    ensures {"color", "size"} - built == Stale(colors, sizes)
  {
    assert "color" != "size";
  }

  /** No derivation can fail. */
  lemma {:induction false} PayloadInsertable(colors: seq<Option<string>>, sizes: seq<Option<string>>)
    ensures AllInsertable(Payload(Titles(ByColor, colors), Titles(BySize, sizes)))
  {
    hide Titles, BuiltOption, OptionUpsert.Insertable;
    TitlesInsertable(ByColor, colors);
    TitlesInsertable(BySize, sizes);
  }

  lemma TitlesInsertable(axis: Axis, values: seq<Option<string>>)
    ensures OptionUpsert.Insertable(BuiltOption(axis, Titles(axis, values)))
  {
    hide Titles, AllNormal, DistinctFolds, BuiltOption, OptionUpsert.Insertable, StrictlySorted, Wanted, HasFold;
    TitlesAre(axis, values);
    BuiltInsertable(axis, Titles(axis, values));
  }

  // ---------------------------------------------------------------- what a derivation leaves

  function OptionName(axis: Axis): string {
    match axis
    case ByColor => "color"
    case BySize => "size"
  }

  lemma {:induction false} InsertedRow(k: OptionKey, titled: seq<AttributeIngest>, i: nat)
    requires DistinctTitles(titled) && i < |titled|
    ensures Lookup(Inserted(map[], k, titled), AttributeKey(k, titled[i].title)) == Some(AttributeRow(titled[i]))
  {
    if i < |titled| - 1 {
      assert Init(titled)[i] == titled[i];
      InsertedRow(k, Init(titled), i);
    }
  }

  lemma PayloadAt(colors: seq<string>, sizes: seq<string>, axis: Axis)
    ensures var titles := if axis == ByColor then colors else sizes;
            var i := LastOption(Payload(colors, sizes), OptionName(axis));
            && (titles == [] <==> i < 0)
            && (i >= 0 ==> Payload(colors, sizes)[i] == BuiltOption(axis, titles))
            && (forall j ::
                  0 <= j < |Payload(colors, sizes)| && Payload(colors, sizes)[j].optionKey == OptionName(axis) ==>
                  Payload(colors, sizes)[j].enabled)
            && (OptionName(axis) in Stale(colors, sizes) <==> titles == [])
  {
    hide AttributesFor, LastWhere;
    assert "color" != "size";
    var payload := Payload(colors, sizes);
    if colors != [] { assert payload[0] == BuiltOption(ByColor, colors); }
    if sizes != [] { assert payload[|payload| - 1] == BuiltOption(BySize, sizes); }
    var titles := if axis == ByColor then colors else sizes;
    if titles != [] {
      assert LastOption(payload, OptionName(axis)) >= 0;
    }
  }

  /** The attributes stored for option k. */
  function AttributesUnder(attributes: map<AttributeKey, Attribute>, k: OptionKey): set<AttributeKey> {
    set a | a in attributes && a.option == k
  }

  /**
   One derived axis. With titles: the option is there, with its own state kept if it existed and enabled if it is
   new, and its attributes are exactly the titles in order, as many as reported. Without: option and attributes
   are gone.
   */
  lemma {:induction false} DerivedAxis(
    t: OptionTables, p: ProductKey, colors: seq<string>, sizes: seq<string>, axis: Axis)
    requires AllNormal(colors) && DistinctFolds(colors) && AllNormal(sizes) && DistinctFolds(sizes)
    ensures var after := Derived(t, p, colors, sizes);
            var titles := if axis == ByColor then colors else sizes;
            var k := OptionKey(p, OptionName(axis));
            && |AttributesUnder(after.attributes, k)| == |titles|
            && (titles == [] ==> k !in after.options)
            && (titles != [] ==>
                  && k in after.options
                  && Describes(after.options[k], BuiltOption(axis, titles))
                  && after.options[k].title == (if axis == ByColor then "Color" else "Size")
                  && after.options[k].optionsType == Some(if axis == ByColor then "swatch" else "dropdown")
                  && after.options[k].sortOrder == (if axis == ByColor then 0 else 1)
                  && after.options[k].masterOptionId == None && after.options[k].opsOptionId == None
                  && after.options[k].required
                  && Owned(after.options[k]) == (if k in t.options then Owned(t.options[k]) else (1, true, None)))
            && (forall i :: 0 <= i < |titles| ==>
                  && AttributeKey(k, titles[i]) in after.attributes
                  && after.attributes[AttributeKey(k, titles[i])]
                     == Attribute(i, None, None, Some(Slug(titles[i])), None, None, None, 1, false, None, None))
  {
    hide Derived, AllNormal, DistinctFolds, Owned, BuiltOption, Describes, AttributesFor, AttributeRow;
    var after := Derived(t, p, colors, sizes);
    var titles := if axis == ByColor then colors else sizes;
    var k := OptionKey(p, OptionName(axis));
    DerivedOption(t, p, colors, sizes, axis);
    BuiltColumns(axis, titles);
    if titles == [] {
      assert AttributesUnder(after.attributes, k) == {};
    } else {
      DerivedCount(t, p, colors, sizes, axis);
      forall i | 0 <= i < |titles|
        ensures Lookup(after.attributes, AttributeKey(k, titles[i]))
                == Some(Attribute(i, None, None, Some(Slug(titles[i])), None, None, None, 1, false, None, None))
      {
        DerivedRow(t, p, colors, sizes, axis, i);
        ListedRow(titles, i);
      }
    }
  }

  lemma ListedRow(titles: seq<string>, i: nat)
    requires i < |titles|
    ensures AttributeRow(AttributesFor(titles)[i])
         == Attribute(i, None, None, Some(Slug(titles[i])), None, None, None, 1, false, None, None)
  {
    hide Slug;
  }

  lemma DerivedCount(t: OptionTables, p: ProductKey, colors: seq<string>, sizes: seq<string>, axis: Axis)
    requires AllNormal(colors) && DistinctFolds(colors) && AllNormal(sizes) && DistinctFolds(sizes)
    requires (if axis == ByColor then colors else sizes) != []
    ensures |AttributesUnder(Derived(t, p, colors, sizes).attributes, OptionKey(p, OptionName(axis)))|
         == |if axis == ByColor then colors else sizes|
  {
    hide Derived, Inserted, AllNormal, DistinctFolds, BuiltOption, AttributesUnder, DistinctTitles;
    var titles := if axis == ByColor then colors else sizes;
    DerivedAttributes(t, p, colors, sizes, axis);
    BuiltInsertable(axis, titles);
    CountAttributes(Derived(t, p, colors, sizes).attributes, OptionKey(p, OptionName(axis)), AttributesFor(titles));
  }

  lemma BuiltColumns(axis: Axis, titles: seq<string>)
    ensures var o := BuiltOption(axis, titles);
            && o.title == (if axis == ByColor then "Color" else "Size")
            && o.optionsType == Some(if axis == ByColor then "swatch" else "dropdown")
            && o.sortOrder == (if axis == ByColor then 0 else 1)
            && o.masterOptionId == None && o.opsOptionId == None && o.required == (titles != []) && o.enabled
  {
    hide AttributesFor;
  }

  /** The option row of a derived axis, with the columns of the payload; gone, with its attributes, without titles. */
  lemma DerivedOption(t: OptionTables, p: ProductKey, colors: seq<string>, sizes: seq<string>, axis: Axis)
    ensures var after := Derived(t, p, colors, sizes);
            var titles := if axis == ByColor then colors else sizes;
            var k := OptionKey(p, OptionName(axis));
            var o := BuiltOption(axis, titles);
            && (titles == [] ==> k !in after.options && forall a :: a in after.attributes ==> a.option != k)
            && (titles != [] ==>
                  && k in after.options && Describes(after.options[k], o)
                  && after.options[k].title == o.title && after.options[k].optionsType == o.optionsType
                  && after.options[k].sortOrder == o.sortOrder && after.options[k].required == o.required
                  && after.options[k].masterOptionId == o.masterOptionId
                  && after.options[k].opsOptionId == o.opsOptionId
                  && Owned(after.options[k]) == if k in t.options then Owned(t.options[k]) else (1, true, None))
  {
    hide Upserted, Payload, Inserted, OptionRow, Owned, Stale, BuiltOption, Titled;
    var titles := if axis == ByColor then colors else sizes;
    PayloadAt(colors, sizes, axis);
    OptionLookup(t, p, Payload(colors, sizes), OptionKey(p, OptionName(axis)));
    BuiltColumns(axis, titles);
  }

  /** The attributes of a derived option are those inserted for its titles. */
  lemma DerivedAttributes(t: OptionTables, p: ProductKey, colors: seq<string>, sizes: seq<string>, axis: Axis)
    requires AllNormal(colors) && DistinctFolds(colors) && AllNormal(sizes) && DistinctFolds(sizes)
    requires (if axis == ByColor then colors else sizes) != []
    ensures var titles := if axis == ByColor then colors else sizes;
            var k := OptionKey(p, OptionName(axis));
            forall a: AttributeKey :: a.option == k ==>
              Lookup(Derived(t, p, colors, sizes).attributes, a)
              == Lookup(Inserted(map[], k, AttributesFor(titles)), a)
  {
    hide Upserted, Payload, Inserted, AllNormal, DistinctFolds, OptionRow, Stale, Owned, Describes;
    var titles := if axis == ByColor then colors else sizes;
    PayloadAt(colors, sizes, axis);
    OptionLookup(t, p, Payload(colors, sizes), OptionKey(p, OptionName(axis)));
    BuiltInsertable(axis, titles);
  }

  lemma CountAttributes(attributes: map<AttributeKey, Attribute>, k: OptionKey, listed: seq<AttributeIngest>)
    requires DistinctTitles(listed)
    requires forall a: AttributeKey :: a.option == k ==> Lookup(attributes, a) == Lookup(Inserted(map[], k, listed), a)
    ensures |AttributesUnder(attributes, k)| == |listed|
  {
    hide Inserted;
    var keys := seq(|listed|, i requires 0 <= i < |listed| => AttributeKey(k, listed[i].title));
    assert Distinct(keys);
    forall a ensures a in AttributesUnder(attributes, k) <==> a in keys {
      InsertedHas(map[], k, listed, a);
      if a in AttributesUnder(attributes, k) {
        assert a in Inserted(map[], k, listed);
        var i :| 0 <= i < |listed| && listed[i].title == a.title;
        assert keys[i] == a;
      }
    }
    DistinctCount(keys);
    assert AttributesUnder(attributes, k) == set a | a in keys;
  }

  /** Every other option, of this product or another, keeps its row and its attributes. */
  lemma {:induction false} DerivedElsewhere(
    t: OptionTables, p: ProductKey, colors: seq<string>, sizes: seq<string>, k: OptionKey)
    requires k.product != p || (k.key != "color" && k.key != "size")
    ensures var after := Derived(t, p, colors, sizes);
            && Lookup(after.options, k) == Lookup(t.options, k)
            && forall a: AttributeKey :: a.option == k ==> Lookup(after.attributes, a) == Lookup(t.attributes, a)
  {
    hide Upserted, Payload, Inserted, OptionRow;
    assert k.key != "color" && k.key != "size" ==> LastOption(Payload(colors, sizes), k.key) < 0 by {
      PayloadKeys(colors, sizes);
    }
    OptionLookup(t, p, Payload(colors, sizes), k);
  }

  lemma PayloadKeys(colors: seq<string>, sizes: seq<string>)
    ensures forall o :: o in Payload(colors, sizes) ==> o.optionKey == "color" || o.optionKey == "size"
    ensures forall j :: 0 <= j < |Payload(colors, sizes)| ==> Payload(colors, sizes)[j] in Payload(colors, sizes)
  {
    hide AttributesFor;
  }

  /** Deriving again from the same titles changes nothing. */
  lemma DeriveIdempotent(t: OptionTables, p: ProductKey, colors: seq<string>, sizes: seq<string>)
    ensures Derived(Derived(t, p, colors, sizes), p, colors, sizes) == Derived(t, p, colors, sizes)
  {
    hide Upserted, Payload, Inserted, OptionRow, Stale;
    var once := Derived(t, p, colors, sizes);
    var twice := Derived(once, p, colors, sizes);
    var payload := Payload(colors, sizes);
    forall k: OptionKey ensures Lookup(twice.options, k) == Lookup(once.options, k) {
      OptionLookup(t, p, payload, k);
      OptionLookup(once, p, payload, k);
      var i := LastOption(payload, k.key);
      if k.product == p && i >= 0 && k in once.options {
        SameColumns(Upserted(t, p, payload).options[k], Upserted(once, p, payload).options[k], payload[i]);
      }
    }
    SameMaps(twice.options, once.options);
    forall a: AttributeKey ensures Lookup(twice.attributes, a) == Lookup(once.attributes, a) {
      OptionLookup(t, p, payload, a.option);
      OptionLookup(once, p, payload, a.option);
    }
    SameMaps(twice.attributes, once.attributes);
  }

  lemma ScanValues(variants: map<VariantKey, Variant>, p: ProductKey, a: seq<VariantKey>, b: seq<VariantKey>)
    requires VariantScan(a, variants, p) && VariantScan(b, variants, p)
    ensures forall v :: v in Colors(variants, a) ==> v in Colors(variants, b)
    ensures forall v :: v in Sizes(variants, a) ==> v in Sizes(variants, b)
  {
    forall i | 0 <= i < |a|
      ensures Colors(variants, a)[i] in Colors(variants, b) && Sizes(variants, a)[i] in Sizes(variants, b)
    {
      assert a[i] in b;
      var j :| 0 <= j < |b| && b[j] == a[i];
      assert Colors(variants, b)[j] == Colors(variants, a)[i];
      assert Sizes(variants, b)[j] == Sizes(variants, a)[i];
    }
  }

  function AxisValues(axis: Axis, variants: map<VariantKey, Variant>, scan: seq<VariantKey>): seq<Option<string>>
    requires forall k :: k in scan ==> k in variants
  {
    if axis == ByColor then Colors(variants, scan) else Sizes(variants, scan)
  }

  function AxisValue(axis: Axis, v: Variant): Option<string> {
    if axis == ByColor then v.color else v.size
  }

  lemma ScanWithin(variants: map<VariantKey, Variant>, p: ProductKey, a: seq<VariantKey>)
    requires VariantScan(a, variants, p)
    ensures forall k :: k in a ==> k in variants
  {
  }

  /** Which attributes a derived option has: one for each title. */
  lemma DerivedTitles(
    t: OptionTables, p: ProductKey, colors: seq<string>, sizes: seq<string>, axis: Axis, title: string)
    requires AllNormal(colors) && DistinctFolds(colors) && AllNormal(sizes) && DistinctFolds(sizes)
    ensures AttributeKey(OptionKey(p, OptionName(axis)), title) in Derived(t, p, colors, sizes).attributes
       <==> title in if axis == ByColor then colors else sizes
  {
    hide Derived, Inserted, AllNormal, DistinctFolds, BuiltOption, Describes, Owned;
    var titles := if axis == ByColor then colors else sizes;
    var k := OptionKey(p, OptionName(axis));
    DerivedOption(t, p, colors, sizes, axis);
    if titles != [] {
      DerivedAttributes(t, p, colors, sizes, axis);
      var listed := AttributesFor(titles);
      InsertedHas(map[], k, listed, AttributeKey(k, title));
      assert forall i :: 0 <= i < |titles| ==> listed[i].title == titles[i];
      assert HasTitle(listed, title) <==> title in titles;
      assert AttributeKey(k, title) in Derived(t, p, colors, sizes).attributes
        <==> Lookup(Derived(t, p, colors, sizes).attributes, AttributeKey(k, title)) != None;
    }
  }

  /** The options table does not depend on the titles beyond whether there are any. */
  lemma DerivedOptions(
    t: OptionTables, p: ProductKey, ca: seq<string>, sa: seq<string>, cb: seq<string>, sb: seq<string>)
    requires (ca == [] <==> cb == []) && (sa == [] <==> sb == [])
    ensures Derived(t, p, ca, sa).options == Derived(t, p, cb, sb).options
  {
    hide UpsertedOne, Upserted, BuiltOption, Payload;
    PayloadSteps(t, p, ca, sa);
    PayloadSteps(t, p, cb, sb);
    BuiltRowAgrees(t, p, ByColor, ca, cb);
    var a1 := if ca != [] then UpsertedOne(t, p, BuiltOption(ByColor, ca)) else t;
    var b1 := if cb != [] then UpsertedOne(t, p, BuiltOption(ByColor, cb)) else t;
    BuiltRowAgrees(a1, p, BySize, sa, sb);
    OptionsFromOptions(a1, b1, p, BuiltOption(BySize, sb));
  }

  lemma OneUpserted(t: OptionTables, p: ProductKey, o: OptionIngest)
    ensures Upserted(t, p, [o]) == UpsertedOne(t, p, o)
  {
    hide UpsertedOne;
    assert Init([o]) == [];
  }

  lemma PayloadSteps(t: OptionTables, p: ProductKey, colors: seq<string>, sizes: seq<string>)
    ensures var first := if colors != [] then UpsertedOne(t, p, BuiltOption(ByColor, colors)) else t;
            Upserted(t, p, Payload(colors, sizes))
            == if sizes != [] then UpsertedOne(first, p, BuiltOption(BySize, sizes)) else first
  {
    hide UpsertedOne, BuiltOption;
    var c, s := BuiltOption(ByColor, colors), BuiltOption(BySize, sizes);
    OneUpserted(t, p, c);
    OneUpserted(t, p, s);
    assert Init([c, s]) == [c];
    assert Upserted(t, p, [c, s]) == UpsertedOne(UpsertedOne(t, p, c), p, s);
    assert [c] + [s] == [c, s] && [c] + [] == [c] && [] + [s] == [s];
    assert Payload(colors, sizes) == (if colors != [] then [c] else []) + (if sizes != [] then [s] else []);
  }

  lemma BuiltRowAgrees(t: OptionTables, p: ProductKey, axis: Axis, a: seq<string>, b: seq<string>)
    requires a == [] <==> b == []
    ensures UpsertedOne(t, p, BuiltOption(axis, a)).options == UpsertedOne(t, p, BuiltOption(axis, b)).options
  {
    hide Inserted, Titled, AttributesFor;
  }

  lemma OptionsFromOptions(t: OptionTables, u: OptionTables, p: ProductKey, o: OptionIngest)
    requires t.options == u.options
    ensures UpsertedOne(t, p, o).options == UpsertedOne(u, p, o).options
  {
    hide Inserted, Titled;
  }

  /** The row stored for one title of a derived option. */
  lemma DerivedRow(
    t: OptionTables, p: ProductKey, colors: seq<string>, sizes: seq<string>, axis: Axis, i: nat)
    requires AllNormal(colors) && DistinctFolds(colors) && AllNormal(sizes) && DistinctFolds(sizes)
    requires var titles := if axis == ByColor then colors else sizes; i < |titles|
    ensures var titles := if axis == ByColor then colors else sizes;
            Lookup(Derived(t, p, colors, sizes).attributes, AttributeKey(OptionKey(p, OptionName(axis)), titles[i]))
            == Some(AttributeRow(AttributesFor(titles)[i]))
  {
    hide Derived, Inserted, AllNormal, DistinctFolds, Slug, AttributeRow;
    var titles := if axis == ByColor then colors else sizes;
    DerivedAttributes(t, p, colors, sizes, axis);
    BuiltInsertable(axis, titles);
    InsertedRow(OptionKey(p, OptionName(axis)), AttributesFor(titles), i);
  }

  /** What two orders of the rows have in common on one axis. */
  ghost predicate SameUpToCase(
    axis: Axis, p: ProductKey, a: OptionTables, b: OptionTables, ta: seq<string>, tb: seq<string>)
  {
    var k := OptionKey(p, OptionName(axis));
    && |ta| == |tb|
    && (forall i :: 0 <= i < |ta| ==>
          && Lower(ta[i]) == Lower(tb[i])
          && AttributeKey(k, ta[i]) in a.attributes && AttributeKey(k, tb[i]) in b.attributes
          && a.attributes[AttributeKey(k, ta[i])] == b.attributes[AttributeKey(k, tb[i])])
    && (forall title :: AttributeKey(k, title) in a.attributes <==> title in ta)
    && (forall title :: AttributeKey(k, title) in b.attributes <==> title in tb)
  }

  /**
   Whatever order the variant query returns its rows in, a derivation leaves the same options table and, title by
   title, the same attribute rows: only the letter case of a derived title can differ.
   */
  lemma {:induction false} DeriveCanonical(
    t: OptionTables, variants: map<VariantKey, Variant>, p: ProductKey, a: seq<VariantKey>, b: seq<VariantKey>)
    requires VariantScan(a, variants, p) && VariantScan(b, variants, p)
    ensures var ua, ub := DerivedBy(t, variants, p, a), DerivedBy(t, variants, p, b);
            && ua.options == ub.options
            && (forall axis :: SameUpToCase(axis, p, ua, ub, Titles(axis, AxisValues(axis, variants, a)),
                                            Titles(axis, AxisValues(axis, variants, b))))
            && (forall x: AttributeKey ::
                  x.option.product != p || (x.option.key != "color" && x.option.key != "size") ==>
                  Lookup(ua.attributes, x) == Lookup(ub.attributes, x))
  {
    hide Titles, Colors, Sizes, Lower, Slug, VariantScan, Derived, AllNormal, DistinctFolds, StrictlySorted, Wanted,
      HasFold;
    SameScans(variants, p, a, b);
    var ca, sa := Titles(ByColor, Colors(variants, a)), Titles(BySize, Sizes(variants, a));
    var cb, sb := Titles(ByColor, Colors(variants, b)), Titles(BySize, Sizes(variants, b));
    TitlesAre(ByColor, Colors(variants, a));
    TitlesAre(ByColor, Colors(variants, b));
    TitlesAre(BySize, Sizes(variants, a));
    TitlesAre(BySize, Sizes(variants, b));
    TitlesCanonical(ByColor, Colors(variants, a), Colors(variants, b));
    TitlesCanonical(BySize, Sizes(variants, a), Sizes(variants, b));
    DerivedOptions(t, p, ca, sa, cb, sb);
    CanonicalAxis(t, p, ca, sa, cb, sb, ByColor);
    CanonicalAxis(t, p, ca, sa, cb, sb, BySize);
    forall x: AttributeKey | x.option.product != p || (x.option.key != "color" && x.option.key != "size")
      ensures Lookup(Derived(t, p, ca, sa).attributes, x) == Lookup(Derived(t, p, cb, sb).attributes, x)
    {
      DerivedElsewhere(t, p, ca, sa, x.option);
      DerivedElsewhere(t, p, cb, sb, x.option);
    }
  }

  lemma CanonicalAxis(
    t: OptionTables, p: ProductKey, ca: seq<string>, sa: seq<string>, cb: seq<string>, sb: seq<string>, axis: Axis)
    requires AllNormal(ca) && DistinctFolds(ca) && AllNormal(sa) && DistinctFolds(sa)
    requires AllNormal(cb) && DistinctFolds(cb) && AllNormal(sb) && DistinctFolds(sb)
    requires var ta, tb := if axis == ByColor then ca else sa, if axis == ByColor then cb else sb;
             |ta| == |tb| && forall i :: 0 <= i < |ta| ==> Lower(ta[i]) == Lower(tb[i]) && Slug(ta[i]) == Slug(tb[i])
    ensures var ta, tb := if axis == ByColor then ca else sa, if axis == ByColor then cb else sb;
            SameUpToCase(axis, p, Derived(t, p, ca, sa), Derived(t, p, cb, sb), ta, tb)
  {
    hide Derived, Lower, Slug, AllNormal, DistinctFolds;
    var ta, tb := if axis == ByColor then ca else sa, if axis == ByColor then cb else sb;
    forall i | 0 <= i < |ta|
      ensures var k := OptionKey(p, OptionName(axis));
              Lookup(Derived(t, p, ca, sa).attributes, AttributeKey(k, ta[i]))
              == Lookup(Derived(t, p, cb, sb).attributes, AttributeKey(k, tb[i])) != None
    {
      DerivedRow(t, p, ca, sa, axis, i);
      DerivedRow(t, p, cb, sb, axis, i);
    }
    forall title
      ensures var k := OptionKey(p, OptionName(axis));
              && (AttributeKey(k, title) in Derived(t, p, ca, sa).attributes <==> title in ta)
              && (AttributeKey(k, title) in Derived(t, p, cb, sb).attributes <==> title in tb)
    {
      DerivedTitles(t, p, ca, sa, axis, title);
      DerivedTitles(t, p, cb, sb, axis, title);
    }
  }

  lemma SameScans(variants: map<VariantKey, Variant>, p: ProductKey, a: seq<VariantKey>, b: seq<VariantKey>)
    requires VariantScan(a, variants, p) && VariantScan(b, variants, p)
    ensures forall k :: k in a || k in b ==> k in variants
    ensures forall v :: v in Colors(variants, a) <==> v in Colors(variants, b)
    ensures forall v :: v in Sizes(variants, a) <==> v in Sizes(variants, b)
  {
    hide Colors, Sizes, VariantScan;
    ScanWithin(variants, p, a);
    ScanWithin(variants, p, b);
    ScanValues(variants, p, a, b);
    ScanValues(variants, p, b, a);
  }

  // ---------------------------------------------------------------- deriving a second time

  /** No two variants of the product differ on the axis in letter case only. */
  ghost predicate OneCaseStored(axis: Axis, variants: map<VariantKey, Variant>, p: ProductKey) {
    forall k, l :: k in variants && l in variants && k.product == l.product == p
                   && AxisValue(axis, variants[k]).Some? && AxisValue(axis, variants[l]).Some?
                   && SameFold(AxisValue(axis, variants[k]).value, AxisValue(axis, variants[l]).value) ==>
      Norm(AxisValue(axis, variants[k]).value) == Norm(AxisValue(axis, variants[l]).value)
  }

  lemma StoredIsScanned(axis: Axis, variants: map<VariantKey, Variant>, p: ProductKey, scan: seq<VariantKey>)
    requires VariantScan(scan, variants, p) && OneCaseStored(axis, variants, p)
    ensures OneCase(AxisValues(axis, variants, scan))
  {
    hide SameFold, Norm;
    var values := AxisValues(axis, variants, scan);
    forall v, w | Some(v) in values && Some(w) in values && SameFold(v, w) ensures Norm(v) == Norm(w) {
      var i, j :| 0 <= i < |values| && 0 <= j < |values| && values[i] == Some(v) && values[j] == Some(w);
      assert scan[i] in scan && scan[j] in scan;
    }
  }

  lemma {:induction false} Enumerate(keys: set<VariantKey>) returns (order: seq<VariantKey>)
    ensures Distinct(order) && forall k :: k in order <==> k in keys
  {
    order := [];
    if keys != {} {
      var k :| k in keys;
      var rest := Enumerate(keys - {k});
      order := rest + [k];
    }
  }

  /** The rows may come in an order that begins with any one of them. */
  lemma ScanFrom(variants: map<VariantKey, Variant>, p: ProductKey, first: VariantKey) returns (scan: seq<VariantKey>)
    requires first in variants && first.product == p
    ensures VariantScan(scan, variants, p) && scan != [] && scan[0] == first
  {
    var rest := Enumerate((set k | k in variants && k.product == p) - {first});
    scan := [first] + rest;
  }

  /**
   Deriving a second time from the same variants leaves the options as they are, in whatever orders the two queries
   return the rows, exactly when no two variants of the product differ on an axis in letter case only.
   */
  lemma DeriveAgainIff(t: OptionTables, variants: map<VariantKey, Variant>, p: ProductKey)
    ensures (forall a, b :: VariantScan(a, variants, p) && VariantScan(b, variants, p) ==>
                 DerivedBy(DerivedBy(t, variants, p, a), variants, p, b) == DerivedBy(t, variants, p, a))
       <==> OneCaseStored(ByColor, variants, p) && OneCaseStored(BySize, variants, p)
  {
    hide Titles, Derived, VariantScan, OneCaseStored, Colors, Sizes;
    if OneCaseStored(ByColor, variants, p) && OneCaseStored(BySize, variants, p) {
      forall a, b | VariantScan(a, variants, p) && VariantScan(b, variants, p)
        ensures DerivedBy(DerivedBy(t, variants, p, a), variants, p, b) == DerivedBy(t, variants, p, a)
      {
        SameScans(variants, p, a, b);
        StoredIsScanned(ByColor, variants, p, a);
        StoredIsScanned(BySize, variants, p, a);
        OneCaseFixes(ByColor, Colors(variants, a), Colors(variants, b));
        OneCaseFixes(BySize, Sizes(variants, a), Sizes(variants, b));
        DeriveIdempotent(t, p, Titles(ByColor, Colors(variants, a)), Titles(BySize, Sizes(variants, a)));
      }
    } else {
      var axis := if OneCaseStored(ByColor, variants, p) then BySize else ByColor;
      var a, b := ChangingScans(t, variants, p, axis);
    }
  }

  /** Two orders of the rows that make a second derivation rename a title. */
  lemma ChangingScans(t: OptionTables, variants: map<VariantKey, Variant>, p: ProductKey, axis: Axis)
    returns (a: seq<VariantKey>, b: seq<VariantKey>)
    requires !OneCaseStored(axis, variants, p)
    ensures VariantScan(a, variants, p) && VariantScan(b, variants, p)
    ensures DerivedBy(DerivedBy(t, variants, p, a), variants, p, b) != DerivedBy(t, variants, p, a)
  {
    hide Titles, Derived, VariantScan, SameFold, Norm, AllNormal, DistinctFolds, StrictlySorted, Wanted;
    var k, l :| k in variants && l in variants && k.product == l.product == p
                && AxisValue(axis, variants[k]).Some? && AxisValue(axis, variants[l]).Some?
                && SameFold(AxisValue(axis, variants[k]).value, AxisValue(axis, variants[l]).value)
                && Norm(AxisValue(axis, variants[k]).value) != Norm(AxisValue(axis, variants[l]).value);
    a := ScanFrom(variants, p, k);
    b := ScanFrom(variants, p, l);
    SameScans(variants, p, a, b);
    var v, w := AxisValue(axis, variants[k]).value, AxisValue(axis, variants[l]).value;
    FoldSym(v, w);
    InFirstPlace(axis, AxisValues(axis, variants, a), w);
    InFirstPlace(axis, AxisValues(axis, variants, b), v);
    var once := DerivedBy(t, variants, p, a);
    TitlesAre(ByColor, Colors(variants, a));
    TitlesAre(ByColor, Colors(variants, b));
    TitlesAre(BySize, Sizes(variants, a));
    TitlesAre(BySize, Sizes(variants, b));
    DerivedTitles(t, p, Titles(ByColor, Colors(variants, a)), Titles(BySize, Sizes(variants, a)), axis, Norm(v));
    DerivedTitles(once, p, Titles(ByColor, Colors(variants, b)), Titles(BySize, Sizes(variants, b)), axis, Norm(v));
  }

  lemma FoldSym(v: string, w: string)
    requires SameFold(v, w)
    ensures SameFold(w, v)
  {
    hide Norm;
  }
}
