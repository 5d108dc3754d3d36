/**
 * The products of js/app.js: `toProduct` (one CSV row to one product, or nothing), the catalogue
 * load that keeps the products and indexes them by id, and the facets derived from the catalogue
 * (`deriveCategories`, `deriveUnits`, `buildCatalogueHierarchy`).
 */
module Products {
  import opened Wrappers
  import opened Strings
  import opened Maps
  import opened Numbers
  import opened Normalise

  /** A catalogue product. `priceLabel` (a currency formatting of `price`) is not modelled. */
  datatype Product = Product(
    id: string,
    reference: string,
    name: string,
    description: string,
    price: real,
    unit: string,
    quantityMode: QuantityMode,
    baseEcotax: real,
    weight: real,
    score: string,
    image: string,
    link: string,
    category: string)

  /** A text field that went through cleanCsvValue: trimmed, and never `NULL`. */
  predicate IsCleanText(s: string) {
    IsTrimmed(s) && !IsNullWord(s)
  }

  /** What every product toProduct builds satisfies. */
  predicate WellFormed(p: Product) {
    && p.id == p.reference
    && p.reference != "" && p.name != ""
    && IsCleanText(p.reference) && IsCleanText(p.name) && IsCleanText(p.category)
    && IsCleanText(p.image) && IsCleanText(p.link)
    && (IsGrade(p.score) || p.score == "")
    && p.quantityMode == GetQuantityMode(p.unit)
    && p.description == ""
  }

  /** js/app.js toProduct: a row without a reference or without a designation gives no product;
    * any other row gives a well-formed product whose reference and name are the cleaned cells and
    * whose other fields are read from their columns. */
  function ToProduct(entry: map<string, string>): (r: Option<Product>)
    ensures r.None? <==> CleanCsvValue(Get(entry, "ref")) == "" || CleanCsvValue(Get(entry, "design")) == ""
    ensures r.Some? ==> WellFormed(r.value)
    ensures r.Some? ==> r.value.reference == CleanCsvValue(Get(entry, "ref"))
    ensures r.Some? ==> r.value.name == CleanCsvValue(Get(entry, "design"))
    ensures r.Some? ==> UnitInfo(r.value.unit, r.value.quantityMode) == ResolveUnitInfo(Get(entry, "unite"))
    ensures r.Some? ==> r.value.price == ParseCsvNumber(Get(entry, "prix"))
    ensures r.Some? ==> r.value.baseEcotax == ParseCsvNumber(Get(entry, "ecotaxe"))
    ensures r.Some? ==> r.value.weight == ParseCsvNumber(Get(entry, "poids"))
    ensures r.Some? ==> r.value.score == NormaliseScoreValue(Get(entry, "score"))
    ensures r.Some? ==> r.value.category == CleanCsvValue(Get(entry, "categorie"))
    ensures r.Some? ==> r.value.image == CleanCsvValue(Get(entry, "image")) && r.value.link == CleanCsvValue(Get(entry, "url"))
  {
    var reference := CleanCsvValue(Get(entry, "ref"));
    var name := CleanCsvValue(Get(entry, "design"));
    if reference == "" || name == "" then None
    else
      var unitInfo := ResolveUnitInfo(Get(entry, "unite"));
      ResolveUnitInfoMode(Get(entry, "unite"));
      Some(Product(
        reference, reference, name, "",
        ParseCsvNumber(Get(entry, "prix")),
        unitInfo.unitLabel, unitInfo.mode,
        ParseCsvNumber(Get(entry, "ecotaxe")),
        ParseCsvNumber(Get(entry, "poids")),
        NormaliseScoreValue(Get(entry, "score")),
        CleanCsvValue(Get(entry, "image")),
        CleanCsvValue(Get(entry, "url")),
        CleanCsvValue(Get(entry, "categorie"))))
  }

  /** A product's price is not clamped: a negative price cell gives a negative price. */
  lemma {:induction false} NegativePriceKept()
    ensures var entry := map["ref" := "A1", "design" := "Dalle", "prix" := "-4"];
      ToProduct(entry).Some? && ToProduct(entry).value.price == -4.0
  {
    var entry := map["ref" := "A1", "design" := "Dalle", "prix" := "-4"];
    assert Get(entry, "ref") == Some("A1") && Get(entry, "design") == Some("Dalle");
    assert Get(entry, "prix") == Some("-4");
    assert CleanCsvValue(Some("A1")) == "A1" by {
      assert !IsJsSpace('A') && !IsJsSpace('1') && |UpperStr("A1")| == 2;
      CleanOfClean("A1");
    }
    assert CleanCsvValue(Some("Dalle")) == "Dalle" by {
      assert !IsJsSpace('D') && !IsJsSpace('e') && |UpperStr("Dalle")| == 5;
      CleanOfClean("Dalle");
    }
    NegativeFour();
  }

  lemma {:induction false} NegativeFour()
    ensures ParseCsvNumber(Some("-4")) == -4.0
  {
    assert !IsJsSpace('-') && !IsJsSpace('4');
    assert IsTrimmed("-4");
    assert UpperStr("-4") == "-4";
    ParseCsvNumberOfClean("-4");
    FrenchNumberInteger();
  }

  // ---------------------------------------------------------------------------------------------
  // The catalogue load: `entries.map(toProduct).filter((item) => item && item.name)`

  /** `entries.map(toProduct)`. */
  function Converted(entries: seq<map<string, string>>): (r: seq<Option<Product>>)
    ensures |r| == |entries| && forall k :: 0 <= k < |r| ==> r[k] == ToProduct(entries[k])
    ensures forall k :: 0 <= k < |r| ==> r[k].Some? ==> WellFormed(r[k].value)
  {
    seq(|entries|, k requires 0 <= k < |entries| => ToProduct(entries[k]))
  }

  /** `.filter((item) => item && item.name)`: the products, in order. Every product toProduct
    * builds has a name, so the filter drops exactly the rows that gave none. */
  function Somes<T>(xs: seq<Option<T>>): (r: seq<T>)
    ensures |r| <= |xs|
    decreases |xs|
  {
    if xs == [] then []
    else Somes(xs[..|xs| - 1]) + (match xs[|xs| - 1] case Some(x) => [x] case None => [])
  }

  /** The catalogue built from the parsed rows. */
  function CatalogueOf(entries: seq<map<string, string>>): seq<Product> {
    Somes(Converted(entries))
  }

  /** Every value kept comes from one of the options, and every option that holds a value gives a
    * kept value. */
  lemma {:induction false} SomesMembers<T>(xs: seq<Option<T>>, x: T)
    ensures x in Somes(xs) <==> Some(x) in xs
    decreases |xs|
  {
    if xs != [] {
      var n := |xs| - 1;
      SomesMembers(xs[..n], x);
      assert xs == xs[..n] + [xs[n]];
      assert Some(x) in xs <==> Some(x) in xs[..n] || xs[n] == Some(x);
    }
  }

  /** Kept values stay in the order of their options. */
  lemma {:induction false} SomesAppend<T>(xs: seq<Option<T>>, o: Option<T>)
    ensures Somes(xs + [o]) == Somes(xs) + (match o case Some(x) => [x] case None => [])
  {
    assert (xs + [o])[..|xs|] == xs;
  }

  /** The products of the catalogue are exactly those the rows give. */
  lemma {:induction false} CatalogueProducts(entries: seq<map<string, string>>, p: Product)
    ensures p in CatalogueOf(entries) <==> exists i :: 0 <= i < |entries| && ToProduct(entries[i]) == Some(p)
  {
    var xs := Converted(entries);
    SomesMembers(xs, p);
    if Some(p) in xs {
      var i :| 0 <= i < |xs| && xs[i] == Some(p);
      assert ToProduct(entries[i]) == Some(p);
    }
    if exists i :: 0 <= i < |entries| && ToProduct(entries[i]) == Some(p) {
      var i :| 0 <= i < |entries| && ToProduct(entries[i]) == Some(p);
      assert xs[i] == Some(p);
    }
  }

  /** Every product of the catalogue is well formed. */
  lemma {:induction false} CatalogueWellFormed(entries: seq<map<string, string>>, p: Product)
    requires p in CatalogueOf(entries)
    ensures WellFormed(p)
  {
    var xs := Converted(entries);
    SomesMembers(xs, p);
    var i :| 0 <= i < |xs| && xs[i] == Some(p);
  }

  /** A row comes into the catalogue exactly when it has a reference and a designation, after the
    * products of the rows before it. */
  lemma {:induction false} CatalogueAppend(entries: seq<map<string, string>>, entry: map<string, string>)
    ensures CatalogueOf(entries + [entry]) ==
      CatalogueOf(entries) + (if ToProduct(entry).Some? then [ToProduct(entry).value] else [])
  {
    var xs := Converted(entries);
    assert Converted(entries + [entry]) == xs + [ToProduct(entry)];
    SomesAppend(xs, ToProduct(entry));
  }

  // ---------------------------------------------------------------------------------------------
  // The index `catalogueById`

  /** The ids of the products, in catalogue order. */
  function Ids(products: seq<Product>): (r: seq<string>)
    ensures |r| == |products| && forall k :: 0 <= k < |r| ==> r[k] == products[k].id
  {
    seq(|products|, k requires 0 <= k < |products| => products[k].id)
  }

  /** `catalogue.forEach((product) => catalogueById.set(product.id, product))`, into the Map
    * `start` the index already is: each product is set under its id, a later one replacing an
    * earlier one. */
  method IndexCatalogue(start: map<string, Product>, catalogue: seq<Product>) returns (byId: map<string, Product>)
    ensures byId == start + Assign(Ids(catalogue), catalogue)
  {
    ghost var ids := Ids(catalogue);
    byId := start;
    var index := 0;
    while index < |catalogue|
      invariant 0 <= index <= |catalogue|
      invariant byId == start + Assign(ids[..index], catalogue)
    {
      assert ids[..index + 1][..index] == ids[..index];
      byId := byId[catalogue[index].id := catalogue[index]];
      index := index + 1;
    }
    assert ids[..|catalogue|] == ids;
  }

  /** The index holds every id of the catalogue and nothing else, and each id leads to a product
    * with that id. */
  lemma {:induction false} IndexKeys(catalogue: seq<Product>)
    ensures Assign(Ids(catalogue), catalogue).Keys == set p | p in catalogue :: p.id
    ensures forall id :: id in Assign(Ids(catalogue), catalogue) ==> Assign(Ids(catalogue), catalogue)[id].id == id
  {
    var ids := Ids(catalogue);
    AssignKeys(ids, catalogue);
    assert forall id :: id in ids <==> exists p :: p in catalogue && p.id == id by {
      forall id
        ensures id in ids <==> exists p :: p in catalogue && p.id == id
      {
        if id in ids {
          var k :| 0 <= k < |ids| && ids[k] == id;
          assert catalogue[k] in catalogue;
        }
        if exists p :: p in catalogue && p.id == id {
          var p :| p in catalogue && p.id == id;
          var k :| 0 <= k < |catalogue| && catalogue[k] == p;
          assert ids[k] == id;
        }
      }
    }
    forall id | id in Assign(ids, catalogue)
      ensures Assign(ids, catalogue)[id].id == id
    {
      var k := LastIndexOf(ids, id);
      AssignValue(ids, catalogue, k);
    }
  }

  /** The last index of a key that occurs in `keys`. */
  lemma {:induction false} LastIndexOf(keys: seq<string>, key: string) returns (k: nat)
    requires key in keys
    ensures k < |keys| && keys[k] == key && forall j :: k < j < |keys| ==> keys[j] != key
    decreases |keys|
  {
    var n := |keys| - 1;
    if keys[n] == key {
      k := n;
    } else {
      assert key in keys[..n] by {
        var i :| 0 <= i < |keys| && keys[i] == key;
        assert keys[..n][i] == key;
      }
      k := LastIndexOf(keys[..n], key);
      assert keys[..n][k] == keys[k];
    }
  }

  /** Of two products with the same id, the index keeps the later one. */
  lemma {:induction false} IndexLastWins(catalogue: seq<Product>, k: nat)
    requires k < |catalogue| && forall j :: k < j < |catalogue| ==> catalogue[j].id != catalogue[k].id
    ensures catalogue[k].id in Assign(Ids(catalogue), catalogue)
    ensures Assign(Ids(catalogue), catalogue)[catalogue[k].id] == catalogue[k]
  {
    AssignValue(Ids(catalogue), catalogue, k);
  }

  // ---------------------------------------------------------------------------------------------
  // Facets

  /** The categories `deriveCategories` collects (before its sort). */
  function CategoriesOf(items: seq<Product>): set<string>
    decreases |items|
  {
    if items == [] then {}
    else
      var last := items[|items| - 1];
      CategoriesOf(items[..|items| - 1]) + (if last.category != "" then {last.category} else {})
  }

  /** A category is listed exactly when some product carries it, and the empty category never. */
  lemma {:induction false} CategoriesOfMembers(items: seq<Product>, c: string)
    ensures c in CategoriesOf(items) <==> c != "" && exists i :: 0 <= i < |items| && items[i].category == c
    decreases |items|
  {
    if items != [] {
      var n := |items| - 1;
      CategoriesOfMembers(items[..n], c);
      if exists i :: 0 <= i < |items| && items[i].category == c {
        var i :| 0 <= i < |items| && items[i].category == c;
        if i < n {
          assert items[..n][i] == items[i];
        }
      }
      if exists i :: 0 <= i < n && items[..n][i].category == c {
        var i :| 0 <= i < n && items[..n][i].category == c;
        assert items[i] == items[..n][i];
      }
    }
  }

  /** The row makes a product whose `categorie` cell cleans to `c`. */
  predicate RowOffersCategory(entry: map<string, string>, c: string) {
    ToProduct(entry).Some? && CleanCsvValue(Get(entry, "categorie")) == c
  }

  lemma {:induction false} OfferedHasRow(entries: seq<map<string, string>>, c: string)
    requires c in CategoriesOf(CatalogueOf(entries))
    ensures exists i :: 0 <= i < |entries| && RowOffersCategory(entries[i], c)
  {
    var catalogue := CatalogueOf(entries);
    CategoriesOfMembers(catalogue, c);
    var k :| 0 <= k < |catalogue| && catalogue[k].category == c;
    CatalogueProducts(entries, catalogue[k]);
    var i :| 0 <= i < |entries| && ToProduct(entries[i]) == Some(catalogue[k]);
    assert RowOffersCategory(entries[i], c);
  }

  lemma {:induction false} RowOffered(entries: seq<map<string, string>>, c: string, i: nat)
    requires i < |entries| && c != "" && RowOffersCategory(entries[i], c)
    ensures c in CategoriesOf(CatalogueOf(entries))
  {
    var catalogue := CatalogueOf(entries);
    var p := ToProduct(entries[i]).value;
    assert p.category == c;
    assert p in catalogue by {
      CatalogueProducts(entries, p);
    }
    var k :| 0 <= k < |catalogue| && catalogue[k] == p;
    assert catalogue[k].category == c;
    CategoriesOfMembers(catalogue, c);
  }

  /** A category is offered exactly when it is the cleaned, non-empty `categorie` cell of a row
    * that makes a product. */
  lemma {:induction false} CategoryFacetFromColumn(entries: seq<map<string, string>>, c: string)
    ensures c in CategoriesOf(CatalogueOf(entries)) <==>
      (c != "" && exists i :: 0 <= i < |entries| && RowOffersCategory(entries[i], c))
  {
    if c in CategoriesOf(CatalogueOf(entries)) {
      CategoriesOfMembers(CatalogueOf(entries), c);
      OfferedHasRow(entries, c);
    }
    if c != "" && exists i :: 0 <= i < |entries| && RowOffersCategory(entries[i], c) {
      var i :| 0 <= i < |entries| && RowOffersCategory(entries[i], c);
      RowOffered(entries, c, i);
    }
  }

  /** js/app.js deriveCategories: the set of non-empty categories of the products. */
  method DeriveCategories(items: seq<Product>) returns (categories: set<string>)
    ensures categories == CategoriesOf(items)
  {
    categories := {};
    var index := 0;
    while index < |items|
      invariant 0 <= index <= |items|
      invariant categories == CategoriesOf(items[..index])
    {
      assert items[..index + 1][..index] == items[..index];
      if items[index].category != "" {
        categories := categories + {items[index].category};
      }
      index := index + 1;
    }
    assert items[..|items|] == items;
  }

  /** The unit labels `deriveUnits` collects (before its sort); the empty label is one of them. */
  function UnitsOf(items: seq<Product>): set<string>
    decreases |items|
  {
    if items == [] then {} else UnitsOf(items[..|items| - 1]) + {items[|items| - 1].unit}
  }

  /** A unit label is listed exactly when some product carries it. */
  lemma {:induction false} UnitsOfMembers(items: seq<Product>, u: string)
    ensures u in UnitsOf(items) <==> exists i :: 0 <= i < |items| && items[i].unit == u
    decreases |items|
  {
    if items != [] {
      var n := |items| - 1;
      UnitsOfMembers(items[..n], u);
      if exists i :: 0 <= i < |items| && items[i].unit == u {
        var i :| 0 <= i < |items| && items[i].unit == u;
        if i < n {
          assert items[..n][i] == items[i];
        }
      }
      if exists i :: 0 <= i < n && items[..n][i].unit == u {
        var i :| 0 <= i < n && items[..n][i].unit == u;
        assert items[i] == items[..n][i];
      }
    }
  }

  /** js/app.js deriveUnits: the set of unit labels of the products. */
  method DeriveUnits(items: seq<Product>) returns (units: set<string>)
    ensures units == UnitsOf(items)
  {
    units := {};
    var index := 0;
    while index < |items|
      invariant 0 <= index <= |items|
      invariant units == UnitsOf(items[..index])
    {
      assert items[..index + 1][..index] == items[..index];
      units := units + {items[index].unit};
      index := index + 1;
    }
    assert items[..|items|] == items;
  }

  // ---------------------------------------------------------------------------------------------
  // buildCatalogueHierarchy

  /** The group a product is filed under: its category, or `Divers` when it has none. */
  function GroupKey(p: Product): (r: string)
    ensures r != ""
    ensures p.category != "" ==> r == p.category
  {
    if p.category == "" then "Divers" else p.category
  }

  /** The group keys in the order of their first product. */
  function GroupOrder(items: seq<Product>): (r: seq<string>)
    decreases |items|
  {
    if items == [] then []
    else
      var order := GroupOrder(items[..|items| - 1]);
      var key := GroupKey(items[|items| - 1]);
      if key in order then order else order + [key]
  }

  /** The products of one group, in catalogue order. */
  function Members(items: seq<Product>, key: string): (r: seq<Product>)
    ensures forall k :: 0 <= k < |r| ==> GroupKey(r[k]) == key
    decreases |items|
  {
    if items == [] then []
    else
      var last := items[|items| - 1];
      Members(items[..|items| - 1], key) + (if GroupKey(last) == key then [last] else [])
  }

  /** A node of the catalogue tree: a group key, its display label and its products. */
  datatype CategoryNode = CategoryNode(category: string, displayLabel: string, products: seq<Product>)

  /** The tree buildCatalogueHierarchy builds, in the order of first appearance (its two sorts
    * are not modelled). */
  function HierarchyOf(items: seq<Product>): (r: seq<CategoryNode>)
    ensures |r| == |GroupOrder(items)|
  {
    var order := GroupOrder(items);
    seq(|order|, k requires 0 <= k < |order| =>
      CategoryNode(order[k], FormatCategoryLabel(order[k]), Members(items, order[k])))
  }

  /** No key is listed twice, and a key is listed exactly when some product is filed under it. */
  lemma {:induction false} GroupOrderKeys(items: seq<Product>)
    ensures forall i, j :: 0 <= i < j < |GroupOrder(items)| ==> GroupOrder(items)[i] != GroupOrder(items)[j]
    ensures forall key :: key in GroupOrder(items) <==> exists p :: p in items && GroupKey(p) == key
    decreases |items|
  {
    if items != [] {
      var n := |items| - 1;
      var init := items[..n];
      GroupOrderKeys(init);
      assert items == init + [items[n]];
      assert forall p :: p in items <==> p in init || p == items[n];
    }
  }

  /** A key nobody is filed under has no members. */
  lemma {:induction false} MembersOfUnknownKey(items: seq<Product>, key: string)
    requires key !in GroupOrder(items)
    ensures Members(items, key) == []
    decreases |items|
  {
    if items != [] {
      MembersOfUnknownKey(items[..|items| - 1], key);
    }
  }

  /** Every product is in the group of its key, and in no other. */
  lemma {:induction false} MembersExactly(items: seq<Product>, key: string, p: Product)
    ensures p in Members(items, key) <==> p in items && GroupKey(p) == key
    decreases |items|
  {
    if items != [] {
      var n := |items| - 1;
      var init := items[..n];
      MembersExactly(init, key, p);
      assert items == init + [items[n]];
      assert p in items <==> p in init || p == items[n];
    }
  }

  /** Filing one more product: its key joins the order if it is new, and it joins its group. */
  lemma {:induction false} GroupStep(items: seq<Product>, index: nat)
    requires index < |items|
    ensures var key := GroupKey(items[index]);
      var order := GroupOrder(items[..index]);
      GroupOrder(items[..index + 1]) == (if key in order then order else order + [key])
    ensures forall key :: (Members(items[..index + 1], key)
      == Members(items[..index], key) + (if GroupKey(items[index]) == key then [items[index]] else []))
  {
    var prefix := items[..index + 1];
    assert prefix[..index] == items[..index] && prefix[index] == items[index];
  }

  /** One turn of the grouping loop keeps the keys and the groups in step with the products seen. */
  lemma {:induction false} GroupsStep(items: seq<Product>, index: nat, keys: seq<string>,
                                      groups: map<string, seq<Product>>, current: seq<Product>)
    requires index < |items| && keys == GroupOrder(items[..index])
    requires forall k :: k in groups <==> k in keys
    requires forall k :: k in groups ==> groups[k] == Members(items[..index], k)
    requires current == Members(items[..index], GroupKey(items[index]))
    ensures var key := GroupKey(items[index]);
      var keys' := if key in groups then keys else keys + [key];
      var groups' := groups[key := current + [items[index]]];
      && keys' == GroupOrder(items[..index + 1])
      && (forall k :: k in groups' <==> k in keys')
      && (forall k :: k in groups' ==> groups'[k] == Members(items[..index + 1], k))
  {
    var key := GroupKey(items[index]);
    GroupStep(items, index);
    var keys' := if key in groups then keys else keys + [key];
    var groups' := groups[key := current + [items[index]]];
    forall k | k in groups'
      ensures groups'[k] == Members(items[..index + 1], k)
    {
      if k != key {
        assert groups'[k] == groups[k];
      }
    }
  }

  /** The `groups` Map of js/app.js buildCatalogueHierarchy: each product filed under its group
    * key, the keys in the order they were first seen. */
  method GroupProducts(items: seq<Product>) returns (keys: seq<string>, groups: map<string, seq<Product>>)
    ensures keys == GroupOrder(items)
    ensures forall key :: key in groups <==> key in keys
    ensures forall key :: key in groups ==> groups[key] == Members(items, key)
  {
    keys := [];
    groups := map[];
    var index := 0;
    while index < |items|
      invariant 0 <= index <= |items|
      invariant keys == GroupOrder(items[..index])
      invariant forall key :: key in groups <==> key in keys
      invariant forall key :: key in groups ==> groups[key] == Members(items[..index], key)
    {
      var p := items[index];
      var key := GroupKey(p);
      var current: seq<Product> := [];
      if key in groups {
        current := groups[key];
      } else {
        MembersOfUnknownKey(items[..index], key);
      }
      GroupsStep(items, index, keys, groups, current);
      if key !in groups {
        keys := keys + [key];
      }
      groups := groups[key := current + [p]];
      index := index + 1;
    }
    assert items[..|items|] == items;
  }

  /** js/app.js buildCatalogueHierarchy: one node per group, with its label and products. */
  method BuildCatalogueHierarchy(items: seq<Product>) returns (tree: seq<CategoryNode>)
    ensures tree == HierarchyOf(items)
  {
    var keys, groups := GroupProducts(items);
    ghost var spec := HierarchyOf(items);
    tree := [];
    var k := 0;
    while k < |keys|
      invariant 0 <= k <= |keys|
      invariant tree == spec[..k]
    {
      var key := keys[k];
      assert key in groups && groups[key] == Members(items, key);
      assert spec[k] == CategoryNode(key, FormatCategoryLabel(key), Members(items, key));
      assert spec[..k + 1] == spec[..k] + [spec[k]];
      tree := tree + [CategoryNode(key, FormatCategoryLabel(key), groups[key])];
      k := k + 1;
    }
    assert spec[..|keys|] == spec;
  }
}
