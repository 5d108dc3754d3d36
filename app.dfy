/**
 * The `state` object of js/app.js and the handlers that update it: the catalogue load, the
 * search, unit and category filters, the quote buttons, the discount field and the general
 * comment. Each handler is stated as the new state it leaves, and each keeps the invariant that
 * the shown products are the filtered catalogue, the index maps ids to their products, the quote
 * is valid and the discount rate lies in [0, 100].
 */
module App {
  import opened Strings
  import opened Maps
  import opened Numbers
  import opened Normalise
  import opened Csv
  import opened Products
  import opened Filters
  import opened Cart
  import opened Pricing

  const VatRate: real := 0.2

  /** The filter value of every unit of the catalogue, the options of the unit selector. */
  function UnitOptions(units: set<string>): set<string> {
    set u | u in units :: UnitFilterValue(u)
  }

  /** populateUnitFilter: a selected unit no option offers any more falls back to `__all__`. */
  function KeptUnitSelection(selectedUnit: string, units: set<string>): (r: string)
    ensures r == UnitFilterAll || r in UnitOptions(units)
    ensures r == selectedUnit <==> selectedUnit == UnitFilterAll || selectedUnit in UnitOptions(units)
  {
    if selectedUnit == UnitFilterAll || selectedUnit in UnitOptions(units) then selectedUnit else UnitFilterAll
  }

  /** An index filled from one that maps ids to their products still does. */
  lemma {:induction false} IndexStaysById(start: map<string, Product>, catalogue: seq<Product>)
    requires IndexedById(start)
    ensures IndexedById(start + Assign(Ids(catalogue), catalogue))
  {
    IndexKeys(catalogue);
  }

  class Storefront {
    var catalogue: seq<Product>
    var filtered: seq<Product>
    var catalogueById: map<string, Product>
    const quote: QuoteCart
    var categories: set<string>
    var units: set<string>
    var catalogueTree: seq<CategoryNode>
    var selectedCategories: set<string>
    var selectedUnit: string
    var searchQuery: string
    var discountRate: real
    var vatRate: real
    var generalComment: string

    function Criteria(): Filters.Criteria
      reads this
    {
      Filters.Criteria(searchQuery, selectedCategories, selectedUnit)
    }

    predicate Valid()
      reads this, quote
    {
      && filtered == Filters.ApplyFilters(catalogue, Criteria())
      && IndexedById(catalogueById)
      && Cart.Valid(quote.State())
      && 0.0 <= discountRate <= 100.0
    }

    /** The initial `state`: nothing loaded, no filter, an empty quote, no discount, 20 % VAT. */
    constructor ()
      ensures Valid() && fresh(quote)
      ensures catalogue == [] && filtered == [] && catalogueById == map[] && quote.State() == EmptyQuote
      ensures categories == {} && units == {} && catalogueTree == []
      ensures Criteria() == Filters.Criteria("", {}, UnitFilterAll)
      ensures discountRate == 0.0 && vatRate == VatRate && generalComment == ""
    {
      catalogue := [];
      filtered := [];
      catalogueById := map[];
      quote := new QuoteCart();
      categories := {};
      units := {};
      catalogueTree := [];
      selectedCategories := {};
      selectedUnit := UnitFilterAll;
      searchQuery := "";
      discountRate := 0.0;
      vatRate := VatRate;
      generalComment := "";
    }

    /** js/app.js applyFilters. */
    method ApplyFilters()
      modifies this
      ensures filtered == Filters.ApplyFilters(catalogue, Criteria())
      ensures catalogue == old(catalogue) && catalogueById == old(catalogueById)
      ensures Criteria() == old(Criteria()) && discountRate == old(discountRate)
      ensures categories == old(categories) && units == old(units) && catalogueTree == old(catalogueTree)
      ensures vatRate == old(vatRate) && generalComment == old(generalComment)
    {
      var c := Criteria();
      var shown: seq<Product> := [];
      var k := |catalogue|;
      while k > 0
        invariant 0 <= k <= |catalogue|
        invariant shown == Filters.ApplyFilters(catalogue[k..], c)
      {
        k := k - 1;
        assert catalogue[k..][1..] == catalogue[k + 1..];
        if Matches(catalogue[k], c) {
          shown := [catalogue[k]] + shown;
        }
      }
      filtered := shown;
    }

    /** The load step after the file has been fetched: parse it with `;` as the delimiter and
      * install the rows. */
    method LoadCatalogue(csvText: string)
      requires Valid()
      modifies this
      ensures Valid()
      ensures catalogue == CatalogueOf(ParseCsvSpec(csvText, ';'))
      ensures catalogueById == old(catalogueById) + Assign(Ids(catalogue), catalogue)
      ensures categories == CategoriesOf(catalogue) && units == UnitsOf(catalogue)
      ensures catalogueTree == HierarchyOf(catalogue)
      ensures selectedUnit == KeptUnitSelection(old(selectedUnit), units)
      ensures searchQuery == old(searchQuery) && selectedCategories == old(selectedCategories)
      ensures discountRate == old(discountRate) && vatRate == old(vatRate) && generalComment == old(generalComment)
    {
      var entries := ParseCsv(csvText, ';');
      InstallCatalogue(entries);
    }

    /** The rest of the load step: keep the rows that make products, index them, derive the facets,
      * reset a unit selection that no longer exists, and filter. */
    method InstallCatalogue(entries: seq<map<string, string>>)
      requires Valid()
      modifies this
      ensures Valid()
      ensures catalogue == CatalogueOf(entries)
      ensures catalogueById == old(catalogueById) + Assign(Ids(catalogue), catalogue)
      ensures categories == CategoriesOf(catalogue) && units == UnitsOf(catalogue)
      ensures catalogueTree == HierarchyOf(catalogue)
      ensures selectedUnit == KeptUnitSelection(old(selectedUnit), units)
      ensures searchQuery == old(searchQuery) && selectedCategories == old(selectedCategories)
      ensures discountRate == old(discountRate) && vatRate == old(vatRate) && generalComment == old(generalComment)
    {
      var products := CatalogueOf(entries);
      IndexStaysById(catalogueById, products);
      var byId := IndexCatalogue(catalogueById, products);
      var derivedCategories := DeriveCategories(products);
      var derivedUnits := DeriveUnits(products);
      var tree := BuildCatalogueHierarchy(products);
      catalogue, catalogueById, categories, units, catalogueTree := products, byId, derivedCategories, derivedUnits, tree;
      selectedUnit := KeptUnitSelection(selectedUnit, derivedUnits);
      ApplyFilters();
    }

    /** js/app.js handleSearch. */
    method HandleSearch(value: string)
      requires Valid()
      modifies this
      ensures Valid() && searchQuery == SearchQuery(value)
      ensures selectedCategories == old(selectedCategories) && selectedUnit == old(selectedUnit)
      ensures catalogue == old(catalogue) && catalogueById == old(catalogueById) && discountRate == old(discountRate)
      ensures categories == old(categories) && units == old(units) && catalogueTree == old(catalogueTree)
      ensures vatRate == old(vatRate) && generalComment == old(generalComment)
    {
      searchQuery := SearchQuery(value);
      ApplyFilters();
    }

    /** js/app.js handleUnitFilterChange. */
    method HandleUnitFilterChange(value: string)
      requires Valid()
      modifies this
      ensures Valid() && selectedUnit == value
      ensures searchQuery == old(searchQuery) && selectedCategories == old(selectedCategories)
      ensures catalogue == old(catalogue) && catalogueById == old(catalogueById) && discountRate == old(discountRate)
      ensures categories == old(categories) && units == old(units) && catalogueTree == old(catalogueTree)
      ensures vatRate == old(vatRate) && generalComment == old(generalComment)
    {
      selectedUnit := value;
      ApplyFilters();
    }

    /** js/app.js handleCategoryCheckboxChange: a ticked box adds its category, an unticked one
      * removes it. */
    method HandleCategoryCheckboxChange(category: string, checked: bool)
      requires Valid()
      modifies this
      ensures Valid()
      ensures selectedCategories == if checked then old(selectedCategories) + {category} else old(selectedCategories) - {category}
      ensures searchQuery == old(searchQuery) && selectedUnit == old(selectedUnit)
      ensures catalogue == old(catalogue) && catalogueById == old(catalogueById) && discountRate == old(discountRate)
      ensures categories == old(categories) && units == old(units) && catalogueTree == old(catalogueTree)
      ensures vatRate == old(vatRate) && generalComment == old(generalComment)
    {
      if checked {
        selectedCategories := selectedCategories + {category};
      } else {
        selectedCategories := selectedCategories - {category};
      }
      ApplyFilters();
    }

    /** js/app.js clearCategorySelection. */
    method ClearCategorySelection()
      requires Valid()
      modifies this
      ensures Valid() && selectedCategories == {}
      ensures searchQuery == old(searchQuery) && selectedUnit == old(selectedUnit)
      ensures catalogue == old(catalogue) && catalogueById == old(catalogueById) && discountRate == old(discountRate)
      ensures categories == old(categories) && units == old(units) && catalogueTree == old(catalogueTree)
      ensures vatRate == old(vatRate) && generalComment == old(generalComment)
    {
      selectedCategories := {};
      ApplyFilters();
    }

    /** js/app.js addToQuote, looking the id up in the catalogue index. */
    method AddToQuote(productId: string)
      requires Valid()
      modifies quote
      ensures Valid() && quote.State() == WithAdded(old(quote.State()), catalogueById, productId)
    {
      quote.AddToQuote(catalogueById, productId);
    }

    /** js/app.js changeQuantity. */
    method ChangeQuantity(productId: string, delta: int)
      requires Valid()
      modifies quote
      ensures Valid() && quote.State() == WithQuantityChanged(old(quote.State()), productId, delta)
    {
      quote.ChangeQuantity(productId, delta);
    }

    /** js/app.js toggleQuoteItem. */
    method ToggleQuoteItem(productId: string)
      requires Valid()
      modifies quote
      ensures Valid() && quote.State() == WithToggled(old(quote.State()), productId)
    {
      quote.ToggleQuoteItem(productId);
    }

    /** js/app.js removeItem. */
    method RemoveItem(productId: string)
      requires Valid()
      modifies quote
      ensures Valid() && quote.State() == WithRemoved(old(quote.State()), productId)
    {
      quote.RemoveItem(productId);
    }

    /** js/app.js handleDiscountChange and updateDiscountRate: whatever is typed, the rate lands in
      * [0, 100]. */
    method HandleDiscountChange(value: string)
      requires Valid()
      modifies this
      ensures Valid() && discountRate == DiscountRateFromInput(value)
      ensures catalogue == old(catalogue) && filtered == old(filtered) && Criteria() == old(Criteria())
      ensures catalogueById == old(catalogueById) && vatRate == old(vatRate) && generalComment == old(generalComment)
      ensures categories == old(categories) && units == old(units) && catalogueTree == old(catalogueTree)
    {
      discountRate := DiscountRateFromInput(value);
    }

    /** js/app.js handleGeneralCommentChange. */
    method HandleGeneralCommentChange(value: string)
      requires Valid()
      modifies this
      ensures Valid() && generalComment == value
      ensures catalogue == old(catalogue) && filtered == old(filtered) && Criteria() == old(Criteria())
      ensures catalogueById == old(catalogueById) && discountRate == old(discountRate) && vatRate == old(vatRate)
      ensures categories == old(categories) && units == old(units) && catalogueTree == old(catalogueTree)
    {
      generalComment := value;
    }

    /** js/app.js updateSummary: the totals of the quote's lines in insertion order. */
    method UpdateSummary() returns (summary: Summary)
      requires Valid()
      ensures summary == Summarise(QuoteItems(quote.State()), discountRate, vatRate)
      ensures 0.0 <= summary.discountAmount <= summary.productsSubtotal
      ensures summary.net >= summary.ecotaxTotal >= 0.0
    {
      var items := quote.Values();
      assert items == QuoteItems(quote.State());
      summary := Summarise(items, discountRate, vatRate);
      SummaryBounds(items, discountRate, vatRate);
    }
  }
}
