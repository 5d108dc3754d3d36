/**
 * The catalogue filters of js/app.js: `handleSearch` (the search query) and the predicate of
 * `applyFilters` (search text, category set and unit selector, all three required).
 */
module Filters {
  import opened Strings
  import opened Normalise
  import opened Products

  /** The three criteria the catalogue is filtered by. */
  datatype Criteria = Criteria(query: string, categories: set<string>, selectedUnit: string)

  /** js/app.js handleSearch: the search box's text, trimmed and lower-cased. A query made only of
    * whitespace filters nothing. */
  function SearchQuery(value: string): (query: string)
    ensures query == "" <==> Trim(value) == ""
    ensures |query| == |Trim(value)|
  {
    LowerStr(Trim(value))
  }

  /** The text the search looks in: the name and the reference, lower-cased. */
  function SearchText(p: Product): string {
    LowerStr(p.name + " " + p.reference)
  }

  /** No query, or the query occurs in the search text. */
  predicate MatchesSearch(p: Product, query: string) {
    query == "" || Contains(SearchText(p), query)
  }

  /** No category selected, or the product has a category and it is selected. */
  predicate MatchesCategory(p: Product, categories: set<string>) {
    categories == {} || (p.category != "" && p.category in categories)
  }

  /** The unit selector: `__all__` lets everything through, `__none__` the products whose filter
    * value is `__none__`, any other value the products whose filter value it is. */
  predicate MatchesUnit(p: Product, selectedUnit: string) {
    var value := UnitFilterValue(p.unit);
    || selectedUnit == UnitFilterAll
    || (selectedUnit == UnitFilterNone && value == UnitFilterNone)
    || (selectedUnit != UnitFilterAll && selectedUnit == value)
  }

  predicate Matches(p: Product, c: Criteria) {
    MatchesSearch(p, c.query) && MatchesCategory(p, c.categories) && MatchesUnit(p, c.selectedUnit)
  }

  /** js/app.js applyFilters: the products of the catalogue that meet the criteria. */
  function ApplyFilters(catalogue: seq<Product>, c: Criteria): (r: seq<Product>)
    ensures |r| <= |catalogue|
    ensures forall k :: 0 <= k < |r| ==> Matches(r[k], c)
    decreases |catalogue|
  {
    if catalogue == [] then []
    else (if Matches(catalogue[0], c) then [catalogue[0]] else []) + ApplyFilters(catalogue[1..], c)
  }

  /** `xs` is `ys` with some elements left out. */
  predicate IsSubsequence<T(==)>(xs: seq<T>, ys: seq<T>)
    decreases |ys|
  {
    if xs == [] then true
    else if ys == [] then false
    else if xs[0] == ys[0] then IsSubsequence(xs[1..], ys[1..])
    else IsSubsequence(xs, ys[1..])
  }

  /** The filtered products keep their catalogue order. */
  lemma {:induction false} FilterIsSubsequence(catalogue: seq<Product>, c: Criteria)
    ensures IsSubsequence(ApplyFilters(catalogue, c), catalogue)
    decreases |catalogue|
  {
    if catalogue != [] {
      var rest := ApplyFilters(catalogue[1..], c);
      FilterIsSubsequence(catalogue[1..], c);
      if Matches(catalogue[0], c) {
        assert ApplyFilters(catalogue, c) == [catalogue[0]] + rest;
        assert ([catalogue[0]] + rest)[1..] == rest;
      } else {
        assert ApplyFilters(catalogue, c) == rest;
        if rest != [] {
          assert Matches(rest[0], c);
          assert rest[0] != catalogue[0];
        }
      }
    }
  }

  /** A product is shown exactly when it is in the catalogue and meets the criteria. */
  lemma {:induction false} FilterMembers(catalogue: seq<Product>, c: Criteria, p: Product)
    ensures p in ApplyFilters(catalogue, c) <==> p in catalogue && Matches(p, c)
    decreases |catalogue|
  {
    if catalogue != [] {
      FilterMembers(catalogue[1..], c, p);
      assert catalogue == [catalogue[0]] + catalogue[1..];
    }
  }

  /** Filtering a catalogue in two parts filters each part. */
  lemma {:induction false} FilterAppend(a: seq<Product>, b: seq<Product>, c: Criteria)
    ensures ApplyFilters(a + b, c) == ApplyFilters(a, c) + ApplyFilters(b, c)
    decreases |a|
  {
    if a != [] {
      assert (a + b)[0] == a[0] && (a + b)[1..] == a[1..] + b;
      FilterAppend(a[1..], b, c);
      var head := if Matches(a[0], c) then [a[0]] else [];
      assert ApplyFilters(a + b, c) == head + (ApplyFilters(a[1..], c) + ApplyFilters(b, c));
      assert ApplyFilters(a, c) == head + ApplyFilters(a[1..], c);
    } else {
      assert a + b == b;
    }
  }

  /** With no query, no category and `__all__`, the whole catalogue is shown. */
  lemma {:induction false} NoCriteriaShowsAll(catalogue: seq<Product>)
    ensures ApplyFilters(catalogue, Criteria("", {}, UnitFilterAll)) == catalogue
    decreases |catalogue|
  {
    if catalogue != [] {
      NoCriteriaShowsAll(catalogue[1..]);
    }
  }

  /** A product without a category is hidden as soon as some category is selected. */
  lemma {:induction false} NoCategoryHidden(p: Product, categories: set<string>)
    requires p.category == "" && categories != {}
    ensures !MatchesCategory(p, categories)
  {
  }

  /** `__none__` selects the products with no unit, and also one whose unit label is the text
    * `__none__` itself, which the sentinel cannot tell apart. */
  lemma {:induction false} NoneSelectsEmptyUnit(p: Product)
    ensures MatchesUnit(p, UnitFilterNone) <==> p.unit == "" || p.unit == UnitFilterNone
  {
  }

  /** Any other selected unit (the selector only offers non-empty values) selects the products with exactly that unit label. */
  lemma {:induction false} UnitSelectsItsLabel(p: Product, selectedUnit: string)
    requires selectedUnit != "" && selectedUnit != UnitFilterAll && selectedUnit != UnitFilterNone
    ensures MatchesUnit(p, selectedUnit) <==> p.unit == selectedUnit
  {
  }

  /** The query is looked for in the name and in the reference, whatever their letter case. */
  lemma {:induction false} SearchFindsNameOrReference(p: Product, query: string)
    requires Contains(LowerStr(p.name), query) || Contains(LowerStr(p.reference), query)
    ensures MatchesSearch(p, query)
  {
    var text := p.name + " " + p.reference;
    if Contains(LowerStr(p.name), query) {
      var i :| 0 <= i <= |LowerStr(p.name)| && OccursAt(LowerStr(p.name), query, i);
      OccursInPrefix(p.name, " " + p.reference, query, i);
      assert p.name + (" " + p.reference) == text;
    } else {
      var i :| 0 <= i <= |LowerStr(p.reference)| && OccursAt(LowerStr(p.reference), query, i);
      OccursInSuffix(p.name + " ", p.reference, query, i);
    }
  }

  lemma {:induction false} OccursInPrefix(a: string, b: string, query: string, i: nat)
    requires OccursAt(LowerStr(a), query, i)
    ensures OccursAt(LowerStr(a + b), query, i)
  {
    var whole := LowerStr(a + b);
    forall k | 0 <= k < |query|
      ensures whole[i + k] == query[k]
    {
      assert LowerStr(a)[i..i + |query|][k] == query[k];
      assert (a + b)[i + k] == a[i + k];
    }
    assert whole[i..i + |query|] == query;
  }

  lemma {:induction false} OccursInSuffix(a: string, b: string, query: string, i: nat)
    requires OccursAt(LowerStr(b), query, i)
    ensures OccursAt(LowerStr(a + b), query, |a| + i)
  {
    var whole := LowerStr(a + b);
    var j := |a| + i;
    forall k | 0 <= k < |query|
      ensures whole[j + k] == query[k]
    {
      assert LowerStr(b)[i..i + |query|][k] == query[k];
      assert (a + b)[j + k] == b[i + k];
    }
    assert whole[j..j + |query|] == query;
  }
}
