# Deviseur: catalogue ingestion, quote cart and pricing

This project models the logic of the browser quoting tool "deviseur" and proves properties about it.
The tool loads a product catalogue from a semicolon-separated CSV export. The user filters it,
collects products in a quote (the cart), and prices the quote with a global discount, an
eco-contribution ("ecopart") and VAT. A companion Python script turns the same catalogue into
static HTML pages and gives each product its own file name.

The model covers the parts of `js/app.js` that compute something:

- the quote-aware CSV tokenizer (`splitCsvLine`), the header slugifier (`slugifyHeader`) and `parseCsv`;
- the field normalisers: `cleanCsvValue`, `parseCsvNumber`, `parseFrenchNumber` with
  JavaScript's `parseFloat` under it, `normaliseUnitLabel`, `resolveUnitInfo`, `getQuantityMode`,
  `normaliseScoreValue`, `formatUnitLabel`, `getUnitFilterValue` and `formatCategoryLabel`;
- `toProduct`, the catalogue load with its `catalogueById` index, and the facets
  (`deriveCategories`, `deriveUnits`, `buildCatalogueHierarchy`);
- the filter predicate of `applyFilters`;
- the quote (`state.quote`, a JavaScript `Map`) and its handlers;
- the line getters, `calculateDiscountedValue`, the discount field and the totals of `updateSummary`;
- the `state` object, as a class whose handler methods keep the filtered list, the index, the
  quote and the discount rate consistent.

From `scripts/generate_catalog_pages.py` it models `slugify` with its `while "--" in slug` loop.
It also models the loop of `main` that skips blank rows and gives each product a file name that
no earlier product has.

Files, one module each:

- `wrappers.dfy`: `Option` and `Result`.
- `maps.dfy`: dictionaries filled key by key, where the last assignment wins.
- `strings.dfy`: JavaScript and Python whitespace, trimming, case mapping, substring search,
  first-occurrence replacement and splitting.
- `csv.dfy`: the CSV reader.
- `numbers.dfy`: `parseFloat`, `parseFrenchNumber` and the discount field parser.
- `normalise.dfy`: the field normalisers.
- `products.dfy`: `toProduct`, the catalogue, its index and its facets.
- `filters.dfy`: the search query and the filter predicate.
- `cart.dfy`: the quote as a value with one transition function per handler, and the class
  `QuoteCart` whose methods update it in place.
- `pricing.dfy`: line amounts and quote totals.
- `app.dfy`: the `state` object as the class `Storefront`.
- `catalog_pages.dfy`: the Python script.

Money, quantities and dimensions are exact `real`s. `parseFloat` reads the longest prefix of the
form sign, then `Infinity` or digits with an optional fraction and exponent. It gives `NaN` when
there is no such prefix, and the value is exact.

Points where the code's behaviour is easy to misread, and which the model follows:

- A product's price is not clamped at 0. `toProduct` stores whatever `parseFloat` reads, so `-4`
  gives the price -4 (`Products.NegativePriceKept`). Non-negativity appears only in the line getters.
- `parseFrenchNumber` turns only the first comma into a decimal point, because `.replace(',', '.')`
  has no global flag.
- An area line's dimensions may be 0: `refreshArea` clamps them at 0, not at a positive value.

## Model

| member | source | states |
|---|---|---|
| `Wrappers.Get` | js/app.js:341-352 | a row property read yields a value exactly when the key is present, and that value |
| `Maps.AssignKeys` | js/app.js:188-190 | a dictionary filled key by key holds exactly the assigned keys |
| `Maps.AssignValue` | js/app.js:188-190 | a key holds the value of its last assignment (last wins on duplicate keys) |
| `Strings.TrimIsTrimmed` | js/app.js:231 | `trim()` leaves no whitespace at either end and is idempotent |
| `Strings.PyStripIsStripped` | scripts/generate_catalog_pages.py:173 | Python `strip()` leaves no whitespace at either end and is idempotent |
| `Strings.ReplaceFirstOccurrence` | js/app.js:1185 | `.replace(',', '.')` changes only the first comma and leaves everything after it as it is |
| `Strings.ReplaceFirstAbsent` | js/app.js:1185 | without a comma the replacement changes nothing |
| `Csv.SplitCsvLine` | js/app.js:195-218 | the character loop (with its in-body index skip over `""`) returns exactly the cells of the quote-aware token stream `SplitCells` |
| `Csv.SplitCellCount` | js/app.js:199-216 | the number of cells is one more than the number of delimiters met outside quotes |
| `Csv.QuotedCellIsOne` | js/app.js:201-213 | a delimiter inside quotes is literal: a quoted text without quotes is one trimmed cell, whatever delimiters it holds |
| `Csv.DoubledQuoteIsOneQuote` | js/app.js:201-205 | `""` inside a quoted field yields one literal `"`: `"a""b"` is the single cell `a"b` |
| `Csv.UnquotedLineSplitsAtDelimiters` | js/app.js:209-216 | a line without quotes is split at every delimiter and each piece trimmed |
| `Csv.StripQuoteEdges` | js/app.js:210-216 | a cell enclosed in quotes loses them, and a cell without quotes is unchanged |
| `Csv.CollapseRuns` | js/app.js:225 | after replacing non-alphanumeric runs, only `[a-z0-9_]` is left and no `__` |
| `Csv.TrimUnderscores` | js/app.js:226 | removing one `_` at each end of a text without `__` leaves no `_` at either end |
| `Csv.SlugifyHeader` | js/app.js:220-227 | a header key holds only `[a-z0-9_]`, never `__`, and neither starts nor ends with `_` |
| `Csv.SlugifyHeaderFixed` | js/app.js:220-227 | a text that already has the shape of a header key is its own key |
| `Csv.SlugifyHeaderIdempotent` | js/app.js:220-227 | slugifying a header twice is slugifying it once |
| `Csv.SlugifyAccentedHeader` | js/app.js:222-224 | accents are dropped and letters lowered: `Réf` becomes `ref` |
| `Csv.NonBlank` | js/app.js:182 | every line kept is non-blank once trimmed, and none is added |
| `Csv.BuildEntry` | js/app.js:187-191 | the loop filling `entry` builds the dictionary assigning each header its trimmed cell, `''` past the end of the row |
| `Csv.EntryKeys` | js/app.js:188-190 | every row has exactly the header keys |
| `Csv.EntryValue` | js/app.js:188-190 | a key maps to the trimmed cell under its last occurrence among the headers, and to `''` when the row is too short |
| `Csv.HeadersOf` | js/app.js:184 | every header key has the slug shape |
| `Csv.ParseLines` | js/app.js:183-192 | no line gives no row; otherwise the first line gives the headers and each later line one row |
| `Csv.ParseCsv` | js/app.js:181-193 | `parseCsv` returns the rows `ParseCsvSpec` defines from the non-blank lines of the text |
| `Csv.RowKeys` | js/app.js:184-191 | the row of each data line is keyed by exactly the slugified headers of the first line |
| `Csv.ParseCsvShape` | js/app.js:181-193 | one row per non-blank line after the first (none for a blank text), every key a slugified header |
| `Numbers.DiscountRateFromInput` | js/app.js:724-726 | the discount typed is read with its first comma as a point; `NaN` or a negative value gives 0, and anything else is capped at 100, so the rate always lies in [0, 100] |
| `Numbers.RemoveSpaces` | js/app.js:1185 | removing whitespace leaves no whitespace character |
| `Numbers.WhitespaceIgnored` | js/app.js:1183-1188 | whitespace anywhere in a French number is ignored |
| `Numbers.CommaToPoint` | js/app.js:1185 | once whitespace is removed, the first comma becomes the decimal point |
| `Numbers.ParseFloatDecimal` | js/app.js:1186 | `parseFloat` reads a signed decimal `[-]digits[.digits]` exactly |
| `Numbers.FrenchIntegerValue` | js/app.js:1183-1188 | a signed integer is read back as its value |
| `Numbers.FrenchFractionValue` | js/app.js:1183-1188 | a signed decimal written with a comma is read back as its value |
| `Numbers.FrenchNumberWithSpace` | js/app.js:1183-1188 | `"1 234,56"` is 1234.56 |
| `Numbers.FrenchNumberWithComma` | js/app.js:1183-1188 | `"1234,56"` is 1234.56 |
| `Numbers.FrenchNumberDecimal` | js/app.js:1183-1188 | `"2,5"` is 2.5 |
| `Numbers.FrenchNumberInteger` | js/app.js:1183-1188 | `"-4"` is -4: the sign is kept |
| `Numbers.FrenchNumberNotANumber` | js/app.js:1183-1188 | unparseable text gives 0 |
| `Normalise.CleanCsvValue` | js/app.js:229-236 | a missing, blank or `NULL` (any case) value gives `''`; any other value is trimmed; the result never has surrounding whitespace and is never `NULL` |
| `Normalise.CleanCsvValueIdempotent` | js/app.js:229-236 | cleaning a cleaned value changes nothing |
| `Normalise.ParseCsvNumber` | js/app.js:238-242 | an empty or `NULL` field is 0, any other field is its trimmed text read as a French number |
| `Normalise.ParseCsvNumberDecimal` | js/app.js:238-242 | the cell `2,5` is 2.5 |
| `Normalise.ParseCsvNumberNull` | js/app.js:238-242 | a `null` cell and a missing cell are 0 |
| `Normalise.ReplaceM2` | js/app.js:309 | the replacement keeps every character in place and only turns `m2`/`M2` into `m²` |
| `Normalise.ReplaceM2NoM2` | js/app.js:309 | after the replacement no `m2` is left in any letter case |
| `Normalise.CollapseSpaces` | js/app.js:310 | every whitespace run becomes one space, so only single spaces remain |
| `Normalise.CollapseSpacesKeepsNoM2` | js/app.js:310 | collapsing whitespace cannot create an `m2` |
| `Normalise.NormaliseUnitLabelShape` | js/app.js:298-319 | a blank unit gives `''`; a digit code gives `m²` for `3` and `Pièce` otherwise; any other unit gives a non-empty trimmed label with single spaces and no `m2` |
| `Normalise.QuantityModeByMark` | js/app.js:330-337 | the mode is `area` exactly when the label has `m` or `M` followed by `2` or `²` |
| `Normalise.ResolveUnitInfo` | js/app.js:244-258 | `''`/`NULL` gives (`''`, unit); `3` gives (`m²`, area); any other digit code gives (`Pièce`, unit); any other unit gives its normalised label |
| `Normalise.ResolveUnitInfoMode` | js/app.js:244-258 | in every case the mode is `getQuantityMode` of the label |
| `Normalise.ResolveUnitInfoLabel` | js/app.js:244-258 | a non-numeric unit label has no `m2` in any letter case, single spaces only and no surrounding whitespace |
| `Normalise.NormaliseScoreValue` | js/app.js:260-266 | the score is one of `A`-`E` or `''`; it is the upper-cased cleaned value exactly when that is a grade |
| `Normalise.NormaliseScoreIdempotent` | js/app.js:260-266 | normalising a normalised score changes nothing |
| `Normalise.NormaliseScoreExamples` | js/app.js:260-266 | `b` gives `B` and `F` gives `''` |
| `Normalise.FormatUnitLabel` | js/app.js:321-324 | the display label is never empty and is the unit itself when there is one |
| `Normalise.UnitFilterValue` | js/app.js:326-328 | the filter value is never empty and is `__none__` exactly for an empty unit (or a unit literally named `__none__`) |
| `Normalise.DashesToSpace` | js/app.js:1317 | no `_` or `-` is left and nothing else is added but spaces |
| `Normalise.NonEmptyWords` | js/app.js:1320 | `filter(Boolean)` keeps only non-empty words, all from the input |
| `Normalise.FormatCategoryLabelShape` | js/app.js:1310-1323 | a blank category is shown as `Divers`; every label is words separated by single spaces, with no `_` or `-` |
| `Products.ToProduct` | js/app.js:339-370 | null exactly when the cleaned `ref` or `design` is empty; otherwise `id == reference`, the cleaned name, category, image and link of the `design`, `categorie`, `image` and `url` columns, the unit and mode of `resolveUnitInfo`, a score in {A..E, ''}, and each number read from its column |
| `Products.NegativePriceKept` | js/app.js:346 | a negative price cell gives a negative price: `toProduct` does not clamp |
| `Products.Converted` | js/app.js:163-164 | `entries.map(toProduct)` holds only well-formed products |
| `Products.SomesMembers` | js/app.js:165 | the filter keeps exactly the products, dropping the nulls |
| `Products.CatalogueProducts` | js/app.js:163-165 | a product is in the catalogue exactly when some row gives it |
| `Products.CatalogueWellFormed` | js/app.js:163-165 | every catalogue product is well formed |
| `Products.CatalogueAppend` | js/app.js:163-165 | a row joins the catalogue exactly when it gives a product, after the products of earlier rows (CSV order kept) |
| `Products.IndexCatalogue` | js/app.js:166 | the `forEach` loop yields the previous index updated with every product under its id, a later product replacing an earlier one |
| `Products.IndexKeys` | js/app.js:166 | the index holds exactly the catalogue's ids, each leading to a product with that id |
| `Products.IndexLastWins` | js/app.js:166 | of two products with one id, the index keeps the later one |
| `Products.CategoriesOfMembers` | js/app.js:1272-1278 | a category is listed exactly when some product carries it and it is not empty |
| `Products.CategoryFacetFromColumn` | js/app.js:1272-1280 | a category is offered in the facets exactly when it is the cleaned, non-empty `categorie` cell of a row that makes a product |
| `Products.DeriveCategories` | js/app.js:1272-1280 | the loop collects exactly the non-empty categories |
| `Products.UnitsOfMembers` | js/app.js:1282-1286 | a unit label (the empty one included) is listed exactly when some product carries it |
| `Products.DeriveUnits` | js/app.js:1282-1288 | the loop collects exactly the unit labels of the products |
| `Products.GroupKey` | js/app.js:1293 | a product is filed under its category, or under `Divers` when it has none |
| `Products.GroupOrderKeys` | js/app.js:1291-1299 | no group key twice, and a key exactly when some product is filed under it |
| `Products.MembersExactly` | js/app.js:1291-1298 | every product is in the group of its key and in no other |
| `Products.GroupProducts` | js/app.js:1291-1298 | the `groups` Map has one entry per key in order of first appearance, holding that key's products in catalogue order |
| `Products.BuildCatalogueHierarchy` | js/app.js:1290-1308 | one node per group with its key, its `formatCategoryLabel` label and its products |
| `Filters.SearchQuery` | js/app.js:372-376 | the query is empty exactly when the typed text is blank, and is as long as the trimmed text |
| `Filters.ApplyFilters` | js/app.js:378-391 | every product shown meets the search, category and unit criteria |
| `Filters.FilterIsSubsequence` | js/app.js:382-391 | the products shown are an order-preserving subsequence of the catalogue |
| `Filters.FilterMembers` | js/app.js:382-391 | a product is shown exactly when it is in the catalogue and meets the criteria |
| `Filters.FilterAppend` | js/app.js:382-391 | filtering two parts of a catalogue filters each part |
| `Filters.NoCriteriaShowsAll` | js/app.js:382-391 | an empty query, no category and `__all__` show the whole catalogue |
| `Filters.NoCategoryHidden` | js/app.js:384 | a product without a category never matches a non-empty category set |
| `Filters.NoneSelectsEmptyUnit` | js/app.js:385-389 | `__none__` matches exactly the products whose unit is empty (or literally `__none__`) |
| `Filters.UnitSelectsItsLabel` | js/app.js:385-389 | any other selected unit matches exactly the products with that unit label |
| `Filters.SearchFindsNameOrReference` | js/app.js:383 | a query found in the name or the reference, in any letter case, matches |
| `Cart.NewLine` | js/app.js:497-504 | a new line holds 1, no comment, folded; an area line gets length = width = 1, a unit line no dimensions |
| `Cart.AddUnknownIsNoOp` | js/app.js:488-490 | adding an id the index does not know changes nothing |
| `Cart.AddNewProduct` | js/app.js:496-505 | a new id is appended with quantity 1 (1 × 1 for area mode); the other lines do not change |
| `Cart.AddExistingProduct` | js/app.js:491-495 | re-adding a unit-mode line adds one piece; re-adding an area-mode line changes nothing |
| `Cart.AddTwice` | js/app.js:488-505 | adding a product twice gives one line: quantity 2 for unit mode, the untouched 1 × 1 area for area mode |
| `Cart.ChangeQuantityEffect` | js/app.js:705-710 | only a unit-mode line changes, to `max(1, quantity + delta)`; every other line and the order stay |
| `Cart.RemoveItemIdempotent` | js/app.js:719-722 | removing twice is removing once; the id leaves both the Map and the insertion order |
| `Cart.WithoutMembers` | js/app.js:720 | after a delete the insertion order holds exactly the other ids |
| `Cart.WithoutDistinct` | js/app.js:720 | after a delete the insertion order still has no repeated id |
| `Cart.RefreshAreaQuantity` | js/app.js:654-660 | an area line gets `max(0,len)` and `max(0,wid)` as dimensions and their product, at least 0, as quantity; nothing else changes |
| `Cart.EmptyQuoteValid` | js/app.js:51 | the empty quote satisfies the quote invariant |
| `Cart.AddKeepsValid` | js/app.js:488-505 | adding keeps the invariant (distinct ordered ids, unit lines whole and at least 1, area lines with quantity = length × width) |
| `Cart.ChangeQuantityKeepsValid` | js/app.js:705-710 | changing a quantity keeps the invariant |
| `Cart.ToggleKeepsValid` | js/app.js:712-717 | folding or unfolding a line keeps the invariant |
| `Cart.RemoveKeepsValid` | js/app.js:719-722 | removing keeps the invariant |
| `Cart.RefreshAreaKeepsValid` | js/app.js:654-660 | refreshing an area keeps the invariant |
| `Cart.SetCommentKeepsValid` | js/app.js:690-694 | editing a comment keeps the invariant |
| `Cart.UnitQuantityFloor` | js/app.js:705-710 | in a valid quote every unit-mode line holds at least 1 |
| `Cart.Remaining` | js/app.js:720 | the loop over the ids keeps exactly the ids other than the deleted one, in order |
| `Cart.QuoteCart.constructor` | js/app.js:51 | `new Map()` is the empty, valid quote |
| `Cart.QuoteCart.Find` | js/app.js:489-491 | `get(id)` yields the line exactly when the id is present |
| `Cart.QuoteCart.Values` | js/app.js:788 | `Array.from(values())` lists the lines in insertion order |
| `Cart.QuoteCart.AddToQuote` | js/app.js:488-507 | the Map becomes the `addToQuote` transition of its old value and stays valid |
| `Cart.QuoteCart.ChangeQuantity` | js/app.js:705-710 | the Map becomes the `changeQuantity` transition of its old value and stays valid |
| `Cart.QuoteCart.ToggleQuoteItem` | js/app.js:712-717 | the line's `expanded` flag flips and the quote stays valid |
| `Cart.QuoteCart.RemoveItem` | js/app.js:719-722 | the entry and its place in the insertion order go; the quote stays valid |
| `Cart.QuoteCart.RefreshArea` | js/app.js:654-660 | both inputs are read with `parseFrenchNumber`; the line gets the clamped dimensions and their area |
| `Cart.QuoteCart.SetComment` | js/app.js:690-694 | the line's comment becomes the typed text |
| `Pricing.ItemQuantity` | js/app.js:755-761 | a line's counted quantity is at least 0, and is the quantity itself when that is not negative |
| `Pricing.UnitEcotax` | js/app.js:763-769 | the unit eco-contribution is at least 0, and is the product's own when that is not negative |
| `Pricing.ProductSubtotal` | js/app.js:771-777 | a line's product amount is at least 0, and 0 for a negative price |
| `Pricing.EcotaxTotal` | js/app.js:779-781 | a line's eco-contribution is at least 0 |
| `Pricing.DiscountedValue` | js/app.js:746-753 | a discounted amount is never negative |
| `Pricing.DiscountedValueBounds` | js/app.js:746-753 | with a rate in [0, 100], the discounted value of a ≥ 0 lies in [0, a] and is a − a·rate/100 |
| `Pricing.DiscountFieldBounds` | js/app.js:724-753 | whatever is typed in the discount field, a discounted amount stays in [0, amount] |
| `Pricing.SubtotalSum` | js/app.js:789 | the products subtotal is at least 0 |
| `Pricing.EcotaxSum` | js/app.js:790 | the eco-contribution total is at least 0 |
| `Pricing.SummaryBounds` | js/app.js:787-795 | with a rate in [0, 100]: 0 ≤ discount ≤ subtotal, net ≥ ecotax total ≥ 0, net = discounted subtotal + ecotax, vat = net·vatRate, total = net + vat ≥ net for a non-negative VAT rate |
| `Pricing.SummaryExample` | js/app.js:787-795 | lines 2 × 10 (ecotax 1) and 3 × 5 at 10 % and 20 % VAT give 35, 2, 3.5, 33.5, 6.7 and 40.2 |
| `Pricing.SubtotalSumUpdate` | js/app.js:789 | changing one line changes the subtotal by the difference of that line's amounts |
| `Pricing.AddOnePieceRaisesSubtotal` | js/app.js:491-495 | re-adding a unit-mode product raises the subtotal by its price (by nothing for a negative price) |
| `Pricing.OnePieceMore` | js/app.js:776 | one more piece costs the price once more |
| `App.KeptUnitSelection` | js/app.js:1384-1395 | a unit selection that no option offers any more falls back to `__all__`; otherwise it is kept |
| `App.IndexStaysById` | js/app.js:166 | an index that maps ids to their products still does after a load |
| `App.Storefront.constructor` | js/app.js:47-64 | the initial state: nothing loaded, no filter, an empty quote, no discount, 20 % VAT |
| `App.Storefront.ApplyFilters` | js/app.js:378-392 | `filtered` becomes the filtered catalogue and nothing else changes |
| `App.Storefront.LoadCatalogue` | js/app.js:161-173 | the text is parsed with `;`, the catalogue is the products of the rows, the index is updated, the facets are derived, a stale unit selection is reset and the list is refiltered |
| `App.Storefront.InstallCatalogue` | js/app.js:163-173 | the same, once the rows are parsed |
| `App.Storefront.HandleSearch` | js/app.js:372-376 | the query becomes the trimmed, lowered text and the list is refiltered |
| `App.Storefront.HandleUnitFilterChange` | js/app.js:1434-1438 | the selected unit becomes the chosen value and the list is refiltered |
| `App.Storefront.HandleCategoryCheckboxChange` | js/app.js:1550-1562 | a ticked box adds its category, an unticked one removes it, and the list is refiltered |
| `App.Storefront.ClearCategorySelection` | js/app.js:1579-1588 | no category stays selected and the list is refiltered |
| `App.Storefront.AddToQuote` | js/app.js:488-507 | the quote takes the `addToQuote` transition with the catalogue index |
| `App.Storefront.ChangeQuantity` | js/app.js:705-710 | the quote takes the `changeQuantity` transition |
| `App.Storefront.ToggleQuoteItem` | js/app.js:712-717 | the quote takes the `toggleQuoteItem` transition |
| `App.Storefront.RemoveItem` | js/app.js:719-722 | the quote takes the `removeItem` transition |
| `App.Storefront.HandleDiscountChange` | js/app.js:724-735 | the rate becomes the clamped reading of the field, always in [0, 100] |
| `App.Storefront.HandleGeneralCommentChange` | js/app.js:783-785 | the general comment becomes the typed text |
| `App.Storefront.UpdateSummary` | js/app.js:787-795 | the totals of the quote's lines in insertion order, with 0 ≤ discount ≤ subtotal and net ≥ ecotax ≥ 0 |
| `CatalogPages.AsciiOf` | scripts/generate_catalog_pages.py:14-15 | the NFKD-then-ASCII fold of a character is ASCII, and ASCII stays itself |
| `CatalogPages.AsciiFold` | scripts/generate_catalog_pages.py:14-15 | the folded text is ASCII |
| `CatalogPages.AsciiFoldFixed` | scripts/generate_catalog_pages.py:14-15 | ASCII text is its own fold |
| `CatalogPages.SlugChars` | scripts/generate_catalog_pages.py:16-17 | each character becomes a lower-case letter or digit, or `-` exactly when it is not alphanumeric |
| `CatalogPages.ReplaceShortens` | scripts/generate_catalog_pages.py:18-19 | each pass on a text that still holds `--` shortens it, so the loop ends |
| `CatalogPages.ReplaceKeepsSqueeze` | scripts/generate_catalog_pages.py:18-19 | a pass of `replace("--", "-")` keeps the text's squeezed form |
| `CatalogPages.SqueezeFixed` | scripts/generate_catalog_pages.py:18-19 | a text without `--` is its own squeezed form |
| `CatalogPages.Slugify` | scripts/generate_catalog_pages.py:13-21 | the loop computes `SlugOf`: a non-empty slug of `[a-z0-9-]` with no `--` and no `-` at either end |
| `CatalogPages.SlugShape` | scripts/generate_catalog_pages.py:13-21 | a slug is never empty (`produit` as fallback), only `[a-z0-9-]`, no `--`, no `-` at either end |
| `CatalogPages.SlugFixed` | scripts/generate_catalog_pages.py:13-21 | a text that already has the shape of a slug is its own slug |
| `CatalogPages.SlugIdempotent` | scripts/generate_catalog_pages.py:13-21 | slugifying a slug changes nothing |
| `CatalogPages.NatToStringRoundTrip` | scripts/generate_catalog_pages.py:196 | `str(n)` is read back as `n` |
| `CatalogPages.AttemptInjective` | scripts/generate_catalog_pages.py:193-197 | different attempts try different names |
| `CatalogPages.FirstFreeUnique` | scripts/generate_catalog_pages.py:192-198 | the first free name is unique |
| `CatalogPages.FirstFreeCases` | scripts/generate_catalog_pages.py:192-198 | `base.html` is kept when free; otherwise the name is `base-k.html` for the smallest free k ≥ 2 |
| `CatalogPages.UniqueFilename` | scripts/generate_catalog_pages.py:191-198 | the counter loop ends on the first free attempt, a name not yet taken |
| `CatalogPages.StrippedCells` | scripts/generate_catalog_pages.py:173 | each header is stripped |
| `CatalogPages.KeptRowsMembers` | scripts/generate_catalog_pages.py:176-178 | a row is kept exactly when it is in the file and not blank |
| `CatalogPages.KeptRowsAppend` | scripts/generate_catalog_pages.py:176-178 | the kept rows keep their file order |
| `CatalogPages.HarmoniseNoOp` | scripts/generate_catalog_pages.py:180-184 | since headers are stripped, the ` lien`/` image` renamings never apply |
| `CatalogPages.FilenameBase` | scripts/generate_catalog_pages.py:186-188 | the base of a file name is never empty, whether it comes from the id or from the slug of the name |
| `CatalogPages.DistinctFilenames` | scripts/generate_catalog_pages.py:191-201 | no two products get the same `__filename` |
| `CatalogPages.SamePage` | scripts/generate_catalog_pages.py:179-200 | a row and the names in use determine the product made of it |
| `CatalogPages.GeneratedUnique` | scripts/generate_catalog_pages.py:176-201 | the rows of a file determine the product list |
| `CatalogPages.PageFor` | scripts/generate_catalog_pages.py:179-200 | one row becomes its cells under the headers plus a `__filename` that is the first free name for its base and not yet in use |
| `CatalogPages.GeneratePages` | scripts/generate_catalog_pages.py:167-201 | an empty file fails with `Le fichier CSV est vide.`; otherwise each non-blank row, in order, becomes a product with the first free name for its base |

## Left out

- DOM rendering and event wiring are not modelled: product cards, the quote list markup, the modal, the split pane, the category menu, highlight timers and the feedback box. The handlers are modelled by their effect on `state`.
- Network and file I/O are parameters or not modelled. The catalogue `fetch` becomes the CSV text passed to `LoadCatalogue`, and a failed load is not modelled. The logo `fetch`/`FileReader` is not modelled. The Python script's CSV reader becomes rows of already-split cells, so its quoting rules are not modelled. The script's `mkdir`, `write_text` and stylesheet output are not modelled.
- PDF generation (jsPDF/autoTable) is not modelled. Its totals use the same formula as `updateSummary`, which is modelled once.
- `Intl.NumberFormat` currency, number and quantity formatting is not modelled, and neither are `priceLabel` and `formatQuantityLabel`.
- HTML templating in the Python renderers (`render_product_page`, `render_index_page`, `html.escape`) is not modelled.
- Products.DeriveCategories: returns the set of categories. The source also sorts the array with French `localeCompare` collation, which is not modelled.
- Products.DeriveUnits: returns the set of unit labels. The sort by display label with `localeCompare` is not modelled.
- Products.BuildCatalogueHierarchy: groups and products are in order of first appearance. The source's two `localeCompare` sorts (groups by label, products by name) are not modelled.
- App.Storefront.LoadCatalogue: its `categories`, `units` and `catalogueTree` carry the same unsorted order as the three functions above.
- Strings.Lower: maps only `A`-`Z` and the Latin-1 capitals; every character above U+00FF is left unchanged, whereas JavaScript's `toLowerCase` covers all of Unicode. Search queries and header keys therefore treat letters above U+00FF as caseless.
- Strings.Upper: maps only `a`-`z`, the Latin-1 small letters, `ÿ` and `µ`; `ß` is left unchanged, whereas JavaScript's `toUpperCase` turns it into `SS`. So `Normalise.FormatCategoryLabel` gives `ßx` for the category `ßx`, where the source gives `SSx`, and letters above U+00FF keep their case.
- Csv.SlugifyHeader: NFD is modelled only for the Latin-1 letters (`Strings.LatinBase`). A letter above U+00FF that decomposes, such as `Č`, is kept whole and then replaced by `_`, so the header `Čx` gives the key `x` where the source gives `cx`.
- CatalogPages.AsciiOf: NFKD is modelled only for Latin-1. Every character above U+00FF is dropped, whereas the script keeps the ASCII part of its compatibility decomposition. So `Čaj` gives the slug `aj` here and `caj` in the script, and the ligature `ﬁ` gives nothing here and `fi` there.
- IEEE-754 rounding, overflow to `Infinity` and the `Number.isFinite` guards in the line getters, `calculateDiscountedValue` and `refreshArea` are not modelled. The model's numbers are exact reals, which are always finite.
- Cart.LineItem: keeps the product as one field instead of the source's spread copy (`...product`) of its fields. Aliasing between the catalogue object and the line is not modelled.
- Cart.QuoteCart.RefreshArea: looks the line up by id. In the source, the closure holds the line object captured at render time. The closure's display updates are not modelled.
- `changeQuantity`'s delta is any integer; the source passes only -1 and +1.
- The discount rate used by `calculateDiscountedValue` is a parameter instead of a read of `state.discountRate`.
- `handleCatalogueTreeChange` and the scroll-to-product helpers are UI navigation and are not modelled.
