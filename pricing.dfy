/**
 * The prices of js/app.js: the line getters (`getItemQuantity`, `getUnitEcotax`,
 * `getProductSubtotal`, `getEcotaxTotal`), `calculateDiscountedValue` and the totals that
 * `updateSummary` (and, with the same formula, the PDF export) computes over the quote.
 */
module Pricing {
  import opened Wrappers
  import opened Numbers
  import opened Normalise
  import opened Products
  import opened Cart

  /** js/app.js getItemQuantity: a negative quantity counts as 0. */
  function ItemQuantity(item: LineItem): (r: real)
    ensures r >= 0.0
    ensures item.quantity >= 0.0 ==> r == item.quantity
  {
    if item.quantity < 0.0 then 0.0 else item.quantity
  }

  /** js/app.js getUnitEcotax: a negative eco-contribution counts as 0. */
  function UnitEcotax(item: LineItem): (r: real)
    ensures r >= 0.0
    ensures item.product.baseEcotax >= 0.0 ==> r == item.product.baseEcotax
  {
    if item.product.baseEcotax < 0.0 then 0.0 else item.product.baseEcotax
  }

  /** js/app.js getProductSubtotal: a negative price counts as a free line. */
  function ProductSubtotal(item: LineItem): (r: real)
    ensures r >= 0.0
    ensures item.product.price < 0.0 ==> r == 0.0
  {
    if item.product.price < 0.0 then 0.0
    else
      MulNonNegative(item.product.price, ItemQuantity(item));
      item.product.price * ItemQuantity(item)
  }

  /** js/app.js getEcotaxTotal. */
  function EcotaxTotal(item: LineItem): (r: real)
    ensures r >= 0.0
  {
    MulNonNegative(UnitEcotax(item), ItemQuantity(item));
    UnitEcotax(item) * ItemQuantity(item)
  }

  /** js/app.js calculateDiscountedValue: the amount less `rate` per cent, never below 0. */
  function DiscountedValue(amount: real, rate: real): (r: real)
    ensures r >= 0.0
  {
    var discounted := amount * (1.0 - rate / 100.0);
    if discounted < 0.0 then 0.0 else discounted
  }

  /** With a rate in [0, 100], a non-negative amount loses at most all of itself. */
  lemma {:induction false} DiscountedValueBounds(amount: real, rate: real)
    requires amount >= 0.0 && 0.0 <= rate <= 100.0
    ensures 0.0 <= DiscountedValue(amount, rate) <= amount
    ensures DiscountedValue(amount, rate) == amount - amount * (rate / 100.0)
  {
    var f := 1.0 - rate / 100.0;
    assert 0.0 <= f <= 1.0;
    MulNonNegative(amount, f);
    MulAtMost(amount, f);
  }

  lemma {:induction false} MulAtMost(a: real, f: real)
    requires a >= 0.0 && 0.0 <= f <= 1.0
    ensures a * f <= a
  {
    assert a - a * f == a * (1.0 - f);
    MulNonNegative(a, 1.0 - f);
  }

  /** A rate read from the discount field, whatever was typed, keeps every discounted amount within
    * [0, amount]. */
  lemma {:induction false} DiscountFieldBounds(amount: real, text: string)
    requires amount >= 0.0
    ensures 0.0 <= DiscountedValue(amount, DiscountRateFromInput(text)) <= amount
  {
    DiscountedValueBounds(amount, DiscountRateFromInput(text));
  }

  // ---------------------------------------------------------------------------------------------
  // The totals of updateSummary

  /** `items.reduce((total, item) => total + getProductSubtotal(item), 0)`. */
  function SubtotalSum(items: seq<LineItem>): (r: real)
    ensures r >= 0.0
    decreases |items|
  {
    if items == [] then 0.0 else SubtotalSum(items[..|items| - 1]) + ProductSubtotal(items[|items| - 1])
  }

  /** `items.reduce((total, item) => total + getEcotaxTotal(item), 0)`. */
  function EcotaxSum(items: seq<LineItem>): (r: real)
    ensures r >= 0.0
    decreases |items|
  {
    if items == [] then 0.0 else EcotaxSum(items[..|items| - 1]) + EcotaxTotal(items[|items| - 1])
  }

  /** The six amounts of the quote summary. */
  datatype Summary = Summary(
    productsSubtotal: real,
    ecotaxTotal: real,
    discountAmount: real,
    net: real,
    vat: real,
    total: real)

  /** js/app.js updateSummary (and the same formula in generatePdf): the discount applies to the
    * products only, the eco-contribution is added after it, and VAT is charged on the result. */
  function Summarise(items: seq<LineItem>, discountRate: real, vatRate: real): Summary {
    var productsSubtotal := SubtotalSum(items);
    var ecotaxTotal := EcotaxSum(items);
    var discountAmount := productsSubtotal * (discountRate / 100.0);
    var net := productsSubtotal - discountAmount + ecotaxTotal;
    var vat := net * vatRate;
    Summary(productsSubtotal, ecotaxTotal, discountAmount, net, vat, net + vat)
  }

  /** With a rate in [0, 100] the discount is at most the products' subtotal, so the net amount is
    * at least the eco-contribution, which is at least 0; VAT is the net amount times the VAT rate
    * and the total is the net amount plus VAT, so a non-negative VAT rate never lowers it. */
  lemma {:induction false} SummaryBounds(items: seq<LineItem>, discountRate: real, vatRate: real)
    requires 0.0 <= discountRate <= 100.0
    ensures var s := Summarise(items, discountRate, vatRate);
      && 0.0 <= s.discountAmount <= s.productsSubtotal
      && s.net >= s.ecotaxTotal >= 0.0
      && s.net == DiscountedValue(s.productsSubtotal, discountRate) + s.ecotaxTotal
      && s.vat == s.net * vatRate && s.total == s.net + s.vat
      && (vatRate >= 0.0 ==> s.total >= s.net)
  {
    var subtotal, ecotax := SubtotalSum(items), EcotaxSum(items);
    var f := discountRate / 100.0;
    var discount := subtotal * f;
    assert 0.0 <= discount <= subtotal by {
      MulNonNegative(subtotal, f);
      MulAtMost(subtotal, f);
    }
    DiscountedValueBounds(subtotal, discountRate);
    var net := subtotal - discount + ecotax;
    assert net == DiscountedValue(subtotal, discountRate) + ecotax;
    if vatRate >= 0.0 {
      MulNonNegative(net, vatRate);
    }
  }

  /** The lines of the quote in insertion order, `Array.from(state.quote.values())`. */
  function QuoteItems(q: Quote): (items: seq<LineItem>)
    requires forall k :: 0 <= k < |q.order| ==> q.order[k] in q.lines
    ensures |items| == |q.order|
  {
    seq(|q.order|, k requires 0 <= k < |q.order| => q.lines[q.order[k]])
  }

  /** Changing one line changes the sum by the difference of that line's subtotals. */
  lemma {:induction false} SubtotalSumUpdate(items: seq<LineItem>, k: nat, item: LineItem)
    requires k < |items|
    ensures SubtotalSum(items[k := item]) == SubtotalSum(items) - ProductSubtotal(items[k]) + ProductSubtotal(item)
    decreases |items|
  {
    var n := |items| - 1;
    var updated := items[k := item];
    if k < n {
      assert updated[..n] == items[..n][k := item];
      SubtotalSumUpdate(items[..n], k, item);
    } else {
      assert updated[..n] == items[..n];
    }
  }

  /** Adding a product already quoted by the piece raises the products' subtotal by its price
    * (nothing for a negative price). */
  lemma {:induction false} AddOnePieceRaisesSubtotal(q: Quote, byId: map<string, Product>, id: string)
    requires Valid(q) && id in byId && id in q.lines && q.lines[id].product.quantityMode == Unit
    ensures var r := WithAdded(q, byId, id);
      var price := q.lines[id].product.price;
      && (forall k :: 0 <= k < |r.order| ==> r.order[k] in r.lines)
      && SubtotalSum(QuoteItems(r)) == SubtotalSum(QuoteItems(q)) + (if price < 0.0 then 0.0 else price)
  {
    var item := q.lines[id];
    var bigger := item.(quantity := item.quantity + 1.0);
    var r := WithAdded(q, byId, id);
    assert r == Quote(q.lines[id := bigger], q.order);
    var k :| 0 <= k < |q.order| && q.order[k] == id;
    QuoteItemsUpdate(q, k, bigger);
    SubtotalSumUpdate(QuoteItems(q), k, bigger);
    OnePieceMore(item);
  }

  /** Replacing the line of one id replaces that line in the quote's list of lines. */
  lemma {:induction false} QuoteItemsUpdate(q: Quote, k: nat, item: LineItem)
    requires Valid(q) && k < |q.order|
    ensures var updated := Quote(q.lines[q.order[k] := item], q.order);
      (forall j :: 0 <= j < |updated.order| ==> updated.order[j] in updated.lines)
      && QuoteItems(updated) == QuoteItems(q)[k := item]
  {
    var id := q.order[k];
    var updated := Quote(q.lines[id := item], q.order);
    forall j | 0 <= j < |q.order|
      ensures QuoteItems(updated)[j] == QuoteItems(q)[k := item][j]
    {
      if j != k {
        assert q.order[j] != id;
      }
    }
  }

  /** One more piece on a line costs its price once more. */
  lemma {:induction false} OnePieceMore(item: LineItem)
    requires item.quantity >= 0.0
    ensures var price := item.product.price;
      ProductSubtotal(item.(quantity := item.quantity + 1.0)) ==
      ProductSubtotal(item) + (if price < 0.0 then 0.0 else price)
  {
    var price := item.product.price;
    if price >= 0.0 {
      assert price * (item.quantity + 1.0) == price * item.quantity + price;
    }
  }

  /** Two lines, 2 × 10 with 1 of eco-contribution each and 3 × 5 with none, under a 10 % discount
    * and 20 % VAT: 35 of products, 2 of eco-contribution, 3.5 of discount, 33.5 net, 6.7 of VAT
    * and 40.2 in all. */
  lemma {:induction false} SummaryExample(a: Product, b: Product)
    requires a.price == 10.0 && a.baseEcotax == 1.0 && b.price == 5.0 && b.baseEcotax == 0.0
    ensures var items := [LineItem(a, 2.0, None, None, "", false), LineItem(b, 3.0, None, None, "", false)];
      Summarise(items, 10.0, 0.2) == Summary(35.0, 2.0, 3.5, 33.5, 6.7, 40.2)
  {
    var items := [LineItem(a, 2.0, None, None, "", false), LineItem(b, 3.0, None, None, "", false)];
    assert items[..1] == [items[0]] && items[..1][..0] == [];
    assert SubtotalSum(items[..1]) == 20.0;
    assert SubtotalSum(items) == 35.0;
    assert EcotaxSum(items[..1]) == 2.0;
    assert EcotaxSum(items) == 2.0;
  }
}
