/**
 * The quote of js/app.js: `state.quote`, a Map from product id to line item that remembers the
 * order in which the lines were added, and the handlers that change it (`addToQuote`,
 * `changeQuantity`, `toggleQuoteItem`, `removeItem`, the `refreshArea` closure of an area line and
 * the comment field of a line).
 */
module Cart {
  import opened Wrappers
  import opened Numbers
  import opened Normalise
  import opened Products

  /** A line of the quote: the product it was made from, how much of it, its dimensions (area lines
    * only), the customer's comment and whether its details are unfolded. */
  datatype LineItem = LineItem(
    product: Product,
    quantity: real,
    length: Option<real>,
    width: Option<real>,
    comment: string,
    expanded: bool)

  /** The value of `state.quote`: the lines by id, and the ids in insertion order. */
  datatype Quote = Quote(lines: map<string, LineItem>, order: seq<string>)

  const EmptyQuote: Quote := Quote(map[], [])

  predicate IsWhole(x: real) {
    x.Floor as real == x
  }

  /** What every line keeps: it is filed under its product's id; a unit line holds a whole number
    * of at least one piece and no dimensions; an area line holds two non-negative dimensions and
    * their product as its quantity. */
  predicate LineValid(id: string, item: LineItem) {
    && item.product.id == id
    && (item.product.quantityMode == Unit ==>
          IsWhole(item.quantity) && item.quantity >= 1.0 && item.length.None? && item.width.None?)
    && (item.product.quantityMode == Area ==>
          && item.length.Some? && item.width.Some?
          && item.length.value >= 0.0 && item.width.value >= 0.0
          && item.quantity == item.length.value * item.width.value)
  }

  /** The Map's keys are its insertion order without repetition, and each line is valid. */
  predicate Valid(q: Quote) {
    && (forall i, j :: 0 <= i < j < |q.order| ==> q.order[i] != q.order[j])
    && (forall id :: id in q.lines ==> id in q.order)
    && (forall k :: 0 <= k < |q.order| ==> q.order[k] in q.lines)
    && (forall id :: id in q.lines ==> LineValid(id, q.lines[id]))
  }

  /** The index maps each id to a product with that id, as the catalogue index does. */
  predicate IndexedById(byId: map<string, Product>) {
    forall id :: id in byId ==> byId[id].id == id
  }

  /** The line `addToQuote` creates for a product not yet in the quote. */
  function NewLine(p: Product): (item: LineItem)
    ensures item.quantity == 1.0 && item.comment == "" && !item.expanded
    ensures item.product == p && item.length == item.width
    ensures p.quantityMode == Area ==> item.length == Some(1.0)
    ensures p.quantityMode == Unit ==> item.length.None?
  {
    var dimension := if p.quantityMode == Area then Some(1.0) else None;
    LineItem(p, 1.0, dimension, dimension, "", false)
  }

  /** js/app.js addToQuote. */
  function WithAdded(q: Quote, byId: map<string, Product>, id: string): Quote {
    if id !in byId then q
    else if id in q.lines then
      var existing := q.lines[id];
      if existing.product.quantityMode == Unit
      then Quote(q.lines[id := existing.(quantity := existing.quantity + 1.0)], q.order)
      else q
    else Quote(q.lines[id := NewLine(byId[id])], q.order + [id])
  }

  /** js/app.js changeQuantity: a unit line's quantity moves by `delta` but never below 1; any
    * other id leaves the quote as it is. */
  function WithQuantityChanged(q: Quote, id: string, delta: int): Quote {
    if id !in q.lines || q.lines[id].product.quantityMode != Unit then q
    else
      var item := q.lines[id];
      var moved := item.quantity + delta as real;
      Quote(q.lines[id := item.(quantity := if moved < 1.0 then 1.0 else moved)], q.order)
  }

  /** js/app.js toggleQuoteItem: a line's details fold or unfold. */
  function WithToggled(q: Quote, id: string): Quote {
    if id !in q.lines then q
    else Quote(q.lines[id := q.lines[id].(expanded := !q.lines[id].expanded)], q.order)
  }

  /** The ids other than `id`, in order. */
  function Without(order: seq<string>, id: string): (r: seq<string>)
    ensures |r| <= |order|
    decreases |order|
  {
    if order == [] then []
    else
      var last := order[|order| - 1];
      Without(order[..|order| - 1], id) + (if last == id then [] else [last])
  }

  /** js/app.js removeItem. */
  function WithRemoved(q: Quote, id: string): Quote {
    Quote(q.lines - {id}, Without(q.order, id))
  }

  function NonNegative(x: real): (r: real)
    ensures r >= 0.0 && (x >= 0.0 ==> r == x) && (x < 0.0 ==> r == 0.0)
  {
    if x < 0.0 then 0.0 else x
  }

  /** js/app.js refreshArea, the handler of an area line's two inputs, given the two numbers
    * `parseFrenchNumber` read from them: negative values become 0 and the quantity is the
    * resulting area. The handler exists only for area lines, so any other id leaves the quote as
    * it is. */
  function WithAreaRefreshed(q: Quote, id: string, lengthRead: real, widthRead: real): Quote {
    if id !in q.lines || q.lines[id].product.quantityMode != Area then q
    else Quote(q.lines[id := Refreshed(q.lines[id], lengthRead, widthRead)], q.order)
  }

  /** The line after refreshArea: both dimensions at least 0, and their product as quantity. */
  function Refreshed(item: LineItem, lengthRead: real, widthRead: real): LineItem {
    var length := NonNegative(lengthRead);
    var width := NonNegative(widthRead);
    item.(length := Some(length), width := Some(width), quantity := length * width)
  }

  /** The comment field of a line: its text becomes the line's comment. */
  function WithComment(q: Quote, id: string, text: string): Quote {
    if id !in q.lines then q
    else Quote(q.lines[id := q.lines[id].(comment := text)], q.order)
  }

  // ---------------------------------------------------------------------------------------------
  // What each handler does

  /** Adding an id the catalogue does not know does nothing. */
  lemma {:induction false} AddUnknownIsNoOp(q: Quote, byId: map<string, Product>, id: string)
    requires id !in byId
    ensures WithAdded(q, byId, id) == q
  {
  }

  /** Adding a new product appends one line for it: one piece, or a 1 × 1 area. */
  lemma {:induction false} AddNewProduct(q: Quote, byId: map<string, Product>, id: string)
    requires id in byId && id !in q.lines
    ensures var r := WithAdded(q, byId, id);
      && r.order == q.order + [id]
      && id in r.lines && r.lines[id].product == byId[id] && r.lines[id].quantity == 1.0
      && (byId[id].quantityMode == Area ==> r.lines[id].length == Some(1.0) && r.lines[id].width == Some(1.0))
      && (forall other :: other != id ==> (other in r.lines <==> other in q.lines))
      && (forall other :: other != id && other in q.lines ==> r.lines[other] == q.lines[other])
  {
  }

  /** Adding a product already quoted by the piece adds one piece; by the area, nothing. */
  lemma {:induction false} AddExistingProduct(q: Quote, byId: map<string, Product>, id: string)
    requires id in byId && id in q.lines
    ensures var r := WithAdded(q, byId, id);
      && r.order == q.order && r.lines.Keys == q.lines.Keys
      && (q.lines[id].product.quantityMode == Unit ==>
            r.lines[id] == q.lines[id].(quantity := q.lines[id].quantity + 1.0))
      && (q.lines[id].product.quantityMode == Area ==> r == q)
      && (forall other :: other in q.lines && other != id ==> r.lines[other] == q.lines[other])
  {
  }

  /** Adding the same product twice to a quote without it gives one line: two pieces for a product
    * sold by the piece, and the untouched 1 × 1 area for one sold by the area. */
  lemma {:induction false} AddTwice(q: Quote, byId: map<string, Product>, id: string)
    requires id in byId && id !in q.lines
    ensures var once := WithAdded(q, byId, id);
      var twice := WithAdded(once, byId, id);
      && twice.order == q.order + [id]
      && (byId[id].quantityMode == Unit ==> twice.lines[id].quantity == 2.0)
      && (byId[id].quantityMode == Area ==> twice == once && twice.lines[id].quantity == 1.0)
  {
    AddNewProduct(q, byId, id);
    AddExistingProduct(WithAdded(q, byId, id), byId, id);
  }

  /** Changing a quantity touches one unit line, leaves it at `max(1, quantity + delta)` and
    * leaves every other line, and every area line, as it was. */
  lemma {:induction false} ChangeQuantityEffect(q: Quote, id: string, delta: int)
    ensures var r := WithQuantityChanged(q, id, delta);
      && r.order == q.order && r.lines.Keys == q.lines.Keys
      && (forall other :: other in q.lines && other != id ==> r.lines[other] == q.lines[other])
      && (id in q.lines && q.lines[id].product.quantityMode == Area ==> r == q)
      && (id in q.lines && q.lines[id].product.quantityMode == Unit ==>
            var moved := q.lines[id].quantity + delta as real;
            r.lines[id] == q.lines[id].(quantity := if moved > 1.0 then moved else 1.0))
  {
  }

  /** Removing a line twice is removing it once, and removing leaves the other lines and their
    * order as they were. */
  lemma {:induction false} RemoveItemIdempotent(q: Quote, id: string)
    ensures WithRemoved(WithRemoved(q, id), id) == WithRemoved(q, id)
    ensures id !in WithRemoved(q, id).lines && id !in WithRemoved(q, id).order
  {
    WithoutIdempotent(q.order, id);
    WithoutMembers(q.order, id, id);
    assert (q.lines - {id}) - {id} == q.lines - {id};
  }

  /** Removing from two parts removes from each. */
  lemma {:induction false} WithoutAppend(a: seq<string>, b: seq<string>, id: string)
    ensures Without(a + b, id) == Without(a, id) + Without(b, id)
    decreases |b|
  {
    if b == [] {
      assert a + b == a;
    } else {
      var n := |b| - 1;
      assert (a + b)[..|a| + n] == a + b[..n];
      WithoutAppend(a, b[..n], id);
    }
  }

  lemma {:induction false} WithoutIdempotent(order: seq<string>, id: string)
    ensures Without(Without(order, id), id) == Without(order, id)
    decreases |order|
  {
    if order != [] {
      var n := |order| - 1;
      var init := Without(order[..n], id);
      var tail := if order[n] == id then [] else [order[n]];
      WithoutIdempotent(order[..n], id);
      WithoutAppend(init, tail, id);
      if tail != [] {
        assert Without(tail, id) == Without([], id) + tail;
      }
    }
  }

  /** The ids left are the others. */
  lemma {:induction false} WithoutMembers(order: seq<string>, id: string, x: string)
    ensures x in Without(order, id) <==> x in order && x != id
    decreases |order|
  {
    if order != [] {
      var n := |order| - 1;
      WithoutMembers(order[..n], id, x);
      assert order == order[..n] + [order[n]];
    }
  }

  /** Removing from an order without repetition leaves an order without repetition. */
  lemma {:induction false} WithoutDistinct(order: seq<string>, id: string)
    requires forall i, j :: 0 <= i < j < |order| ==> order[i] != order[j]
    ensures var r := Without(order, id);
      forall i, j :: 0 <= i < j < |r| ==> r[i] != r[j]
    decreases |order|
  {
    if order != [] {
      var n := |order| - 1;
      var init := Without(order[..n], id);
      WithoutDistinct(order[..n], id);
      if order[n] != id {
        WithoutMembers(order[..n], id, order[n]);
        assert order[n] !in order[..n];
        var r := init + [order[n]];
        forall i, j | 0 <= i < j < |r|
          ensures r[i] != r[j]
        {
          if j == |init| {
            assert r[i] in init;
          }
        }
      }
    }
  }

  /** The area of a refreshed line is the product of its two dimensions read from the inputs, each
    * at least 0. */
  lemma {:induction false} RefreshAreaQuantity(q: Quote, id: string, lengthRead: real, widthRead: real)
    requires id in q.lines && q.lines[id].product.quantityMode == Area
    ensures var r := WithAreaRefreshed(q, id, lengthRead, widthRead);
      var item := r.lines[id];
      var length := if lengthRead > 0.0 then lengthRead else 0.0;
      var width := if widthRead > 0.0 then widthRead else 0.0;
      && item.length == Some(length) && item.width == Some(width)
      && item.quantity == length * width && item.quantity >= 0.0
      && r.order == q.order && r.lines.Keys == q.lines.Keys
      && (forall other :: other in q.lines && other != id ==> r.lines[other] == q.lines[other])
  {
    MulNonNegative(NonNegative(lengthRead), NonNegative(widthRead));
  }


  lemma {:induction false} MulNonNegative(a: real, b: real)
    requires a >= 0.0 && b >= 0.0
    ensures a * b >= 0.0
  {
  }

  // ---------------------------------------------------------------------------------------------
  // The invariant

  lemma {:induction false} EmptyQuoteValid()
    ensures Valid(EmptyQuote)
  {
  }

  lemma {:induction false} AddKeepsValid(q: Quote, byId: map<string, Product>, id: string)
    requires Valid(q) && IndexedById(byId)
    ensures Valid(WithAdded(q, byId, id))
  {
    if id in byId && id in q.lines && q.lines[id].product.quantityMode == Unit {
      var item := q.lines[id];
      assert (item.quantity + 1.0).Floor == item.quantity.Floor + 1;
    }
    if id in byId && id !in q.lines {
      var r := WithAdded(q, byId, id);
      assert id !in q.order;
      forall x | x in r.lines ensures LineValid(x, r.lines[x]) {
        if x == id {
          assert r.lines[x] == NewLine(byId[id]);
        }
      }
    }
  }

  lemma {:induction false} ChangeQuantityKeepsValid(q: Quote, id: string, delta: int)
    requires Valid(q)
    ensures Valid(WithQuantityChanged(q, id, delta))
  {
    if id in q.lines && q.lines[id].product.quantityMode == Unit {
      var item := q.lines[id];
      var moved := item.quantity + delta as real;
      assert moved.Floor == item.quantity.Floor + delta;
    }
  }

  lemma {:induction false} ToggleKeepsValid(q: Quote, id: string)
    requires Valid(q)
    ensures Valid(WithToggled(q, id))
  {
  }

  lemma {:induction false} RemoveKeepsValid(q: Quote, id: string)
    requires Valid(q)
    ensures Valid(WithRemoved(q, id))
  {
    var lines := q.lines - {id};
    var order := Without(q.order, id);
    WithoutDistinct(q.order, id);
    forall k | 0 <= k < |order|
      ensures order[k] in lines
    {
      WithoutMembers(q.order, id, order[k]);
    }
    forall x | x in lines
      ensures x in order && LineValid(x, lines[x])
    {
      WithoutMembers(q.order, id, x);
    }
    assert WithRemoved(q, id) == Quote(lines, order);
  }

  lemma {:induction false} RefreshAreaKeepsValid(q: Quote, id: string, lengthRead: real, widthRead: real)
    requires Valid(q)
    ensures Valid(WithAreaRefreshed(q, id, lengthRead, widthRead))
  {
  }

  lemma {:induction false} SetCommentKeepsValid(q: Quote, id: string, text: string)
    requires Valid(q)
    ensures Valid(WithComment(q, id, text))
  {
  }

  /** In a valid quote every line quoted by the piece holds at least one piece. */
  lemma {:induction false} UnitQuantityFloor(q: Quote, id: string)
    requires Valid(q) && id in q.lines && q.lines[id].product.quantityMode == Unit
    ensures q.lines[id].quantity >= 1.0
  {
  }

  /** The insertion order after `delete(id)`, walked id by id. */
  method Remaining(ids: seq<string>, id: string) returns (kept: seq<string>)
    ensures kept == Without(ids, id)
  {
    kept := [];
    var k := 0;
    while k < |ids|
      invariant 0 <= k <= |ids|
      invariant kept == Without(ids[..k], id)
    {
      assert ids[..k + 1][..k] == ids[..k];
      if ids[k] != id {
        kept := kept + [ids[k]];
      }
      k := k + 1;
    }
    assert ids[..|ids|] == ids;
  }

  // ---------------------------------------------------------------------------------------------
  // `state.quote` as the Map object the handlers mutate

  /** The Map `state.quote`: its entries and their insertion order. */
  class QuoteCart {
    var lines: map<string, LineItem>
    var order: seq<string>

    function State(): Quote
      reads this
    {
      Quote(lines, order)
    }

    /** `new Map()`. */
    constructor ()
      ensures State() == EmptyQuote && Valid(State())
    {
      lines := map[];
      order := [];
    }

    /** `state.quote.get(id)`. */
    method Find(id: string) returns (item: Option<LineItem>)
      ensures item == Get(lines, id)
    {
      if id in lines {
        item := Some(lines[id]);
      } else {
        item := None;
      }
    }

    /** `Array.from(state.quote.values())`: the lines in insertion order. */
    method Values() returns (items: seq<LineItem>)
      requires Valid(State())
      ensures |items| == |order| && forall k :: 0 <= k < |order| ==> items[k] == lines[order[k]]
    {
      items := [];
      var k := 0;
      while k < |order|
        invariant 0 <= k <= |order|
        invariant |items| == k && forall i :: 0 <= i < k ==> items[i] == lines[order[i]]
      {
        items := items + [lines[order[k]]];
        k := k + 1;
      }
    }

    method AddToQuote(byId: map<string, Product>, id: string)
      requires Valid(State()) && IndexedById(byId)
      modifies this
      ensures State() == WithAdded(old(State()), byId, id) && Valid(State())
    {
      AddKeepsValid(State(), byId, id);
      if id !in byId {
        return;
      }
      var product := byId[id];
      if id in lines {
        var existing := lines[id];
        if existing.product.quantityMode == Unit {
          lines := lines[id := existing.(quantity := existing.quantity + 1.0)];
        }
      } else {
        lines := lines[id := NewLine(product)];
        order := order + [id];
      }
    }

    method ChangeQuantity(id: string, delta: int)
      requires Valid(State())
      modifies this
      ensures State() == WithQuantityChanged(old(State()), id, delta) && Valid(State())
    {
      ChangeQuantityKeepsValid(State(), id, delta);
      if id !in lines || lines[id].product.quantityMode != Unit {
        return;
      }
      var item := lines[id];
      var moved := item.quantity + delta as real;
      lines := lines[id := item.(quantity := if moved < 1.0 then 1.0 else moved)];
    }

    method ToggleQuoteItem(id: string)
      requires Valid(State())
      modifies this
      ensures State() == WithToggled(old(State()), id) && Valid(State())
    {
      ToggleKeepsValid(State(), id);
      if id in lines {
        lines := lines[id := lines[id].(expanded := !lines[id].expanded)];
      }
    }

    /** `state.quote.delete(id)`: the entry goes and so does its place in the insertion order. */
    method RemoveItem(id: string)
      requires Valid(State())
      modifies this
      ensures lines == old(lines) - {id} && order == Without(old(order), id)
      ensures State() == WithRemoved(old(State()), id)
      ensures Valid(State())
    {
      RemoveKeepsValid(State(), id);
      var kept := Remaining(order, id);
      lines := lines - {id};
      order := kept;
    }

    /** The closure reads both inputs with parseFrenchNumber and stores the dimensions and area. */
    method RefreshArea(id: string, lengthText: string, widthText: string)
      requires Valid(State())
      modifies this
      ensures State() == WithAreaRefreshed(old(State()), id, ParseFrenchNumber(lengthText), ParseFrenchNumber(widthText))
      ensures Valid(State())
    {
      var lengthRead := ParseFrenchNumber(lengthText);
      var widthRead := ParseFrenchNumber(widthText);
      RefreshAreaKeepsValid(State(), id, lengthRead, widthRead);
      if id !in lines || lines[id].product.quantityMode != Area {
        return;
      }
      lines := lines[id := Refreshed(lines[id], lengthRead, widthRead)];
    }

    method SetComment(id: string, text: string)
      requires Valid(State())
      modifies this
      ensures State() == WithComment(old(State()), id, text) && Valid(State())
    {
      SetCommentKeepsValid(State(), id, text);
      if id in lines {
        lines := lines[id := lines[id].(comment := text)];
      }
    }
  }
}
