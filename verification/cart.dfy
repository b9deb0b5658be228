/** The client-side cart: `addToCart` on the product list page, the quantity,
    removal, totals and checkout handlers of the cart page. The cart is the
    JSON array stored under `cart`; each mutation writes the whole array back. */
module Cart {
  import opened Common
  import opened Entities
  import opened Storage
  import opened Strings
  import Auth

  // ---- cart invariants -------------------------------------------------

  predicate HasId(c: seq<Line>, id: int)
  {
    exists i :: 0 <= i < |c| && c[i].product.id == id
  }

  /** At most one line per product id. */
  predicate UniqueIds(c: seq<Line>)
  {
    forall i, j :: 0 <= i < j < |c| ==> c[i].product.id != c[j].product.id
  }

  /** Every line has quantity at least one. */
  predicate QuantitiesPositive(c: seq<Line>)
  {
    forall i :: 0 <= i < |c| ==> c[i].quantity >= 1
  }

  /** `cart.find(item => item.id === id)`: the first line with that id. */
  function FindLine(c: seq<Line>, id: int): (i: nat)
    requires HasId(c, id)
    ensures i < |c| && c[i].product.id == id
    ensures forall j :: 0 <= j < i ==> c[j].product.id != id
    decreases |c|
  {
    if c[0].product.id == id then 0
    else
      assert HasId(c[1..], id) by {
        var k :| 0 <= k < |c| && c[k].product.id == id;
        assert c[1..][k - 1] == c[k];
      }
      FindLine(c[1..], id) + 1
  }

  // ---- persistence -------------------------------------------------------

  /** `JSON.parse(localStorage.getItem('cart') || '[]')`: a missing key reads
      as the empty cart. */
  function ReadCart(st: Store): (c: seq<Line>)
    requires Typed(st)
    ensures CartKey !in st ==> c == []
    ensures CartKey in st ==> st[CartKey] == CartJson(c)
  {
    if CartKey in st then st[CartKey].lines else []
  }

  /** `localStorage.setItem('cart', JSON.stringify(c))`: the whole array is
      stored under `cart` and every other key is left as it was. */
  function WriteCart(st: Store, c: seq<Line>): (st': Store)
    ensures CartKey in st' && st'[CartKey] == CartJson(c)
    ensures forall k :: k != CartKey ==> (k in st' <==> k in st)
    ensures forall k :: k in st && k != CartKey ==> st'[k] == st[k]
    ensures Typed(st) ==> Typed(st')
  {
    KeysDistinct();
    st[CartKey := CartJson(c)]
  }

  // ---- addToCart ---------------------------------------------------------

  /** The cart after adding `p`: the first line with `p`'s id gains one unit,
      or, when there is none, a line of `p` with quantity 1 is appended. */
  function AddLine(c: seq<Line>, p: Product): (r: seq<Line>)
    ensures HasId(c, p.id) ==>
      && |r| == |c|
      && r[FindLine(c, p.id)] == c[FindLine(c, p.id)].(quantity := c[FindLine(c, p.id)].quantity + 1)
      && forall j :: 0 <= j < |c| && j != FindLine(c, p.id) ==> r[j] == c[j]
    ensures !HasId(c, p.id) ==>
      && |r| == |c| + 1
      && r[..|c|] == c
      && r[|c|] == Line(p, 1)
  {
    if HasId(c, p.id) then
      var i := FindLine(c, p.id);
      c[i := c[i].(quantity := c[i].quantity + 1)]
    else
      c + [Line(p, 1)]
  }

  /** `addToCart(product)`: read the stored cart (missing = empty), add the
      product, store the whole updated cart. */
  function AddToCart(st: Store, p: Product): (st': Store)
    requires Typed(st)
    ensures Typed(st')
    ensures st' == WriteCart(st, AddLine(ReadCart(st), p))
    ensures ReadCart(st') == AddLine(ReadCart(st), p)
  {
    WriteCart(st, AddLine(ReadCart(st), p))
  }

  /** `addToCart` never creates a second line for an id. */
  lemma AddLineKeepsUnique(c: seq<Line>, p: Product)
    requires UniqueIds(c)
    ensures UniqueIds(AddLine(c, p))
  {
    var r := AddLine(c, p);
    if !HasId(c, p.id) {
      forall i, j | 0 <= i < j < |r|
        ensures r[i].product.id != r[j].product.id
      {
        if j == |c| {
          assert r[i] == c[i];
        } else {
          assert r[i] == c[i] && r[j] == c[j];
        }
      }
    }
  }

  /** Adding keeps every quantity at least one. */
  lemma AddLineKeepsPositive(c: seq<Line>, p: Product)
    requires QuantitiesPositive(c)
    ensures QuantitiesPositive(AddLine(c, p))
  {
  }

  // ---- updateQuantity / removeFromCart -----------------------------------

  /** The line filter of `removeFromCart`: `item.id !== id`. */
  function OtherId(id: int): Line -> bool
  {
    (l: Line) => l.product.id != id
  }

  /** `cart.filter(item => item.id !== id)`. */
  function RemoveLines(c: seq<Line>, id: int): (r: seq<Line>)
    ensures |r| <= |c|
    ensures forall l :: l in r <==> l in c && l.product.id != id
  {
    FilterMembers(c, OtherId(id));
    FilterIsSubsequence(c, OtherId(id));
    SubsequenceLength(Filter(c, OtherId(id)), c);
    Filter(c, OtherId(id))
  }

  /** `cart.map(item => item.id === id ? { ...item, quantity: n } : item)`. */
  function SetQuantity(c: seq<Line>, id: int, n: int): (r: seq<Line>)
    ensures |r| == |c|
    ensures forall i :: 0 <= i < |c| ==> r[i].product == c[i].product
    ensures forall i :: 0 <= i < |c| ==> r[i].quantity == if c[i].product.id == id then n else c[i].quantity
  {
    seq(|c|, i requires 0 <= i < |c| => if c[i].product.id == id then c[i].(quantity := n) else c[i])
  }

  /** The cart `updateQuantity(id, n)` produces: zero removes the lines. */
  function UpdateLines(c: seq<Line>, id: int, n: int): seq<Line>
  {
    if n == 0 then RemoveLines(c, id) else SetQuantity(c, id, n)
  }

  /** Removal drops exactly the lines with that id, keeps the others as often
      as they occurred, and keeps their order. */
  lemma RemoveLinesSpec(c: seq<Line>, id: int)
    ensures IsSubsequence(RemoveLines(c, id), c)
    ensures forall l :: l in RemoveLines(c, id) <==> l in c && l.product.id != id
    ensures forall l: Line :: l.product.id != id ==> multiset(RemoveLines(c, id))[l] == multiset(c)[l]
    ensures !HasId(RemoveLines(c, id), id)
  {
    FilterIsSubsequence(c, OtherId(id));
    FilterMembers(c, OtherId(id));
    forall l: Line | l.product.id != id
      ensures multiset(RemoveLines(c, id))[l] == multiset(c)[l]
    {
      FilterCount(c, OtherId(id), l);
    }
    var r := RemoveLines(c, id);
    forall k | 0 <= k < |r|
      ensures r[k].product.id != id
    {
      assert r[k] in r;
    }
  }

  /** Removing lines keeps at most one line per id. */
  lemma {:induction false} RemoveLinesKeepsUnique(c: seq<Line>, id: int)
    requires UniqueIds(c)
    ensures UniqueIds(RemoveLines(c, id))
    decreases |c|
  {
    if c != [] {
      assert UniqueIds(c[1..]) by {
        forall a, b | 0 <= a < b < |c[1..]|
          ensures c[1..][a].product.id != c[1..][b].product.id
        {
          assert c[1..][a] == c[a + 1] && c[1..][b] == c[b + 1];
        }
      }
      RemoveLinesKeepsUnique(c[1..], id);
      var rest := RemoveLines(c[1..], id);
      if c[0].product.id != id {
        var r := RemoveLines(c, id);
        assert r == [c[0]] + rest;
        FilterMembers(c[1..], OtherId(id));
        forall j | 0 <= j < |rest|
          ensures rest[j].product.id != c[0].product.id
        {
          assert rest[j] in c[1..];
          var k :| 0 <= k < |c[1..]| && c[1..][k] == rest[j];
          assert c[k + 1] == rest[j];
        }
        forall a, b | 0 <= a < b < |r|
          ensures r[a].product.id != r[b].product.id
        {
          if a == 0 {
            assert r[b] == rest[b - 1];
          } else {
            assert r[a] == rest[a - 1] && r[b] == rest[b - 1];
          }
        }
      }
    }
  }

  /** Removing lines keeps every remaining quantity at least one. */
  lemma RemoveLinesKeepsPositive(c: seq<Line>, id: int)
    requires QuantitiesPositive(c)
    ensures QuantitiesPositive(RemoveLines(c, id))
  {
    var r := RemoveLines(c, id);
    FilterMembers(c, OtherId(id));
    forall k | 0 <= k < |r|
      ensures r[k].quantity >= 1
    {
      assert r[k] in c;
      var j :| 0 <= j < |c| && c[j] == r[k];
    }
  }

  /** The − and + buttons ask for `quantity − 1` and `quantity + 1` on a line
      of the cart; starting from positive quantities, every line that remains
      still has a positive quantity. */
  lemma StepButtonsKeepPositive(c: seq<Line>, i: int, delta: int)
    requires QuantitiesPositive(c)
    requires 0 <= i < |c|
    requires delta == 1 || delta == -1
    ensures QuantitiesPositive(UpdateLines(c, c[i].product.id, c[i].quantity + delta))
  {
    if c[i].quantity + delta == 0 {
      RemoveLinesKeepsPositive(c, c[i].product.id);
    }
  }

  /** The state of the cart page: its copy of the cart and `localStorage`. */
  datatype CartPage = CartPage(cart: seq<Line>, store: Store)

  /** The cart page's state is stored: the cart under `cart` is the page's own. */
  predicate Persisted(page: CartPage)
  {
    CartKey in page.store && page.store[CartKey] == CartJson(page.cart)
  }

  /** `removeFromCart(id)`: the page's cart loses every line with that id, and
      exactly the new array is stored. */
  function RemoveFromCart(page: CartPage, id: int): (page': CartPage)
    ensures Persisted(page')
    ensures page'.store == WriteCart(page.store, page'.cart)
    ensures IsSubsequence(page'.cart, page.cart)
    ensures forall l :: l in page'.cart <==> l in page.cart && l.product.id != id
    ensures forall l: Line :: l.product.id != id ==> multiset(page'.cart)[l] == multiset(page.cart)[l]
    ensures !HasId(page'.cart, id)
  {
    RemoveLinesSpec(page.cart, id);
    var c := RemoveLines(page.cart, id);
    CartPage(c, WriteCart(page.store, c))
  }

  /** `updateQuantity(id, n)`: zero behaves as `removeFromCart(id)`; any other
      `n` becomes the quantity of every line with that id, and nothing else in
      the cart changes. Exactly the new array is stored. */
  function UpdateQuantity(page: CartPage, id: int, n: int): (page': CartPage)
    ensures Persisted(page')
    ensures page'.store == WriteCart(page.store, page'.cart)
    ensures n == 0 ==> page' == RemoveFromCart(page, id)
    ensures n != 0 ==> |page'.cart| == |page.cart|
    ensures n != 0 ==> forall i :: 0 <= i < |page.cart| ==>
      page'.cart[i] == if page.cart[i].product.id == id then page.cart[i].(quantity := n) else page.cart[i]
  {
    var c := UpdateLines(page.cart, id, n);
    CartPage(c, WriteCart(page.store, c))
  }

  /** `updateQuantity(id, 0)` and `removeFromCart(id)` are the same action. */
  lemma UpdateToZeroIsRemove(page: CartPage, id: int)
    ensures UpdateQuantity(page, id, 0) == RemoveFromCart(page, id)
  {
  }

  // ---- totals --------------------------------------------------------------

  /** `getTotalItems()`: the sum of the quantities. */
  function TotalItems(c: seq<Line>): (n: int)
    ensures QuantitiesPositive(c) ==> n >= |c|
    decreases |c|
  {
    if c == [] then 0 else c[0].quantity + TotalItems(c[1..])
  }

  /** `getTotalPrice()` before formatting: the sum of price × quantity, in cents. */
  function TotalPrice(c: seq<Line>): (t: int)
    ensures (forall i :: 0 <= i < |c| ==> c[i].product.price >= 0 && c[i].quantity >= 0) ==> t >= 0
    decreases |c|
  {
    if c == [] then 0 else c[0].product.price * c[0].quantity + TotalPrice(c[1..])
  }

  /** The totals of a concatenation add up. */
  lemma {:induction false} TotalsOfAppend(a: seq<Line>, b: seq<Line>)
    ensures TotalItems(a + b) == TotalItems(a) + TotalItems(b)
    ensures TotalPrice(a + b) == TotalPrice(a) + TotalPrice(b)
    decreases |a|
  {
    if a == [] {
      assert a + b == b;
    } else {
      TotalsOfAppend(a[1..], b);
      assert (a + b)[1..] == a[1..] + b;
    }
  }

  /** Replacing one line changes the totals by exactly the difference. */
  lemma {:induction false} TotalsOfReplace(c: seq<Line>, i: nat, l: Line)
    requires i < |c|
    ensures TotalItems(c[i := l]) == TotalItems(c) - c[i].quantity + l.quantity
    ensures TotalPrice(c[i := l]) ==
      TotalPrice(c) - c[i].product.price * c[i].quantity + l.product.price * l.quantity
    decreases i
  {
    if i == 0 {
      assert c[i := l][1..] == c[1..];
    } else {
      TotalsOfReplace(c[1..], i - 1, l);
      assert c[i := l][1..] == c[1..][i - 1 := l];
    }
  }

  /** Adding a product adds one item to the total, and one unit price: the
      price already held by the cart line when the id is present (the line keeps
      the product data of its first addition), the product's price otherwise. */
  lemma AddLineTotals(c: seq<Line>, p: Product)
    ensures TotalItems(AddLine(c, p)) == TotalItems(c) + 1
    ensures TotalPrice(AddLine(c, p)) ==
      TotalPrice(c) + if HasId(c, p.id) then c[FindLine(c, p.id)].product.price else p.price
  {
    if HasId(c, p.id) {
      var i := FindLine(c, p.id);
      BumpTotals(c, i);
    } else {
      TotalsOfAppend(c, [Line(p, 1)]);
    }
  }

  /** One more unit on one line: one more item, and that line's unit price more. */
  lemma BumpTotals(c: seq<Line>, i: nat)
    requires i < |c|
    ensures TotalItems(c[i := c[i].(quantity := c[i].quantity + 1)]) == TotalItems(c) + 1
    ensures TotalPrice(c[i := c[i].(quantity := c[i].quantity + 1)]) == TotalPrice(c) + c[i].product.price
  {
    var l := c[i];
    var l' := l.(quantity := l.quantity + 1);
    TotalsOfReplace(c, i, l');
    OneMoreUnit(TotalPrice(c), TotalPrice(c[i := l']), l.product.price, l.quantity);
  }

  /** Trading `q` units at `price` for `q + 1` of them adds one `price`. */
  lemma OneMoreUnit(before: int, after: int, price: int, q: int)
    requires after == before - price * q + price * (q + 1)
    ensures after == before + price
  {
  }

  /** The lines with a given id. */
  function SameId(id: int): Line -> bool
  {
    (l: Line) => l.product.id == id
  }

  /** Removing an id takes exactly that id's quantities and prices out of the totals. */
  lemma {:induction false} RemoveLinesTotals(c: seq<Line>, id: int)
    ensures TotalItems(c) == TotalItems(RemoveLines(c, id)) + TotalItems(Filter(c, SameId(id)))
    ensures TotalPrice(c) == TotalPrice(RemoveLines(c, id)) + TotalPrice(Filter(c, SameId(id)))
    decreases |c|
  {
    if c != [] {
      RemoveLinesTotals(c[1..], id);
      if c[0].product.id == id {
        assert Filter(c, SameId(id)) == [c[0]] + Filter(c[1..], SameId(id));
      } else {
        assert RemoveLines(c, id) == [c[0]] + RemoveLines(c[1..], id);
      }
    }
  }

  // ---- repeated adds ------------------------------------------------------

  /** The cart after adding each product of `ps` in turn. */
  function AddAll(c: seq<Line>, ps: seq<Product>): seq<Line>
    decreases |ps|
  {
    if ps == [] then c else AddLine(AddAll(c, ps[..|ps| - 1]), ps[|ps| - 1])
  }

  /** The total quantity held for an id. */
  function QuantityOf(c: seq<Line>, id: int): int
  {
    TotalItems(Filter(c, SameId(id)))
  }

  /** How many times a product with that id occurs in `ps`. */
  function AddCount(ps: seq<Product>, id: int): nat
    decreases |ps|
  {
    if ps == [] then 0
    else AddCount(ps[..|ps| - 1], id) + (if ps[|ps| - 1].id == id then 1 else 0)
  }

  lemma {:induction false} QuantityOfAppend(a: seq<Line>, b: seq<Line>, id: int)
    ensures QuantityOf(a + b, id) == QuantityOf(a, id) + QuantityOf(b, id)
    decreases |a|
  {
    if a == [] {
      assert a + b == b;
    } else {
      QuantityOfAppend(a[1..], b, id);
      assert (a + b)[1..] == a[1..] + b;
      if a[0].product.id == id {
        assert Filter(a + b, SameId(id)) == [a[0]] + Filter(a[1..] + b, SameId(id));
        assert Filter(a, SameId(id)) == [a[0]] + Filter(a[1..], SameId(id));
        TotalsOfAppend([a[0]], Filter(a[1..] + b, SameId(id)));
        TotalsOfAppend([a[0]], Filter(a[1..], SameId(id)));
      }
    }
  }

  /** Splitting the cart around one line. */
  lemma QuantityOfSplit(c: seq<Line>, i: nat, id: int)
    requires i < |c|
    ensures QuantityOf(c, id) ==
      QuantityOf(c[..i], id) + (if c[i].product.id == id then c[i].quantity else 0) + QuantityOf(c[i + 1..], id)
  {
    assert c == c[..i] + ([c[i]] + c[i + 1..]);
    QuantityOfAppend(c[..i], [c[i]] + c[i + 1..], id);
    QuantityOfAppend([c[i]], c[i + 1..], id);
  }

  /** Adding `p` adds one unit to `p`'s id and nothing to any other id. */
  lemma AddLineQuantity(c: seq<Line>, p: Product, id: int)
    ensures QuantityOf(AddLine(c, p), id) == QuantityOf(c, id) + (if p.id == id then 1 else 0)
  {
    var r := AddLine(c, p);
    if HasId(c, p.id) {
      var i := FindLine(c, p.id);
      QuantityOfSplit(c, i, id);
      QuantityOfSplit(r, i, id);
      assert r[..i] == c[..i];
      assert r[i + 1..] == c[i + 1..];
    } else {
      QuantityOfAppend(c, [Line(p, 1)], id);
      if p.id == id {
        assert Filter([Line(p, 1)], SameId(id)) == [Line(p, 1)];
        assert TotalItems([Line(p, 1)]) == 1;
      } else {
        assert Filter([Line(p, 1)], SameId(id)) == [];
      }
    }
  }

  /** Adding `p` introduces `p`'s id and keeps every id already present. */
  lemma AddLineIds(c: seq<Line>, p: Product, id: int)
    ensures HasId(AddLine(c, p), id) <==> HasId(c, id) || id == p.id
  {
    var r := AddLine(c, p);
    if HasId(c, p.id) {
      var i := FindLine(c, p.id);
      assert r[i].product.id == p.id;
      if HasId(c, id) {
        var k :| 0 <= k < |c| && c[k].product.id == id;
        assert r[k].product.id == id;
      }
      if HasId(r, id) {
        var k :| 0 <= k < |r| && r[k].product.id == id;
        assert c[k].product.id == id;
      }
    } else {
      assert r[|c|].product.id == p.id;
      if HasId(c, id) {
        var k :| 0 <= k < |c| && c[k].product.id == id;
        assert r[k] == c[k];
      }
      if HasId(r, id) && id != p.id {
        var k :| 0 <= k < |r| && r[k].product.id == id;
        assert k < |c| && r[k] == c[k];
      }
    }
  }

  /** Starting from the empty cart, adding the products of `ps` one by one
      gives one line per distinct id, the ids being exactly those of `ps`, and
      each id's quantity equal to the number of times it was added. */
  lemma {:induction false} AddAllCounts(ps: seq<Product>)
    ensures UniqueIds(AddAll([], ps))
    ensures forall id :: HasId(AddAll([], ps), id) <==> exists p :: p in ps && p.id == id
    ensures forall id :: QuantityOf(AddAll([], ps), id) == AddCount(ps, id)
    decreases |ps|
  {
    if ps != [] {
      var init := ps[..|ps| - 1];
      var p := ps[|ps| - 1];
      var c := AddAll([], init);
      AddAllCounts(init);
      AddLineKeepsUnique(c, p);
      forall id
        ensures QuantityOf(AddAll([], ps), id) == AddCount(ps, id)
      {
        AddLineQuantity(c, p, id);
      }
      forall id
        ensures HasId(AddAll([], ps), id) <==> exists q :: q in ps && q.id == id
      {
        AddLineIds(c, p, id);
        assert ps == init + [p];
        if exists q :: q in ps && q.id == id {
          var q :| q in ps && q.id == id;
          if q != p {
            assert q in init;
          }
        }
      }
    }
  }

  // ---- checkout -------------------------------------------------------------

  /** One `{ product_id, quantity }` of the order request. */
  datatype OrderItem = OrderItem(productId: int, quantity: int)

  /** The body of the create-order request. */
  datatype OrderPayload = OrderPayload(items: seq<OrderItem>, shippingAddress: string)

  /** What `handleCheckout` does: send the user to log in, refuse a blank
      address, or call the create-order endpoint, which succeeds or fails. */
  datatype CheckoutOutcome =
    | LoginRequired
    | AddressRequired
    | Placed(order: OrderPayload)
    | Failed(order: OrderPayload)
  {
    /** Whether the create-order endpoint was called. */
    predicate Called()
    {
      Placed? || Failed?
    }
  }

  /** The order request: the cart's lines as `{ product_id, quantity }`, in
      cart order, and the address as typed (untrimmed). */
  function Payload(c: seq<Line>, address: string): (o: OrderPayload)
    ensures |o.items| == |c|
    ensures forall i :: 0 <= i < |c| ==> o.items[i] == OrderItem(c[i].product.id, c[i].quantity)
    ensures o.shippingAddress == address
  {
    OrderPayload(seq(|c|, i requires 0 <= i < |c| => OrderItem(c[i].product.id, c[i].quantity)), address)
  }

  /** The sum of the requested quantities. */
  function RequestedUnits(items: seq<OrderItem>): int
  {
    if items == [] then 0 else items[0].quantity + RequestedUnits(items[1..])
  }

  /** The order requests as many units as the cart page shows. */
  lemma {:induction false} PayloadUnits(c: seq<Line>, address: string)
    ensures RequestedUnits(Payload(c, address).items) == TotalItems(c)
    decreases |c|
  {
    if c != [] {
      PayloadUnits(c[1..], address);
      assert Payload(c, address).items[1..] == Payload(c[1..], address).items;
    }
  }

  /** `localStorage.removeItem('cart')`: the cart key goes, every other key
      keeps its value. */
  function ClearCart(st: Store): (st': Store)
    ensures CartKey !in st'
    ensures forall k :: k != CartKey ==> (k in st' <==> k in st)
    ensures forall k :: k in st' ==> st'[k] == st[k]
    ensures Typed(st) ==> Typed(st') && Auth.StoredUser(st') == Auth.StoredUser(st)
  {
    KeysDistinct();
    st - {CartKey}
  }

  /** `handleCheckout()` given the cart, the address field, storage and whether
      the create-order call succeeds. No user: go to login. Blank address:
      blocked. Either way nothing is sent and nothing changes. Otherwise the
      order is sent; `cart` is removed from storage only when it succeeds. */
  function Checkout(c: seq<Line>, address: string, st: Store, createSucceeds: bool): (r: (CheckoutOutcome, Store))
    requires Typed(st)
    ensures Auth.StoredUser(st).None? ==> r == (LoginRequired, st)
    ensures Auth.StoredUser(st).Some? && Blank(address) ==> r == (AddressRequired, st)
    ensures r.0.Called() <==> Auth.StoredUser(st).Some? && !Blank(address)
    ensures r.0.Called() ==> r.0.order == Payload(c, address)
    ensures r.0.Placed? <==> r.0.Called() && createSucceeds
    ensures r.0.Placed? ==> r.1 == ClearCart(st)
    ensures !r.0.Placed? ==> r.1 == st
  {
    TrimEmptyIffBlank(address);
    if Auth.StoredUser(st).None? then (LoginRequired, st)
    else if Trim(address) == "" then (AddressRequired, st)
    else if createSucceeds then (Placed(Payload(c, address)), ClearCart(st))
    else (Failed(Payload(c, address)), st)
  }

  /** Adding the same product twice to an empty cart gives one line of
      quantity two, priced twice; setting its quantity to zero empties the cart. */
  lemma AddTwiceThenZero(p: Product, st: Store)
    requires Typed(st) && CartKey !in st
    ensures ReadCart(AddToCart(AddToCart(st, p), p)) == [Line(p, 2)]
    ensures TotalPrice(ReadCart(AddToCart(AddToCart(st, p), p))) == 2 * p.price
    ensures UpdateQuantity(CartPage([Line(p, 2)], st), p.id, 0).cart == []
  {
    var one := AddToCart(st, p);
    assert ReadCart(one) == [Line(p, 1)];
    assert HasId([Line(p, 1)], p.id);
    assert FindLine([Line(p, 1)], p.id) == 0;
    assert Filter([Line(p, 2)], OtherId(p.id)) == [];
  }
}
