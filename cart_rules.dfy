/** The pure rules of the cart routes: finding the active cart, the ordered
    checks of "add to cart", the two totals, and the checkout's split of a
    cart into sold and unsold items. */
module CartRules {
  import opened Schema
  import opened Tables

  // ---- Finding the caller's cart and its items ----

  /** The keys of the caller's active carts (at most one in a consistent store). */
  function ActiveCartKeys(carts: map<Id, Cart>, u: Id): set<Id> {
    set c | c in carts && carts[c].customerId == u && carts[c].status == Active
  }

  /** `Cart.findOne({ where: { customer_id, status: 'active' } })`. */
  function ActiveCart(carts: map<Id, Cart>, u: Id): (c: Option<Id>)
    ensures c.Some? ==> c.value in carts && carts[c.value].customerId == u && carts[c.value].status == Active
    ensures c.None? <==> forall k :: k in carts ==> !(carts[k].customerId == u && carts[k].status == Active)
  {
    var keys := ActiveCartKeys(carts, u);
    var ordered := Ascending(keys);
    if ordered == [] then
      assert forall k :: k in carts && carts[k].customerId == u && carts[k].status == Active ==> k in keys;
      None
    else
      assert ordered[0] in keys;
      Some(ordered[0])
  }

  /** In a consistent store the caller's active cart is unique, so any active
      cart of theirs is the one found. */
  lemma ActiveCartIs(carts: map<Id, Cart>, users: map<Id, User>, u: Id, c: Id)
    requires CartsOk(carts, users)
    requires c in carts && carts[c] == Cart(u, Active)
    ensures ActiveCart(carts, u) == Some(c)
  {
  }

  /** `cart.items`: the keys of the items whose cart_id is `cart`, by key. */
  function CartLines(items: map<Id, CartItem>, cart: Id): (ids: seq<Id>)
    ensures forall i :: i in ids <==> i in items && items[i].cartId == cart
    ensures forall j, k :: 0 <= j < k < |ids| ==> ids[j] < ids[k]
    ensures Distinct(ids)
  {
    var r := Ascending(set i | i in items && items[i].cartId == cart);
    assert forall j, k :: 0 <= j < k < |r| ==> r[j] < r[k];
    r
  }

  /** Every item listed is in the table and refers to a stored product. */
  predicate Priced(ids: seq<Id>, items: map<Id, CartItem>, products: map<Id, Product>) {
    forall k :: 0 <= k < |ids| ==> ids[k] in items && items[ids[k]].productId in products
  }

  // ---- POST /cart ----

  /** The outcome of adding a product to the cart. */
  datatype AddReply =
    | MissingProductId
    | ProductNotFound
    | ProductSold
    | OwnProduct
    | AlreadyInCart
    | Added(itemId: Id, item: CartItem)
  {
    function Status(): int {
      match this
      case MissingProductId => 400
      case ProductNotFound => 404
      case ProductSold => 400
      case OwnProduct => 400
      case AlreadyInCart => 400
      case Added(_, _) => 201
    }
  }

  /** A request body's productId is missing when absent or falsy (0). */
  predicate GivenId(productId: Option<Id>) {
    productId.Some? && productId.value != 0
  }

  /** The checks made before the cart is touched, in the order the route makes
      them; None when all pass. */
  function AddRefusal(productId: Option<Id>, products: map<Id, Product>, caller: Id): (r: Option<AddReply>)
    ensures r == Some(MissingProductId) <==> !GivenId(productId)
    ensures r == Some(ProductNotFound) <==> GivenId(productId) && productId.value !in products
    ensures r == Some(ProductSold) <==>
      GivenId(productId) && productId.value in products && products[productId.value].sold
    ensures r == Some(OwnProduct) <==>
      GivenId(productId) && productId.value in products && !products[productId.value].sold
      && products[productId.value].sellerId == caller
    ensures r.None? <==>
      GivenId(productId) && productId.value in products && !products[productId.value].sold
      && products[productId.value].sellerId != caller
  {
    if !GivenId(productId) then Some(MissingProductId)
    else if productId.value !in products then Some(ProductNotFound)
    else if products[productId.value].sold then Some(ProductSold)
    else if products[productId.value].sellerId == caller then Some(OwnProduct)
    else None
  }

  /** A refused add never reports success. */
  lemma RefusalIsAnError(productId: Option<Id>, products: map<Id, Product>, caller: Id)
    requires AddRefusal(productId, products, caller).Some?
    ensures AddRefusal(productId, products, caller).value.Status() in {400, 404}
  {
  }

  /** The item an add creates: quantity 1 and the product's current price. */
  function NewItem(cart: Id, productId: Id, product: Product): (it: CartItem) {
    CartItem(cart, productId, 1, product.price)
  }

  /** Whether the cart already holds an item for the product. */
  predicate HoldsProduct(items: map<Id, CartItem>, cart: Id, productId: Id) {
    exists i :: i in items && items[i].cartId == cart && items[i].productId == productId
  }

  /** Creating the active cart of a user who has none, at the next key,
      keeps every table consistent. */
  lemma NewCartKeepsConsistent(
    users: map<Id, User>, products: map<Id, Product>, carts: map<Id, Cart>,
    items: map<Id, CartItem>, orders: map<Id, Order>, lines: set<(Id, Id)>,
    favorites: set<(Id, Id)>,
    nextUser: Id, nextProduct: Id, nextCart: Id, nextItem: Id, nextOrder: Id, u: Id)
    requires Consistent(users, products, carts, items, orders, lines, favorites,
                        nextUser, nextProduct, nextCart, nextItem, nextOrder)
    requires u in users && ActiveCart(carts, u).None?
    ensures Consistent(users, products, carts[nextCart := Cart(u, Active)], items, orders, lines, favorites,
                       nextUser, nextProduct, nextCart + 1, nextItem, nextOrder)
  {
    var carts' := carts[nextCart := Cart(u, Active)];
    assert CartsOk(carts', users);
    assert ItemsOk(items, carts', products);
  }

  /** Adding an item for a product the cart does not hold yet, at the next
      key, keeps every table consistent. */
  lemma NewItemKeepsConsistent(
    users: map<Id, User>, products: map<Id, Product>, carts: map<Id, Cart>,
    items: map<Id, CartItem>, orders: map<Id, Order>, lines: set<(Id, Id)>,
    favorites: set<(Id, Id)>,
    nextUser: Id, nextProduct: Id, nextCart: Id, nextItem: Id, nextOrder: Id, c: Id, p: Id)
    requires Consistent(users, products, carts, items, orders, lines, favorites,
                        nextUser, nextProduct, nextCart, nextItem, nextOrder)
    requires c in carts && p in products && !HoldsProduct(items, c, p)
    ensures Consistent(users, products, carts, items[nextItem := NewItem(c, p, products[p])], orders, lines,
                       favorites, nextUser, nextProduct, nextCart, nextItem + 1, nextOrder)
  {
    assert ItemsOk(items[nextItem := NewItem(c, p, products[p])], carts, products);
  }

  // ---- GET /cart ----

  /** What GET /cart answers. With no active cart: no id, no items, total 0. */
  datatype CartView = CartView(id: Option<Id>, items: seq<Id>, total: int)

  /** Every item of the table refers to a stored product. */
  predicate ItemsPriced(items: map<Id, CartItem>, products: map<Id, Product>) {
    forall i :: i in items ==> items[i].productId in products
  }

  /** Sum of the current price of each item's product times its quantity. */
  function CartTotal(ids: seq<Id>, items: map<Id, CartItem>, products: map<Id, Product>): int
    requires Priced(ids, items, products)
  {
    if ids == [] then 0
    else
      var it := items[ids[0]];
      products[it.productId].price * it.quantity + CartTotal(ids[1..], items, products)
  }

  /** The cart total reads the products' current prices: the price captured
      in an item does not enter it. */
  lemma {:induction false} CartTotalIgnoresCapturedPrice(
    ids: seq<Id>, items: map<Id, CartItem>, items': map<Id, CartItem>, products: map<Id, Product>)
    requires Priced(ids, items, products) && Priced(ids, items', products)
    requires forall k :: 0 <= k < |ids| ==>
      items[ids[k]].productId == items'[ids[k]].productId && items[ids[k]].quantity == items'[ids[k]].quantity
    ensures CartTotal(ids, items, products) == CartTotal(ids, items', products)
  {
    if ids != [] {
      CartTotalIgnoresCapturedPrice(ids[1..], items, items', products);
    }
  }

  /** The total of a concatenation is the sum of the totals. */
  lemma {:induction false} CartTotalAppend(a: seq<Id>, b: seq<Id>, items: map<Id, CartItem>, products: map<Id, Product>)
    requires Priced(a, items, products) && Priced(b, items, products)
    ensures Priced(a + b, items, products)
    ensures CartTotal(a + b, items, products) == CartTotal(a, items, products) + CartTotal(b, items, products)
  {
    if a != [] {
      assert (a + b)[0] == a[0];
      assert (a + b)[1..] == a[1..] + b;
      CartTotalAppend(a[1..], b, items, products);
    } else {
      assert a + b == b;
    }
  }

  /** GET /cart: the active cart's items and their total; with no active cart,
      no items and total 0. */
  function ViewCart(carts: map<Id, Cart>, items: map<Id, CartItem>, products: map<Id, Product>, u: Id): (v: CartView)
    requires ItemsPriced(items, products)
    ensures v.id == ActiveCart(carts, u)
    ensures v.id.None? ==> v.items == [] && v.total == 0
    ensures v.id.Some? ==> forall i :: i in v.items <==> i in items && items[i].cartId == v.id.value
    ensures v.id.Some? ==> v.items == CartLines(items, v.id.value)
    ensures Priced(v.items, items, products) && v.total == CartTotal(v.items, items, products)
  {
    match ActiveCart(carts, u)
    case None => CartView(None, [], 0)
    case Some(c) =>
      var ids := CartLines(items, c);
      assert forall k :: 0 <= k < |ids| ==> ids[k] in ids;
      CartView(Some(c), ids, CartTotal(ids, items, products))
  }

  // ---- POST /cart/checkout ----

  /** The outcome of a checkout. */
  datatype CheckoutReply =
    | EmptyCart
    | Conflict(removed: seq<string>)
    | OrderFailed
    | Purchased(orderId: Id, total: int)
  {
    function Status(): int {
      match this
      case EmptyCart => 400
      case Conflict(_) => 409
      case OrderFailed => 500
      case Purchased(_, _) => 200
    }
  }

  /** `cart.items.filter(item => item.Product.sold === true)`. */
  function SoldLines(ids: seq<Id>, items: map<Id, CartItem>, products: map<Id, Product>): (r: seq<Id>)
    requires Priced(ids, items, products)
    ensures |r| <= |ids|
    ensures forall i :: i in r <==> i in ids && products[items[i].productId].sold
    ensures Priced(r, items, products)
    ensures Distinct(ids) ==> Distinct(r)
  {
    if ids == [] then []
    else
      var rest := SoldLines(ids[1..], items, products);
      assert forall i :: i in ids <==> i == ids[0] || i in ids[1..];
      if products[items[ids[0]].productId].sold then
        assert Distinct(ids) ==> ids[0] !in ids[1..] && Distinct(ids[1..]);
        [ids[0]] + rest
      else
        assert Distinct(ids) ==> Distinct(ids[1..]);
        rest
  }

  /** No key is listed twice. */
  predicate Distinct(ids: seq<Id>) {
    forall j, k :: 0 <= j < k < |ids| ==> ids[j] != ids[k]
  }

  /** The sold items of a concatenation are those of each part, in order:
      the filter keeps the cart's order. */
  lemma {:induction false} SoldLinesAppend(a: seq<Id>, b: seq<Id>, items: map<Id, CartItem>, products: map<Id, Product>)
    requires Priced(a, items, products) && Priced(b, items, products)
    ensures Priced(a + b, items, products)
    ensures SoldLines(a + b, items, products) == SoldLines(a, items, products) + SoldLines(b, items, products)
  {
    if a == [] {
      assert a + b == b;
    } else {
      assert (a + b)[0] == a[0];
      assert (a + b)[1..] == a[1..] + b;
      SoldLinesAppend(a[1..], b, items, products);
    }
  }

  /** `soldItems.map(i => i.Product.name)`. */
  function Names(ids: seq<Id>, items: map<Id, CartItem>, products: map<Id, Product>): (r: seq<string>)
    requires Priced(ids, items, products)
    ensures |r| == |ids|
    ensures forall k :: 0 <= k < |ids| ==> r[k] == products[items[ids[k]].productId].name
  {
    if ids == [] then []
    else [products[items[ids[0]].productId].name] + Names(ids[1..], items, products)
  }

  /** The order total: the sum of the products' current prices, quantities ignored. */
  function OrderTotal(ids: seq<Id>, items: map<Id, CartItem>, products: map<Id, Product>): int
    requires Priced(ids, items, products)
  {
    if ids == [] then 0
    else products[items[ids[0]].productId].price + OrderTotal(ids[1..], items, products)
  }

  /** When every quantity is 1 (the only quantity an add creates), the order
      total equals the cart total GET /cart shows. */
  lemma {:induction false} OrderTotalIsCartTotal(ids: seq<Id>, items: map<Id, CartItem>, products: map<Id, Product>)
    requires Priced(ids, items, products)
    requires forall k :: 0 <= k < |ids| ==> items[ids[k]].quantity == 1
    ensures OrderTotal(ids, items, products) == CartTotal(ids, items, products)
  {
    if ids != [] {
      OrderTotalIsCartTotal(ids[1..], items, products);
    }
  }

  /** What a checkout decides from the tables before it writes anything. */
  datatype Plan =
    | NothingToBuy
    | DropSold(sold: seq<Id>, names: seq<string>)
    | TooDear
    | Buy(cart: Id, ids: seq<Id>, total: int)

  /** The checks of POST /cart/checkout in order: an active cart with items,
      then no item whose product is already sold (those are dropped and
      named), then a total the orders table can store. */
  function CheckoutPlan(carts: map<Id, Cart>, items: map<Id, CartItem>, products: map<Id, Product>, u: Id)
    : (p: Plan)
    requires ItemsPriced(items, products)
    ensures p.NothingToBuy? <==>
      ActiveCart(carts, u).None? || forall i :: i in items ==> items[i].cartId != ActiveCart(carts, u).value
    ensures p.DropSold? ==>
      && ActiveCart(carts, u).Some?
      && (forall i :: i in p.sold <==>
            i in items && items[i].cartId == ActiveCart(carts, u).value && products[items[i].productId].sold)
      && p.sold != [] && Priced(p.sold, items, products) && Distinct(p.sold) && |p.names| == |p.sold|
      && (forall k :: 0 <= k < |p.sold| ==> p.names[k] == products[items[p.sold[k]].productId].name)
    ensures p.TooDear? || p.Buy? ==>
      && ActiveCart(carts, u).Some?
      && forall i :: i in items && items[i].cartId == ActiveCart(carts, u).value ==> !products[items[i].productId].sold
    ensures p.TooDear? ==>
      var ids := CartLines(items, ActiveCart(carts, u).value);
      Priced(ids, items, products) && !IsDecimal10_2(OrderTotal(ids, items, products))
    ensures p.Buy? ==>
      && p.cart == ActiveCart(carts, u).value && p.ids == CartLines(items, p.cart) && p.ids != []
      && Priced(p.ids, items, products)
      && p.total == OrderTotal(p.ids, items, products) && IsDecimal10_2(p.total)
  {
    match ActiveCart(carts, u)
    case None => NothingToBuy
    case Some(c) =>
      var ids := CartLines(items, c);
      if ids == [] then NothingToBuy
      else
        assert ids[0] in ids;
        assert forall k :: 0 <= k < |ids| ==> ids[k] in ids;
        var sold := SoldLines(ids, items, products);
        if sold != [] then DropSold(sold, Names(sold, items, products))
        else
          var total := OrderTotal(ids, items, products);
          if !IsDecimal10_2(total) then TooDear else Buy(c, ids, total)
  }

  /** The products an order buys: that of each cart item, in the items' order. */
  function Bought(ids: seq<Id>, items: map<Id, CartItem>): (b: seq<Id>)
    requires forall k :: 0 <= k < |ids| ==> ids[k] in items
    ensures |b| == |ids|
    ensures forall k :: 0 <= k < |ids| ==> b[k] == items[ids[k]].productId
  {
    if ids == [] then [] else Bought(ids[..|ids| - 1], items) + [items[ids[|ids| - 1]].productId]
  }

  /** `product.update({ sold: true, customer_id })` for each bought product in
      turn; every other product untouched. */
  function MarkSold(products: map<Id, Product>, bought: seq<Id>, buyer: Id): (r: map<Id, Product>)
    ensures r.Keys == products.Keys
    ensures forall p :: p in r ==>
      r[p] == if p in bought then products[p].(sold := true, customerId := Some(buyer)) else products[p]
  {
    if bought == [] then products
    else
      var r := MarkSold(products, bought[..|bought| - 1], buyer);
      var p := bought[|bought| - 1];
      assert forall q :: q in bought <==> q in bought[..|bought| - 1] || q == p;
      if p in r then r[p := r[p].(sold := true, customerId := Some(buyer))] else r
  }

  /** `order.addProduct(product, ...)` for each bought product in turn: the
      pair (order, product) joins order_items. The join table is declared by
      name only, so it has no price or quantity column and the `through`
      values passed are not stored. */
  function Linked(lines: set<(Id, Id)>, order: Id, bought: seq<Id>, products: map<Id, Product>)
    : (r: set<(Id, Id)>)
    ensures forall k :: k in r <==> k in lines || (k.0 == order && k.1 in bought && k.1 in products)
  {
    if bought == [] then lines
    else
      var r := Linked(lines, order, bought[..|bought| - 1], products);
      var p := bought[|bought| - 1];
      assert forall q :: q in bought <==> q in bought[..|bought| - 1] || q == p;
      if p in products then r + {(order, p)} else r
  }

  /** Buying one more item appends that item's product. */
  lemma BoughtStep(ids: seq<Id>, items: map<Id, CartItem>, k: nat)
    requires k < |ids| && forall j :: 0 <= j < |ids| ==> ids[j] in items
    ensures Bought(ids[..k + 1], items) == Bought(ids[..k], items) + [items[ids[k]].productId]
  {
    assert ids[..k + 1][..k] == ids[..k];
  }

  /** Buying one more product updates only its product row and its
      order_items row. */
  lemma SellStep(products: map<Id, Product>, lines: set<(Id, Id)>, order: Id,
                 bought: seq<Id>, p: Id, buyer: Id)
    requires p in products
    ensures var sold := MarkSold(products, bought, buyer);
      && p in sold && sold[p].price == products[p].price
      && MarkSold(products, bought + [p], buyer) == sold[p := sold[p].(sold := true, customerId := Some(buyer))]
    ensures Linked(lines, order, bought + [p], products)
         == Linked(lines, order, bought, products) + {(order, p)}
  {
    assert (bought + [p])[..|bought|] == bought;
  }

  /** The checkout loop's step: handling item k adds its product to the
      sold products and its (order, product) row to the order_items table. */
  lemma SellItemStep(products: map<Id, Product>, lines: set<(Id, Id)>, items: map<Id, CartItem>,
                     ids: seq<Id>, order: Id, buyer: Id, k: nat)
    requires k < |ids| && Priced(ids, items, products)
    ensures var p := items[ids[k]].productId;
      var sold := MarkSold(products, Bought(ids[..k], items), buyer);
      && p in sold
      && MarkSold(products, Bought(ids[..k + 1], items), buyer)
         == sold[p := sold[p].(sold := true, customerId := Some(buyer))]
      && Linked(lines, order, Bought(ids[..k + 1], items), products)
         == Linked(lines, order, Bought(ids[..k], items), products) + {(order, p)}
  {
    BoughtStep(ids, items, k);
    SellStep(products, lines, order, Bought(ids[..k], items), items[ids[k]].productId, buyer);
  }

  /** The checkout loop: for each item, mark its product sold to the buyer
      and add the (order, product) pair to order_items. Returns the
      products table and the order_items table afterwards. */
  method SellAndLink(products: map<Id, Product>, lines: set<(Id, Id)>, items: map<Id, CartItem>,
                     ids: seq<Id>, order: Id, buyer: Id)
    returns (sold: map<Id, Product>, linked: set<(Id, Id)>)
    requires Priced(ids, items, products)
    ensures sold == MarkSold(products, Bought(ids, items), buyer)
    ensures linked == Linked(lines, order, Bought(ids, items), products)
  {
    sold, linked := products, lines;
    var k := 0;
    while k < |ids|
      invariant 0 <= k <= |ids|
      invariant sold == MarkSold(products, Bought(ids[..k], items), buyer)
      invariant linked == Linked(lines, order, Bought(ids[..k], items), products)
    {
      var p := items[ids[k]].productId;
      SellItemStep(products, lines, items, ids, order, buyer, k);
      linked := linked + {(order, p)};
      sold := sold[p := sold[p].(sold := true, customerId := Some(buyer))];
      k := k + 1;
    }
    assert ids[..k] == ids;
  }

  /** `CartItem.destroy({ where: { cart_id } })`: the rows of other carts. */
  function ClearCart(items: map<Id, CartItem>, cart: Id): (r: map<Id, CartItem>)
    ensures forall i :: i in r <==> i in items && items[i].cartId != cart
    ensures forall i :: i in r ==> r[i] == items[i]
  {
    map i | i in items && items[i].cartId != cart :: items[i]
  }

  /** The item rows with the given keys removed. */
  function Without(items: map<Id, CartItem>, gone: seq<Id>): (r: map<Id, CartItem>)
    ensures forall i :: i in r <==> i in items && i !in gone
    ensures forall i :: i in r ==> r[i] == items[i]
  {
    map i | i in items && i !in gone :: items[i]
  }

  // ---- The constraints a checkout keeps ----

  /** Marking products sold to a stored user keeps the products table
      consistent and its keys as they were. */
  lemma MarkSoldKeepsProductsOk(products: map<Id, Product>, users: map<Id, User>, bought: seq<Id>, buyer: Id, next: Id)
    requires ProductsOk(products, users) && KeysBelow(products, next) && buyer in users
    ensures ProductsOk(MarkSold(products, bought, buyer), users)
    ensures KeysBelow(MarkSold(products, bought, buyer), next)
  {
  }

  /** Dropping item rows keeps the items table consistent. */
  lemma FewerItemsOk(items: map<Id, CartItem>, rest: map<Id, CartItem>, carts: map<Id, Cart>, products: map<Id, Product>, next: Id)
    requires ItemsOk(items, carts, products) && KeysBelow(items, next)
    requires rest.Keys <= items.Keys && forall i :: i in rest ==> rest[i] == items[i]
    ensures ItemsOk(rest, carts, products) && KeysBelow(rest, next)
  {
  }

  /** A new order of a stored user with a storable total keeps the orders table consistent. */
  lemma NewOrderOk(orders: map<Id, Order>, users: map<Id, User>, next: Id, order: Order)
    requires OrdersOk(orders, users) && KeysBelow(orders, next) && next >= 1
    requires order.customerId in users && IsDecimal10_2(order.totalAmount)
    ensures OrdersOk(orders[next := order], users) && KeysBelow(orders[next := order], next + 1)
  {
  }

  /** The rows linking a stored order to stored products keep order_items consistent. */
  lemma LinkedLinesOk(lines: set<(Id, Id)>, orders: map<Id, Order>, products: map<Id, Product>,
                      orders': map<Id, Order>, products': map<Id, Product>, order: Id, bought: seq<Id>)
    requires LinesOk(lines, orders, products)
    requires orders.Keys <= orders'.Keys && order in orders' && products'.Keys == products.Keys
    ensures LinesOk(Linked(lines, order, bought, products), orders', products')
  {
  }

  /** A successful checkout keeps every table consistent: the new order
      belongs to a stored user and fits DECIMAL(10,2), the sold products keep
      their keys, and the new order_items rows join the new order to
      stored products. */
  lemma PurchaseKeepsConsistent(
    users: map<Id, User>, products: map<Id, Product>, carts: map<Id, Cart>,
    items: map<Id, CartItem>, orders: map<Id, Order>, lines: set<(Id, Id)>,
    favorites: set<(Id, Id)>,
    nextUser: Id, nextProduct: Id, nextCart: Id, nextItem: Id, nextOrder: Id,
    buyer: Id, cart: Id, ids: seq<Id>, total: int, now: int)
    requires Consistent(users, products, carts, items, orders, lines, favorites,
                        nextUser, nextProduct, nextCart, nextItem, nextOrder)
    requires buyer in users && IsDecimal10_2(total) && Priced(ids, items, products)
    ensures var bought := Bought(ids, items);
      Consistent(users, MarkSold(products, bought, buyer), carts, ClearCart(items, cart),
                 orders[nextOrder := Order(buyer, total, now)],
                 Linked(lines, nextOrder, bought, products), favorites,
                 nextUser, nextProduct, nextCart, nextItem, nextOrder + 1)
  {
    var bought := Bought(ids, items);
    var products' := MarkSold(products, bought, buyer);
    var items' := ClearCart(items, cart);
    var orders' := orders[nextOrder := Order(buyer, total, now)];
    MarkSoldKeepsProductsOk(products, users, bought, buyer, nextProduct);
    FewerItemsOk(items, items', carts, products, nextItem);
    ProductRefsKept(products, products', users, carts, items', orders, lines, favorites);
    NewOrderOk(orders, users, nextOrder, Order(buyer, total, now));
    LinkedLinesOk(lines, orders, products, orders', products', nextOrder, bought);
  }

  /** A conflict removes exactly the sold items: the remaining items of the
      cart are its unsold ones, and they all still have an unsold product. */
  lemma ConflictKeepsUnsold(items: map<Id, CartItem>, products: map<Id, Product>, cart: Id)
    requires Priced(CartLines(items, cart), items, products)
    ensures var ids := CartLines(items, cart);
      var rest := Without(items, SoldLines(ids, items, products));
      forall i :: i in rest && rest[i].cartId == cart <==> i in ids && !products[items[i].productId].sold
  {
  }

  // ---- DELETE /cart/:productId ----

  /** The outcome of removing a product from the cart. */
  datatype RemoveReply = NoCart | NotInCart | Removed {
    function Status(): int {
      match this
      case NoCart => 404
      case NotInCart => 404
      case Removed => 204
    }
  }

  /** `CartItem.destroy({ where: { cart_id, product_id } })`: the rows that remain. */
  function WithoutProduct(items: map<Id, CartItem>, cart: Id, productId: Id): (r: map<Id, CartItem>)
    ensures forall i :: i in r <==> i in items && !(items[i].cartId == cart && items[i].productId == productId)
    ensures forall i :: i in r ==> r[i] == items[i]
  {
    map i | i in items && !(items[i].cartId == cart && items[i].productId == productId) :: items[i]
  }

  /** Because a cart never holds the same product twice, the delete removes
      at most one row. */
  lemma RemovesAtMostOne(items: map<Id, CartItem>, carts: map<Id, Cart>, products: map<Id, Product>, cart: Id, productId: Id)
    requires ItemsOk(items, carts, products)
    ensures |WithoutProduct(items, cart, productId)| >= |items| - 1
  {
    var r := WithoutProduct(items, cart, productId);
    var gone := set i | i in items && items[i].cartId == cart && items[i].productId == productId;
    assert items.Keys == r.Keys + gone;
    assert r.Keys * gone == {};
    if gone != {} {
      EmptyOrInhabited(gone);
      var g :| g in gone;
      forall i | i in gone ensures i == g {
        assert items[i].cartId == items[g].cartId && items[i].productId == items[g].productId;
      }
      assert gone == {g};
    }
  }
}
