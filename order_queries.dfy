/** The read-only order routes: a customer's orders, newest first, each with
    the products linked to it through order_items. */
module OrderQueries {
  import opened Schema
  import opened Tables

  /** An order as the routes return it: its row and its linked products. */
  datatype OrderView = OrderView(id: Id, order: Order, products: seq<Id>)

  /** The products linked to order `o`, by key. */
  function LinkedProducts(lines: set<(Id, Id)>, o: Id): (r: seq<Id>)
    ensures forall p :: p in r <==> (o, p) in lines
    ensures forall j, k :: 0 <= j < k < |r| ==> r[j] != r[k]
  {
    var r := Ascending(set k | k in lines && k.0 == o :: k.1);
    assert forall j, k :: 0 <= j < k < |r| ==> r[j] < r[k];
    r
  }

  /** The view of one stored order. */
  function ViewOf(orders: map<Id, Order>, lines: set<(Id, Id)>, o: Id): (v: OrderView)
    requires o in orders
    ensures v.id == o && v.order == orders[o]
    ensures forall p :: p in v.products <==> (o, p) in lines
  {
    OrderView(o, orders[o], LinkedProducts(lines, o))
  }

  /** The keys of the orders whose customer_id is `u`. */
  function OwnedBy(orders: map<Id, Order>, u: Id): (s: set<Id>)
    ensures forall o :: o in s <==> o in orders && orders[o].customerId == u
  {
    set o | o in orders && orders[o].customerId == u
  }

  /** The creation time of every order. */
  function OrderDates(orders: map<Id, Order>): (at: map<Id, int>)
    ensures at.Keys == orders.Keys
    ensures forall o :: o in at ==> at[o] == orders[o].createdAt
  {
    map o | o in orders :: orders[o].createdAt
  }

  /** The caller's order keys, created_at DESC. */
  function MyOrderIds(orders: map<Id, Order>, u: Id): (r: seq<Id>)
    ensures |r| == |OwnedBy(orders, u)|
    ensures forall o :: o in r <==> o in orders && orders[o].customerId == u
    ensures Dated(r, OrderDates(orders)) && NewestFirstOrder(r, OrderDates(orders))
  {
    NewestFirstOfSet(OwnedBy(orders, u), OrderDates(orders));
    NewestFirst(Ascending(OwnedBy(orders, u)), OrderDates(orders))
  }

  /** `r` shows the orders `ids`, position by position. */
  predicate Shows(orders: map<Id, Order>, lines: set<(Id, Id)>, ids: seq<Id>, r: seq<OrderView>) {
    && |r| == |ids|
    && forall k :: 0 <= k < |r| ==> ids[k] in orders && r[k] == ViewOf(orders, lines, ids[k])
  }

  /** The views of the given stored orders, in the given order. */
  function Views(orders: map<Id, Order>, lines: set<(Id, Id)>, ids: seq<Id>): (r: seq<OrderView>)
    requires forall k :: 0 <= k < |ids| ==> ids[k] in orders
    ensures Shows(orders, lines, ids, r)
  {
    seq(|ids|, k requires 0 <= k < |ids| => ViewOf(orders, lines, ids[k]))
  }

  /** GET /orders: the views of the caller's orders, in MyOrderIds order. */
  function MyOrders(orders: map<Id, Order>, lines: set<(Id, Id)>, u: Id): (r: seq<OrderView>)
    ensures Shows(orders, lines, MyOrderIds(orders, u), r)
  {
    var ids := MyOrderIds(orders, u);
    assert forall k :: 0 <= k < |ids| ==> ids[k] in ids;
    Views(orders, lines, ids)
  }

  /** GET /orders returns exactly the caller's orders, each once, newest first. */
  lemma MyOrdersAreTheCallers(orders: map<Id, Order>, lines: set<(Id, Id)>, u: Id)
    ensures var r := MyOrders(orders, lines, u);
      && |r| == |OwnedBy(orders, u)|
      && (forall k :: 0 <= k < |r| ==> r[k].order.customerId == u)
      && (forall o :: o in orders && orders[o].customerId == u ==> exists k :: 0 <= k < |r| && r[k].id == o)
      && (forall j, k :: 0 <= j < k < |r| ==> r[j].order.createdAt >= r[k].order.createdAt)
  {
    var ids, r := MyOrderIds(orders, u), MyOrders(orders, lines, u);
    OnlyTheCallers(orders, lines, ids, r, u);
    AllTheCallers(orders, lines, ids, r, u);
    OrdersNewestFirst(orders, lines, ids, r);
  }

  lemma OnlyTheCallers(orders: map<Id, Order>, lines: set<(Id, Id)>, ids: seq<Id>, r: seq<OrderView>, u: Id)
    requires Shows(orders, lines, ids, r)
    requires forall o :: o in ids ==> orders[o].customerId == u
    ensures forall k :: 0 <= k < |r| ==> r[k].order.customerId == u
  {
    forall k | 0 <= k < |r| ensures r[k].order.customerId == u {
      assert ids[k] in ids;
    }
  }

  lemma AllTheCallers(orders: map<Id, Order>, lines: set<(Id, Id)>, ids: seq<Id>, r: seq<OrderView>, u: Id)
    requires Shows(orders, lines, ids, r)
    requires forall o :: o in orders && orders[o].customerId == u ==> o in ids
    ensures forall o :: o in orders && orders[o].customerId == u ==> exists k :: 0 <= k < |r| && r[k].id == o
  {
    forall o | o in orders && orders[o].customerId == u
      ensures exists k :: 0 <= k < |r| && r[k].id == o
    {
      var k :| 0 <= k < |ids| && ids[k] == o;
      assert r[k].id == o;
    }
  }

  lemma OrdersNewestFirst(orders: map<Id, Order>, lines: set<(Id, Id)>, ids: seq<Id>, r: seq<OrderView>)
    requires Shows(orders, lines, ids, r)
    requires Dated(ids, OrderDates(orders)) && NewestFirstOrder(ids, OrderDates(orders))
    ensures forall j, k :: 0 <= j < k < |r| ==> r[j].order.createdAt >= r[k].order.createdAt
  {
    var at := OrderDates(orders);
    forall j, k | 0 <= j < k < |r| ensures r[j].order.createdAt >= r[k].order.createdAt {
      assert at[ids[j]] >= at[ids[k]];
    }
  }

  /** GET /orders/:id: the order when it exists and is the caller's, else None (404). */
  function MyOrder(orders: map<Id, Order>, lines: set<(Id, Id)>, u: Id, id: Id): (r: Option<OrderView>)
    ensures r.None? <==> id !in orders || orders[id].customerId != u
    ensures r.Some? ==> r.value.id == id && r.value.order == orders[id]
    ensures r.Some? ==> forall p :: p in r.value.products <==> (id, p) in lines
  {
    if id in orders && orders[id].customerId == u then Some(ViewOf(orders, lines, id)) else None
  }

  /** The single-order route agrees with the list: what it finds is one of
      the entries GET /orders returns. */
  lemma {:induction false} MyOrderIsListed(orders: map<Id, Order>, lines: set<(Id, Id)>, u: Id, id: Id)
    requires MyOrder(orders, lines, u, id).Some?
    ensures MyOrder(orders, lines, u, id).value in MyOrders(orders, lines, u)
  {
    var all := MyOrders(orders, lines, u);
    MyOrdersAreTheCallers(orders, lines, u);
    var k :| 0 <= k < |all| && all[k].id == id;
    assert all[k] == MyOrder(orders, lines, u, id).value;
  }
}
