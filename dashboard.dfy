/** GET /dashboard: a seller's product count, sold count, revenue and
    best-selling product name, all read from the products table. */
module Dashboard {
  import opened Schema
  import opened Tables
  import CartRules

  /** The dashboard's reply. */
  datatype Stats = Stats(totalProducts: nat, totalSold: nat, totalRevenue: int, bestSelling: string)

  /** The answer when nothing is sold. */
  const NoBestSeller: string := "Nenhum"

  /** The products whose seller_id is `u`. */
  function Offered(products: map<Id, Product>, u: Id): (s: set<Id>)
    ensures forall p :: p in s <==> p in products && products[p].sellerId == u
  {
    set p | p in products && products[p].sellerId == u
  }

  /** The products whose seller_id is `u` and that are sold. */
  function SoldBy(products: map<Id, Product>, u: Id): (s: set<Id>)
    ensures forall p :: p in s <==> p in products && products[p].sellerId == u && products[p].sold
    ensures s <= Offered(products, u)
  {
    set p | p in products && products[p].sellerId == u && products[p].sold
  }

  /** Every key listed is a stored product. */
  predicate Stored(ids: seq<Id>, products: map<Id, Product>) {
    forall k :: 0 <= k < |ids| ==> ids[k] in products
  }

  /** SUM(price) over the listed products. */
  function PriceSum(ids: seq<Id>, products: map<Id, Product>): int
    requires Stored(ids, products)
  {
    if ids == [] then 0 else products[ids[0]].price + PriceSum(ids[1..], products)
  }

  /** The names of the listed products, one per product. */
  function NamesOf(ids: seq<Id>, products: map<Id, Product>): (r: seq<string>)
    requires Stored(ids, products)
    ensures |r| == |ids|
    ensures forall k :: 0 <= k < |ids| ==> r[k] == products[ids[k]].name
  {
    if ids == [] then [] else [products[ids[0]].name] + NamesOf(ids[1..], products)
  }

  /** A name occurring most often in `names` (GROUP BY name ORDER BY COUNT DESC LIMIT 1). */
  function MostFrequent(names: seq<string>): (b: string)
    requires names != []
    ensures b in names
    ensures forall n :: n in names ==> multiset(names)[n] <= multiset(names)[b]
  {
    if |names| == 1 then
      assert forall n :: n in names ==> n == names[0];
      names[0]
    else
      var tail := names[1..];
      var b := MostFrequent(tail);
      assert names == [names[0]] + tail;
      assert multiset(names) == multiset{names[0]} + multiset(tail);
      if multiset(names)[names[0]] >= multiset(names)[b] then names[0] else b
  }

  /** The keys of the seller's sold products, by key. */
  function SoldIds(products: map<Id, Product>, u: Id): (r: seq<Id>)
    ensures |r| == |SoldBy(products, u)|
    ensures forall p :: p in r <==> p in SoldBy(products, u)
    ensures Stored(r, products)
  {
    var r := Ascending(SoldBy(products, u));
    assert forall k :: 0 <= k < |r| ==> r[k] in r;
    r
  }

  /** The seller's sold products grouped by name: how many carry each name. */
  function Sales(products: map<Id, Product>, u: Id): multiset<string> {
    multiset(NamesOf(SoldIds(products, u), products))
  }

  /** GET /dashboard for the caller `u`. */
  function DashboardOf(products: map<Id, Product>, u: Id): (d: Stats)
    ensures d.totalProducts == |Offered(products, u)|
    ensures d.totalSold == |SoldBy(products, u)|
    ensures d.totalRevenue == PriceSum(SoldIds(products, u), products)
    ensures d.totalSold == 0 ==> d.totalRevenue == 0 && d.bestSelling == NoBestSeller
    ensures d.totalSold > 0 ==>
      && (exists p :: p in SoldBy(products, u) && products[p].name == d.bestSelling)
      && (forall p :: p in SoldBy(products, u) ==> Sales(products, u)[products[p].name] <= Sales(products, u)[d.bestSelling])
  {
    var ids := SoldIds(products, u);
    var names := NamesOf(ids, products);
    if ids == [] then
      Stats(|Offered(products, u)|, 0, 0, NoBestSeller)
    else
      var best := MostFrequent(names);
      assert forall p :: p in SoldBy(products, u) ==> products[p].name in names by {
        forall p | p in SoldBy(products, u) ensures products[p].name in names {
          var k :| 0 <= k < |ids| && ids[k] == p;
          assert names[k] == products[p].name;
        }
      }
      var k :| 0 <= k < |names| && names[k] == best;
      assert ids[k] in SoldBy(products, u);
      Stats(|Offered(products, u)|, |ids|, PriceSum(ids, products), best)
  }

  /** A seller never has more sold products than products. */
  lemma SoldAtMostOffered(products: map<Id, Product>, u: Id)
    ensures DashboardOf(products, u).totalSold <= DashboardOf(products, u).totalProducts
  {
    var a := SoldBy(products, u);
    var b := Offered(products, u);
    assert b == a + (b - a);
  }

  /** A purchase leaves every seller's product count as it was and adds to
      their sold products exactly their products it buys. */
  lemma PurchaseAddsToSold(products: map<Id, Product>, bought: seq<Id>, buyer: Id, u: Id)
    ensures var after := CartRules.MarkSold(products, bought, buyer);
      && Offered(after, u) == Offered(products, u)
      && SoldBy(after, u) == SoldBy(products, u) + (set p | p in bought && p in Offered(products, u))
  {
    var after := CartRules.MarkSold(products, bought, buyer);
    assert Offered(after, u) == Offered(products, u);
    assert SoldBy(after, u) == SoldBy(products, u) + (set p | p in bought && p in Offered(products, u));
  }
}
