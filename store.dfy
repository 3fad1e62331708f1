/** The database the routes share, and every route that writes to it as a
    method. Each request runs as one atomic step; the caller's id is the one
    the token resolved to, which is a live (not soft-deleted) user. */
module Db {
  import opened Schema
  import opened Tables
  import opened CartRules
  import CsvImport
  import opened ProductRules
  import opened UserRules
  import opened FavoriteRules

  class Store {
    var users: map<Id, User>
    var products: map<Id, Product>
    var carts: map<Id, Cart>
    var items: map<Id, CartItem>
    var orders: map<Id, Order>
    /** order_items, keyed by (order_id, product_id). */
    var lines: set<(Id, Id)>
    /** user_favorites, as (user_id, product_id) pairs. */
    var favorites: set<(Id, Id)>
    /** The next value of each auto-increment sequence. */
    var nextUser: Id
    var nextProduct: Id
    var nextCart: Id
    var nextItem: Id
    var nextOrder: Id

    /** The schema's constraints hold and every key is below its sequence. */
    ghost predicate Valid()
      reads this
    {
      Consistent(users, products, carts, items, orders, lines, favorites,
                 nextUser, nextProduct, nextCart, nextItem, nextOrder)
    }

    /** An empty database. */
    constructor ()
      ensures Valid()
      ensures users == map[] && products == map[] && carts == map[] && items == map[]
      ensures orders == map[] && lines == {} && favorites == {}
      ensures nextUser == 1 && nextProduct == 1 && nextCart == 1 && nextItem == 1 && nextOrder == 1
    {
      users, products, carts, items := map[], map[], map[], map[];
      orders, lines, favorites := map[], {}, {};
      nextUser, nextProduct, nextCart, nextItem, nextOrder := 1, 1, 1, 1, 1;
    }

    // ---- routes/cart.js ----

    /** `getMyCart`: the caller's active cart, created with status 'active'
        when there is none. */
    method GetMyCart(u: Id) returns (c: Id)
      requires Valid() && IsLive(users, u)
      modifies this`carts, this`nextCart
      ensures Valid()
      ensures old(ActiveCart(carts, u)).Some? ==>
        c == old(ActiveCart(carts, u)).value && carts == old(carts) && nextCart == old(nextCart)
      ensures old(ActiveCart(carts, u)).None? ==>
        c == old(nextCart) && carts == old(carts)[c := Cart(u, Active)] && nextCart == old(nextCart) + 1
      ensures c in carts && carts[c] == Cart(u, Active) && ActiveCart(carts, u) == Some(c)
      ensures items == old(items) && nextItem == old(nextItem) && products == old(products)
    {
      var found := ActiveCart(carts, u);
      if found.Some? {
        c := found.value;
      } else {
        NewCartKeepsConsistent(users, products, carts, items, orders, lines, favorites,
                               nextUser, nextProduct, nextCart, nextItem, nextOrder, u);
        c := nextCart;
        carts := carts[c := Cart(u, Active)];
        nextCart := nextCart + 1;
      }
      ActiveCartIs(carts, users, u, c);
    }

    /** POST /cart: the checks, then find-or-create of the cart and of the
        (cart, product) item with quantity 1 and the product's current price. */
    method AddToCart(u: Id, productId: Option<Id>) returns (r: AddReply)
      requires Valid() && IsLive(users, u)
      modifies this`carts, this`nextCart, this`items, this`nextItem
      ensures Valid()
      ensures AddRefusal(productId, products, u).Some? ==>
        && r == AddRefusal(productId, products, u).value
        && carts == old(carts) && nextCart == old(nextCart)
        && items == old(items) && nextItem == old(nextItem)
      ensures AddRefusal(productId, products, u).None? ==>
        && (old(ActiveCart(carts, u)).Some? ==> carts == old(carts) && nextCart == old(nextCart))
        && (old(ActiveCart(carts, u)).None? ==>
              carts == old(carts)[old(nextCart) := Cart(u, Active)] && nextCart == old(nextCart) + 1)
      ensures AddRefusal(productId, products, u).None? ==>
        && ActiveCart(carts, u).Some?
        && var c := ActiveCart(carts, u).value;
           var pid := productId.value;
           && (HoldsProduct(old(items), c, pid) ==>
                 r == AlreadyInCart && items == old(items) && nextItem == old(nextItem))
           && (!HoldsProduct(old(items), c, pid) ==>
                 && r == Added(old(nextItem), NewItem(c, pid, products[pid]))
                 && items == old(items)[old(nextItem) := NewItem(c, pid, products[pid])]
                 && nextItem == old(nextItem) + 1)
    {
      var refusal := AddRefusal(productId, products, u);
      if refusal.Some? {
        return refusal.value;
      }
      var c := GetMyCart(u);
      r := PutItem(c, productId.value);
    }

    /** The find-or-create of the (cart, product) item. */
    method PutItem(c: Id, pid: Id) returns (r: AddReply)
      requires Valid() && c in carts && pid in products
      modifies this`items, this`nextItem
      ensures Valid()
      ensures HoldsProduct(old(items), c, pid) ==>
        r == AlreadyInCart && items == old(items) && nextItem == old(nextItem)
      ensures !HoldsProduct(old(items), c, pid) ==>
        && r == Added(old(nextItem), NewItem(c, pid, products[pid]))
        && items == old(items)[old(nextItem) := NewItem(c, pid, products[pid])]
        && nextItem == old(nextItem) + 1
      ensures carts == old(carts) && nextCart == old(nextCart) && products == old(products)
    {
      if HoldsProduct(items, c, pid) {
        r := AlreadyInCart;
      } else {
        NewItemKeepsConsistent(users, products, carts, items, orders, lines, favorites,
                               nextUser, nextProduct, nextCart, nextItem, nextOrder, c, pid);
        var it := NewItem(c, pid, products[pid]);
        r := Added(nextItem, it);
        items := items[nextItem := it];
        nextItem := nextItem + 1;
      }
    }

    /** DELETE /cart/:productId: remove the product's item from the active
        cart; 204 when a row was removed, 404 when none was or there is no
        active cart (then nothing is created). */
    method RemoveFromCart(u: Id, productId: Id) returns (r: RemoveReply)
      requires Valid() && IsLive(users, u)
      modifies this`items
      ensures Valid()
      ensures ActiveCart(carts, u).None? ==> r == NoCart && items == old(items)
      ensures ActiveCart(carts, u).Some? ==>
        var c := ActiveCart(carts, u).value;
        && items == WithoutProduct(old(items), c, productId)
        && (r == Removed <==> HoldsProduct(old(items), c, productId))
        && r != NoCart
    {
      var found := ActiveCart(carts, u);
      if found.None? {
        return NoCart;
      }
      var c := found.value;
      var held := HoldsProduct(items, c, productId);
      items := WithoutProduct(items, c, productId);
      r := if held then Removed else NotInCart;
    }

    /** POST /cart/checkout: reject an empty or missing cart; on sold items,
        remove exactly those and report their names; otherwise create the
        order, mark each product sold to the caller, add the (order,
        product) pair to order_items, and empty the cart (the cart row
        stays active). */
    method Checkout(u: Id, now: int) returns (r: CheckoutReply)
      requires Valid() && IsLive(users, u)
      modifies this`products, this`items, this`orders, this`lines, this`nextOrder
      ensures Valid()
      ensures var plan := old(CheckoutPlan(carts, items, products, u));
        && (plan.NothingToBuy? || plan.TooDear? ==>
              && r == (if plan.NothingToBuy? then EmptyCart else OrderFailed)
              && products == old(products) && items == old(items)
              && orders == old(orders) && lines == old(lines) && nextOrder == old(nextOrder))
        && (plan.DropSold? ==>
              && r == Conflict(plan.names) && items == Without(old(items), plan.sold)
              && products == old(products) && orders == old(orders)
              && lines == old(lines) && nextOrder == old(nextOrder))
        && (plan.Buy? ==>
              var bought := Bought(plan.ids, old(items));
              && r == Purchased(old(nextOrder), plan.total)
              && orders == old(orders)[old(nextOrder) := Order(u, plan.total, now)]
              && nextOrder == old(nextOrder) + 1
              && products == MarkSold(old(products), bought, u)
              && lines == Linked(old(lines), old(nextOrder), bought, old(products))
              && items == ClearCart(old(items), plan.cart))
    {
      var plan := CheckoutPlan(carts, items, products, u);
      match plan
      case NothingToBuy =>
        r := EmptyCart;
      case TooDear =>
        r := OrderFailed;
      case DropSold(sold, names) =>
        r := Conflict(names);
        DropItems(sold);
      case Buy(c, ids, total) =>
        var oid := PlaceOrder(u, c, ids, total, now);
        r := Purchased(oid, total);
    }

    /** `CartItem.destroy({ where: { id } })` for the given keys. */
    method DropItems(gone: seq<Id>)
      requires Valid()
      modifies this`items
      ensures Valid()
      ensures items == Without(old(items), gone)
      ensures products == old(products) && orders == old(orders) && lines == old(lines) && nextOrder == old(nextOrder)
    {
      FewerItemsOk(items, Without(items, gone), carts, products, nextItem);
      items := Without(items, gone);
    }

    /** The success path of a checkout: create the order with the total, sell
        and link each item's product, then empty the cart. */
    method PlaceOrder(u: Id, c: Id, ids: seq<Id>, total: int, now: int) returns (oid: Id)
      requires Valid() && IsLive(users, u) && IsDecimal10_2(total)
      requires Priced(ids, items, products)
      modifies this`products, this`items, this`orders, this`lines, this`nextOrder
      ensures Valid()
      ensures oid == old(nextOrder) && nextOrder == old(nextOrder) + 1
      ensures orders == old(orders)[oid := Order(u, total, now)]
      ensures products == MarkSold(old(products), Bought(ids, old(items)), u)
      ensures lines == Linked(old(lines), oid, Bought(ids, old(items)), old(products))
      ensures items == ClearCart(old(items), c)
    {
      PurchaseKeepsConsistent(users, products, carts, items, orders, lines, favorites,
                              nextUser, nextProduct, nextCart, nextItem, nextOrder, u, c, ids, total, now);
      oid := nextOrder;
      var sold, linked := SellAndLink(products, lines, items, ids, oid, u);
      orders, nextOrder := orders[oid := Order(u, total, now)], nextOrder + 1;
      products, lines, items := sold, linked, ClearCart(items, c);
    }

    // ---- routes/product.js ----

    /** POST /products: sellers only; the model validators, then the column
        types; the stored row has the caller as seller and is not sold. */
    method CreateProduct(u: Id, input: ProductInput, isUrl: string -> bool, now: int) returns (r: CreateReply)
      requires Valid() && IsLive(users, u)
      modifies this`products, this`nextProduct
      ensures Valid()
      ensures users[u].role != Seller ==> r == NotSeller
      ensures users[u].role == Seller && !CreateValid(input, isUrl) ==> r == Invalid
      ensures users[u].role == Seller && CreateValid(input, isUrl) && !IsDecimal10_2(input.price.value) ==> r == Rejected
      ensures r.Created? <==> users[u].role == Seller && CreateValid(input, isUrl) && IsDecimal10_2(input.price.value)
      ensures !r.Created? ==> products == old(products) && nextProduct == old(nextProduct)
      ensures r.Created? ==>
        && r == Created(old(nextProduct), NewProduct(input, u, now))
        && products == old(products)[old(nextProduct) := NewProduct(input, u, now)]
        && nextProduct == old(nextProduct) + 1
    {
      if users[u].role != Seller {
        return NotSeller;
      }
      if !CreateValid(input, isUrl) {
        return Invalid;
      }
      if !IsDecimal10_2(input.price.value) {
        return Rejected;
      }
      var p := NewProduct(input, u, now);
      NewProductKeepsConsistent(users, products, carts, items, orders, lines, favorites,
                                nextUser, nextProduct, nextCart, nextItem, nextOrder, p);
      r := Created(nextProduct, p);
      products := products[nextProduct := p];
      nextProduct := nextProduct + 1;
    }

    /** PUT /products/:id: 404 for an unknown key, 403 unless the caller is
        the seller, 412 when a changed field fails its validator or the new
        price does not fit the column; otherwise the present fields replace
        the stored ones. */
    method UpdateProduct(u: Id, id: Id, patch: ProductPatch, isUrl: string -> bool) returns (r: UpdateReply)
      requires Valid() && IsLive(users, u)
      modifies this`products
      ensures Valid()
      ensures id !in old(products) ==> r == NoProduct
      ensures id in old(products) && old(products)[id].sellerId != u ==> r == NotOwner
      ensures id in old(products) && old(products)[id].sellerId == u ==>
        var after := Patched(old(products)[id], patch);
        && (!PatchValid(old(products)[id], patch, isUrl) || !IsDecimal10_2(after.price) ==> r == Refused)
        && (PatchValid(old(products)[id], patch, isUrl) && IsDecimal10_2(after.price) ==>
              r == Updated(after) && products == old(products)[id := after])
      ensures !r.Updated? ==> products == old(products)
    {
      if id !in products {
        return NoProduct;
      }
      var p := products[id];
      if p.sellerId != u {
        return NotOwner;
      }
      var after := Patched(p, patch);
      if !PatchValid(p, patch, isUrl) || !IsDecimal10_2(after.price) {
        return Refused;
      }
      PatchKeepsConsistent(users, products, carts, items, orders, lines, favorites,
                           nextUser, nextProduct, nextCart, nextItem, nextOrder, id, after);
      products := products[id := after];
      r := Updated(after);
    }

    /** DELETE /products/:id: 404 for an unknown key, 403 unless the caller is
        the seller, 412 while a cart item still refers to the product (the
        database refuses the delete); otherwise the row goes, and so do the
        order_items and user_favorites rows that refer to it. */
    method DeleteProduct(u: Id, id: Id) returns (r: DeleteReply)
      requires Valid() && IsLive(users, u)
      modifies this`products, this`lines, this`favorites
      ensures Valid()
      ensures id !in old(products) ==> r == Missing
      ensures id in old(products) && old(products)[id].sellerId != u ==> r == Forbidden
      ensures id in old(products) && old(products)[id].sellerId == u && InSomeCart(items, id) ==> r == StillInCart
      ensures r != Deleted ==> products == old(products) && lines == old(lines) && favorites == old(favorites)
      ensures r == Deleted <==> id in old(products) && old(products)[id].sellerId == u && !InSomeCart(items, id)
      ensures r == Deleted ==>
        && products == old(products) - {id}
        && lines == LinesWithout(old(lines), id)
        && favorites == FavoritesWithout(old(favorites), id)
    {
      if id !in products {
        return Missing;
      }
      if products[id].sellerId != u {
        return Forbidden;
      }
      if InSomeCart(items, id) {
        return StillInCart;
      }
      DeleteKeepsConsistent(users, products, carts, items, orders, lines, favorites,
                            nextUser, nextProduct, nextCart, nextItem, nextOrder, id);
      products := products - {id};
      lines, favorites := LinesWithout(lines, id), FavoritesWithout(favorites, id);
      r := Deleted;
    }

    /** POST /products/upload: sellers only, a file is required, at least one
        row must be accepted; the drafts are inserted by one bulk insert,
        which fails as a whole when the database refuses a price. */
    method Upload(u: Id, file: Option<CsvImport.CsvTable>, parsePrice: string -> Option<int>, now: int)
      returns (r: UploadReply)
      requires Valid() && IsLive(users, u)
      modifies this`products, this`nextProduct
      ensures Valid()
      ensures users[u].role != Seller ==> r == SellersOnly
      ensures users[u].role == Seller && file.None? ==> r == NoFile
      ensures users[u].role == Seller && file.Some? ==>
        var drafts := CsvImport.AcceptedDrafts(CsvImport.Rows(file.value), u);
        && (drafts == [] ==> r == NoValidRows)
        && (drafts != [] && !PricesStorable(drafts, parsePrice) ==> r == ImportFailed)
        && (drafts != [] && PricesStorable(drafts, parsePrice) ==>
              && r == Imported(|drafts|)
              && products == old(products) + ImportedRows(old(nextProduct), drafts, parsePrice, now)
              && nextProduct == old(nextProduct) + |drafts|)
      ensures !r.Imported? ==> products == old(products) && nextProduct == old(nextProduct)
    {
      if users[u].role != Seller {
        return SellersOnly;
      }
      if file.None? {
        return NoFile;
      }
      var drafts := CsvImport.CollectDrafts(CsvImport.Rows(file.value), u);
      if drafts == [] {
        return NoValidRows;
      }
      if !PricesStorable(drafts, parsePrice) {
        return ImportFailed;
      }
      CsvImport.DraftsComeFromAcceptedRows(CsvImport.Rows(file.value), u);
      InsertDrafts(u, drafts, parsePrice, now);
      r := Imported(|drafts|);
    }

    /** `Product.bulkCreate(products)`: one row per draft, at consecutive keys. */
    method InsertDrafts(u: Id, drafts: seq<CsvImport.Draft>, parsePrice: string -> Option<int>, now: int)
      requires Valid() && u in users && users[u].role == Seller
      requires PricesStorable(drafts, parsePrice)
      requires forall d :: d in drafts ==> d.sellerId == u
      modifies this`products, this`nextProduct
      ensures Valid()
      ensures products == old(products) + ImportedRows(old(nextProduct), drafts, parsePrice, now)
      ensures nextProduct == old(nextProduct) + |drafts|
      ensures users == old(users)
    {
      ImportKeepsConsistent(users, products, carts, items, orders, lines, favorites,
                            nextUser, nextProduct, nextCart, nextItem, nextOrder,
                            u, drafts, parsePrice, now);
      products := products + ImportedRows(nextProduct, drafts, parsePrice, now);
      nextProduct := nextProduct + |drafts|;
    }

    // ---- routes/user.js ----

    /** POST /users: the role must be one of the two; then the model
        validators and the unique email index; the row stores the hash of the
        password. */
    method CreateUser(input: UserInput, isEmail: string -> bool, hash: string -> string) returns (r: SignupReply)
      requires Valid()
      modifies this`users, this`nextUser
      ensures Valid()
      ensures ParseRole(input.role).None? ==> r == BadRole
      ensures ParseRole(input.role).Some? && (!SignupValid(input, isEmail) || EmailTaken(old(users), input.email.value)) ==>
        r == NotCreated
      ensures r.Registered? <==>
        ParseRole(input.role).Some? && SignupValid(input, isEmail) && !EmailTaken(old(users), input.email.value)
      ensures !r.Registered? ==> users == old(users) && nextUser == old(nextUser)
      ensures r.Registered? ==>
        var row := NewUser(input, ParseRole(input.role).value, hash);
        && r == Registered(AccountOf(old(nextUser), row))
        && users == old(users)[old(nextUser) := row]
        && nextUser == old(nextUser) + 1
    {
      var role := ParseRole(input.role);
      if role.None? {
        return BadRole;
      }
      if !SignupValid(input, isEmail) || EmailTaken(users, input.email.value) {
        return NotCreated;
      }
      var row := NewUser(input, role.value, hash);
      SignupKeepsConsistent(users, products, carts, items, orders, lines, favorites,
                            nextUser, nextProduct, nextCart, nextItem, nextOrder,
                            input, role.value, isEmail, hash);
      r := Registered(AccountOf(nextUser, row));
      users := users[nextUser := row];
      nextUser := nextUser + 1;
    }

    /** DELETE /user: a customer is soft-deleted (204), a seller is only
        deactivated (200); a caller not found answers 404. */
    method DeleteUser(u: Id, now: int) returns (r: CloseReply)
      requires Valid()
      modifies this`users
      ensures Valid()
      ensures !IsLive(old(users), u) ==> r == NoUser && users == old(users)
      ensures IsLive(old(users), u) && old(users)[u].role == Customer ==>
        r == SoftDeleted && users == old(users)[u := SoftDelete(old(users)[u], now)]
      ensures IsLive(old(users), u) && old(users)[u].role == Seller ==>
        r == Deactivated && users == old(users)[u := old(users)[u].(isActive := false)]
    {
      if !IsLive(users, u) {
        return NoUser;
      }
      var changed := if users[u].role == Customer then SoftDelete(users[u], now) else users[u].(isActive := false);
      SameAccountKeepsConsistent(users, products, carts, items, orders, lines, favorites,
                                 nextUser, nextProduct, nextCart, nextItem, nextOrder, u, changed);
      users := users[u := changed];
      r := if users[u].role == Customer then SoftDeleted else Deactivated;
    }

    // ---- routes/favorite.js ----

    /** POST /favorites/:id: 404 for an unknown product; otherwise the pair is
        added (a second add changes nothing). */
    method AddFavorite(u: Id, productId: Id) returns (r: FavoriteReply)
      requires Valid() && IsLive(users, u)
      modifies this`favorites
      ensures Valid()
      ensures productId !in products ==> r == UnknownProduct && favorites == old(favorites)
      ensures productId in products ==> r == Favorited && favorites == old(favorites) + {(u, productId)}
    {
      if productId !in products {
        return UnknownProduct;
      }
      favorites := favorites + {(u, productId)};
      r := Favorited;
    }

    /** DELETE /favorites/:id: 404 for an unknown product; otherwise the pair
        is removed (removing an absent pair changes nothing). */
    method RemoveFavorite(u: Id, productId: Id) returns (r: FavoriteReply)
      requires Valid() && IsLive(users, u)
      modifies this`favorites
      ensures Valid()
      ensures productId !in products ==> r == UnknownProduct && favorites == old(favorites)
      ensures productId in products ==> r == Unfavorited && favorites == old(favorites) - {(u, productId)}
    {
      if productId !in products {
        return UnknownProduct;
      }
      favorites := favorites - {(u, productId)};
      r := Unfavorited;
    }
  }
}
