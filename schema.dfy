/** The persisted entities of the shop and the constraints their model
    definitions declare (field types, enums, defaults, required references). */
module Schema {
  import Text

  /** Primary keys are auto-incremented integers starting at 1. */
  type Id = int

  datatype Option<T> = None | Some(value: T) {
    function GetOr(default: T): (r: T)
      ensures Some? ==> r == value
      ensures None? ==> r == default
    {
      match this
      case Some(v) => v
      case None => default
    }
  }

  /** DECIMAL(10,2) holds ten digits, two of them after the point; as integer
      cents that is any value strictly between -10^10 and 10^10. */
  const DecimalBound: int := 10_000_000_000

  predicate IsDecimal10_2(cents: int) {
    -DecimalBound < cents < DecimalBound
  }

  /** ENUM("customer", "seller"). */
  datatype Role = Customer | Seller

  /** The role named by a request body, if it is one of the enum's two values. */
  function ParseRole(s: Option<string>): (r: Option<Role>)
    ensures r == Some(Customer) <==> s == Some("customer")
    ensures r == Some(Seller) <==> s == Some("seller")
    ensures r.None? <==> s != Some("customer") && s != Some("seller")
  {
    if s == Some("customer") then Some(Customer)
    else if s == Some("seller") then Some(Seller)
    else None
  }

  /** A user row. `password` holds the stored hash; `deletedAt` is the
      paranoid soft-delete marker. */
  datatype User = User(
    name: string,
    email: string,
    password: string,
    role: Role,
    isActive: bool,
    deletedAt: Option<int>)

  /** A product row: `sellerId` is required, `customerId` (the buyer) is not. */
  datatype Product = Product(
    name: string,
    description: string,
    price: int,
    url: string,
    sold: bool,
    sellerId: Id,
    customerId: Option<Id>,
    createdAt: int)

  /** ENUM('active', 'ordered'), default 'active'. */
  datatype CartStatus = Active | Ordered

  datatype Cart = Cart(customerId: Id, status: CartStatus)

  /** A line of a cart, with the price captured when it was added. */
  datatype CartItem = CartItem(cartId: Id, productId: Id, quantity: int, price: int)

  /** An order row; the model declares no status attribute. */
  datatype Order = Order(customerId: Id, totalAmount: int, createdAt: int)

  /** A user the authentication layer accepts: present and not soft-deleted. */
  predicate IsLive(users: map<Id, User>, u: Id) {
    u in users && users[u].deletedAt.None?
  }

  // ---- Table constraints ----

  /** Auto-increment keys: every key is at least 1 and below the next key. */
  predicate KeysBelow<T>(m: map<Id, T>, next: Id) {
    forall k :: k in m ==> 1 <= k < next
  }

  /** name and email required and not blank (`notEmpty`); email unique over
      all rows, soft-deleted ones included (the unique index sees them). */
  predicate UsersOk(users: map<Id, User>) {
    && (forall u :: u in users ==> Text.NotBlank(users[u].name) && Text.NotBlank(users[u].email))
    && (forall a, b :: a in users && b in users && users[a].email == users[b].email ==> a == b)
  }

  /** Every product has a seller whose role is seller; a buyer, when set,
      is a user; the price fits DECIMAL(10,2). */
  predicate ProductsOk(products: map<Id, Product>, users: map<Id, User>) {
    forall p :: p in products ==>
      && products[p].sellerId in users
      && users[products[p].sellerId].role == Seller
      && (products[p].customerId.Some? ==> products[p].customerId.value in users)
      && IsDecimal10_2(products[p].price)
  }

  /** A cart belongs to a user, and a user has at most one active cart. */
  predicate CartsOk(carts: map<Id, Cart>, users: map<Id, User>) {
    && (forall c :: c in carts ==> carts[c].customerId in users)
    && (forall a, b ::
          a in carts && b in carts && carts[a].status == Active && carts[b].status == Active
          && carts[a].customerId == carts[b].customerId
          ==> a == b)
  }

  /** cart_id and product_id are required references, quantity is at least 1,
      price fits DECIMAL(10,2), and no cart holds the same product twice. */
  predicate ItemsOk(items: map<Id, CartItem>, carts: map<Id, Cart>, products: map<Id, Product>) {
    && (forall i :: i in items ==>
          && items[i].cartId in carts
          && items[i].productId in products
          && items[i].quantity >= 1
          && IsDecimal10_2(items[i].price))
    && (forall i, j ::
          i in items && j in items && items[i].cartId == items[j].cartId
          && items[i].productId == items[j].productId
          ==> i == j)
  }

  /** customer_id is required; total_amount fits DECIMAL(10,2). */
  predicate OrdersOk(orders: map<Id, Order>, users: map<Id, User>) {
    forall o :: o in orders ==> orders[o].customerId in users && IsDecimal10_2(orders[o].totalAmount)
  }

  /** order_items rows join an existing order to an existing product. */
  predicate LinesOk(lines: set<(Id, Id)>, orders: map<Id, Order>, products: map<Id, Product>) {
    forall k :: k in lines ==> k.0 in orders && k.1 in products
  }

  /** user_favorites rows join an existing user to an existing product. */
  predicate FavoritesOk(favorites: set<(Id, Id)>, users: map<Id, User>, products: map<Id, Product>) {
    forall f :: f in favorites ==> f.0 in users && f.1 in products
  }

  /** Every table's constraints hold and every key is below its sequence. */
  predicate Consistent(
    users: map<Id, User>, products: map<Id, Product>, carts: map<Id, Cart>,
    items: map<Id, CartItem>, orders: map<Id, Order>, lines: set<(Id, Id)>,
    favorites: set<(Id, Id)>,
    nextUser: Id, nextProduct: Id, nextCart: Id, nextItem: Id, nextOrder: Id)
  {
    && nextUser >= 1 && nextProduct >= 1 && nextCart >= 1 && nextItem >= 1 && nextOrder >= 1
    && KeysBelow(users, nextUser) && KeysBelow(products, nextProduct) && KeysBelow(carts, nextCart)
    && KeysBelow(items, nextItem) && KeysBelow(orders, nextOrder)
    && UsersOk(users)
    && ProductsOk(products, users)
    && CartsOk(carts, users)
    && ItemsOk(items, carts, products)
    && OrdersOk(orders, users)
    && LinesOk(lines, orders, products)
    && FavoritesOk(favorites, users, products)
  }

  /** References into the products table stay valid when it only gains keys. */
  lemma ProductRefsKept(products: map<Id, Product>, products': map<Id, Product>, users: map<Id, User>,
                        carts: map<Id, Cart>, items: map<Id, CartItem>, orders: map<Id, Order>,
                        lines: set<(Id, Id)>, favorites: set<(Id, Id)>)
    requires products.Keys <= products'.Keys
    requires ItemsOk(items, carts, products) && LinesOk(lines, orders, products)
    requires FavoritesOk(favorites, users, products)
    ensures ItemsOk(items, carts, products') && LinesOk(lines, orders, products')
    ensures FavoritesOk(favorites, users, products')
  {
  }

  /** References into the users table stay valid when it only gains keys and
      keeps every role. */
  lemma UserRefsKept(users: map<Id, User>, users': map<Id, User>, products: map<Id, Product>,
                     carts: map<Id, Cart>, orders: map<Id, Order>, favorites: set<(Id, Id)>)
    requires users.Keys <= users'.Keys
    requires forall v :: v in users ==> users'[v].role == users[v].role
    requires ProductsOk(products, users) && CartsOk(carts, users) && OrdersOk(orders, users)
    requires FavoritesOk(favorites, users, products)
    ensures ProductsOk(products, users') && CartsOk(carts, users') && OrdersOk(orders, users')
    ensures FavoritesOk(favorites, users', products)
  {
  }
}
