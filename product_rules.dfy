/** The pure rules of the product routes: what POST, PUT and the CSV import
    would store, the validators they run, and the public listing with its
    search filter and page arithmetic. */
module ProductRules {
  import opened Schema
  import opened Tables
  import CsvImport
  import Text

  // ---- POST /products ----

  /** The body fields of POST /products the model reads; None is an absent key. */
  datatype ProductInput = ProductInput(
    name: Option<string>,
    description: Option<string>,
    price: Option<int>,
    url: Option<string>)

  /** A required string attribute with `notEmpty`: present and not
      whitespace only. */
  predicate Filled(s: Option<string>) {
    s.Some? && Text.NotBlank(s.value)
  }

  /** The model validators of a new product: name, description and url
      required and not blank, url a URL, price required. */
  predicate CreateValid(input: ProductInput, isUrl: string -> bool) {
    && Filled(input.name)
    && Filled(input.description)
    && input.price.Some?
    && Filled(input.url) && isUrl(input.url.value)
  }

  /** A new product validates exactly when name, description and url trim to
      something, the url is a URL and a price is given: a name of spaces
      only is refused. */
  lemma CreateValidIsTrimmed(input: ProductInput, isUrl: string -> bool)
    ensures CreateValid(input, isUrl) <==>
      && input.name.Some? && Text.Trim(input.name.value) != ""
      && input.description.Some? && Text.Trim(input.description.value) != ""
      && input.price.Some?
      && input.url.Some? && Text.Trim(input.url.value) != "" && isUrl(input.url.value)
  {
    if input.name.Some? { Text.NotBlankIffTrimmed(input.name.value); }
    if input.description.Some? { Text.NotBlankIffTrimmed(input.description.value); }
    if input.url.Some? { Text.NotBlankIffTrimmed(input.url.value); }
  }

  /** The outcome of POST /products. */
  datatype CreateReply = NotSeller | Invalid | Rejected | Created(id: Id, product: Product) {
    function Status(): int {
      match this
      case NotSeller => 403
      case Invalid => 400
      case Rejected => 412
      case Created(_, _) => 201
    }
  }

  /** The row POST /products inserts: the body's fields with seller_id forced
      to the caller and sold forced to false. */
  function NewProduct(input: ProductInput, seller: Id, now: int): (p: Product)
    requires input.name.Some? && input.description.Some? && input.price.Some? && input.url.Some?
    ensures p.sellerId == seller && !p.sold && p.customerId.None?
    ensures p.name == input.name.value && p.description == input.description.value
    ensures p.price == input.price.value && p.url == input.url.value && p.createdAt == now
  {
    Product(input.name.value, input.description.value, input.price.value, input.url.value, false, seller, None, now)
  }

  // ---- PUT /products/:id ----

  /** The body fields of PUT /products/:id the model reads; None is an absent key. */
  datatype ProductPatch = ProductPatch(
    name: Option<string>,
    description: Option<string>,
    price: Option<int>,
    url: Option<string>,
    sold: Option<bool>)

  /** `product.update(body)`: present fields replace the stored ones. */
  function Patched(p: Product, patch: ProductPatch): (q: Product)
    ensures q.name == patch.name.GetOr(p.name)
    ensures q.description == patch.description.GetOr(p.description)
    ensures q.price == patch.price.GetOr(p.price)
    ensures q.url == patch.url.GetOr(p.url)
    ensures q.sold == patch.sold.GetOr(p.sold)
    ensures q.sellerId == p.sellerId && q.customerId == p.customerId && q.createdAt == p.createdAt
  {
    p.(name := patch.name.GetOr(p.name),
       description := patch.description.GetOr(p.description),
       price := patch.price.GetOr(p.price),
       url := patch.url.GetOr(p.url),
       sold := patch.sold.GetOr(p.sold))
  }

  /** A field the update changes: present with a value other than the stored one. */
  predicate Changes<T(==)>(field: Option<T>, stored: T) {
    field.Some? && field.value != stored
  }

  /** `update` validates only the attributes it changes. */
  predicate PatchValid(p: Product, patch: ProductPatch, isUrl: string -> bool) {
    && (Changes(patch.name, p.name) ==> Text.NotBlank(patch.name.value))
    && (Changes(patch.description, p.description) ==> Text.NotBlank(patch.description.value))
    && (Changes(patch.url, p.url) ==> Text.NotBlank(patch.url.value) && isUrl(patch.url.value))
  }

  /** An update validates exactly when every text field it changes trims to
      something and a changed url is a URL. */
  lemma PatchValidIsTrimmed(p: Product, patch: ProductPatch, isUrl: string -> bool)
    ensures PatchValid(p, patch, isUrl) <==>
      && (Changes(patch.name, p.name) ==> Text.Trim(patch.name.value) != "")
      && (Changes(patch.description, p.description) ==> Text.Trim(patch.description.value) != "")
      && (Changes(patch.url, p.url) ==> Text.Trim(patch.url.value) != "" && isUrl(patch.url.value))
  {
    if patch.name.Some? { Text.NotBlankIffTrimmed(patch.name.value); }
    if patch.description.Some? { Text.NotBlankIffTrimmed(patch.description.value); }
    if patch.url.Some? { Text.NotBlankIffTrimmed(patch.url.value); }
  }

  /** The outcome of PUT /products/:id. */
  datatype UpdateReply = NoProduct | NotOwner | Refused | Updated(product: Product) {
    function Status(): int {
      match this
      case NoProduct => 404
      case NotOwner => 403
      case Refused => 412
      case Updated(_) => 200
    }
  }

  /** An update that changes nothing has nothing to validate and is a no-op. */
  lemma UnchangedPatch(p: Product, patch: ProductPatch, isUrl: string -> bool)
    requires !Changes(patch.name, p.name) && !Changes(patch.description, p.description)
    requires !Changes(patch.price, p.price) && !Changes(patch.url, p.url) && !Changes(patch.sold, p.sold)
    ensures PatchValid(p, patch, isUrl)
    ensures Patched(p, patch) == p
  {
  }

  /** Patching is idempotent: applying the same body twice stores what applying it once does. */
  lemma PatchIdempotent(p: Product, patch: ProductPatch, isUrl: string -> bool)
    ensures Patched(Patched(p, patch), patch) == Patched(p, patch)
    ensures PatchValid(Patched(p, patch), patch, isUrl)
  {
  }

  /** Inserting a product of a stored seller, with no buyer and a price that
      fits, at the next key keeps every table consistent. */
  lemma NewProductKeepsConsistent(
    users: map<Id, User>, products: map<Id, Product>, carts: map<Id, Cart>,
    items: map<Id, CartItem>, orders: map<Id, Order>, lines: set<(Id, Id)>,
    favorites: set<(Id, Id)>,
    nextUser: Id, nextProduct: Id, nextCart: Id, nextItem: Id, nextOrder: Id, p: Product)
    requires Consistent(users, products, carts, items, orders, lines, favorites,
                        nextUser, nextProduct, nextCart, nextItem, nextOrder)
    requires p.sellerId in users && users[p.sellerId].role == Seller
    requires p.customerId.None? && IsDecimal10_2(p.price)
    ensures Consistent(users, products[nextProduct := p], carts, items, orders, lines, favorites,
                       nextUser, nextProduct + 1, nextCart, nextItem, nextOrder)
  {
    ProductRefsKept(products, products[nextProduct := p], users, carts, items, orders, lines, favorites);
  }

  /** Replacing a product's row by one with the same seller and buyer and a
      price that fits keeps every table consistent. */
  lemma PatchKeepsConsistent(
    users: map<Id, User>, products: map<Id, Product>, carts: map<Id, Cart>,
    items: map<Id, CartItem>, orders: map<Id, Order>, lines: set<(Id, Id)>,
    favorites: set<(Id, Id)>,
    nextUser: Id, nextProduct: Id, nextCart: Id, nextItem: Id, nextOrder: Id, id: Id, p: Product)
    requires Consistent(users, products, carts, items, orders, lines, favorites,
                        nextUser, nextProduct, nextCart, nextItem, nextOrder)
    requires id in products && p.sellerId == products[id].sellerId && p.customerId == products[id].customerId
    requires IsDecimal10_2(p.price)
    ensures Consistent(users, products[id := p], carts, items, orders, lines, favorites,
                       nextUser, nextProduct, nextCart, nextItem, nextOrder)
  {
    ProductRefsKept(products, products[id := p], users, carts, items, orders, lines, favorites);
  }

  /** The outcome of DELETE /products/:id. */
  datatype DeleteReply = Missing | Forbidden | StillInCart | Deleted {
    function Status(): int {
      match this
      case Missing => 404
      case Forbidden => 403
      case StillInCart => 412
      case Deleted => 204
    }
  }

  /** Some cart item refers to product `id`. cart_items.product_id is a
      required reference declared by CartItem's belongsTo, whose ON DELETE is
      NO ACTION, so such a product cannot be deleted. */
  predicate InSomeCart(items: map<Id, CartItem>, id: Id) {
    exists i :: i in items && items[i].productId == id
  }

  /** The order_items rows left when product `id` is deleted. */
  function LinesWithout(lines: set<(Id, Id)>, id: Id): (r: set<(Id, Id)>)
    ensures forall k :: k in r <==> k in lines && k.1 != id
  {
    set k | k in lines && k.1 != id
  }

  /** The user_favorites rows left when product `id` is deleted. */
  function FavoritesWithout(favorites: set<(Id, Id)>, id: Id): (r: set<(Id, Id)>)
    ensures forall f :: f in r <==> f in favorites && f.1 != id
  {
    set f | f in favorites && f.1 != id
  }

  /** Deleting a product that no cart holds, together with its order_items
      and user_favorites rows (the join tables cascade), keeps every table
      consistent. */
  lemma DeleteKeepsConsistent(
    users: map<Id, User>, products: map<Id, Product>, carts: map<Id, Cart>,
    items: map<Id, CartItem>, orders: map<Id, Order>, lines: set<(Id, Id)>,
    favorites: set<(Id, Id)>,
    nextUser: Id, nextProduct: Id, nextCart: Id, nextItem: Id, nextOrder: Id, id: Id)
    requires Consistent(users, products, carts, items, orders, lines, favorites,
                        nextUser, nextProduct, nextCart, nextItem, nextOrder)
    requires !InSomeCart(items, id)
    ensures Consistent(users, products - {id}, carts, items, orders,
                       LinesWithout(lines, id), FavoritesWithout(favorites, id),
                       nextUser, nextProduct, nextCart, nextItem, nextOrder)
  {
    assert ItemsOk(items, carts, products - {id});
  }

  // ---- POST /products/upload ----

  /** The outcome of a CSV import; `count` is the number of products created. */
  datatype UploadReply = SellersOnly | NoFile | NoValidRows | ImportFailed | Imported(count: nat) {
    function Status(): int {
      match this
      case SellersOnly => 403
      case NoFile => 400
      case NoValidRows => 400
      case ImportFailed => 500
      case Imported(_) => 201
    }
  }

  /** The database accepts every draft's price: `parsePrice` gives the cents
      it would store, or None when it refuses the text, and the value fits
      DECIMAL(10,2). */
  predicate PricesStorable(drafts: seq<CsvImport.Draft>, parsePrice: string -> Option<int>) {
    forall k :: 0 <= k < |drafts| ==>
      parsePrice(drafts[k].priceText).Some? && IsDecimal10_2(parsePrice(drafts[k].priceText).value)
  }

  /** The row `bulkCreate` inserts for one draft (validators are not run). */
  function ImportedProduct(d: CsvImport.Draft, price: int, now: int): (p: Product)
    ensures p.name == d.name && p.description == d.description && p.url == d.url
    ensures p.price == price && p.sellerId == d.sellerId && p.sold == d.sold && p.customerId.None?
  {
    Product(d.name, d.description, price, d.url, d.sold, d.sellerId, None, now)
  }

  /** The draft at key `k` of a run of keys starting at `base`. */
  function Nth(drafts: seq<CsvImport.Draft>, base: Id, k: Id): (d: CsvImport.Draft)
    requires base <= k < base + |drafts|
    ensures d == drafts[k - base]
  {
    drafts[k - base]
  }

  /** The rows a bulk insert of `drafts` adds, keyed from `base` on in file order. */
  function ImportedRows(base: Id, drafts: seq<CsvImport.Draft>, parsePrice: string -> Option<int>, now: int)
    : (rows: map<Id, Product>)
    requires PricesStorable(drafts, parsePrice)
    ensures forall k :: k in rows <==> base <= k < base + |drafts|
    ensures forall k :: base <= k < base + |drafts| ==>
      rows[k] == ImportedProduct(drafts[k - base], parsePrice(drafts[k - base].priceText).value, now)
  {
    map k | base <= k < base + |drafts| :: ImportedProduct(Nth(drafts, base, k), parsePrice(Nth(drafts, base, k).priceText).value, now)
  }

  /** The rows a bulk insert adds are rows of a stored seller with no buyer
      and a price that fits, at fresh keys: the products table stays
      consistent and only gains keys. */
  lemma ImportedRowsOk(products: map<Id, Product>, users: map<Id, User>, base: Id,
                       drafts: seq<CsvImport.Draft>, parsePrice: string -> Option<int>, now: int, seller: Id)
    requires ProductsOk(products, users) && KeysBelow(products, base) && base >= 1
    requires seller in users && users[seller].role == Seller
    requires PricesStorable(drafts, parsePrice)
    requires forall d :: d in drafts ==> d.sellerId == seller
    ensures var all := products + ImportedRows(base, drafts, parsePrice, now);
      products.Keys <= all.Keys && ProductsOk(all, users) && KeysBelow(all, base + |drafts|)
  {
    var rows := ImportedRows(base, drafts, parsePrice, now);
    forall k | k in rows
      ensures rows[k].sellerId == seller && rows[k].customerId.None? && IsDecimal10_2(rows[k].price)
    {
      assert drafts[k - base] in drafts;
    }
  }

  /** A bulk insert of a seller's drafts with storable prices keeps every
      table consistent. */
  lemma ImportKeepsConsistent(
    users: map<Id, User>, products: map<Id, Product>, carts: map<Id, Cart>,
    items: map<Id, CartItem>, orders: map<Id, Order>, lines: set<(Id, Id)>,
    favorites: set<(Id, Id)>,
    nextUser: Id, nextProduct: Id, nextCart: Id, nextItem: Id, nextOrder: Id,
    seller: Id, drafts: seq<CsvImport.Draft>, parsePrice: string -> Option<int>, now: int)
    requires Consistent(users, products, carts, items, orders, lines, favorites,
                        nextUser, nextProduct, nextCart, nextItem, nextOrder)
    requires seller in users && users[seller].role == Seller
    requires PricesStorable(drafts, parsePrice)
    requires forall d :: d in drafts ==> d.sellerId == seller
    ensures Consistent(users, products + ImportedRows(nextProduct, drafts, parsePrice, now), carts, items,
                       orders, lines, favorites,
                       nextUser, nextProduct + |drafts|, nextCart, nextItem, nextOrder)
  {
    var products' := products + ImportedRows(nextProduct, drafts, parsePrice, now);
    ImportedRowsOk(products, users, nextProduct, drafts, parsePrice, now, seller);
    ProductRefsKept(products, products', users, carts, items, orders, lines, favorites);
  }

  // ---- GET /products/:id ----

  /** The seller attributes a product is shown with. */
  datatype SellerCard = SellerCard(name: string, email: string)

  /** A product with its seller, or no seller when the seller row is soft-deleted. */
  datatype ProductView = ProductView(id: Id, product: Product, seller: Option<SellerCard>)

  /** `Product.findOne` by key, with the seller's name and email. */
  function FindProduct(products: map<Id, Product>, users: map<Id, User>, id: Id): (r: Option<ProductView>)
    ensures r.None? <==> id !in products
    ensures r.Some? ==> r.value.id == id && r.value.product == products[id]
    ensures r.Some? ==> (r.value.seller.Some? <==> IsLive(users, products[id].sellerId))
    ensures r.Some? && r.value.seller.Some? ==>
      r.value.seller.value == SellerCard(users[products[id].sellerId].name, users[products[id].sellerId].email)
  {
    if id !in products then None
    else
      var s := products[id].sellerId;
      Some(ProductView(id, products[id],
        if IsLive(users, s) then Some(SellerCard(users[s].name, users[s].email)) else None))
  }

  // ---- GET /products ----

  /** The query string of the listing; None is an absent parameter. */
  datatype ListQuery = ListQuery(page: Option<int>, limit: Option<int>, search: Option<string>)

  /** The listing's reply: the number of matches, the number of pages, the
      page asked for and that page's products. */
  datatype Listing = Listing(total: nat, totalPages: nat, currentPage: int, data: seq<Id>)

  /** `needle` occurs in `hay` as a contiguous run. */
  predicate Contains(hay: string, needle: string) {
    exists i :: 0 <= i <= |hay| && needle <= hay[i..]
  }

  /** `name ILIKE '%search%'` without wildcards in `search`; an absent or empty
      search matches every name. */
  predicate NameMatches(name: string, search: Option<string>) {
    search.None? || search.value == "" || Contains(Text.Lower(name), Text.Lower(search.value))
  }

  /** The seller include: a live seller row with is_active true. */
  predicate SellerShown(users: map<Id, User>, seller: Id) {
    IsLive(users, seller) && users[seller].isActive
  }

  /** A product the listing shows: unsold, shown seller, matching name. */
  predicate ForSale(products: map<Id, Product>, users: map<Id, User>, search: Option<string>, p: Id) {
    && p in products && !products[p].sold
    && SellerShown(users, products[p].sellerId)
    && NameMatches(products[p].name, search)
  }

  /** The products the listing counts. */
  function Matching(products: map<Id, Product>, users: map<Id, User>, search: Option<string>): (s: set<Id>)
    ensures forall p :: p in s <==> ForSale(products, users, search, p)
  {
    set p | p in products && ForSale(products, users, search, p)
  }

  /** The creation time of every product. */
  function CreatedAt(products: map<Id, Product>): (at: map<Id, int>)
    ensures at.Keys == products.Keys
    ensures forall p :: p in at ==> at[p] == products[p].createdAt
  {
    map p | p in products :: products[p].createdAt
  }

  /** The matches sorted by created_at, newest first. */
  function Ranked(products: map<Id, Product>, users: map<Id, User>, search: Option<string>): (r: seq<Id>)
    ensures |r| == |Matching(products, users, search)|
    ensures forall p :: p in r <==> p in Matching(products, users, search)
    ensures Dated(r, CreatedAt(products)) && NewestFirstOrder(r, CreatedAt(products))
  {
    var s := Matching(products, users, search);
    NewestFirstOfSet(s, CreatedAt(products));
    NewestFirst(Ascending(s), CreatedAt(products))
  }

  /** ⌈n / d⌉ for a positive divisor. */
  function CeilDiv(n: nat, d: nat): (q: nat)
    requires d >= 1
    ensures q * d >= n
    ensures q == 0 || (q - 1) * d < n
  {
    if n == 0 then 0
    else
      var q := (n - 1) / d + 1;
      assert (q - 1) * d <= n - 1;
      assert n - 1 < (q - 1) * d + d;
      q
  }

  /** The rows of one page: positions offset .. offset + limit - 1 of `ranked`. */
  function PageOf(ranked: seq<Id>, offset: nat, limit: nat): (data: seq<Id>)
    ensures |data| <= limit
    ensures offset + |data| <= |ranked| || data == []
    ensures forall k :: 0 <= k < |data| ==> data[k] == ranked[offset + k]
    ensures |data| == limit || offset + |data| >= |ranked|
  {
    if offset >= |ranked| then []
    else if offset + limit <= |ranked| then ranked[offset..offset + limit]
    else ranked[offset..]
  }

  /** `(page - 1) * limit`: the number of matches before the page. */
  function Offset(page: int, limit: int): (o: nat)
    requires page >= 1 && limit >= 1
    ensures o == (page - 1) * limit
  {
    MulMono(0, page - 1, limit);
    (page - 1) * limit
  }

  /** One page of a ranked listing: the number of matches, ⌈matches / limit⌉
      pages, and the rows at offsets (page - 1) * limit onwards, at most
      `limit` of them. */
  function Paginate(ranked: seq<Id>, page: int, limit: int): (l: Listing)
    requires page >= 1 && limit >= 1
    ensures l.total == |ranked| && l.currentPage == page && |l.data| <= limit
    ensures l.totalPages * limit >= l.total
    ensures l.totalPages == 0 || (l.totalPages - 1) * limit < l.total
    ensures l.data == [] || Offset(page, limit) + |l.data| <= |ranked|
    ensures forall k :: 0 <= k < |l.data| ==> l.data[k] == ranked[Offset(page, limit) + k]
    ensures |l.data| == limit || Offset(page, limit) + |l.data| >= |ranked|
  {
    Listing(|ranked|, CeilDiv(|ranked|, limit), page, PageOf(ranked, Offset(page, limit), limit))
  }

  /** GET /products: page defaults to 1 and limit to 10; offset = (page-1)*limit.
      A page or limit below 1 is modelled as an error (None); the database's
      own answer to LIMIT 0 or a negative OFFSET is not modelled. */
  function ListProducts(products: map<Id, Product>, users: map<Id, User>, q: ListQuery): (r: Option<Listing>)
    ensures r.None? <==> q.page.GetOr(1) < 1 || q.limit.GetOr(10) < 1
    ensures r.Some? ==> r.value == Paginate(Ranked(products, users, q.search), q.page.GetOr(1), q.limit.GetOr(10))
    ensures r.Some? ==> r.value.total == |Matching(products, users, q.search)|
  {
    var page := q.page.GetOr(1);
    var limit := q.limit.GetOr(10);
    if page < 1 || limit < 1 then None
    else Some(Paginate(Ranked(products, users, q.search), page, limit))
  }

  /** Every listed product is unsold, has an active live seller and matches
      the search. */
  lemma ListedAreForSale(products: map<Id, Product>, users: map<Id, User>, q: ListQuery)
    requires ListProducts(products, users, q).Some?
    ensures var data := ListProducts(products, users, q).value.data;
      forall k :: 0 <= k < |data| ==> ForSale(products, users, q.search, data[k])
  {
    var ranked := Ranked(products, users, q.search);
    var data := Paginate(ranked, q.page.GetOr(1), q.limit.GetOr(10)).data;
    var off := Offset(q.page.GetOr(1), q.limit.GetOr(10));
    forall k | 0 <= k < |data| ensures ForSale(products, users, q.search, data[k]) {
      assert ranked[off + k] in ranked;
    }
  }

  /** A page lists its products newest first. */
  lemma ListedNewestFirst(products: map<Id, Product>, users: map<Id, User>, q: ListQuery)
    requires ListProducts(products, users, q).Some?
    ensures var data := ListProducts(products, users, q).value.data;
      forall j, k :: 0 <= j < k < |data| ==>
        data[j] in products && data[k] in products && products[data[j]].createdAt >= products[data[k]].createdAt
  {
    var at := CreatedAt(products);
    var data := Paginate(Ranked(products, users, q.search), q.page.GetOr(1), q.limit.GetOr(10)).data;
    PageKeepsOrder(Ranked(products, users, q.search), q.page.GetOr(1), q.limit.GetOr(10), at);
    forall j, k | 0 <= j < k < |data|
      ensures data[j] in products && data[k] in products && products[data[j]].createdAt >= products[data[k]].createdAt
    {
      assert at[data[j]] >= at[data[k]];
    }
  }

  /** A page of a newest-first ranking is newest first. */
  lemma PageKeepsOrder(ranked: seq<Id>, page: int, limit: int, at: map<Id, int>)
    requires page >= 1 && limit >= 1
    requires Dated(ranked, at) && NewestFirstOrder(ranked, at)
    ensures var data := Paginate(ranked, page, limit).data;
      Dated(data, at) && NewestFirstOrder(data, at)
  {
    var data := Paginate(ranked, page, limit).data;
    if data != [] {
      SliceKeepsOrder(ranked, data, Offset(page, limit), at);
    }
  }

  /** A run of consecutive positions of a newest-first sequence is newest first. */
  lemma SliceKeepsOrder(ranked: seq<Id>, data: seq<Id>, off: nat, at: map<Id, int>)
    requires Dated(ranked, at) && NewestFirstOrder(ranked, at)
    requires off + |data| <= |ranked|
    requires forall k :: 0 <= k < |data| ==> data[k] == ranked[off + k]
    ensures Dated(data, at) && NewestFirstOrder(data, at)
  {
    forall j, k | 0 <= j < k < |data| ensures at[data[j]] >= at[data[k]] {
      assert data[j] == ranked[off + j] && data[k] == ranked[off + k];
    }
  }

  /** Pages partition the matches: the product ranked at position j appears on
      page j / limit + 1, at position j % limit, and that page exists. */
  lemma {:induction false} EveryMatchIsOnItsPage(
    products: map<Id, Product>, users: map<Id, User>, search: Option<string>, limit: int, j: nat)
    requires limit >= 1
    requires j < |Ranked(products, users, search)|
    ensures var q := ListQuery(Some(j / limit + 1), Some(limit), search);
      var r := ListProducts(products, users, q);
      && r.Some?
      && j % limit < |r.value.data|
      && r.value.data[j % limit] == Ranked(products, users, search)[j]
      && j / limit + 1 <= r.value.totalPages
  {
    PageHolds(Ranked(products, users, search), limit, j);
  }

  /** Position j of a ranking is position j % limit of page j / limit + 1,
      which is one of the pages. */
  lemma PageHolds(ranked: seq<Id>, limit: int, j: nat)
    requires limit >= 1 && j < |ranked|
    ensures j / limit + 1 >= 1
    ensures var l := Paginate(ranked, j / limit + 1, limit);
      j % limit < |l.data| && l.data[j % limit] == ranked[j] && j / limit + 1 <= l.totalPages
  {
    var page, i := PageArithmetic(j, limit, |ranked|);
    PositionOnPage(ranked, page, limit, i);
  }

  /** A position of a page that lies within the ranking holds the ranked
      product at that offset. */
  lemma PositionOnPage(ranked: seq<Id>, page: int, limit: int, i: nat)
    requires page >= 1 && limit >= 1 && i < limit && Offset(page, limit) + i < |ranked|
    requires page <= CeilDiv(|ranked|, limit)
    ensures var l := Paginate(ranked, page, limit);
      i < |l.data| && l.data[i] == ranked[Offset(page, limit) + i] && page <= l.totalPages
  {
  }

  /** Position j of n lies on page j / limit + 1, at offset j % limit from
      the page's first position, and that page is at most ⌈n / limit⌉. */
  lemma PageArithmetic(j: nat, limit: int, n: nat) returns (page: int, i: nat)
    requires limit >= 1 && j < n
    ensures page == j / limit + 1 && i == j % limit
    ensures page >= 1 && i < limit
    ensures Offset(page, limit) + i == j
    ensures page <= CeilDiv(n, limit)
  {
    page, i := j / limit + 1, j % limit;
    var pages := CeilDiv(n, limit);
    var d := j / limit;
    if d >= pages {
      MulMono(pages, d, limit);
      assert false;
    }
  }

  /** Multiplication by a natural number is monotone. */
  lemma MulMono(a: int, b: int, c: nat)
    requires a <= b
    ensures a * c <= b * c
  {
  }
}
