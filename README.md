# e-commerce back-end, modelled in Dafny

This project models the back-end of a small marketplace written with Express and
Sequelize. The model covers its business rules:

- **Accounts:** customers and sellers sign up. A customer who closes the account is
  soft-deleted; a seller is only deactivated.
- **Products:** sellers create, edit, delete and bulk-import products from a
  semicolon-separated CSV file. Everyone browses a paginated, searchable listing of
  unsold products.
- **Carts and orders:** customers fill a cart and check it out into an order.
  Checkout refuses the whole purchase, and drops the stale lines, when a product in
  the cart was sold to someone else in the meantime.
- **Favourites and orders:** customers keep favourites and read their orders.
- **Dashboard:** sellers read counts, revenue and their best-selling product name.

The database is one object, `Db.Store`. It holds a map per table (users, products,
carts, cart_items, orders), the two join tables (order_items and user_favorites) as
sets of key pairs, and the next value of every auto-increment sequence.

- Every route that writes is a method of the store. Each method keeps the ghost
  invariant `Valid()`: the schema's constraints (`Schema.Consistent`) hold and every
  key is below its sequence.
- The routes that only read (GET /cart, GET /products, GET /products/:id, GET /user,
  GET /favorites, GET /orders, GET /orders/:id, GET /dashboard) are pure functions of
  the tables.
- The decisions the handlers make are functions in the rule modules (`CartRules`,
  `ProductRules`, `UserRules`, `FavoriteRules`, `OrderQueries`, `Dashboard`,
  `CsvImport`). Lemmas about these functions state what the routes promise.
- `Text` holds the string primitives with JavaScript's meaning that the routes and the
  model validators share: the whitespace `trim` removes, `trim`, Sequelize's
  `notEmpty`, and lower-casing.

Modelling conventions:

- Money is integer cents. A DECIMAL(10,2) column holds exactly the values
  `-10^10 < cents < 10^10`. Where the database would reject a larger value
  (`Order.create`, `Product.create`, `bulkCreate`, `update`), the model takes the
  route's error branch.
- The caller's id is the one the bearer token resolved to. `auth.js` finds it with
  `findByPk`, which skips soft-deleted users, so every authenticated route requires a
  live user (`Schema.IsLive`).
- Timestamps (`created_at`, `deleted_at`) come from a `now` parameter.
- The password hash, the `isEmail` and `isUrl` validators and the price parser are
  function parameters.

Where the code and the prose description of the system differ, the model follows the
code:

- Checkout links each product to the order by an order_items row that holds only the
  order and the product keys. `Order.belongsToMany` names the join table by a string,
  so the table has no price or quantity column, and the price and quantity 1 that
  `addProduct` passes are not stored.
- Deleting a product that some cart item still refers to fails with 412 and changes
  nothing. cart_items.product_id is a required reference declared by `CartItem`'s
  `belongsTo`, whose ON DELETE is NO ACTION.
- Checkout leaves the cart row `active`, so the next add reuses the same cart rather
  than creating a new one.

## Model

| member | source | states |
|---|---|---|
| Schema.UsersOk | back-end/models/user.js:12-27 | name and email are required and not blank (`notEmpty`), and no two rows, soft-deleted ones included, share an email (the unique index) |
| Schema.ProductsOk | back-end/models/product.js:16-66 | seller_id is required and names a user whose role is seller; customer_id, when set, names a user; the price fits DECIMAL(10,2) |
| Schema.CartsOk | back-end/models/cart.js:8-20 | customer_id names a user, and a user has at most one active cart (the find-or-create on status active keeps this) |
| Schema.ItemsOk | back-end/models/cartItem.js:8-40 | cart_id and product_id are required references to stored rows, quantity is at least 1, the price fits DECIMAL(10,2), and no cart holds a product twice |
| Schema.OrdersOk | back-end/models/order.js:8-28 | customer_id is required and names a user; total_amount fits DECIMAL(10,2) |
| Schema.LinesOk | back-end/models/order.js:31-36 | every order_items pair joins a stored order to a stored product |
| Schema.FavoritesOk | back-end/models/user.js:67-71 | every user_favorites pair joins a stored user to a stored product |
| Schema.KeysBelow | back-end/models/user.js:8-11 | auto-increment keys: every key is at least 1 and below its sequence's next value |
| Schema.Consistent | back-end/db.js:29-40 | every table meets its constraints above and every key is below its sequence |
| Db.Store.Valid | back-end/db.js:22-44 | the store's tables and sequences are `Consistent`; every store method keeps this |
| Schema.ParseRole | back-end/routes/user.js:53-55 | a body role is accepted exactly when it is "customer" or "seller", and maps to that enum value |
| Tables.InsertNewest | back-end/routes/order.js:18 | inserting one row into a dated sequence adds exactly that row (a multiset equality) |
| Tables.InsertNewestOrder | back-end/routes/order.js:18 | inserting into a newest-first sequence keeps it newest first |
| Tables.NewestFirst | back-end/routes/order.js:18 | ORDER BY created_at DESC: the result is a permutation of the input, sorted newest first |
| Tables.NewestFirstOfSet | back-end/routes/order.js:16-18 | sorting a set's rows newest first keeps exactly the set's keys, each once |
| CartRules.ActiveCart | back-end/routes/cart.js:26-27 | the cart found is the caller's and active; nothing is found exactly when the caller has no active cart |
| CartRules.ActiveCartIs | back-end/models/cart.js:18-25 | in a consistent store any active cart of the caller is the one `findOne` returns |
| CartRules.CartLines | back-end/models/cart.js:22-25 | a cart's items are exactly the item rows whose cart_id is the cart, each listed once, in key order |
| CartRules.AddRefusal | back-end/routes/cart.js:63-82 | the four refusals of POST /cart in their order (missing id, unknown product, sold product, own product), each exactly when its earlier checks pass and its own fails; none when all pass |
| CartRules.RefusalIsAnError | back-end/routes/cart.js:65-82 | every refusal answers 400 or 404 |
| CartRules.NewItem | back-end/routes/cart.js:91-96 | the item an add creates: the cart, the product, quantity 1 and the product's current price |
| CartRules.HoldsProduct | back-end/routes/cart.js:88-89 | some item row has this cart_id and product_id, the `where` of the find-or-create |
| CartRules.NewCartKeepsConsistent | back-end/routes/cart.js:12-18 | creating the active cart of a user with none keeps every table consistent, including one active cart per user |
| CartRules.NewItemKeepsConsistent | back-end/routes/cart.js:88-96 | a new item for a product the cart does not hold keeps every table consistent |
| CartRules.ViewCart | back-end/routes/cart.js:26-53 | GET /cart: no active cart gives no items and total 0; otherwise the cart's items in key order (`CartLines`) and their total |
| CartRules.CartTotal | back-end/routes/cart.js:45-47 | the reduce over the items of price times quantity; pinned down by `CartTotalAppend` and `CartTotalIgnoresCapturedPrice` |
| CartRules.CartTotalIgnoresCapturedPrice | back-end/routes/cart.js:45-47 | the cart total depends on each product's current price and the item quantity, never on the price captured in the item |
| CartRules.CartTotalAppend | back-end/routes/cart.js:45-47 | the reduce is additive over a split of the items |
| CartRules.SoldLines | back-end/routes/cart.js:157 | the filtered items are exactly the cart items whose product is sold; none is listed twice when the cart lists none twice |
| CartRules.SoldLinesAppend | back-end/routes/cart.js:157 | the filter keeps the cart's order: filtering a concatenation filters each part |
| CartRules.Names | back-end/routes/cart.js:163 | one name per removed item: the name of that item's product |
| CartRules.OrderTotal | back-end/routes/cart.js:167 | the reduce over the items of the current price alone; tied to the GET /cart total by `OrderTotalIsCartTotal` |
| CartRules.OrderTotalIsCartTotal | back-end/routes/cart.js:167 | with every quantity 1, the order total equals the total GET /cart shows |
| CartRules.CheckoutPlan | back-end/routes/cart.js:147-174 | the checkout's decision: nothing to buy exactly when there is no active cart or it has no items; a conflict lists exactly the sold items, each once, and their product names; otherwise the order total is the sum of current prices, and a total that does not fit DECIMAL(10,2) is refused |
| CartRules.Bought | back-end/routes/cart.js:177 | the products bought are those of the cart items, in item order |
| CartRules.MarkSold | back-end/routes/cart.js:178-181 | exactly the bought products become sold to the buyer; every other product is untouched |
| CartRules.Linked | back-end/routes/cart.js:183-188 | order_items gains exactly the (order, product) pair of each bought product, and keeps every other pair |
| CartRules.SellItemStep | back-end/routes/cart.js:177-189 | one loop step adds that item's product to the sold products and its (order, product) pair to order_items |
| CartRules.SellAndLink | back-end/routes/cart.js:177-189 | the checkout loop ends with the products table `MarkSold` and the order_items table `Linked` describe |
| CartRules.ClearCart | back-end/routes/cart.js:191 | destroying by cart_id keeps exactly the items of other carts, unchanged |
| CartRules.Without | back-end/routes/cart.js:160 | destroying by item key keeps exactly the other items, unchanged |
| CartRules.MarkSoldKeepsProductsOk | back-end/models/product.js:52-66 | selling to a stored user keeps every product's seller and buyer references valid |
| CartRules.FewerItemsOk | back-end/models/cartItem.js:8-40 | removing item rows keeps the items table's constraints |
| CartRules.NewOrderOk | back-end/models/order.js:8-28 | an order of a stored customer with a total that fits DECIMAL(10,2) keeps the orders table's constraints |
| CartRules.LinkedLinesOk | back-end/models/order.js:31-36 | the new order_items pairs join a stored order to stored products |
| CartRules.PurchaseKeepsConsistent | back-end/routes/cart.js:167-191 | a successful checkout keeps every table consistent |
| CartRules.ConflictKeepsUnsold | back-end/routes/cart.js:157-165 | after a conflict the cart holds exactly its unsold items |
| CartRules.WithoutProduct | back-end/routes/cart.js:122-127 | the delete keeps exactly the rows not matching (cart, product), unchanged |
| CartRules.RemovesAtMostOne | back-end/routes/cart.js:122-133 | because a cart never holds a product twice, the delete removes at most one row |
| Text.Trim | back-end/routes/product.js:44 | String.prototype.trim; stated by `TrimShape`, `TrimEnds`, `TrimCut` and `TrimOfTrimmed` |
| Text.TrimStart | back-end/routes/product.js:44 | the result is a suffix of the input, what is cut is whitespace, and it does not start with whitespace |
| Text.TrimEnd | back-end/routes/product.js:44 | the result is a prefix of the input, what is cut is whitespace, and it does not end with whitespace |
| Text.TrimShape | back-end/routes/product.js:44 | trim leaves no whitespace at either end and cuts only whitespace |
| Text.TrimEnds | back-end/routes/product.js:44 | a trimmed string starts and ends with a non-space |
| Text.TrimCut | back-end/routes/product.js:44 | a trimmed string is a run of the input with only whitespace around it |
| Text.TrimOfTrimmed | back-end/routes/product.js:57-60 | trimming is idempotent |
| Text.NotBlank | back-end/models/user.js:12-35 | the `notEmpty` validator: some character is not whitespace; `NotBlankIffTrimmed` ties it to trim |
| Text.NotBlankIffTrimmed | back-end/models/product.js:9-36 | a string passes `notEmpty` exactly when trimming it leaves something, so "" and "  " both fail |
| Text.Lower | back-end/routes/product.js:45 | lower-casing maps every character and keeps the length |
| Text.LowerKeepsSpaces | back-end/routes/product.js:45 | lower-casing neither creates nor removes whitespace |
| Text.LowerOfLower | back-end/routes/product.js:45 | a string with no upper-case letter is its own lower case |
| CsvImport.StripBom | back-end/routes/product.js:43 | exactly one leading U+FEFF is removed, and nothing else changes |
| CsvImport.NormalizeHeader | back-end/routes/product.js:40-46 | the mapHeaders callback: strip one BOM, trim, lower-case; stated by `NormalizedHeaderShape` and `NormalizeHeaderIdempotent` |
| CsvImport.NormalizedHeaderShape | back-end/routes/product.js:40-46 | a normalised header has no whitespace at either end, no leading byte-order mark, and no upper-case ASCII letter |
| CsvImport.NormalizeHeaderIdempotent | back-end/routes/product.js:40-46 | normalising a header twice gives what normalising it once does |
| CsvImport.KeepPriceChars | back-end/routes/product.js:53 | only digits, '.', ',' and '-' survive, and each of them survives as often as it occurred |
| CsvImport.KeepPriceCharsAppend | back-end/routes/product.js:53 | the filter works part by part: the kept characters stay in their input order |
| CsvImport.KeepPriceCharsOne | back-end/routes/product.js:53 | one character is kept exactly when it is a digit, '.', ',' or '-' |
| CsvImport.ReplaceFirstComma | back-end/routes/product.js:54 | `replace` with a string pattern; stated position by position by `ReplaceFirstCommaShape` |
| CsvImport.ReplaceFirstCommaShape | back-end/routes/product.js:54 | the character at the first ',' becomes '.' and every other position keeps its character; no comma leaves the string as it is |
| CsvImport.CleanPrice | back-end/routes/product.js:51-54 | the two replaces in turn; stated by `CleanPriceShape` |
| CsvImport.CleanPriceShape | back-end/routes/product.js:51-54 | a cleaned price is the kept characters with the first comma among them turned into '.', every other position unchanged; every digit and '-' of the input survives; when the input had a comma, the result has one comma fewer and one point more |
| CsvImport.ReplaceKeepsOthers | back-end/routes/product.js:54 | replacing the first comma leaves the count of every other character unchanged |
| CsvImport.Keys | back-end/routes/product.js:40-46 | every header cell goes through the header mapping |
| CsvImport.LastColumn | back-end/routes/product.js:48 | the last column carrying a key, so a repeated header keeps its rightmost cell |
| CsvImport.RowPrefix | back-end/routes/product.js:48 | a row object has exactly the header keys, each holding its last column's cell |
| CsvImport.RowOf | back-end/routes/product.js:37-48 | the parser's row object for one record: each normalised header key with its last column's cell, over the columns both the header and the record have |
| CsvImport.Rows | back-end/routes/product.js:37-48 | one row object per record, in file order |
| CsvImport.Accepts | back-end/routes/product.js:49 | `row.name && row.price`: both keys present with non-empty text; the import test of `AcceptedDraftsOne` and `NoDraftsIffNoAcceptedRow` |
| CsvImport.DraftOf | back-end/routes/product.js:56-63 | an accepted row gives the trimmed name, the trimmed description and url or "", the cleaned price text, the caller as seller, and not sold |
| CsvImport.AcceptedDrafts | back-end/routes/product.js:48-64 | at most one draft per row |
| CsvImport.AcceptedDraftsAppend | back-end/routes/product.js:48-64 | importing a concatenation of rows imports each part in turn, so drafts keep the rows' file order |
| CsvImport.AcceptedDraftsOne | back-end/routes/product.js:56-63 | one row yields its draft exactly when it has a non-empty name and price, and nothing otherwise |
| CsvImport.NoDraftsIffNoAcceptedRow | back-end/routes/product.js:48-71 | the import yields no draft exactly when no row has a non-empty name and price |
| CsvImport.DraftsComeFromAcceptedRows | back-end/routes/product.js:48-64 | every draft is the draft of an accepted row and belongs to the caller, unsold |
| CsvImport.CollectDrafts | back-end/routes/product.js:34-65 | the data callback's pushes build exactly the accepted rows' drafts, in file order |
| ProductRules.CreateValid | back-end/models/product.js:9-36 | the model validators of a new product; `CreateValidIsTrimmed` states them |
| ProductRules.CreateValidIsTrimmed | back-end/models/product.js:9-36 | a new product validates exactly when name, description and url trim to something, the url is a URL and a price is given |
| ProductRules.PatchValid | back-end/routes/product.js:209 | `update` validates only the attributes it changes; `PatchValidIsTrimmed` states it |
| ProductRules.PatchValidIsTrimmed | back-end/models/product.js:9-36 | an update validates exactly when every text field it changes trims to something and a changed url is a URL |
| ProductRules.NewProduct | back-end/routes/product.js:153-159 | for the modelled body fields, the inserted row has the body's name, description, price and url, the caller as seller, not sold and no buyer |
| ProductRules.Patched | back-end/routes/product.js:209 | for the modelled body fields, present fields replace the stored ones and absent ones keep them |
| ProductRules.UnchangedPatch | back-end/routes/product.js:209 | an update that changes nothing validates and stores the same row |
| ProductRules.PatchIdempotent | back-end/routes/product.js:209 | applying the same body twice stores what applying it once does |
| ProductRules.NewProductKeepsConsistent | back-end/models/product.js:52-66 | a seller's new unsold product with a price that fits keeps every table consistent |
| ProductRules.PatchKeepsConsistent | back-end/models/product.js:16-22 | an update that keeps seller and buyer and fits the price column keeps every table consistent |
| ProductRules.LinesWithout | back-end/routes/product.js:231 | deleting a product removes exactly the order_items pairs that refer to it |
| ProductRules.FavoritesWithout | back-end/routes/product.js:231 | deleting a product removes exactly the favourites that refer to it |
| ProductRules.InSomeCart | back-end/models/cartItem.js:35-40 | some cart item refers to the product; the NO ACTION reference then makes the delete fail |
| ProductRules.DeleteKeepsConsistent | back-end/routes/product.js:231 | deleting a product no cart item refers to, together with its order_items pairs and favourites, keeps every table consistent |
| ProductRules.ImportedProduct | back-end/routes/product.js:56-74 | a bulk-inserted row copies the draft's fields and parsed price, and has no buyer |
| ProductRules.ImportedRows | back-end/routes/product.js:74 | the bulk insert adds one row per draft at consecutive keys, in file order |
| ProductRules.ImportedRowsOk | back-end/models/product.js:16-66 | the imported rows belong to a stored seller, have no buyer, and have prices that fit |
| ProductRules.ImportKeepsConsistent | back-end/routes/product.js:74 | an import of the caller's drafts keeps every table consistent |
| ProductRules.FindProduct | back-end/routes/product.js:176-189 | GET /products/:id: 404 exactly for an unknown key; the seller is shown exactly when the seller row is not soft-deleted |
| ProductRules.NameMatches | back-end/routes/product.js:109-113 | no search or an empty one matches every name; otherwise the lower-cased name contains the lower-cased search text |
| ProductRules.SellerShown | back-end/routes/product.js:120-127 | the inner seller include: the seller row is live (not soft-deleted) and is_active is true |
| ProductRules.Matching | back-end/routes/product.js:104-127 | the listing counts exactly the unsold products whose seller is live and active and whose name contains the search text |
| ProductRules.Ranked | back-end/routes/product.js:115-119 | the matches, each once, newest first |
| ProductRules.CeilDiv | back-end/routes/product.js:132 | totalPages is the least count of pages of `limit` rows that covers every match |
| ProductRules.PageOf | back-end/routes/product.js:117-118 | at most `limit` rows, the ones starting at the offset, and fewer only at the end of the matches |
| ProductRules.Offset | back-end/routes/product.js:102 | offset = (page - 1) * limit |
| ProductRules.Paginate | back-end/routes/product.js:115-135 | the reply's total, page count, current page and rows as LIMIT/OFFSET over the ranking give them |
| ProductRules.ListProducts | back-end/routes/product.js:98-140 | GET /products: page defaults to 1 and limit to 10; a page or limit below 1 is an error; otherwise the page of the ranked matches |
| ProductRules.ListedAreForSale | back-end/routes/product.js:104-127 | every listed product is unsold, has a live active seller, and matches the search |
| ProductRules.ListedNewestFirst | back-end/routes/product.js:119 | every page lists its products newest first |
| ProductRules.PageKeepsOrder | back-end/routes/product.js:117-119 | a page of a newest-first ranking is newest first |
| ProductRules.SliceKeepsOrder | back-end/routes/product.js:117-119 | consecutive positions of a newest-first sequence are newest first |
| ProductRules.EveryMatchIsOnItsPage | back-end/routes/product.js:101-135 | the product ranked at position j is listed on page j / limit + 1, at position j % limit |
| ProductRules.PageHolds | back-end/routes/product.js:101-135 | the page arithmetic puts ranked position j on its page |
| ProductRules.PositionOnPage | back-end/routes/product.js:117-118 | a position of a page within the ranking holds the ranked product at offset + position |
| ProductRules.PageArithmetic | back-end/routes/product.js:101-132 | position j lies on page j / limit + 1, which is at most the page count |
| UserRules.SignupValid | back-end/models/user.js:12-35 | the model validators of a sign-up; `SignupValidIsTrimmed` states them |
| UserRules.SignupValidIsTrimmed | back-end/models/user.js:12-35 | a sign-up validates exactly when name, email and password trim to something and the email is an address |
| UserRules.EmailTaken | back-end/models/user.js:19-27 | the unique index on email: some row, soft-deleted or not, has the email; `SoftDeletedIsGone` and `SignupKeepsUsersOk` use it |
| UserRules.NewUser | back-end/models/user.js:39-51 | the inserted user has the body's name, email and role, the hash of the password, is_active defaulting to true, and is not deleted |
| UserRules.AccountOf | back-end/routes/user.js:58-63 | the sign-up reply carries id, name, email and role, and no password |
| UserRules.SignupKeepsUsersOk | back-end/models/user.js:12-27 | a valid sign-up with a free email keeps names and emails not blank and emails unique |
| UserRules.SignupKeepsConsistent | back-end/routes/user.js:57 | a valid sign-up at the next key keeps every table consistent |
| UserRules.ProfileOf | back-end/routes/user.js:16-19 | GET /user: exactly id, name, email, role and is_active of a live user; nothing for a soft-deleted one |
| UserRules.SoftDelete | back-end/models/user.js:46 | a paranoid destroy sets deleted_at and keeps every other field |
| UserRules.SoftDeletedIsGone | back-end/routes/user.js:35-38 | a soft-deleted customer is no longer found, but their email stays taken |
| UserRules.DeactivatedIsFound | back-end/routes/user.js:39-43 | a deactivated seller is still found, with is_active false |
| UserRules.SameAccountKeepsConsistent | back-end/routes/user.js:35-43 | rewriting a user without changing name, email or role keeps every table consistent |
| FavoriteRules.FavoriteSet | back-end/routes/favorite.js:17-25 | the caller's favourites are exactly the products paired with them |
| FavoriteRules.FavoritesOf | back-end/routes/favorite.js:17-25 | GET /favorites lists exactly the caller's favourite products, each once |
| FavoriteRules.AddShowsInList | back-end/routes/favorite.js:44-50 | adding puts exactly that product in the caller's list, re-adding changes nothing, and other users' lists stay as they were |
| FavoriteRules.RemoveHidesFromList | back-end/routes/favorite.js:67-72 | removing takes exactly that product out of the caller's list, and other users' lists stay as they were |
| OrderQueries.LinkedProducts | back-end/routes/order.js:19-24 | an order carries exactly the products linked to it, each once |
| OrderQueries.ViewOf | back-end/routes/order.js:19-49 | the view of an order is its row and exactly its linked products |
| OrderQueries.OwnedBy | back-end/routes/order.js:17 | exactly the orders whose customer_id is the caller |
| OrderQueries.OrderDates | back-end/routes/order.js:18 | the creation time of every order |
| OrderQueries.MyOrderIds | back-end/routes/order.js:16-18 | exactly the caller's order keys, each once, newest first |
| OrderQueries.Views | back-end/routes/order.js:16-25 | one view per listed order, position by position |
| OrderQueries.MyOrders | back-end/routes/order.js:14-31 | GET /orders shows the caller's order keys in order, each with its view |
| OrderQueries.MyOrdersAreTheCallers | back-end/routes/order.js:16-18 | GET /orders returns only the caller's orders, all of them, newest first |
| OrderQueries.OnlyTheCallers | back-end/routes/order.js:17 | every order shown belongs to the caller |
| OrderQueries.AllTheCallers | back-end/routes/order.js:17 | every order of the caller is shown |
| OrderQueries.OrdersNewestFirst | back-end/routes/order.js:18 | the orders shown are newest first |
| OrderQueries.MyOrder | back-end/routes/order.js:39-56 | GET /orders/:id: 404 exactly when the order is missing or another customer's; otherwise that order with its products |
| OrderQueries.MyOrderIsListed | back-end/routes/order.js:14-56 | the order the single-order route finds is one of the entries GET /orders returns |
| Dashboard.Offered | back-end/routes/dashboard.js:16-18 | exactly the products whose seller is the caller |
| Dashboard.SoldBy | back-end/routes/dashboard.js:20-22 | exactly the caller's sold products, a subset of the offered ones |
| Dashboard.NamesOf | back-end/routes/dashboard.js:28-37 | one name per product, the product's name |
| Dashboard.MostFrequent | back-end/routes/dashboard.js:28-41 | a name occurring most often among the names |
| Dashboard.PriceSum | back-end/routes/dashboard.js:24-26 | SUM(price) over the sold products; `DashboardOf` states total_revenue by it |
| Dashboard.SoldIds | back-end/routes/dashboard.js:20-26 | the caller's sold products, each once |
| Dashboard.DashboardOf | back-end/routes/dashboard.js:12-48 | total_products and total_sold count the caller's products and sold products; total_revenue sums the sold products' prices, 0 when none; best_selling_product is a sold product's name with maximal count, "Nenhum" when none |
| Dashboard.SoldAtMostOffered | back-end/routes/dashboard.js:16-22 | total_sold never exceeds total_products |
| Dashboard.PurchaseAddsToSold | back-end/routes/cart.js:177-181 | a purchase leaves each seller's product count unchanged and adds to their sold products exactly their products it buys |
| Db.Store.GetMyCart | back-end/routes/cart.js:12-18 | the caller's active cart is found, or else created with status active at the next key; nothing else changes |
| Db.Store.AddToCart | back-end/routes/cart.js:61-107 | a refusal changes nothing; otherwise the active cart is found or created, and an item for a product already held is refused; a new item with quantity 1 and the product's price is added at the next key |
| Db.Store.PutItem | back-end/routes/cart.js:88-102 | find-or-create of the (cart, product) item: an existing one is refused and nothing changes, otherwise exactly one new item |
| Db.Store.RemoveFromCart | back-end/routes/cart.js:113-137 | no active cart gives 404 and no change; otherwise exactly the (cart, product) rows go, and the reply is 204 exactly when one was there |
| Db.Store.Checkout | back-end/routes/cart.js:144-203 | following the plan: an empty cart or a total too large changes nothing; a conflict drops exactly the sold items and nothing else; a purchase creates the order, sells and links each product, and empties the cart |
| Db.Store.DropItems | back-end/routes/cart.js:160 | exactly the given items are removed |
| Db.Store.PlaceOrder | back-end/routes/cart.js:170-191 | the order is added at the next key with the total; the products are sold to the caller and linked; the cart is emptied |
| Db.Store.CreateProduct | back-end/routes/product.js:145-168 | a non-seller gets 403, an invalid body 400, a price that does not fit 412, and no change; otherwise the new product is added at the next key |
| Db.Store.UpdateProduct | back-end/routes/product.js:196-215 | 404 for an unknown key, 403 for another seller's product, 412 for a field that fails validation; otherwise that one product is patched |
| Db.Store.DeleteProduct | back-end/routes/product.js:218-237 | 404 for an unknown key, 403 for another seller's product, 412 while a cart item refers to it, each with no change; otherwise the product, its order_items pairs and its favourites go |
| Db.Store.Upload | back-end/routes/product.js:18-93 | 403 for a non-seller before the file check, 400 for no file or no accepted row, 500 when a price cannot be stored; otherwise exactly the accepted rows are inserted and counted |
| Db.Store.InsertDrafts | back-end/routes/product.js:74 | the bulk insert adds one row per draft at consecutive keys |
| Db.Store.CreateUser | back-end/routes/user.js:50-67 | 400 for a bad role, 412 for an invalid body or a taken email, with no change; otherwise the user is added at the next key and the reply omits the password |
| Db.Store.DeleteUser | back-end/routes/user.js:26-47 | 404 for a missing user; a customer is soft-deleted (204); a seller is only deactivated (200); nothing else changes |
| Db.Store.AddFavorite | back-end/routes/favorite.js:35-55 | 404 for an unknown product with no change; otherwise the pair is added to the relation (a second add changes nothing) |
| Db.Store.RemoveFavorite | back-end/routes/favorite.js:58-77 | 404 for an unknown product with no change; otherwise the pair is removed, even when it was not there |

## Left out

- HTTP, routing and authentication are not modelled: Express, passport and JWT, and the
  token route. The caller's id is a parameter, and the authentication layer's lookup is
  the precondition that the user is live.
- The bcrypt hash is a function parameter, and password checking is not modelled.
- The `isEmail` and `isUrl` validators are predicate parameters.
- `parseFloat` is the parameter `parsePrice`. A price it cannot read (NaN) or a
  negative price is whatever that function returns; floating point and `toFixed(2)` do
  not arise, because prices are integer cents.
- File I/O is left out: multer, reading and deleting the temporary file, and the
  "error" event of the stream.
- The csv-parser library's splitting of lines and cells is not modelled. A file is
  given as its header cells and its records. Cells beyond the header are dropped, and
  missing cells leave the key out.
- Lower-casing covers the ASCII letters only. Unicode case mapping is not modelled.
- The search is a substring test of the lower-cased name and search text (ASCII
  letters only, as for headers). `%` and `_` inside the search text are not treated as
  ILIKE wildcards.
- Request bodies carry only the fields each route reads. Extra keys such as `id`,
  `customer_id` or `created_at` in a POST or PUT body are not modelled.
- ProductRules.NewProduct: states the row for the modelled body fields only. The route
  spreads `req.body` before its own fields, so a body's `customer_id` or `created_at`
  would also be stored; the model cannot express such a body.
- ProductRules.Patched: states the update for the modelled body fields only.
  `product.update(req.body)` would also store a body's `seller_id`, `customer_id` or
  `created_at`; the model keeps them, because it cannot express such a body.
- JSON `null` and an absent key are the same. Non-integer or non-numeric query values
  for `page` and `limit` are not modelled.
- `limit=0` and non-positive pages are modelled as an error reply. The database's own
  answer to LIMIT 0 or a negative OFFSET is not modelled.
- Concurrency is not modelled. Every request is one atomic step, so the race between
  the sold check and the writes at checkout does not arise. A failure partway through
  the checkout loop does not arise either.
- When the database rejects the checkout's order total, `Order.create` fails before
  any write; the model answers 500 with no change, as the code does.
- The database's choice among equal rows is not modelled:
  - rows with the same `created_at` (listing and orders) come in an order the model
    fixes but does not state;
  - names with the same count (dashboard) go to the one the fold meets first;
  - cart items and favourites are read in key order.
- Deleting a product deletes its order_items pairs and favourites, the cascade of the
  two `belongsToMany` join tables. The 412 for a product still in a cart is the
  database's foreign-key error; its message text is not modelled.
- Product rows inserted by the CSV import skip the model validators, because
  `bulkCreate` does not run them. The store's constraint on products therefore does not
  require non-empty text.
- The front-end (React pages, contexts and the HTTP client) is not part of this model.
- Configuration, logging, process management and the server boot code are not part of
  this model.
- Dashboard.DashboardOf: which name wins a tie for the best seller is not stated.
