# Data-access layers of two SQLite apps, modelled in Dafny

This project models the data-access code of two small applications that each keep their state in one SQLite file:

- The **food-ordering app** (`database.py`) has these tables:
  - `users`, with `username UNIQUE`;
  - `mon_an`, the dishes;
  - `gio_hang`, the cart lines, where `so_luong` defaults to 1.

  Its operations are registration and login, a paged menu, the cart's "add one or insert" step, the cart listing joined with the dishes, clearing a cart, and seeding the menu when it is empty.
- The **cosmetics inventory manager** (`main.py`) has these tables:
  - `products`, with `sku UNIQUE`;
  - `inventory`, with `product_id UNIQUE`.

  Its operations are the `DataManager` methods (list, add, update, delete, adjust stock), the seeding routine `add_initial_data`, and the start-up rule that seeds only a newly created file.

How tables are represented:

- A table is a sequence of rows in storage order. Inserts append.
- An AUTOINCREMENT key is a field next to the table: the next id to hand out.
- `Tables` (`tables.dfy`) holds what both apps share:
  - `Where`, for `WHERE` filters and `DELETE`;
  - `Keyed`: keys ascend and stay below the counter;
  - `Distinct`: a UNIQUE column;
  - lemmas showing that these survive filtering, appending and in-place updates.

How the operations are represented:

- Read-only queries are functions of the tables: `Login`, `MenuPage`, `CartItems`, `AllProducts`.
- Operations that write are methods of a class whose fields are the tables: `FoodStore.FoodieDb` and `CosmeticsStore.DataManager`.
- Each writing method is proved against a specification function of the old state:
  - `AddedToCart` and `SeededMenu` for the food store;
  - `AddProductOutcome`, `UpdateProductOutcome`, `DeleteProductOutcome`, `UpdateInventoryOutcome`, `InitialDataOutcome` and `StartupOutcome` for the cosmetics store.

  Lemmas then prove what the program promises about those functions.

Invariants:

- Each class's `Valid()` states only what the schema enforces: keys and UNIQUE columns.
- The invariants the application keeps are separate predicates. Every method preserves them:
  - `CartConsistent`: one cart line per (user, dish), and every quantity is at least 1;
  - `Consistent`/`Paired`: every product has a stock row, and every stock row belongs to a product.

Error handling:

- A constraint violation is decided from the state itself: a taken username, a taken SKU, a stock row already present for the new product.
- In main.py's writing operations and seeding, an engine error that the state cannot predict is the parameter `fault`. It is the number, counted from 0 within the call, of the statement that raises, or `None` when nothing raises.
- The outcome functions say what then happens: rollback to the old state and `False`.

Values:

- Strings are `seq<char>` and all numbers are unbounded integers.
- `get_mon_an` follows SQLite's `LIMIT`/`OFFSET` rules: a negative limit means no bound, and a negative offset counts as 0.

## Model

| member | source | states |
|---|---|---|
| Tables.Where | database.py:168 | the rows a `WHERE` keeps: never more rows than the input, and a row is in the result exactly when it is in the input and passes the filter (a `DELETE` keeps the complement) |
| FoodStore.Login | database.py:90-103 | `None` exactly when no row has both the username and the password; otherwise the `(id, ho, ten)` of the first row matching both |
| FoodStore.LoginFindsTheRow | database.py:22 | with usernames unique, any row matching both credentials is the row login returns |
| FoodStore.LoginAfterRegister | database.py:79-97 | after a fresh username is appended, logging in with it returns the new row's `(id, ho, ten)`; logins under any other username are unchanged |
| FoodStore.FoodieDb.RegisterUser | database.py:74-88 | returns True exactly when the username is not taken; then the row is appended under the next id; otherwise nothing changes; usernames stay unique |
| FoodStore.MenuPage | database.py:105-118 | for page ≥ 1 and page size ≥ 0, the result is the run of dishes starting at `(page - 1) * size`, `size` long or cut at the end of the table (empty past the end); page and size default to 1 and 8 as in the source |
| FoodStore.PageIsSlice | database.py:110-111 | with page ≥ 1, a page is the slice of the menu between its offset and offset + size, both clamped to the menu length |
| FoodStore.PagesTileMenu | database.py:110-111 | pages 1..n laid end to end are exactly the first `n * size` dishes: paging skips and repeats nothing |
| FoodStore.DishOnItsPage | database.py:110-111 | dish number p is at position `p % size` of page `p / size + 1` |
| FoodStore.PastTheEndIsEmpty | database.py:110-112 | a page whose offset is at or past the last dish is empty |
| FoodStore.FindLine | database.py:126-127 | `None` exactly when no line has the (user, dish) pair; otherwise the position of the first such line |
| FoodStore.AddToCartCounts | database.py:126-135 | the pair's quantity goes up by exactly 1, every other pair's quantity is unchanged, and a row is added exactly when the pair had no line |
| FoodStore.AddToCartKeepsOneLinePerPair | database.py:120-144 | at most one line per (user, dish), and all quantities ≥ 1, before implies the same after |
| FoodStore.AddToCartTwice | database.py:120-144 | two adds of a pair with no line leave exactly one new line, with `so_luong = 2` |
| FoodStore.AddToCartKeepsKeys | database.py:132-135 | line ids stay ascending and below the counter, which moves only when a line is inserted |
| FoodStore.AddedToCart | database.py:126-135 | no contract of its own: the cart after `add_to_cart`, the SELECT of the first line for the pair, then the UPDATE to its quantity + 1 or the INSERT with `so_luong = 1`; the definition `AddToCartCounts`, `AddToCartKeepsOneLinePerPair`, `AddToCartTwice` and `FoodieDb.AddToCart` are about |
| FoodStore.SetQuantity | database.py:132 | no contract of its own: the `UPDATE gio_hang SET so_luong=? WHERE id=?`, the new quantity on every line with that id; the definition `SetQuantityAt` and `FoodieDb.AddToCart` are about |
| FoodStore.SetQuantityAt | database.py:132 | the UPDATE by the id of line i changes line i and no other |
| FoodStore.FoodieDb.AddToCart | database.py:120-144 | the new cart is `AddedToCart` of the old one: the UPDATE when a line exists, else an INSERT with the column default 1; keys stay valid, one line per pair is preserved, the other tables are untouched |
| FoodStore.Joined | database.py:151-153 | no contract of its own: the selected columns `m.id, m.ten_mon, m.gia, g.so_luong, m.gia * g.so_luong` of one joined pair; the definition `CartItemsSound` and `CartItemsComplete` are about |
| FoodStore.JoinLine | database.py:153 | no contract of its own: `JOIN mon_an m ON g.mon_an_id = m.id` for one cart line, the dishes in storage order; the definition `JoinLineSound`, `JoinLineComplete` and `CartItemsSound` are about |
| FoodStore.CartItems | database.py:146-161 | every row carries `thanh_tien = gia * so_luong` |
| FoodStore.JoinLineSound | database.py:153 | every dish joined with a line has the line's dish id |
| FoodStore.JoinLineComplete | database.py:153 | every dish with the line's dish id is joined with it |
| FoodStore.CartItemsSound | database.py:151-154 | each row comes from a line of that user and an existing dish with that line's dish id, with subtotal price × quantity |
| FoodStore.CartItemsComplete | database.py:151-154 | every line of the user whose dish exists appears in the listing (the inner join drops nothing that matches) |
| FoodStore.ClearCartEffect | database.py:168 | after the DELETE, that user's cart listing is empty and every other user's listing is unchanged |
| FoodStore.FoodieDb.ClearCart | database.py:163-176 | the cart becomes the old cart without that user's lines (order kept); keys and one line per pair preserved; other tables untouched |
| FoodStore.SeedingIdempotent | database.py:46-67 | a non-empty `mon_an` is left alone, an empty one receives the fifteen seed dishes (name, price and picture) under consecutive fresh keys, and seeding twice equals seeding once |
| FoodStore.Numbered | database.py:66 | no contract of its own: the `executemany` INSERT, the seed rows under consecutive AUTOINCREMENT keys from the counter; the definition `SeededMenu`, and through it `SeedingIdempotent` and `SeedingKeepsKeys`, are about |
| FoodStore.SeededMenu | database.py:47-66 | no contract of its own: `mon_an` after the seeding step, the fifteen dishes under consecutive keys when the count is 0, else unchanged; the definition `SeedingIdempotent`, `SeedingKeepsKeys` and `FoodieDb.CreateTables` are about |
| FoodStore.SeedingKeepsKeys | database.py:47-66 | seeding keeps dish keys ascending and below the counter |
| FoodStore.FoodieDb.CreateTables | database.py:46-67 | `mon_an` and its counter become `SeededMenu` of the old ones; users and cart untouched |
| CosmeticsStore.NextIdHasNoStock | main.py:73-78 | in a paired store, no stock row points at the next product id |
| CosmeticsStore.AllProducts | main.py:136-156 | no contract of its own: `get_all_products`, the inner join of `products` and `inventory` on `product_id` (through `Listing`); the definition `ListingExact`, `ListingOfPaired` and `AllProductsOfPaired` are about |
| CosmeticsStore.Listing | main.py:144-148 | no contract of its own: the JOIN, each product in storage order with its matching stock rows; the definition the listing lemmas are about |
| CosmeticsStore.StockRows | main.py:147 | no contract of its own: the inventory side of `JOIN inventory inv ON p.id = inv.product_id` for one product, the matching stock rows in storage order; the definition `StockRowsOfUnique`, `ListingMoreProducts` and `DeleteProductListing` are about |
| CosmeticsStore.StockRowsOfUnique | main.py:75 | with `product_id UNIQUE`, a product joins with nothing or with exactly its one stock row |
| CosmeticsStore.ListingExact | main.py:144-148 | `get_all_products` lists exactly the products that have a stock row, each with that row's quantity |
| CosmeticsStore.ListingOfPaired | main.py:144-148 | when every product has stock, the listing has one row per product, in product order |
| CosmeticsStore.AllProductsOfPaired | main.py:136-156 | in a paired store, `get_all_products` has one row per product, with its quantity, in storage order |
| CosmeticsStore.ListingMoreProducts | main.py:144-148 | a product appended to the table adds exactly its own join rows at the end of the listing |
| CosmeticsStore.ListingMoreStock | main.py:144-148 | a stock row for no listed product changes nothing in the listing |
| CosmeticsStore.AddProductOutcome | main.py:158-189 | no contract of its own: the result and tables after `add_product`, rolled back on a taken SKU, a stock row already holding the new id, or an engine error on either INSERT; the definition `AddProductKeepsPairing`, `AddProductListing` and `DataManager.AddProduct` are about |
| CosmeticsStore.WithProduct | main.py:168-174 | no contract of its own: both INSERTs done, the product under the next id and its stock row pointing at that id (also the two INSERTs of a seed at main.py:113-117); the definition `WithProductKeeps`, `AddProductKeepsPairing` and the seeding lemmas are about |
| CosmeticsStore.WithProductKeeps | main.py:165-176 | the two inserts keep keys, `sku UNIQUE`, `product_id UNIQUE` and the pairing |
| CosmeticsStore.AddProductKeepsPairing | main.py:158-189 | `add_product` keeps the constraints and the pairing; on failure both tables are as before (rollback); in a paired store it succeeds exactly when the SKU is new and neither INSERT raises |
| CosmeticsStore.AddProductListing | main.py:165-176 | after a successful `add_product`, the listing is the old listing plus one row: the new product under an unused id, with `initial_quantity` |
| CosmeticsStore.DataManager.Restore | main.py:181 | `conn.rollback()` (also main.py:127, 185 and 238): the tables and both counters become the snapshot taken at `BEGIN` |
| CosmeticsStore.DataManager.AddProduct | main.py:158-189 | the return value and the new tables are `AddProductOutcome` of the old tables: product INSERT, then stock INSERT with the new id, rolled back together on any failure |
| CosmeticsStore.SetDetails | main.py:197-201 | no contract of its own: the UPDATE of name, brand, category, price and SKU of the rows with that id; the definition the update lemmas are about |
| CosmeticsStore.UpdateProductOutcome | main.py:191-214 | no contract of its own: the result and tables after `update_product`, unchanged and False on a SKU clash or an engine error, else `SetDetails`; the definition `UpdateProductKeepsPairing`, `UpdateProductListing`, `UpdateMissingProduct` and `DataManager.UpdateProduct` are about |
| CosmeticsStore.SkuClash | main.py:197-207 | no contract of its own: the UPDATE would give the row with that id a SKU another product holds, the case that raises `IntegrityError`; the definition `UpdateProductOutcome` and `UpdateProductKeepsPairing` are about |
| CosmeticsStore.UpdateProductKeepsPairing | main.py:191-214 | `update_product` fails exactly on a SKU clash with another product or an engine error, and then changes nothing; it keeps the constraints and the pairing and never touches `inventory` |
| CosmeticsStore.UpdateProductListing | main.py:197-201 | on success only the listed row with that id changes, and only its name, brand, category, price and SKU; quantities do not change |
| CosmeticsStore.UpdateMissingProduct | main.py:197-203 | an id with no row changes nothing, and still returns True unless the engine raises |
| CosmeticsStore.DataManager.UpdateProduct | main.py:191-214 | the return value and the new tables are `UpdateProductOutcome` of the old tables |
| CosmeticsStore.DeleteProductOutcome | main.py:216-242 | no contract of its own: the result and tables after `delete_product`, both DELETEs or, on an error in either, neither; the definition `DeleteProductKeepsPairing`, `DeleteProductListing` and `DataManager.DeleteProduct` are about |
| CosmeticsStore.DeleteProductKeepsPairing | main.py:216-242 | `delete_product` keeps the constraints and the pairing; on success neither table has a row for the id and every other row is kept; on failure both tables are as before |
| CosmeticsStore.DeletedStaysPaired | main.py:229-231 | removing a product's stock rows and its product rows together keeps the store paired |
| CosmeticsStore.DeleteProductListing | main.py:229-231 | after both DELETEs, the listing is the old listing without the rows of that id |
| CosmeticsStore.DataManager.DeleteProduct | main.py:216-242 | the return value and the new tables are `DeleteProductOutcome` of the old tables; a failure of the second DELETE undoes the first |
| CosmeticsStore.AdjustStock | main.py:250-251 | no contract of its own: the UPDATE adding the signed change to the quantity of that product's stock rows; the definition the inventory lemmas are about |
| CosmeticsStore.UpdateInventoryOutcome | main.py:244-261 | no contract of its own: the result and tables after `update_inventory`, unchanged and False on an engine error, else `AdjustStock`; the definition `UpdateInventoryRoundTrip`, `UpdateInventoryListing` and `DataManager.UpdateInventory` are about |
| CosmeticsStore.UpdateInventoryRoundTrip | main.py:250-254 | a change by d, then by -d, restores the store; an id with no stock row changes nothing; `products` is never touched |
| CosmeticsStore.QuantityAfterAdjust | main.py:250-251 | the UPDATE adds d to that product's quantity when it has a stock row, and changes no other product's quantity |
| CosmeticsStore.AdjustStockKeeps | main.py:250-251 | adjusting quantities keeps every key, `product_id UNIQUE` and the pairing |
| CosmeticsStore.UpdateInventoryListing | main.py:244-261 | `update_inventory` keeps the constraints and the pairing; in a paired store a success changes exactly that product's listed quantity, by d, with no floor |
| CosmeticsStore.DataManager.UpdateInventory | main.py:244-261 | the return value and the new tables are `UpdateInventoryOutcome` of the old tables |
| CosmeticsStore.SeedFrom | main.py:109-120 | no contract of its own: the seeding loop from statement number k, per seed the SELECT by SKU and, when absent, the two INSERTs with stock 100; `None` when a statement raises; the definition the seeding lemmas and `DataManager.SeedOne` are about |
| CosmeticsStore.InitialDataOutcome | main.py:89-131 | no contract of its own: the tables after `add_initial_data`, the loop's result committed, or the old tables when a statement raised; the definition `SeedingIdempotent` and `DataManager.AddInitialData` are about |
| CosmeticsStore.StartupOutcome | main.py:596-601 | no contract of its own: the tables after start-up, seeded only when the file did not exist; the definition `StartupSeedsFreshFile` and `DataManager.Startup` are about |
| CosmeticsStore.SeedingFailsOnlyOnFault | main.py:109-127 | in a paired store, the loop never fails without an engine error; with an error at statement n, the call fails exactly when n is one of the statements it runs, and otherwise ends as if nothing had raised |
| CosmeticsStore.SeedingKeepsPairing | main.py:109-120 | every committed pass keeps the constraints and the pairing |
| CosmeticsStore.SeedingSkipsExisting | main.py:109-120 | a committed pass keeps every existing row, leaves every seed SKU present, adds only seeds whose SKU was absent, and gives each added stock row quantity 100 |
| CosmeticsStore.SeedingAllPresent | main.py:109-118 | when every seed SKU is present, the loop adds nothing |
| CosmeticsStore.SeedingIdempotent | main.py:89-131 | for every store, a second `add_initial_data` adds nothing to the result of the first |
| CosmeticsStore.FreshlySeededStep | main.py:113-117 | inserting the first seed, then the rest as a fresh batch, equals inserting them all as one batch |
| CosmeticsStore.SeedingFreshSkus | main.py:109-120 | seeds whose SKUs are distinct and absent are all inserted, in order, under consecutive keys, each with a stock row of 100 |
| CosmeticsStore.InitialSkusDistinct | main.py:95-106 | the ten seed products carry ten different SKUs |
| CosmeticsStore.StartupSeedsFreshFile | main.py:596-601 | an existing file is not seeded; a new file, when no statement raises, ends up with the ten products under ids 1 to 10, each with a stock row of 100 |
| CosmeticsStore.DataManager.AddInitialData | main.py:89-131 | the new tables are `InitialDataOutcome` of the old ones: the loop's tables when no statement raised, the old tables otherwise; constraints and pairing preserved |
| CosmeticsStore.DataManager.SeedProducts | main.py:109-127 | the seeding transaction over any seed list, stepping through the list with `SeedOne` and restoring the snapshot when a statement raised |
| CosmeticsStore.DataManager.SeedOne | main.py:110-118 | one pass of the loop: the SELECT by SKU and, if the SKU is absent, the two INSERTs; it matches one step of `SeedFrom` |
| CosmeticsStore.DataManager.Startup | main.py:596-601 | the new tables are `StartupOutcome`: seeded only when the file did not exist before |

## Left out

- The PyQt6 GUI (`ProductDialog`, `MainWindow`, the `.ui` loading) and all `print` logging: they hold no data logic.
- Opening and closing connections: every operation is modelled from an open connection. For the `DataManager` writers, a failed `create_connection` ends like a `fault` on the call's first statement: `False` and nothing changed. For `add_initial_data`, which returns nothing, it leaves the tables unchanged. For the read-only queries and for database.py, no connection failure is modelled.
- AllProducts: the empty list that `get_all_products` returns on a `sqlite3.Error` (main.py:151-153) is not modelled; the query always returns the join.
- FoodStore.FoodieDb.AddToCart, FoodStore.FoodieDb.ClearCart: they always return True. The `False` that `add_to_cart` and `clear_cart` return on a failed connection or an engine error (database.py:139-144, database.py:171-176) is not modelled.
- Login, MenuPage, CartItems: the `None`/`[]` that `login_user`, `get_mon_an` and `get_cart_items` return on a failed connection or an engine error is not modelled.
- `BEGIN` and `COMMIT` raising are not modelled. `fault` numbers only the data statements: the INSERTs, UPDATEs, DELETEs and SELECTs.
- Engine errors in database.py other than the `username UNIQUE` violation: the food-store methods always succeed except for that violation, and its queries always return their result.
- `os.path.exists` at start-up: it is the boolean input `dbExisted` of `Startup`.
- CREATE TABLE itself: the constructors start from tables that already exist and are empty.
- db_helper.py is not part of this model: it queries a remote SQL Server over ODBC.
- db.py is not part of this model: it holds a single `CREATE TABLE`.
- The `customers`, `sales` and `sale_items` tables of main.py: schema only, with no operations on them.
- `REAL` prices in main.py are modelled as integers: no property depends on floating point. Neither database.py's `gia` nor the subtotal `gia * so_luong` is bounded by SQLite's 64-bit integer range.
- NULL values: SKUs, names and quantities are always present strings and integers, so `sku UNIQUE` is enforced over every row (SQLite lets several NULL SKUs coexist).
- Foreign-key enforcement (off by default in SQLite), isolation and concurrent access to the file.
- Join row order: both joins are modelled as "outer table in storage order, the matching inner rows in storage order". SQLite's planner may pick another order; the membership lemmas (`ListingExact`, `CartItemsSound`, `CartItemsComplete`) do not depend on it.
- The seeding step of database.py runs all fifteen inserts as one `executemany`. An engine error part-way through is not modelled.
