/**
 * The data-access layer of the cosmetics inventory manager (main.py): the
 * tables `products` and `inventory` of the SQLite file, with the schema's
 * AUTOINCREMENT keys, `sku UNIQUE` and `inventory.product_id UNIQUE`.
 *
 * Each `DataManager` operation is specified by a function from the store
 * before the call to an `Outcome`: the boolean the operation returns and the
 * store after commit or rollback. An engine error the model cannot predict
 * (a locked file, an I/O failure) is the parameter `fault`: the position,
 * counted from 0, of the statement of this call that raises, or `None`.
 */
module CosmeticsStore {
  import opened Options
  import opened Tables

  /** The columns of `products` that `add_product` and `update_product` set. */
  datatype Details = Details(name: string, brand: string, category: string, price: int, sku: string)

  /** A row of `products`. */
  datatype Product = Product(id: nat, details: Details)

  /** A row of `inventory`: the stock of product `productId`. */
  datatype Stock = Stock(id: nat, productId: nat, quantity: int)

  /** A row of `get_all_products`: `(p.id, p.name, p.brand, p.category, p.price, p.sku, inv.quantity)`. */
  datatype ProductRow = ProductRow(id: nat, details: Details, quantity: int)

  /** The two tables with their AUTOINCREMENT counters. */
  datatype Store = Store(products: seq<Product>, inventory: seq<Stock>, nextProductId: nat, nextStockId: nat)

  /** What an operation returns, and the store it leaves behind. */
  datatype Outcome = Outcome(ok: bool, store: Store)

  function ProductKey(p: Product): nat { p.id }
  function StockKey(r: Stock): nat { r.id }
  function SkuOf(p: Product): string { p.details.sku }
  function StockProduct(r: Stock): nat { r.productId }

  /** What the schema guarantees of any store: keys, `sku UNIQUE`, `product_id UNIQUE`. */
  ghost predicate WellFormed(s: Store) {
    Keyed(s.products, ProductKey, s.nextProductId) && Keyed(s.inventory, StockKey, s.nextStockId) &&
    Distinct(s.products, SkuOf) && Distinct(s.inventory, StockProduct)
  }

  predicate SkuTaken(products: seq<Product>, sku: string) {
    Occurs(products, SkuOf, sku)
  }

  predicate HasProduct(products: seq<Product>, id: int) {
    exists i :: 0 <= i < |products| && products[i].id == id
  }

  predicate HasStock(inventory: seq<Stock>, productId: int) {
    exists j :: 0 <= j < |inventory| && inventory[j].productId == productId
  }

  /**
   * The application's invariant: every product has a stock row and every
   * stock row belongs to a product (with `product_id UNIQUE`, exactly one).
   */
  ghost predicate Paired(s: Store) {
    (forall i :: 0 <= i < |s.products| ==> HasStock(s.inventory, s.products[i].id)) &&
    (forall j :: 0 <= j < |s.inventory| ==> HasProduct(s.products, s.inventory[j].productId))
  }

  /** The empty tables of a newly created file. */
  const EmptyStore := Store([], [], 1, 1)

  /** The next product key never has a stock row while the store is paired. */
  lemma NextIdHasNoStock(s: Store)
    requires WellFormed(s) && Paired(s)
    ensures !HasStock(s.inventory, s.nextProductId)
  {
    forall j | 0 <= j < |s.inventory| ensures s.inventory[j].productId != s.nextProductId {
      assert HasProduct(s.products, s.inventory[j].productId);
      var i :| 0 <= i < |s.products| && s.products[i].id == s.inventory[j].productId;
      assert ProductKey(s.products[i]) < s.nextProductId;
    }
  }

  // ---------------------------------------------------------------------------
  // get_all_products: products p JOIN inventory inv ON p.id = inv.product_id

  /** Quantity held by the first stock row of the product, 0 when there is none. */
  function QuantityOf(inventory: seq<Stock>, productId: int): int {
    if |inventory| == 0 then 0
    else if inventory[0].productId == productId then inventory[0].quantity
    else QuantityOf(inventory[1..], productId)
  }

  /** A product as listed with its stock. */
  function RowOf(p: Product, inventory: seq<Stock>): ProductRow {
    ProductRow(p.id, p.details, QuantityOf(inventory, p.id))
  }

  /** The stock rows matching one product, joined with it. */
  function StockRows(inventory: seq<Stock>, p: Product): seq<ProductRow> {
    if |inventory| == 0 then []
    else (if inventory[0].productId == p.id then [ProductRow(p.id, p.details, inventory[0].quantity)] else [])
         + StockRows(inventory[1..], p)
  }

  /** The inner join, products in storage order, each with its matching stock rows. */
  function Listing(products: seq<Product>, inventory: seq<Stock>): seq<ProductRow> {
    if |products| == 0 then [] else StockRows(inventory, products[0]) + Listing(products[1..], inventory)
  }

  /** `get_all_products`. */
  function AllProducts(s: Store): seq<ProductRow> {
    Listing(s.products, s.inventory)
  }

  /** With `product_id UNIQUE`, a product joins with either nothing or its one stock row. */
  lemma {:induction false} StockRowsOfUnique(inventory: seq<Stock>, p: Product)
    requires Distinct(inventory, StockProduct)
    ensures StockRows(inventory, p) == if HasStock(inventory, p.id) then [RowOf(p, inventory)] else []
  {
    if |inventory| > 0 {
      var tail := inventory[1..];
      DistinctTail(inventory, StockProduct);
      StockRowsOfUnique(tail, p);
      assert forall j :: 0 <= j < |tail| ==> tail[j] == inventory[j + 1];
      if inventory[0].productId == p.id {
        forall j | 0 <= j < |tail| ensures tail[j].productId != p.id {
          assert StockProduct(inventory[0]) != StockProduct(inventory[j + 1]);
        }
      } else {
        assert HasStock(inventory, p.id) ==> HasStock(tail, p.id);
      }
    }
  }

  /**
   * `get_all_products` lists exactly the products that have a stock row,
   * each with its quantity.
   */
  lemma {:induction false} ListingExact(products: seq<Product>, inventory: seq<Stock>)
    requires Distinct(inventory, StockProduct)
    ensures forall x :: x in Listing(products, inventory) <==>
              exists k :: 0 <= k < |products| && HasStock(inventory, products[k].id) && x == RowOf(products[k], inventory)
  {
    if |products| > 0 {
      ListingExact(products[1..], inventory);
      StockRowsOfUnique(inventory, products[0]);
      assert forall k :: 0 <= k < |products[1..]| ==> products[1..][k] == products[k + 1];
      forall x | exists k :: 0 <= k < |products| && HasStock(inventory, products[k].id) && x == RowOf(products[k], inventory)
        ensures x in Listing(products, inventory)
      {
        var k :| 0 <= k < |products| && HasStock(inventory, products[k].id) && x == RowOf(products[k], inventory);
        if k > 0 {
          assert products[1..][k - 1] == products[k];
        }
      }
    }
  }

  /** For a paired store the listing has one row per product, in product order. */
  lemma {:induction false} ListingOfPaired(products: seq<Product>, inventory: seq<Stock>)
    requires Distinct(inventory, StockProduct)
    requires forall i :: 0 <= i < |products| ==> HasStock(inventory, products[i].id)
    ensures |Listing(products, inventory)| == |products|
    ensures forall k :: 0 <= k < |products| ==> Listing(products, inventory)[k] == RowOf(products[k], inventory)
  {
    if |products| > 0 {
      assert forall i :: 0 <= i < |products[1..]| ==> products[1..][i] == products[i + 1];
      ListingOfPaired(products[1..], inventory);
      StockRowsOfUnique(inventory, products[0]);
    }
  }

  lemma AllProductsOfPaired(s: Store)
    requires WellFormed(s) && Paired(s)
    ensures |AllProducts(s)| == |s.products|
    ensures forall k :: 0 <= k < |s.products| ==> AllProducts(s)[k] == RowOf(s.products[k], s.inventory)
  {
    ListingOfPaired(s.products, s.inventory);
  }

  lemma {:induction false} StockRowsAppend(inventory: seq<Stock>, x: Stock, p: Product)
    ensures StockRows(inventory + [x], p) ==
      StockRows(inventory, p) + (if x.productId == p.id then [ProductRow(p.id, p.details, x.quantity)] else [])
  {
    if |inventory| == 0 {
      assert inventory + [x] == [x];
    } else {
      assert (inventory + [x])[1..] == inventory[1..] + [x];
      StockRowsAppend(inventory[1..], x, p);
    }
  }

  lemma {:induction false} ListingMoreProducts(products: seq<Product>, p: Product, inventory: seq<Stock>)
    ensures Listing(products + [p], inventory) == Listing(products, inventory) + StockRows(inventory, p)
  {
    if |products| == 0 {
      assert products + [p] == [p];
    } else {
      assert (products + [p])[0] == products[0];
      assert (products + [p])[1..] == products[1..] + [p];
      ListingMoreProducts(products[1..], p, inventory);
    }
  }

  lemma {:induction false} ListingMoreStock(products: seq<Product>, inventory: seq<Stock>, x: Stock)
    requires forall i :: 0 <= i < |products| ==> products[i].id != x.productId
    ensures Listing(products, inventory + [x]) == Listing(products, inventory)
  {
    if |products| > 0 {
      assert forall i :: 0 <= i < |products[1..]| ==> products[1..][i] == products[i + 1];
      ListingMoreStock(products[1..], inventory, x);
      StockRowsAppend(inventory, x, products[0]);
    }
  }

  lemma {:induction false} StockRowsNone(inventory: seq<Stock>, p: Product)
    requires !HasStock(inventory, p.id)
    ensures StockRows(inventory, p) == []
  {
    if |inventory| > 0 {
      assert forall j :: 0 <= j < |inventory[1..]| ==> inventory[1..][j] == inventory[j + 1];
      StockRowsNone(inventory[1..], p);
    }
  }

  // ---------------------------------------------------------------------------
  // add_product: INSERT INTO products, INSERT INTO inventory, in one transaction

  /** Both inserts done: the product with the next key and its stock row pointing at that key. */
  function WithProduct(s: Store, d: Details, quantity: int): Store {
    Store(s.products + [Product(s.nextProductId, d)],
          s.inventory + [Stock(s.nextStockId, s.nextProductId, quantity)],
          s.nextProductId + 1, s.nextStockId + 1)
  }

  /**
   * `add_product`: the first INSERT fails on a taken SKU, the second on a
   * stock row already holding the new key; either failure (or an engine
   * error on either statement) rolls the whole transaction back.
   */
  function AddProductOutcome(s: Store, d: Details, quantity: int, fault: Option<nat>): Outcome {
    if fault == Some(0) || SkuTaken(s.products, d.sku) then Outcome(false, s)
    else if fault == Some(1) || HasStock(s.inventory, s.nextProductId) then Outcome(false, s)
    else Outcome(true, WithProduct(s, d, quantity))
  }

  /** Both inserts together keep the schema's constraints and the pairing. */
  lemma WithProductKeeps(s: Store, d: Details, quantity: int)
    requires WellFormed(s) && !SkuTaken(s.products, d.sku) && !HasStock(s.inventory, s.nextProductId)
    ensures WellFormed(WithProduct(s, d, quantity))
    ensures Paired(s) ==> Paired(WithProduct(s, d, quantity))
  {
    var p := Product(s.nextProductId, d);
    var x := Stock(s.nextStockId, s.nextProductId, quantity);
    KeyedAppend(s.products, p, ProductKey, s.nextProductId);
    KeyedAppend(s.inventory, x, StockKey, s.nextStockId);
    DistinctAppend(s.products, p, SkuOf);
    assert !Occurs(s.inventory, StockProduct, StockProduct(x));
    DistinctAppend(s.inventory, x, StockProduct);
    if Paired(s) { WithProductPaired(s, d, quantity); }
  }

  lemma WithProductPaired(s: Store, d: Details, quantity: int)
    requires Paired(s)
    ensures Paired(WithProduct(s, d, quantity))
  {
    var t := WithProduct(s, d, quantity);
    forall i | 0 <= i < |t.products| ensures HasStock(t.inventory, t.products[i].id) {
      if i < |s.products| {
        assert HasStock(s.inventory, s.products[i].id);
        var j :| 0 <= j < |s.inventory| && s.inventory[j].productId == s.products[i].id;
        assert t.inventory[j] == s.inventory[j];
      } else {
        assert t.inventory[|s.inventory|].productId == t.products[i].id;
      }
    }
    forall j | 0 <= j < |t.inventory| ensures HasProduct(t.products, t.inventory[j].productId) {
      if j < |s.inventory| {
        assert HasProduct(s.products, s.inventory[j].productId);
        var i :| 0 <= i < |s.products| && s.products[i].id == s.inventory[j].productId;
        assert t.products[i] == s.products[i];
      } else {
        assert t.products[|s.products|].id == t.inventory[j].productId;
      }
    }
  }

  /**
   * `add_product` keeps the constraints and the pairing; on a paired store it
   * succeeds exactly when the SKU is new and no engine error occurs, and on
   * failure both tables are as they were.
   */
  lemma AddProductKeepsPairing(s: Store, d: Details, quantity: int, fault: Option<nat>)
    requires WellFormed(s)
    ensures WellFormed(AddProductOutcome(s, d, quantity, fault).store)
    ensures !AddProductOutcome(s, d, quantity, fault).ok ==> AddProductOutcome(s, d, quantity, fault).store == s
    ensures Paired(s) ==> Paired(AddProductOutcome(s, d, quantity, fault).store)
    ensures Paired(s) ==>
      (AddProductOutcome(s, d, quantity, fault).ok <==> !SkuTaken(s.products, d.sku) && fault != Some(0) && fault != Some(1))
  {
    if Paired(s) { NextIdHasNoStock(s); }
    if AddProductOutcome(s, d, quantity, fault).ok { WithProductKeeps(s, d, quantity); }
  }

  /**
   * A successful `add_product` adds exactly one row to `get_all_products`: the
   * new product under a fresh key with its initial quantity.
   */
  lemma AddProductListing(s: Store, d: Details, quantity: int, fault: Option<nat>)
    requires WellFormed(s) && AddProductOutcome(s, d, quantity, fault).ok
    ensures AllProducts(AddProductOutcome(s, d, quantity, fault).store) ==
            AllProducts(s) + [ProductRow(s.nextProductId, d, quantity)]
    ensures !HasProduct(s.products, s.nextProductId)
  {
    var p := Product(s.nextProductId, d);
    var x := Stock(s.nextStockId, s.nextProductId, quantity);
    assert forall i :: 0 <= i < |s.products| ==> ProductKey(s.products[i]) < s.nextProductId;
    ListingMoreProducts(s.products, p, s.inventory + [x]);
    ListingMoreStock(s.products, s.inventory, x);
    StockRowsAppend(s.inventory, x, p);
    StockRowsNone(s.inventory, p);
  }

  // ---------------------------------------------------------------------------
  // update_product: UPDATE products SET name, brand, category, price, sku WHERE id = ?

  /** The UPDATE would give row `id` a SKU another row holds (`sku UNIQUE` fails). */
  predicate SkuClash(products: seq<Product>, id: int, sku: string) {
    HasProduct(products, id) && exists j :: 0 <= j < |products| && products[j].id != id && products[j].details.sku == sku
  }

  function SetDetails(products: seq<Product>, id: int, d: Details): seq<Product> {
    seq(|products|, k requires 0 <= k < |products| => if products[k].id == id then Product(products[k].id, d) else products[k])
  }

  /**
   * `update_product`: a single UPDATE; a SKU clash (or an engine error)
   * leaves the table unchanged and returns false. An id with no row updates
   * nothing and still returns true.
   */
  function UpdateProductOutcome(s: Store, id: int, d: Details, fault: Option<nat>): Outcome {
    if fault == Some(0) || SkuClash(s.products, id, d.sku) then Outcome(false, s)
    else Outcome(true, s.(products := SetDetails(s.products, id, d)))
  }

  /**
   * `update_product` keeps the constraints and the pairing, never touches
   * `inventory`, and on failure leaves the store as it was.
   */
  lemma UpdateProductKeepsPairing(s: Store, id: int, d: Details, fault: Option<nat>)
    requires WellFormed(s)
    ensures WellFormed(UpdateProductOutcome(s, id, d, fault).store)
    ensures Paired(s) ==> Paired(UpdateProductOutcome(s, id, d, fault).store)
    ensures UpdateProductOutcome(s, id, d, fault).store.inventory == s.inventory
    ensures !UpdateProductOutcome(s, id, d, fault).ok ==> UpdateProductOutcome(s, id, d, fault).store == s
    ensures UpdateProductOutcome(s, id, d, fault).ok <==> fault != Some(0) && !SkuClash(s.products, id, d.sku)
  {
    var r := UpdateProductOutcome(s, id, d, fault);
    if r.ok {
      var ps := r.store.products;
      SameKeys(s.products, ps, ProductKey, s.nextProductId);
      SameColumn(s.products, ps, ProductKey);
      forall i, j | 0 <= i < j < |ps| ensures SkuOf(ps[i]) != SkuOf(ps[j]) {
        assert ProductKey(s.products[i]) < ProductKey(s.products[j]);
        assert HasProduct(s.products, s.products[i].id);
        assert HasProduct(s.products, s.products[j].id);
      }
      forall i | 0 <= i < |ps| ensures HasStock(s.inventory, ps[i].id) <==> HasStock(s.inventory, s.products[i].id) {
      }
      forall j | 0 <= j < |s.inventory| ensures HasProduct(ps, s.inventory[j].productId) <==> HasProduct(s.products, s.inventory[j].productId) {
        assert Occurs(s.products, ProductKey, s.inventory[j].productId) <==> Occurs(ps, ProductKey, s.inventory[j].productId);
      }
    }
  }

  /**
   * On a paired store, a successful `update_product` changes exactly the
   * details of the listed row with that id; quantities and every other row stay.
   */
  lemma UpdateProductListing(s: Store, id: int, d: Details, fault: Option<nat>)
    requires WellFormed(s) && Paired(s) && UpdateProductOutcome(s, id, d, fault).ok
    ensures |AllProducts(UpdateProductOutcome(s, id, d, fault).store)| == |AllProducts(s)|
    ensures forall k :: 0 <= k < |AllProducts(s)| ==>
      AllProducts(UpdateProductOutcome(s, id, d, fault).store)[k] ==
        if AllProducts(s)[k].id == id then AllProducts(s)[k].(details := d) else AllProducts(s)[k]
  {
    UpdateProductKeepsPairing(s, id, d, fault);
    AllProductsOfPaired(s);
    AllProductsOfPaired(UpdateProductOutcome(s, id, d, fault).store);
  }

  /** `update_product` on an id with no row changes nothing, yet reports success unless the engine fails. */
  lemma UpdateMissingProduct(s: Store, id: int, d: Details, fault: Option<nat>)
    requires !HasProduct(s.products, id)
    ensures UpdateProductOutcome(s, id, d, fault) == Outcome(fault != Some(0), s)
  {
    assert SetDetails(s.products, id, d) == s.products;
  }

  // ---------------------------------------------------------------------------
  // delete_product: DELETE FROM inventory, DELETE FROM products, in one transaction

  function NotProduct(id: int): Product -> bool { (p: Product) => p.id != id }
  function NotStockOf(id: int): Stock -> bool { (r: Stock) => r.productId != id }
  function NotRow(id: int): ProductRow -> bool { (x: ProductRow) => x.id != id }

  /**
   * `delete_product`: remove the stock rows, then the product rows, of that
   * id; an error on either statement rolls both back.
   */
  function DeleteProductOutcome(s: Store, id: int, fault: Option<nat>): Outcome {
    if fault == Some(0) || fault == Some(1) then Outcome(false, s)
    else Outcome(true, s.(inventory := Where(s.inventory, NotStockOf(id)), products := Where(s.products, NotProduct(id))))
  }

  /**
   * `delete_product` keeps the constraints and the pairing: afterwards neither
   * table has a row for that id and every other row is still there; on
   * failure nothing changed.
   */
  lemma DeleteProductKeepsPairing(s: Store, id: int, fault: Option<nat>)
    requires WellFormed(s)
    ensures WellFormed(DeleteProductOutcome(s, id, fault).store)
    ensures Paired(s) ==> Paired(DeleteProductOutcome(s, id, fault).store)
    ensures !DeleteProductOutcome(s, id, fault).ok ==> DeleteProductOutcome(s, id, fault).store == s
    ensures DeleteProductOutcome(s, id, fault).ok ==>
      !HasProduct(DeleteProductOutcome(s, id, fault).store.products, id) &&
      !HasStock(DeleteProductOutcome(s, id, fault).store.inventory, id) &&
      (forall p :: p in s.products && p.id != id ==> p in DeleteProductOutcome(s, id, fault).store.products) &&
      (forall x :: x in s.inventory && x.productId != id ==> x in DeleteProductOutcome(s, id, fault).store.inventory)
  {
    var r := DeleteProductOutcome(s, id, fault);
    if r.ok {
      var ps, inv := r.store.products, r.store.inventory;
      WhereKeyed(s.products, NotProduct(id), ProductKey, s.nextProductId);
      WhereDistinct(s.products, NotProduct(id), SkuOf);
      WhereKeyed(s.inventory, NotStockOf(id), StockKey, s.nextStockId);
      WhereDistinct(s.inventory, NotStockOf(id), StockProduct);
      forall i | 0 <= i < |ps| ensures ps[i].id != id { assert ps[i] in ps; }
      forall j | 0 <= j < |inv| ensures inv[j].productId != id { assert inv[j] in inv; }
      if Paired(s) { DeletedStaysPaired(s, id); }
    }
  }

  lemma DeletedStaysPaired(s: Store, id: int)
    requires Paired(s)
    ensures Paired(s.(inventory := Where(s.inventory, NotStockOf(id)), products := Where(s.products, NotProduct(id))))
  {
    var ps, inv := Where(s.products, NotProduct(id)), Where(s.inventory, NotStockOf(id));
    forall i | 0 <= i < |ps| ensures HasStock(inv, ps[i].id) {
      assert ps[i] in ps;
      var i0 :| 0 <= i0 < |s.products| && s.products[i0] == ps[i];
      assert HasStock(s.inventory, ps[i].id);
      var j :| 0 <= j < |s.inventory| && s.inventory[j].productId == ps[i].id;
      assert s.inventory[j] in inv;
      var j1 :| 0 <= j1 < |inv| && inv[j1] == s.inventory[j];
    }
    forall j | 0 <= j < |inv| ensures HasProduct(ps, inv[j].productId) {
      assert inv[j] in inv;
      var j0 :| 0 <= j0 < |s.inventory| && s.inventory[j0] == inv[j];
      assert HasProduct(s.products, inv[j].productId);
      var i :| 0 <= i < |s.products| && s.products[i].id == inv[j].productId;
      assert s.products[i] in ps;
      var i1 :| 0 <= i1 < |ps| && ps[i1] == s.products[i];
    }
  }

  lemma {:induction false} StockRowsIds(inventory: seq<Stock>, p: Product)
    ensures forall x :: x in StockRows(inventory, p) ==> x.id == p.id
  {
    if |inventory| > 0 { StockRowsIds(inventory[1..], p); }
  }

  lemma {:induction false} StockRowsWithout(inventory: seq<Stock>, p: Product, id: int)
    requires p.id != id
    ensures StockRows(Where(inventory, NotStockOf(id)), p) == StockRows(inventory, p)
  {
    if |inventory| > 0 {
      StockRowsWithout(inventory[1..], p, id);
      var rest := Where(inventory[1..], NotStockOf(id));
      if inventory[0].productId != id {
        var kept := [inventory[0]] + rest;
        assert NotStockOf(id)(inventory[0]);
        assert Where(inventory, NotStockOf(id)) == kept;
        assert kept[0] == inventory[0] && kept[1..] == rest;
      } else {
        assert !NotStockOf(id)(inventory[0]);
        assert Where(inventory, NotStockOf(id)) == rest;
      }
    }
  }

  /** A successful `delete_product` removes exactly the listed rows with that id from `get_all_products`. */
  lemma {:induction false} DeleteProductListing(products: seq<Product>, inventory: seq<Stock>, id: int)
    ensures Listing(Where(products, NotProduct(id)), Where(inventory, NotStockOf(id))) ==
            Where(Listing(products, inventory), NotRow(id))
  {
    if |products| > 0 {
      DeleteProductListing(products[1..], inventory, id);
      var head := StockRows(inventory, products[0]);
      WhereConcat(head, Listing(products[1..], inventory), NotRow(id));
      StockRowsIds(inventory, products[0]);
      var rest := Where(products[1..], NotProduct(id));
      if products[0].id == id {
        WhereNone(head, NotRow(id));
        assert Where(products, NotProduct(id)) == rest;
      } else {
        WhereAll(head, NotRow(id));
        StockRowsWithout(inventory, products[0], id);
        var kept := [products[0]] + rest;
        assert Where(products, NotProduct(id)) == kept;
        assert kept[0] == products[0] && kept[1..] == rest;
      }
    }
  }

  // ---------------------------------------------------------------------------
  // update_inventory: UPDATE inventory SET quantity = quantity + ? WHERE product_id = ?

  function AdjustStock(inventory: seq<Stock>, productId: int, delta: int): seq<Stock> {
    seq(|inventory|, k requires 0 <= k < |inventory| =>
      if inventory[k].productId == productId then inventory[k].(quantity := inventory[k].quantity + delta) else inventory[k])
  }

  /** `update_inventory`: a signed change of the product's stock, with no floor. */
  function UpdateInventoryOutcome(s: Store, productId: int, delta: int, fault: Option<nat>): Outcome {
    if fault == Some(0) then Outcome(false, s)
    else Outcome(true, s.(inventory := AdjustStock(s.inventory, productId, delta)))
  }

  /**
   * `update_inventory` by `delta` and then by `-delta` restores the store; an
   * id without a stock row changes nothing; products are never touched.
   */
  lemma UpdateInventoryRoundTrip(s: Store, productId: int, delta: int)
    ensures UpdateInventoryOutcome(UpdateInventoryOutcome(s, productId, delta, None).store, productId, -delta, None).store == s
    ensures !HasStock(s.inventory, productId) ==> UpdateInventoryOutcome(s, productId, delta, None).store == s
    ensures UpdateInventoryOutcome(s, productId, delta, None).store.products == s.products
  {
    var once := AdjustStock(s.inventory, productId, delta);
    assert AdjustStock(once, productId, -delta) == s.inventory;
    if !HasStock(s.inventory, productId) {
      assert once == s.inventory;
    }
  }

  lemma {:induction false} QuantityAfterAdjust(inventory: seq<Stock>, productId: int, delta: int, other: int)
    ensures QuantityOf(AdjustStock(inventory, productId, delta), other) ==
      if other == productId && HasStock(inventory, productId) then QuantityOf(inventory, other) + delta
      else QuantityOf(inventory, other)
  {
    if |inventory| > 0 {
      var adjusted := AdjustStock(inventory, productId, delta);
      assert adjusted[1..] == AdjustStock(inventory[1..], productId, delta);
      QuantityAfterAdjust(inventory[1..], productId, delta, other);
      assert forall j :: 0 <= j < |inventory[1..]| ==> inventory[1..][j] == inventory[j + 1];
      assert HasStock(inventory, productId) && inventory[0].productId != productId ==> HasStock(inventory[1..], productId);
    }
  }

  /** Adjusting quantities leaves every key and every `product_id` where it was. */
  lemma AdjustStockKeeps(s: Store, productId: int, delta: int)
    requires WellFormed(s)
    ensures WellFormed(s.(inventory := AdjustStock(s.inventory, productId, delta)))
    ensures Paired(s) ==> Paired(s.(inventory := AdjustStock(s.inventory, productId, delta)))
  {
    var inv := AdjustStock(s.inventory, productId, delta);
    SameKeys(s.inventory, inv, StockKey, s.nextStockId);
    SameColumn(s.inventory, inv, StockProduct);
    if Paired(s) {
      forall i | 0 <= i < |s.products| ensures HasStock(inv, s.products[i].id) {
        assert HasStock(s.inventory, s.products[i].id);
        var j :| 0 <= j < |s.inventory| && s.inventory[j].productId == s.products[i].id;
        assert inv[j].productId == s.products[i].id;
      }
      forall j | 0 <= j < |inv| ensures HasProduct(s.products, inv[j].productId) {
        assert inv[j].productId == s.inventory[j].productId;
      }
    }
  }

  /**
   * `update_inventory` keeps the constraints and the pairing; on a paired
   * store a success changes exactly the listed quantity of that product, by `delta`.
   */
  lemma UpdateInventoryListing(s: Store, productId: int, delta: int, fault: Option<nat>)
    requires WellFormed(s)
    ensures WellFormed(UpdateInventoryOutcome(s, productId, delta, fault).store)
    ensures Paired(s) ==> Paired(UpdateInventoryOutcome(s, productId, delta, fault).store)
    ensures Paired(s) ==> |AllProducts(UpdateInventoryOutcome(s, productId, delta, fault).store)| == |AllProducts(s)|
    ensures Paired(s) && UpdateInventoryOutcome(s, productId, delta, fault).ok ==>
      forall k :: 0 <= k < |AllProducts(s)| ==>
        AllProducts(UpdateInventoryOutcome(s, productId, delta, fault).store)[k] ==
          if AllProducts(s)[k].id == productId
          then AllProducts(s)[k].(quantity := AllProducts(s)[k].quantity + delta)
          else AllProducts(s)[k]
  {
    AdjustStockKeeps(s, productId, delta);
    if Paired(s) {
      AdjustStockListing(s, productId, delta);
    }
  }

  lemma AdjustStockListing(s: Store, productId: int, delta: int)
    requires WellFormed(s) && Paired(s)
    requires WellFormed(s.(inventory := AdjustStock(s.inventory, productId, delta)))
    requires Paired(s.(inventory := AdjustStock(s.inventory, productId, delta)))
    ensures var t := s.(inventory := AdjustStock(s.inventory, productId, delta));
      |AllProducts(t)| == |AllProducts(s)| &&
      forall k :: 0 <= k < |AllProducts(s)| ==>
        AllProducts(t)[k] ==
          if AllProducts(s)[k].id == productId
          then AllProducts(s)[k].(quantity := AllProducts(s)[k].quantity + delta)
          else AllProducts(s)[k]
  {
    var t := s.(inventory := AdjustStock(s.inventory, productId, delta));
    AllProductsOfPaired(s);
    AllProductsOfPaired(t);
    forall k | 0 <= k < |s.products| ensures AllProducts(t)[k] ==
          if AllProducts(s)[k].id == productId
          then AllProducts(s)[k].(quantity := AllProducts(s)[k].quantity + delta)
          else AllProducts(s)[k]
    {
      QuantityAfterAdjust(s.inventory, productId, delta, s.products[k].id);
      assert HasStock(s.inventory, s.products[k].id);
    }
  }

  // ---------------------------------------------------------------------------
  // add_initial_data and the start-up gate

  /** The ten products `add_initial_data` seeds, each with stock 100. */
  const InitialProducts: seq<Details> := [
    Details("Kem chống nắng A", "Brand X", "Chăm sóc da", 250000, "SKU001"),
    Details("Son lì màu đỏ B", "Brand Y", "Trang điểm", 180000, "SKU002"),
    Details("Sữa rửa mặt C", "Brand Z", "Chăm sóc da", 150000, "SKU003"),
    Details("Kem dưỡng ẩm D", "Brand X", "Chăm sóc da", 300000, "SKU004"),
    Details("Phấn nước E", "Brand Y", "Trang điểm", 450000, "SKU005"),
    Details("Tẩy trang F", "Brand Z", "Chăm sóc da", 200000, "SKU006"),
    Details("Mascara G", "Brand Y", "Trang điểm", 220000, "SKU007"),
    Details("Serum H", "Brand X", "Chăm sóc da", 500000, "SKU008"),
    Details("Chì kẻ mày I", "Brand Y", "Trang điểm", 100000, "SKU009"),
    Details("Mặt nạ J", "Brand Z", "Chăm sóc da", 50000, "SKU010")
  ]

  const SeedQuantity := 100

  /**
   * The loop of `add_initial_data` from statement number `k` on: per seed, a
   * SELECT by SKU, and when the SKU is absent the two INSERTs. `None` when a
   * statement raises, which aborts the loop.
   */
  function SeedFrom(s: Store, seeds: seq<Details>, fault: Option<nat>, k: nat): Option<Store>
    decreases |seeds|
  {
    if |seeds| == 0 then Some(s)
    else if fault == Some(k) then None
    else if SkuTaken(s.products, seeds[0].sku) then SeedFrom(s, seeds[1..], fault, k + 1)
    else if fault == Some(k + 1) then None
    else if fault == Some(k + 2) || HasStock(s.inventory, s.nextProductId) then None
    else SeedFrom(WithProduct(s, seeds[0], SeedQuantity), seeds[1..], fault, k + 3)
  }

  /** `add_initial_data`: commit what the loop did, or roll all of it back when a statement raised. */
  function InitialDataOutcome(s: Store, seeds: seq<Details>, fault: Option<nat>): Store {
    match SeedFrom(s, seeds, fault, 0)
    case None => s
    case Some(t) => t
  }

  /** The entry point: `add_initial_data` runs only when the database file did not exist before. */
  function StartupOutcome(s: Store, dbExisted: bool, fault: Option<nat>): Store {
    if dbExisted then s else InitialDataOutcome(s, InitialProducts, fault)
  }

  /** How many statements the loop runs when nothing raises. */
  function StatementsRun(s: Store, seeds: seq<Details>): nat
    decreases |seeds|
  {
    if |seeds| == 0 then 0
    else if SkuTaken(s.products, seeds[0].sku) then 1 + StatementsRun(s, seeds[1..])
    else 3 + StatementsRun(WithProduct(s, seeds[0], SeedQuantity), seeds[1..])
  }

  /**
   * On a paired store the loop fails exactly when the engine raises on one of
   * the statements it runs; an error anywhere therefore rolls back every insert
   * of the call, and otherwise the call commits what it did.
   */
  lemma {:induction false} SeedingFailsOnlyOnFault(s: Store, seeds: seq<Details>, n: nat, k: nat)
    requires WellFormed(s) && Paired(s)
    ensures SeedFrom(s, seeds, None, k).Some?
    ensures SeedFrom(s, seeds, Some(n), k) ==
      if k <= n < k + StatementsRun(s, seeds) then None else SeedFrom(s, seeds, None, k)
    decreases |seeds|
  {
    if |seeds| > 0 {
      if SkuTaken(s.products, seeds[0].sku) {
        SeedingFailsOnlyOnFault(s, seeds[1..], n, k + 1);
      } else {
        NextIdHasNoStock(s);
        WithProductKeeps(s, seeds[0], SeedQuantity);
        SeedingFailsOnlyOnFault(WithProduct(s, seeds[0], SeedQuantity), seeds[1..], n, k + 3);
      }
    }
  }

  /** Each pass of the loop keeps the constraints and the pairing. */
  lemma {:induction false} SeedingKeepsPairing(s: Store, seeds: seq<Details>, fault: Option<nat>, k: nat)
    requires WellFormed(s)
    ensures SeedFrom(s, seeds, fault, k).Some? ==> WellFormed(SeedFrom(s, seeds, fault, k).value)
    ensures SeedFrom(s, seeds, fault, k).Some? && Paired(s) ==> Paired(SeedFrom(s, seeds, fault, k).value)
    decreases |seeds|
  {
    if |seeds| > 0 && fault != Some(k) {
      if SkuTaken(s.products, seeds[0].sku) {
        SeedingKeepsPairing(s, seeds[1..], fault, k + 1);
      } else if fault != Some(k + 1) && fault != Some(k + 2) && !HasStock(s.inventory, s.nextProductId) {
        WithProductKeeps(s, seeds[0], SeedQuantity);
        SeedingKeepsPairing(WithProduct(s, seeds[0], SeedQuantity), seeds[1..], fault, k + 3);
      }
    }
  }

  /**
   * What a committed seeding pass did: existing rows are untouched (the old
   * tables are prefixes of the new), every seed SKU is now present, each added
   * product is a seed whose SKU was absent before, and each added stock row
   * holds 100.
   */
  lemma {:induction false} SeedingSkipsExisting(s: Store, seeds: seq<Details>, fault: Option<nat>, k: nat)
    requires SeedFrom(s, seeds, fault, k).Some?
    ensures var t := SeedFrom(s, seeds, fault, k).value;
      s.products <= t.products && s.inventory <= t.inventory &&
      (forall d :: d in seeds ==> SkuTaken(t.products, d.sku)) &&
      (forall i :: |s.products| <= i < |t.products| ==>
         t.products[i].details in seeds && !SkuTaken(s.products, t.products[i].details.sku)) &&
      (forall i :: |s.inventory| <= i < |t.inventory| ==> t.inventory[i].quantity == SeedQuantity)
    decreases |seeds|
  {
    if |seeds| > 0 {
      var t := SeedFrom(s, seeds, fault, k).value;
      if SkuTaken(s.products, seeds[0].sku) {
        SeedingSkipsExisting(s, seeds[1..], fault, k + 1);
      } else {
        var s1 := WithProduct(s, seeds[0], SeedQuantity);
        SeedingSkipsExisting(s1, seeds[1..], fault, k + 3);
        assert s1.products[|s.products|].details == seeds[0];
        assert SkuTaken(s1.products, seeds[0].sku) by {
          assert SkuOf(s1.products[|s.products|]) == seeds[0].sku;
        }
        assert SkuTaken(t.products, seeds[0].sku) by {
          assert SkuTaken(s1.products, seeds[0].sku);
          var i :| 0 <= i < |s1.products| && SkuOf(s1.products[i]) == seeds[0].sku;
          assert t.products[i] == s1.products[i];
        }
        forall i | |s.products| <= i < |t.products|
          ensures t.products[i].details in seeds && !SkuTaken(s.products, t.products[i].details.sku)
        {
          if i == |s.products| {
            assert t.products[i] == s1.products[i];
          } else {
            assert !SkuTaken(s1.products, t.products[i].details.sku);
            assert forall m :: 0 <= m < |s.products| ==> s1.products[m] == s.products[m];
          }
        }
        assert t.inventory[|s.inventory|] == s1.inventory[|s.inventory|];
        assert s.products <= s1.products && s.inventory <= s1.inventory;
      }
      forall d | d in seeds ensures SkuTaken(t.products, d.sku) {
        if d != seeds[0] { assert d in seeds[1..]; }
      }
    }
  }

  /** A pass over seeds whose SKUs are all present changes nothing. */
  lemma {:induction false} SeedingAllPresent(s: Store, seeds: seq<Details>, k: nat)
    requires forall d :: d in seeds ==> SkuTaken(s.products, d.sku)
    ensures SeedFrom(s, seeds, None, k) == Some(s)
    decreases |seeds|
  {
    if |seeds| > 0 {
      assert seeds[0] in seeds;
      assert forall d :: d in seeds[1..] ==> d in seeds;
      SeedingAllPresent(s, seeds[1..], k + 1);
    }
  }

  /** `add_initial_data` is idempotent on every store: a second run adds nothing. */
  lemma SeedingIdempotent(s: Store, seeds: seq<Details>)
    ensures InitialDataOutcome(InitialDataOutcome(s, seeds, None), seeds, None) == InitialDataOutcome(s, seeds, None)
  {
    if SeedFrom(s, seeds, None, 0).Some? {
      SeedingSkipsExisting(s, seeds, None, 0);
      SeedingAllPresent(InitialDataOutcome(s, seeds, None), seeds, 0);
    }
  }

  /** The store after inserting every seed, in order, under consecutive keys, each with stock 100. */
  function FreshlySeeded(s: Store, seeds: seq<Details>): Store {
    Store(s.products + seq(|seeds|, i requires 0 <= i < |seeds| => Product(s.nextProductId + i, seeds[i])),
          s.inventory + seq(|seeds|, i requires 0 <= i < |seeds| => Stock(s.nextStockId + i, s.nextProductId + i, SeedQuantity)),
          s.nextProductId + |seeds|, s.nextStockId + |seeds|)
  }

  lemma FreshlySeededStep(s: Store, seeds: seq<Details>)
    requires |seeds| > 0
    ensures FreshlySeeded(WithProduct(s, seeds[0], SeedQuantity), seeds[1..]) == FreshlySeeded(s, seeds)
  {
    var a := FreshlySeeded(WithProduct(s, seeds[0], SeedQuantity), seeds[1..]);
    var b := FreshlySeeded(s, seeds);
    assert |a.products| == |b.products|;
    forall m | 0 <= m < |b.products| ensures a.products[m] == b.products[m] {
      if m > |s.products| { assert seeds[1..][m - |s.products| - 1] == seeds[m - |s.products|]; }
    }
    assert |a.inventory| == |b.inventory|;
    forall m | 0 <= m < |b.inventory| ensures a.inventory[m] == b.inventory[m] {
    }
  }

  /** Seeds whose SKUs are distinct and absent are all inserted, in order, under consecutive keys. */
  lemma {:induction false} SeedingFreshSkus(s: Store, seeds: seq<Details>, k: nat)
    requires WellFormed(s) && Paired(s)
    requires forall i :: 0 <= i < |seeds| ==> !SkuTaken(s.products, seeds[i].sku)
    requires forall i, j :: 0 <= i < j < |seeds| ==> seeds[i].sku != seeds[j].sku
    ensures SeedFrom(s, seeds, None, k) == Some(FreshlySeeded(s, seeds))
    decreases |seeds|
  {
    if |seeds| == 0 {
      var t := FreshlySeeded(s, seeds);
      assert t.products[..|s.products|] == s.products && t.inventory[..|s.inventory|] == s.inventory;
      assert t.products == s.products && t.inventory == s.inventory;
    } else {
      NextIdHasNoStock(s);
      WithProductKeeps(s, seeds[0], SeedQuantity);
      var s1 := WithProduct(s, seeds[0], SeedQuantity);
      var rest := seeds[1..];
      forall i | 0 <= i < |rest| ensures !SkuTaken(s1.products, rest[i].sku) {
        assert rest[i] == seeds[i + 1];
        assert SkuOf(s1.products[|s.products|]) != rest[i].sku;
        assert forall m :: 0 <= m < |s.products| ==> s1.products[m] == s.products[m];
      }
      SeedingFreshSkus(s1, rest, k + 3);
      FreshlySeededStep(s, seeds);
    }
  }

  /**
   * The start-up gate: when the file existed nothing is seeded; when it was
   * just created and nothing raises, the ten products are added under keys
   * 1 to 10, each with its stock row of 100.
   */
  lemma StartupSeedsFreshFile(s: Store, fault: Option<nat>)
    ensures StartupOutcome(s, true, fault) == s
    ensures StartupOutcome(EmptyStore, false, None) == FreshlySeeded(EmptyStore, InitialProducts)
    ensures var t := StartupOutcome(EmptyStore, false, None);
      |t.products| == 10 && |t.inventory| == 10 &&
      forall i :: 0 <= i < 10 ==>
        t.products[i] == Product(i + 1, InitialProducts[i]) && t.inventory[i] == Stock(i + 1, i + 1, SeedQuantity)
  {
    InitialSkusDistinct();
    SeedingFreshSkus(EmptyStore, InitialProducts, 0);
  }

  /** The two digits that end a seed SKU, read as a number. */
  function SkuNumber(sku: string): int {
    if |sku| == 6 then (sku[4] as int - '0' as int) * 10 + (sku[5] as int - '0' as int) else -1
  }

  /** The seed list carries ten different SKUs: `SKU001` to `SKU010`. */
  lemma InitialSkusDistinct()
    ensures forall i, j :: 0 <= i < j < |InitialProducts| ==> InitialProducts[i].sku != InitialProducts[j].sku
  {
    forall i | 0 <= i < |InitialProducts| ensures SkuNumber(InitialProducts[i].sku) == i + 1 {
    }
  }

  // ---------------------------------------------------------------------------
  // The store file and DataManager

  /**
   * `DataManager` together with the file `cosmetics.db` it opens: the two
   * tables and their counters are its fields.
   */
  class DataManager {
    var products: seq<Product>
    var inventory: seq<Stock>
    var nextProductId: nat
    var nextStockId: nat

    function State(): Store
      reads this
    {
      Store(products, inventory, nextProductId, nextStockId)
    }

    ghost predicate Valid()
      reads this
    {
      WellFormed(State())
    }

    /** The product/inventory pairing the operations preserve. */
    ghost predicate Consistent()
      reads this
    {
      Paired(State())
    }

    /** A newly created file: `create_tables` has made the tables, all empty. */
    constructor ()
      ensures Valid() && Consistent() && State() == EmptyStore
    {
      products, inventory := [], [];
      nextProductId, nextStockId := 1, 1;
    }

    /** `conn.rollback()`: the tables and counters go back to the snapshot taken at `BEGIN`. */
    method Restore(saved: Store)
      modifies this
      ensures State() == saved
    {
      products, inventory := saved.products, saved.inventory;
      nextProductId, nextStockId := saved.nextProductId, saved.nextStockId;
    }

    /** `add_product`: BEGIN, INSERT INTO products, INSERT INTO inventory with `lastrowid`, COMMIT or ROLLBACK. */
    method AddProduct(name: string, brand: string, category: string, price: int, sku: string,
                      initialQuantity: int, fault: Option<nat>) returns (ok: bool)
      requires Valid()
      modifies this
      ensures Valid()
      ensures Outcome(ok, State()) ==
              AddProductOutcome(old(State()), Details(name, brand, category, price, sku), initialQuantity, fault)
      ensures old(Consistent()) ==> Consistent()
    {
      var d := Details(name, brand, category, price, sku);
      AddProductKeepsPairing(State(), d, initialQuantity, fault);
      var saved := State();
      if fault == Some(0) || SkuTaken(products, sku) {
        return false;
      }
      var productId := nextProductId;
      products := products + [Product(productId, d)];
      nextProductId := productId + 1;
      if fault == Some(1) || HasStock(inventory, productId) {
        Restore(saved);
        return false;
      }
      inventory := inventory + [Stock(nextStockId, productId, initialQuantity)];
      nextStockId := nextStockId + 1;
      ok := true;
    }

    /** `update_product`: one UPDATE by id. */
    method UpdateProduct(productId: int, name: string, brand: string, category: string, price: int, sku: string,
                         fault: Option<nat>) returns (ok: bool)
      requires Valid()
      modifies this
      ensures Valid()
      ensures Outcome(ok, State()) ==
              UpdateProductOutcome(old(State()), productId, Details(name, brand, category, price, sku), fault)
      ensures old(Consistent()) ==> Consistent()
    {
      var d := Details(name, brand, category, price, sku);
      UpdateProductKeepsPairing(State(), productId, d, fault);
      if fault == Some(0) || SkuClash(products, productId, sku) {
        return false;
      }
      products := SetDetails(products, productId, d);
      ok := true;
    }

    /** `delete_product`: BEGIN, DELETE FROM inventory, DELETE FROM products, COMMIT or ROLLBACK. */
    method DeleteProduct(productId: int, fault: Option<nat>) returns (ok: bool)
      requires Valid()
      modifies this
      ensures Valid()
      ensures Outcome(ok, State()) == DeleteProductOutcome(old(State()), productId, fault)
      ensures old(Consistent()) ==> Consistent()
    {
      DeleteProductKeepsPairing(State(), productId, fault);
      var saved := State();
      if fault == Some(0) {
        return false;
      }
      inventory := Where(inventory, NotStockOf(productId));
      if fault == Some(1) {
        Restore(saved);
        return false;
      }
      products := Where(products, NotProduct(productId));
      ok := true;
    }

    /** `update_inventory`: one UPDATE adding the signed change. */
    method UpdateInventory(productId: int, quantityChange: int, fault: Option<nat>) returns (ok: bool)
      requires Valid()
      modifies this
      ensures Valid()
      ensures Outcome(ok, State()) == UpdateInventoryOutcome(old(State()), productId, quantityChange, fault)
      ensures old(Consistent()) ==> Consistent()
    {
      UpdateInventoryListing(State(), productId, quantityChange, fault);
      if fault == Some(0) {
        return false;
      }
      inventory := AdjustStock(inventory, productId, quantityChange);
      ok := true;
    }

    /**
     * `add_initial_data`: one transaction over the seed list; per seed a SELECT
     * by SKU and, if absent, the two INSERTs; any error rolls everything back.
     */
    method AddInitialData(fault: Option<nat>)
      requires Valid()
      modifies this
      ensures Valid()
      ensures State() == InitialDataOutcome(old(State()), InitialProducts, fault)
      ensures old(Consistent()) ==> Consistent()
    {
      SeedProducts(InitialProducts, fault);
    }

    /** The transaction of `add_initial_data` over any seed list. */
    method SeedProducts(seeds: seq<Details>, fault: Option<nat>)
      requires Valid()
      modifies this
      ensures Valid()
      ensures State() == InitialDataOutcome(old(State()), seeds, fault)
      ensures old(Consistent()) ==> Consistent()
    {
      var saved := State();
      SeedingKeepsPairing(saved, seeds, fault, 0);
      var i, k := 0, 0;
      var failed := false;
      while i < |seeds| && !failed
        invariant 0 <= i <= |seeds|
        invariant !failed ==> Valid()
        invariant !failed ==> SeedFrom(saved, seeds, fault, 0) == SeedFrom(State(), seeds[i..], fault, k)
        invariant failed ==> SeedFrom(saved, seeds, fault, 0).None?
        decreases |seeds| - i
      {
        assert seeds[i..] == [seeds[i]] + seeds[i + 1..];
        failed, k := SeedOne(seeds[i], seeds[i + 1..], fault, k);
        i := i + 1;
      }
      if failed {
        Restore(saved);
      }
    }

    /**
     * One pass of the seeding loop, from statement number `k`: the SELECT by
     * SKU and, when the SKU is absent, the product and stock INSERTs. It
     * reports whether a statement raised and the number of the next statement.
     */
    method SeedOne(d: Details, ghost rest: seq<Details>, fault: Option<nat>, k: nat) returns (failed: bool, next: nat)
      requires Valid()
      modifies this
      ensures !failed ==> Valid()
      ensures SeedFrom(old(State()), [d] + rest, fault, k) ==
              if failed then None else SeedFrom(State(), rest, fault, next)
    {
      ghost var seeds := [d] + rest;
      assert seeds[0] == d && seeds[1..] == rest;
      failed, next := true, k;
      if fault == Some(k) {
        return;
      }
      if SkuTaken(products, d.sku) {
        failed, next := false, k + 1;
        return;
      }
      if fault == Some(k + 1) {
        return;
      }
      ghost var before := State();
      var productId := nextProductId;
      products := products + [Product(productId, d)];
      nextProductId := productId + 1;
      if fault == Some(k + 2) || HasStock(inventory, productId) {
        return;
      }
      inventory := inventory + [Stock(nextStockId, productId, SeedQuantity)];
      nextStockId := nextStockId + 1;
      WithProductKeeps(before, d, SeedQuantity);
      assert State() == WithProduct(before, d, SeedQuantity);
      failed, next := false, k + 3;
    }

    /**
     * The entry point: `create_tables` (the tables exist in this model), then
     * `add_initial_data` only when the file did not exist before start-up.
     */
    method Startup(dbExisted: bool, fault: Option<nat>)
      requires Valid()
      modifies this
      ensures Valid()
      ensures State() == StartupOutcome(old(State()), dbExisted, fault)
      ensures old(Consistent()) ==> Consistent()
    {
      if !dbExisted {
        AddInitialData(fault);
      }
    }
  }
}
