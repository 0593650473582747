/**
 * The data-access layer of the food-ordering app (database.py): the tables
 * `users`, `mon_an` (dishes) and `gio_hang` (cart lines) of the SQLite file,
 * each a sequence of rows in storage order with an AUTOINCREMENT counter.
 * The read-only queries are functions of the table contents; the statements
 * that write are methods of `FoodieDb`, whose fields are the tables.
 */
module FoodStore {
  import opened Options
  import opened Tables

  /** A row of `users`. */
  datatype User = User(id: nat, username: string, password: string, ho: string, ten: string, sdt: string)

  /** A row of `mon_an`: name, price and picture path of a dish. */
  datatype Dish = Dish(id: nat, tenMon: string, gia: int, hinhAnh: string)

  /** A row of `gio_hang`: `so_luong` of dish `monAnId` in the cart of `userId`. */
  datatype CartLine = CartLine(id: nat, userId: int, monAnId: int, soLuong: int)

  /** The row `login_user` returns: `(id, ho, ten)`. */
  datatype Account = Account(id: nat, ho: string, ten: string)

  /** A row of `get_cart_items`: `(m.id, m.ten_mon, m.gia, g.so_luong, thanh_tien)`. */
  datatype CartItem = CartItem(monAnId: nat, tenMon: string, gia: int, soLuong: int, thanhTien: int)

  /** The values a seed dish is inserted with. */
  datatype DishData = DishData(tenMon: string, gia: int, hinhAnh: string)

  function UserKey(u: User): nat { u.id }
  function DishKey(d: Dish): nat { d.id }
  function LineKey(l: CartLine): nat { l.id }
  function UsernameOf(u: User): string { u.username }
  function PairOf(l: CartLine): (int, int) { (l.userId, l.monAnId) }

  // ---------------------------------------------------------------------------
  // users: register_user and login_user

  predicate UsernameTaken(users: seq<User>, username: string) {
    Occurs(users, UsernameOf, username)
  }

  predicate Matches(u: User, username: string, password: string) {
    u.username == username && u.password == password
  }

  function AccountOf(u: User): Account { Account(u.id, u.ho, u.ten) }

  /**
   * `login_user`: the first row whose username AND password both equal the
   * arguments, as `(id, ho, ten)`; `None` when no row matches.
   */
  function Login(users: seq<User>, username: string, password: string): (r: Option<Account>)
    ensures r.None? <==> forall i :: 0 <= i < |users| ==> !Matches(users[i], username, password)
    ensures r.Some? ==> exists i :: 0 <= i < |users| && Matches(users[i], username, password) &&
                          r.value == AccountOf(users[i]) &&
                          forall j :: 0 <= j < i ==> !Matches(users[j], username, password)
  {
    if |users| == 0 then None
    else if Matches(users[0], username, password) then Some(AccountOf(users[0]))
    else
      var r := Login(users[1..], username, password);
      assert r.Some? ==> exists i :: 0 <= i < |users[1..]| && Matches(users[1..][i], username, password) &&
                          r.value == AccountOf(users[1..][i]) &&
                          forall j :: 0 <= j < i ==> !Matches(users[1..][j], username, password);
      assert forall i :: 0 <= i < |users[1..]| ==> users[1..][i] == users[i + 1];
      r
  }

  /** With usernames unique, a matching row is the one `login_user` returns. */
  lemma LoginFindsTheRow(users: seq<User>, i: nat, username: string, password: string)
    requires Distinct(users, UsernameOf)
    requires i < |users| && Matches(users[i], username, password)
    ensures Login(users, username, password) == Some(AccountOf(users[i]))
  {
    var r := Login(users, username, password);
    var k :| 0 <= k < |users| && Matches(users[k], username, password) && r.value == AccountOf(users[k]);
    assert UsernameOf(users[k]) == UsernameOf(users[i]);
  }

  /**
   * Registering a fresh username and then logging in with it gives back the
   * new row's `(id, ho, ten)`; logins under any other username are unaffected.
   */
  lemma {:induction false} LoginAfterRegister(users: seq<User>, newRow: User, username: string, password: string)
    requires !UsernameTaken(users, newRow.username)
    ensures Login(users + [newRow], newRow.username, newRow.password) == Some(AccountOf(newRow))
    ensures username != newRow.username ==> Login(users + [newRow], username, password) == Login(users, username, password)
  {
    if |users| == 0 {
      assert users + [newRow] == [newRow];
    } else {
      assert (users + [newRow])[1..] == users[1..] + [newRow];
      assert !UsernameTaken(users[1..], newRow.username) by {
        forall i | 0 <= i < |users[1..]| ensures UsernameOf(users[1..][i]) != newRow.username {
          assert users[1..][i] == users[i + 1];
        }
      }
      assert UsernameOf(users[0]) != newRow.username;
      LoginAfterRegister(users[1..], newRow, username, password);
    }
  }

  // ---------------------------------------------------------------------------
  // mon_an: get_mon_an(page, items_per_page) = SELECT * ... LIMIT n OFFSET (page-1)*n

  function Min(a: int, b: int): int { if a <= b then a else b }

  /**
   * `get_mon_an`: the window of `perPage` dishes starting at offset
   * `(page - 1) * perPage` in storage order. As in SQLite, a negative LIMIT
   * means no bound and a negative OFFSET counts as zero.
   */
  function MenuPage(menu: seq<Dish>, page: int := 1, perPage: int := 8): (r: seq<Dish>)
    ensures |r| <= |menu|
    ensures page >= 1 && perPage >= 0 ==> IsWindow(menu, r, (page - 1) * perPage, perPage)
  {
    var offset := (page - 1) * perPage;
    var skip := if offset <= 0 then 0 else if offset >= |menu| then |menu| else offset;
    var take := if perPage < 0 || perPage > |menu| - skip then |menu| - skip else perPage;
    assert page >= 1 && perPage >= 0 ==> offset >= 0 by {
      if page >= 1 && perPage >= 0 { NonNegativeProduct(page - 1, perPage); }
    }
    menu[skip .. skip + take]
  }

  /** `r` is the run of dishes of `menu` that starts at `offset`, `size` long or cut at the end. */
  predicate IsWindow(menu: seq<Dish>, r: seq<Dish>, offset: int, size: int) {
    0 <= offset && |r| == (if offset >= |menu| then 0 else Min(size, |menu| - offset)) &&
    forall k :: 0 <= k < |r| ==> offset + k < |menu| && r[k] == menu[offset + k]
  }

  lemma NonNegativeProduct(a: int, b: int)
    requires a >= 0 && b >= 0
    ensures a * b >= 0
  {
  }

  /** Pages 1..count of size `perPage`, one after another. */
  function Pages(menu: seq<Dish>, perPage: int, count: nat): seq<Dish> {
    if count == 0 then [] else Pages(menu, perPage, count - 1) + MenuPage(menu, count, perPage)
  }

  /** Paging tiles the menu: the first `count` pages are exactly its first `count * perPage` dishes. */
  lemma {:induction false} PagesTileMenu(menu: seq<Dish>, perPage: nat, count: nat)
    requires perPage > 0
    ensures Pages(menu, perPage, count) == menu[..Min(count * perPage, |menu|)]
  {
    if count > 0 {
      PagesTileMenu(menu, perPage, count - 1);
      PageIsSlice(menu, count, perPage);
      MultiplyStep(count, perPage);
      var before, after := Min((count - 1) * perPage, |menu|), Min(count * perPage, |menu|);
      assert menu[..before] + menu[before..after] == menu[..after];
    }
  }

  /** With a positive page size, page `page` is the slice of the menu from its offset on, `perPage` long or cut at the end. */
  lemma PageIsSlice(menu: seq<Dish>, page: int, perPage: nat)
    requires page >= 1
    ensures MenuPage(menu, page, perPage) ==
      menu[Min((page - 1) * perPage, |menu|)..Min((page - 1) * perPage + perPage, |menu|)]
  {
    var offset := (page - 1) * perPage;
    NonNegativeProduct(page - 1, perPage);
    var r := MenuPage(menu, page, perPage);
    var slice := menu[Min(offset, |menu|)..Min(offset + perPage, |menu|)];
    assert |r| == |slice|;
    forall k | 0 <= k < |r| ensures r[k] == slice[k] {
      assert r[k] == menu[offset + k];
    }
  }

  lemma MultiplyStep(count: int, perPage: int)
    ensures (count - 1) * perPage + perPage == count * perPage
  {
  }

  /** Every dish lies on page `p / perPage + 1`, at position `p % perPage` of that page. */
  lemma DishOnItsPage(menu: seq<Dish>, perPage: nat, p: nat)
    requires perPage > 0 && p < |menu|
    ensures |MenuPage(menu, p / perPage + 1, perPage)| > p % perPage
    ensures MenuPage(menu, p / perPage + 1, perPage)[p % perPage] == menu[p]
  {
    var q := p / perPage;
    assert (q + 1 - 1) * perPage + p % perPage == p;
  }

  /** The pages after the last dish are empty. */
  lemma PastTheEndIsEmpty(menu: seq<Dish>, page: int, perPage: nat)
    requires page >= 1 && (page - 1) * perPage >= |menu|
    ensures MenuPage(menu, page, perPage) == []
  {
  }

  // ---------------------------------------------------------------------------
  // gio_hang: add_to_cart, get_cart_items, clear_cart

  predicate SamePair(l: CartLine, userId: int, monAnId: int) {
    l.userId == userId && l.monAnId == monAnId
  }

  /** `SELECT id, so_luong FROM gio_hang WHERE user_id=? AND mon_an_id=?` with `fetchone()`: the first matching line. */
  function FindLine(cart: seq<CartLine>, userId: int, monAnId: int): (r: Option<nat>)
    ensures r.None? <==> forall k :: 0 <= k < |cart| ==> !SamePair(cart[k], userId, monAnId)
    ensures r.Some? ==> r.value < |cart| && SamePair(cart[r.value], userId, monAnId) &&
                        forall k :: 0 <= k < r.value ==> !SamePair(cart[k], userId, monAnId)
  {
    if |cart| == 0 then None
    else if SamePair(cart[0], userId, monAnId) then Some(0)
    else
      assert forall k :: 0 <= k < |cart[1..]| ==> cart[1..][k] == cart[k + 1];
      match FindLine(cart[1..], userId, monAnId)
      case None => None
      case Some(i) => Some(i + 1)
  }

  /** Two lookups specified as "first matching position" agree when the rows agree on the pair columns. */
  lemma FindLineSamePairs(cart: seq<CartLine>, cart': seq<CartLine>, userId: int, monAnId: int)
    requires |cart'| == |cart|
    requires forall k :: 0 <= k < |cart| ==> PairOf(cart'[k]) == PairOf(cart[k])
    ensures FindLine(cart', userId, monAnId) == FindLine(cart, userId, monAnId)
  {
    var a, b := FindLine(cart, userId, monAnId), FindLine(cart', userId, monAnId);
    assert forall k :: 0 <= k < |cart| ==> (SamePair(cart[k], userId, monAnId) <==> SamePair(cart'[k], userId, monAnId));
  }

  /** Appending a line leaves an existing first match in place, and otherwise finds the new line if it matches. */
  lemma FindLineAppend(cart: seq<CartLine>, x: CartLine, userId: int, monAnId: int)
    ensures FindLine(cart + [x], userId, monAnId) ==
      if FindLine(cart, userId, monAnId).Some? then FindLine(cart, userId, monAnId)
      else if SamePair(x, userId, monAnId) then Some(|cart|) else None
  {
    var c := cart + [x];
    var a, b := FindLine(cart, userId, monAnId), FindLine(c, userId, monAnId);
    assert forall k :: 0 <= k < |cart| ==> c[k] == cart[k];
    assert c[|cart|] == x;
  }

  /** Quantity of dish `monAnId` in the cart of `userId` (0 when there is no line): what the first matching line holds. */
  function QuantityOf(cart: seq<CartLine>, userId: int, monAnId: int): int {
    match FindLine(cart, userId, monAnId)
    case None => 0
    case Some(i) => cart[i].soLuong
  }

  /**
   * The cart after `add_to_cart(userId, monAnId)` when the next key of
   * `gio_hang` is `freshId`: the first line for the pair gets one more unit,
   * or, when there is none, a line with the column default `so_luong = 1` is added.
   */
  function AddedToCart(cart: seq<CartLine>, freshId: nat, userId: int, monAnId: int): seq<CartLine> {
    match FindLine(cart, userId, monAnId)
    case Some(i) => cart[i := cart[i].(soLuong := cart[i].soLuong + 1)]
    case None => cart + [CartLine(freshId, userId, monAnId, 1)]
  }

  /**
   * `add_to_cart` adds exactly one unit of the dish to the user's cart and
   * leaves every other (user, dish) quantity alone; it adds a row only when the
   * pair had none.
   */
  lemma AddToCartCounts(cart: seq<CartLine>, freshId: nat, userId: int, monAnId: int, u: int, m: int)
    ensures QuantityOf(AddedToCart(cart, freshId, userId, monAnId), userId, monAnId) == QuantityOf(cart, userId, monAnId) + 1
    ensures (u, m) != (userId, monAnId) ==>
      QuantityOf(AddedToCart(cart, freshId, userId, monAnId), u, m) == QuantityOf(cart, u, m)
    ensures |AddedToCart(cart, freshId, userId, monAnId)| ==
      if FindLine(cart, userId, monAnId).Some? then |cart| else |cart| + 1
  {
    var r := AddedToCart(cart, freshId, userId, monAnId);
    match FindLine(cart, userId, monAnId)
    case Some(i) =>
      FindLineSamePairs(cart, r, userId, monAnId);
      FindLineSamePairs(cart, r, u, m);
      var f := FindLine(cart, u, m);
      if f.Some? && f.value == i {
        assert SamePair(cart[i], userId, monAnId);
      }
    case None =>
      var x := CartLine(freshId, userId, monAnId, 1);
      FindLineAppend(cart, x, userId, monAnId);
      FindLineAppend(cart, x, u, m);
      var f := FindLine(cart, u, m);
      if f.Some? { assert r[f.value] == cart[f.value]; }
  }

  /** `add_to_cart` keeps "at most one line per (user, dish)" and all quantities at least 1. */
  lemma AddToCartKeepsOneLinePerPair(cart: seq<CartLine>, freshId: nat, userId: int, monAnId: int)
    requires Distinct(cart, PairOf)
    requires forall k :: 0 <= k < |cart| ==> cart[k].soLuong >= 1
    ensures Distinct(AddedToCart(cart, freshId, userId, monAnId), PairOf)
    ensures forall k :: 0 <= k < |AddedToCart(cart, freshId, userId, monAnId)| ==>
              AddedToCart(cart, freshId, userId, monAnId)[k].soLuong >= 1
  {
    var r := AddedToCart(cart, freshId, userId, monAnId);
    match FindLine(cart, userId, monAnId)
    case Some(i) =>
      SameColumn(cart, r, PairOf);
    case None =>
      var x := CartLine(freshId, userId, monAnId, 1);
      forall k | 0 <= k < |cart| ensures PairOf(cart[k]) != PairOf(x) {
        assert !SamePair(cart[k], userId, monAnId);
      }
      DistinctAppend(cart, x, PairOf);
  }

  /** Two `add_to_cart` calls for a pair not yet in the cart leave one new line, with quantity 2. */
  lemma AddToCartTwice(cart: seq<CartLine>, id1: nat, id2: nat, userId: int, monAnId: int)
    requires FindLine(cart, userId, monAnId).None?
    ensures AddedToCart(AddedToCart(cart, id1, userId, monAnId), id2, userId, monAnId) ==
            cart + [CartLine(id1, userId, monAnId, 2)]
  {
    FindLineAppend(cart, CartLine(id1, userId, monAnId, 1), userId, monAnId);
  }

  /** `UPDATE gio_hang SET so_luong=? WHERE id=?`. */
  function SetQuantity(cart: seq<CartLine>, lineId: int, soLuong: int): seq<CartLine> {
    seq(|cart|, k requires 0 <= k < |cart| => if cart[k].id == lineId then cart[k].(soLuong := soLuong) else cart[k])
  }

  /** In a keyed table, updating by the key of line `i` updates line `i` and nothing else. */
  lemma SetQuantityAt(cart: seq<CartLine>, next: nat, i: nat, soLuong: int)
    requires Keyed(cart, LineKey, next) && i < |cart|
    ensures SetQuantity(cart, cart[i].id, soLuong) == cart[i := cart[i].(soLuong := soLuong)]
  {
    forall k | 0 <= k < |cart| && cart[k].id == cart[i].id ensures k == i {
      KeyedUnique(cart, LineKey, next, k, i);
    }
  }

  /** Adding to the cart keeps line ids ascending; only an inserted line uses up the counter. */
  lemma AddToCartKeepsKeys(cart: seq<CartLine>, next: nat, userId: int, monAnId: int)
    requires Keyed(cart, LineKey, next)
    ensures Keyed(AddedToCart(cart, next, userId, monAnId), LineKey,
                  if FindLine(cart, userId, monAnId).Some? then next else next + 1)
  {
    match FindLine(cart, userId, monAnId)
    case Some(i) => SameKeys(cart, AddedToCart(cart, next, userId, monAnId), LineKey, next);
    case None => KeyedAppend(cart, CartLine(next, userId, monAnId, 1), LineKey, next);
  }

  /** A line of `gio_hang` joined with a dish row. */
  function Joined(d: Dish, l: CartLine): CartItem {
    CartItem(d.id, d.tenMon, d.gia, l.soLuong, d.gia * l.soLuong)
  }

  /** The dishes of `mon_an` matching one cart line, joined with it. */
  function JoinLine(menu: seq<Dish>, l: CartLine): seq<CartItem> {
    if |menu| == 0 then []
    else (if menu[0].id == l.monAnId then [Joined(menu[0], l)] else []) + JoinLine(menu[1..], l)
  }

  /**
   * `get_cart_items`: `gio_hang g JOIN mon_an m ON g.mon_an_id = m.id WHERE
   * g.user_id = ?`, cart lines in storage order, each with its dishes.
   */
  function CartItems(cart: seq<CartLine>, menu: seq<Dish>, userId: int): (r: seq<CartItem>)
    ensures forall x :: x in r ==> x.thanhTien == x.gia * x.soLuong
  {
    if |cart| == 0 then []
    else
      var head := if cart[0].userId == userId then JoinLine(menu, cart[0]) else [];
      assert forall x :: x in head ==> x.thanhTien == x.gia * x.soLuong by {
        if cart[0].userId == userId { JoinLineSound(menu, cart[0]); }
      }
      head + CartItems(cart[1..], menu, userId)
  }

  lemma {:induction false} JoinLineSound(menu: seq<Dish>, l: CartLine)
    ensures forall x :: x in JoinLine(menu, l) ==>
              exists j :: 0 <= j < |menu| && menu[j].id == l.monAnId && x == Joined(menu[j], l)
  {
    if |menu| > 0 {
      JoinLineSound(menu[1..], l);
      forall x | x in JoinLine(menu[1..], l)
        ensures exists j :: 0 <= j < |menu| && menu[j].id == l.monAnId && x == Joined(menu[j], l)
      {
        var j :| 0 <= j < |menu[1..]| && menu[1..][j].id == l.monAnId && x == Joined(menu[1..][j], l);
        assert menu[1..][j] == menu[j + 1];
      }
    }
  }

  lemma {:induction false} JoinLineComplete(menu: seq<Dish>, l: CartLine, j: nat)
    requires j < |menu| && menu[j].id == l.monAnId
    ensures Joined(menu[j], l) in JoinLine(menu, l)
  {
    if j > 0 {
      assert menu[1..][j - 1] == menu[j];
      JoinLineComplete(menu[1..], l, j - 1);
    }
  }

  /**
   * Every row of `get_cart_items(userId)` comes from a line of that user and
   * an existing dish with that line's dish id, and carries subtotal price * quantity.
   */
  lemma {:induction false} CartItemsSound(cart: seq<CartLine>, menu: seq<Dish>, userId: int)
    ensures forall x :: x in CartItems(cart, menu, userId) ==>
              x.thanhTien == x.gia * x.soLuong &&
              exists i, j :: 0 <= i < |cart| && 0 <= j < |menu| && cart[i].userId == userId &&
                             menu[j].id == cart[i].monAnId && x == Joined(menu[j], cart[i])
  {
    if |cart| > 0 {
      CartItemsSound(cart[1..], menu, userId);
      JoinLineSound(menu, cart[0]);
      var head := if cart[0].userId == userId then JoinLine(menu, cart[0]) else [];
      assert CartItems(cart, menu, userId) == head + CartItems(cart[1..], menu, userId);
      forall x | x in CartItems(cart[1..], menu, userId)
        ensures exists i, j :: 0 <= i < |cart| && 0 <= j < |menu| && cart[i].userId == userId &&
                               menu[j].id == cart[i].monAnId && x == Joined(menu[j], cart[i])
      {
        var i, j :| 0 <= i < |cart[1..]| && 0 <= j < |menu| && cart[1..][i].userId == userId &&
                    menu[j].id == cart[1..][i].monAnId && x == Joined(menu[j], cart[1..][i]);
        assert cart[1..][i] == cart[i + 1];
      }
    }
  }

  /** Every line of the user whose dish exists shows up in `get_cart_items` (the inner join drops no match). */
  lemma {:induction false} CartItemsComplete(cart: seq<CartLine>, menu: seq<Dish>, userId: int, i: nat, j: nat)
    requires i < |cart| && j < |menu|
    requires cart[i].userId == userId && menu[j].id == cart[i].monAnId
    ensures Joined(menu[j], cart[i]) in CartItems(cart, menu, userId)
  {
    if i == 0 {
      JoinLineComplete(menu, cart[0], j);
    } else {
      assert cart[1..][i - 1] == cart[i];
      CartItemsComplete(cart[1..], menu, userId, i - 1, j);
    }
  }

  /** The keep-predicate of `DELETE FROM gio_hang WHERE user_id=?`. */
  function NotOwnedBy(userId: int): CartLine -> bool {
    (l: CartLine) => l.userId != userId
  }

  /** `clear_cart(userId)` empties that user's cart and leaves every other user's cart as it was. */
  lemma {:induction false} ClearCartEffect(cart: seq<CartLine>, menu: seq<Dish>, userId: int, other: int)
    ensures CartItems(Where(cart, NotOwnedBy(userId)), menu, userId) == []
    ensures other != userId ==>
      CartItems(Where(cart, NotOwnedBy(userId)), menu, other) == CartItems(cart, menu, other)
  {
    if |cart| > 0 {
      ClearCartEffect(cart[1..], menu, userId, other);
      var rest := Where(cart[1..], NotOwnedBy(userId));
      if cart[0].userId != userId {
        var kept := [cart[0]] + rest;
        assert Where(cart, NotOwnedBy(userId)) == kept;
        assert kept[0] == cart[0] && kept[1..] == rest;
      } else {
        assert Where(cart, NotOwnedBy(userId)) == rest;
      }
    }
  }

  // ---------------------------------------------------------------------------
  // create_tables: seeding mon_an when it is empty

  /** The fifteen dishes `create_tables` inserts into an empty `mon_an`. */
  const SeedDishes: seq<DishData> := [
    DishData("Phở bò", 40000, ":/pic/pho_bo.jpg"),
    DishData("Cơm tấm", 40000, ":/pic/com_tam.jpg"),
    DishData("Cơm chiên", 30000, ":/pic/com_chien.jpg"),
    DishData("Hủ tiếu", 35000, ":/pic/hu_tieuu.jpg"),
    DishData("Hủ tiếu bò kho", 40000, ":/pic/hu_tieu_bo_kho.jpg"),
    DishData("Bánh canh", 35000, ":/pic/banh_canh.jpg"),
    DishData("Hoành thánh", 30000, ":/pic/hoanh_thanh.jpg"),
    DishData("Bún mọc", 30000, ":/pic/bun_moc.jpg"),
    DishData("Súp cua", 25000, ":/pic/sup_cua.jpg"),
    DishData("Bánh mì thịt", 25000, ":/pic/banh_mi.jpg"),
    DishData("Bánh canh cua", 45000, ":/pic/banh_canh_cua.jpg"),
    DishData("Cơm bò xào", 40000, ":/pic/com_bo_xao.jpg"),
    DishData("Bún bò Huế", 40000, ":/pic/bun_bo_hue.jpg"),
    DishData("Cơm gà chiên", 40000, ":/pic/com_ga_chien.jpg"),
    DishData("Cháo thịt bằm", 25000, ":/pic/chao_thit_bam.jpg")
  ]

  /** `executemany` of the INSERT: the data rows numbered with consecutive keys from `next`. */
  function Numbered(data: seq<DishData>, next: nat): seq<Dish> {
    seq(|data|, k requires 0 <= k < |data| => Dish(next + k, data[k].tenMon, data[k].gia, data[k].hinhAnh))
  }

  /** The `mon_an` table with its AUTOINCREMENT counter. */
  datatype MenuTable = MenuTable(rows: seq<Dish>, next: nat)

  /** The seeding step of `create_tables`: insert the seed dishes only when `COUNT(*) = 0`. */
  function SeededMenu(t: MenuTable): MenuTable {
    if |t.rows| == 0 then MenuTable(Numbered(SeedDishes, t.next), t.next + |SeedDishes|) else t
  }

  /**
   * Seeding is idempotent and never duplicates: a table with rows is left as
   * it is, an empty one receives exactly the fifteen seed dishes with fresh
   * keys, so running `create_tables` twice is the same as running it once.
   */
  lemma SeedingIdempotent(t: MenuTable)
    ensures SeededMenu(SeededMenu(t)) == SeededMenu(t)
    ensures |t.rows| > 0 ==> SeededMenu(t) == t
    ensures |t.rows| == 0 ==> |SeededMenu(t).rows| == 15
    ensures |t.rows| == 0 ==> forall k :: 0 <= k < 15 ==>
              SeededMenu(t).rows[k].id == t.next + k &&
              SeededMenu(t).rows[k].tenMon == SeedDishes[k].tenMon &&
              SeededMenu(t).rows[k].gia == SeedDishes[k].gia &&
              SeededMenu(t).rows[k].hinhAnh == SeedDishes[k].hinhAnh
  {
  }

  /** Seeding keeps the table's keys ascending and below its counter. */
  lemma SeedingKeepsKeys(t: MenuTable)
    requires Keyed(t.rows, DishKey, t.next)
    ensures Keyed(SeededMenu(t).rows, DishKey, SeededMenu(t).next)
  {
  }

  // ---------------------------------------------------------------------------
  // The store file

  /** The SQLite file `foodie.db`: its three tables and their AUTOINCREMENT counters. */
  class FoodieDb {
    var users: seq<User>
    var menu: seq<Dish>
    var cart: seq<CartLine>
    var nextUserId: nat
    var nextDishId: nat
    var nextLineId: nat

    /** What the schema guarantees: AUTOINCREMENT keys and `username UNIQUE`. */
    ghost predicate Valid()
      reads this
    {
      Keyed(users, UserKey, nextUserId) && Distinct(users, UsernameOf) &&
      Keyed(menu, DishKey, nextDishId) && Keyed(cart, LineKey, nextLineId)
    }

    /** What `add_to_cart` maintains: one line per (user, dish), quantities at least 1. */
    ghost predicate CartConsistent()
      reads this
    {
      Distinct(cart, PairOf) && forall k :: 0 <= k < |cart| ==> cart[k].soLuong >= 1
    }

    /** A newly created file: empty tables, first keys 1. */
    constructor ()
      ensures Valid() && CartConsistent()
      ensures users == [] && menu == [] && cart == []
      ensures nextUserId == 1 && nextDishId == 1 && nextLineId == 1
    {
      users, menu, cart := [], [], [];
      nextUserId, nextDishId, nextLineId := 1, 1, 1;
    }

    /** `create_tables`: the tables exist already; seed `mon_an` when it has no rows. */
    method CreateTables()
      requires Valid()
      modifies this
      ensures Valid()
      ensures MenuTable(menu, nextDishId) == SeededMenu(MenuTable(old(menu), old(nextDishId)))
      ensures users == old(users) && cart == old(cart)
      ensures nextUserId == old(nextUserId) && nextLineId == old(nextLineId)
    {
      var count := |menu|;
      if count == 0 {
        menu := menu + Numbered(SeedDishes, nextDishId);
        nextDishId := nextDishId + |SeedDishes|;
      }
    }

    /** `register_user`: INSERT, which fails on the `username UNIQUE` constraint. */
    method RegisterUser(username: string, password: string, ho: string, ten: string, sdt: string)
      returns (ok: bool)
      requires Valid()
      modifies this
      ensures Valid()
      ensures ok <==> !UsernameTaken(old(users), username)
      ensures ok ==> users == old(users) + [User(old(nextUserId), username, password, ho, ten, sdt)] &&
                     nextUserId == old(nextUserId) + 1
      ensures !ok ==> users == old(users) && nextUserId == old(nextUserId)
      ensures menu == old(menu) && cart == old(cart)
      ensures nextDishId == old(nextDishId) && nextLineId == old(nextLineId)
    {
      if UsernameTaken(users, username) {
        ok := false;
      } else {
        var row := User(nextUserId, username, password, ho, ten, sdt);
        KeyedAppend(users, row, UserKey, nextUserId);
        DistinctAppend(users, row, UsernameOf);
        users := users + [row];
        nextUserId := nextUserId + 1;
        ok := true;
      }
    }

    /**
     * `add_to_cart`: look up the line for the pair, then either
     * `UPDATE gio_hang SET so_luong=? WHERE id=?` with the line's quantity
     * plus 1 and its id, or `INSERT` a line with the default quantity.
     */
    method AddToCart(userId: int, monAnId: int) returns (ok: bool)
      requires Valid()
      modifies this
      ensures Valid() && ok
      ensures cart == AddedToCart(old(cart), old(nextLineId), userId, monAnId)
      ensures nextLineId == if FindLine(old(cart), userId, monAnId).Some? then old(nextLineId) else old(nextLineId) + 1
      ensures old(CartConsistent()) ==> CartConsistent()
      ensures users == old(users) && menu == old(menu)
      ensures nextUserId == old(nextUserId) && nextDishId == old(nextDishId)
    {
      AddToCartKeepsKeys(cart, nextLineId, userId, monAnId);
      if CartConsistent() {
        AddToCartKeepsOneLinePerPair(cart, nextLineId, userId, monAnId);
      }
      var item := FindLine(cart, userId, monAnId);
      if item.Some? {
        var line := cart[item.value];
        SetQuantityAt(cart, nextLineId, item.value, line.soLuong + 1);
        cart := SetQuantity(cart, line.id, line.soLuong + 1);
      } else {
        cart, nextLineId := cart + [CartLine(nextLineId, userId, monAnId, 1)], nextLineId + 1;
      }
      ok := true;
    }

    /** `clear_cart`: `DELETE FROM gio_hang WHERE user_id = ?`. */
    method ClearCart(userId: int) returns (ok: bool)
      requires Valid()
      modifies this
      ensures Valid() && ok
      ensures cart == Where(old(cart), NotOwnedBy(userId))
      ensures old(CartConsistent()) ==> CartConsistent()
      ensures users == old(users) && menu == old(menu)
      ensures nextUserId == old(nextUserId) && nextDishId == old(nextDishId) && nextLineId == old(nextLineId)
    {
      ghost var was := cart;
      WhereKeyed(cart, NotOwnedBy(userId), LineKey, nextLineId);
      if Distinct(cart, PairOf) {
        WhereDistinct(cart, NotOwnedBy(userId), PairOf);
      }
      cart := Where(cart, NotOwnedBy(userId));
      assert forall k :: 0 <= k < |cart| ==> cart[k] in was;
      ok := true;
    }
  }
}
