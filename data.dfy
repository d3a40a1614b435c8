/**
 * The database context: the two tables, the identities the store hands
 * out, and how a menu item's category is written to and read from its row.
 */
module Data {
  import opened Wrappers
  import opened Text
  import opened Categories

  /** A drink on the menu; `price` is in cents. */
  datatype MenuItem = MenuItem(id: int, name: string, description: string, price: int, category: Category)

  /** A recorded order; `itemName` is free text, not a reference to a menu item. */
  datatype Order = Order(id: int, itemName: string, quantity: int)

  /** A MenuItems row as stored: the category column holds text. */
  datatype MenuRow = MenuRow(id: int, name: string, description: string, price: int, category: string)

  /** The category conversion configured on the model, towards the store. */
  function CategoryToProvider(c: Category): (stored: string) {
    Name(c)
  }

  /** The same conversion, back from the store; unknown text is `None`. */
  function CategoryFromProvider(s: string): (c: Option<Category>) {
    Parse(s)
  }

  /** A menu item as the MenuItems table stores it, its category as text. */
  function ToRow(m: MenuItem): (row: MenuRow) {
    MenuRow(m.id, m.name, m.description, m.price, CategoryToProvider(m.category))
  }

  /** A stored row read back; a row whose category text names no member has no item. */
  function FromRow(r: MenuRow): (m: Option<MenuItem>) {
    match CategoryFromProvider(r.category)
    case None => None
    case Some(c) => Some(MenuItem(r.id, r.name, r.description, r.price, c))
  }

  /** The stored value is the member's name text, never its ordinal's digits. */
  lemma StoredCategoryIsName(c: Category)
    ensures CategoryToProvider(c) == Name(c)
    ensures CategoryToProvider(c) != DecimalString(Ordinal(c))
  {
    var s := DecimalString(Ordinal(c));
    assert IsDigit(s[0]);
  }

  lemma {:induction false} CategoryRoundTrip(c: Category)
    ensures CategoryFromProvider(CategoryToProvider(c)) == Some(c)
  {
    ParseName(c);
  }

  /** Distinct categories are stored as distinct strings. */
  lemma CategoryToProviderInjective(c1: Category, c2: Category)
    ensures CategoryToProvider(c1) == CategoryToProvider(c2) ==> c1 == c2
  {
    NameLengthsDistinct(c1, c2);
  }

  /** Writing a menu item and reading its row back gives the same item. */
  lemma RowRoundTrip(m: MenuItem)
    ensures FromRow(ToRow(m)) == Some(m)
  {
    CategoryRoundTrip(m.category);
  }

  /** The store's contents as a value: exactly two tables and the next
      identity each will hand out. */
  datatype Tables = Tables(menuItems: seq<MenuItem>, orders: seq<Order>, nextMenuId: int, nextOrderId: int)

  /** Identities are positive, below the next one to be handed out, and
      increase along the table, so no two rows share one. */
  predicate IdsFresh(ids: seq<int>, next: int) {
    && (forall i :: 0 <= i < |ids| ==> 1 <= ids[i] < next)
    && (forall i, j :: 0 <= i < j < |ids| ==> ids[i] < ids[j])
  }

  function MenuIds(items: seq<MenuItem>): (ids: seq<int>)
    ensures |ids| == |items| && forall i :: 0 <= i < |items| ==> ids[i] == items[i].id
  {
    seq(|items|, i requires 0 <= i < |items| => items[i].id)
  }

  function OrderIds(orders: seq<Order>): (ids: seq<int>)
    ensures |ids| == |orders| && forall i :: 0 <= i < |orders| ==> ids[i] == orders[i].id
  {
    seq(|orders|, i requires 0 <= i < |orders| => orders[i].id)
  }

  predicate WellFormed(t: Tables) {
    && t.nextMenuId >= 1
    && t.nextOrderId >= 1
    && IdsFresh(MenuIds(t.menuItems), t.nextMenuId)
    && IdsFresh(OrderIds(t.orders), t.nextOrderId)
  }

  /** The identities the store assigns to a bulk insert, in order. */
  function Numbered(items: seq<MenuItem>, first: int): (r: seq<MenuItem>)
    ensures |r| == |items|
  {
    seq(|items|, k requires 0 <= k < |items| => items[k].(id := first + k))
  }

  /** Appending a numbered batch from the next identity keeps the identities fresh. */
  lemma NumberedKeepsIdsFresh(items: seq<MenuItem>, batch: seq<MenuItem>, next: int)
    requires next >= 1 && IdsFresh(MenuIds(items), next)
    ensures IdsFresh(MenuIds(items + Numbered(batch, next)), next + |batch|)
  {
    var all := items + Numbered(batch, next);
    forall i, j | 0 <= i < j < |all| ensures all[i].id < all[j].id {
      if j >= |items| {
        assert all[j].id == next + (j - |items|);
      }
    }
  }

  class AppDbContext {
    /** The MenuItems table. */
    var menuItems: seq<MenuItem>
    /** The Orders table. */
    var orders: seq<Order>
    var nextMenuId: int
    var nextOrderId: int

    function State(): Tables
      reads this
    {
      Tables(menuItems, orders, nextMenuId, nextOrderId)
    }

    ghost predicate Valid()
      reads this
    {
      WellFormed(State())
    }

    /** A freshly created database: both tables exist and are empty. */
    constructor ()
      ensures Valid()
      ensures menuItems == [] && orders == []
      ensures nextMenuId == 1 && nextOrderId == 1
    {
      menuItems, orders := [], [];
      nextMenuId, nextOrderId := 1, 1;
    }

    /** `MenuItems.Any()`. */
    predicate HasMenuItems()
      reads this
    {
      menuItems != []
    }

    /** `MenuItems.AddRange(items)` followed by `SaveChanges()`: the batch is
        appended in order, each item taking the next identity. */
    method AddMenuItems(items: seq<MenuItem>)
      requires Valid()
      modifies this
      ensures Valid()
      ensures menuItems == old(menuItems) + Numbered(items, old(nextMenuId))
      ensures nextMenuId == old(nextMenuId) + |items|
      ensures orders == old(orders) && nextOrderId == old(nextOrderId)
    {
      NumberedKeepsIdsFresh(menuItems, items, nextMenuId);
      menuItems := menuItems + Numbered(items, nextMenuId);
      nextMenuId := nextMenuId + |items|;
    }

    /** `Orders.Add(order)` followed by `SaveChanges()`: the order is appended
        and carries the identity the store assigned. */
    method AddOrder(itemName: string, quantity: int) returns (o: Order)
      requires Valid()
      modifies this
      ensures Valid()
      ensures o == Order(old(nextOrderId), itemName, quantity)
      ensures forall i :: 0 <= i < |old(orders)| ==> old(orders)[i].id != o.id
      ensures orders == old(orders) + [o]
      ensures nextOrderId == old(nextOrderId) + 1
      ensures menuItems == old(menuItems) && nextMenuId == old(nextMenuId)
    {
      o := Order(nextOrderId, itemName, quantity);
      orders := orders + [o];
      nextOrderId := nextOrderId + 1;
      assert OrderIds(orders) == OrderIds(old(orders)) + [o.id];
    }
  }
}
