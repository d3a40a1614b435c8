/**
 * The request handlers of the web API, without the hosting: listing the
 * menu, looking it up by category, creating an order, and the start-up
 * sequence that prepares the store before any request is served.
 */
module Api {
  import opened Wrappers
  import opened Text
  import opened Categories
  import opened Data
  import opened Seeder

  /** The JSON body posted to /api/orders; an absent or null itemName is `None`. */
  datatype OrderBody = OrderBody(itemName: Option<string>, quantity: int)

  /** 200 with a list, 400 with an error message, 201 with a location and the created order. */
  datatype Response =
    | Ok(items: seq<MenuItem>)
    | BadRequest(error: string)
    | Created(location: string, order: Order)

  // ----- Category filter -----

  /** `MenuItems.Where(m => m.Category == c)`, in table order. */
  function Where(items: seq<MenuItem>, c: Category): (r: seq<MenuItem>)
    ensures |r| <= |items|
    ensures forall i :: 0 <= i < |r| ==> r[i].category == c
  {
    if items == [] then []
    else (if items[0].category == c then [items[0]] else []) + Where(items[1..], c)
  }

  /** The filter keeps table order: filtering a concatenation filters each part. */
  lemma {:induction false} WhereAppend(a: seq<MenuItem>, b: seq<MenuItem>, c: Category)
    ensures Where(a + b, c) == Where(a, c) + Where(b, c)
  {
    if a == [] {
      assert a + b == b;
    } else {
      assert (a + b)[0] == a[0];
      assert (a + b)[1..] == a[1..] + b;
      WhereAppend(a[1..], b, c);
    }
  }

  /** Completeness with multiplicity: every item of the category is returned
      as often as it occurs in the table, and no other item is returned. */
  lemma {:induction false} WhereComplete(items: seq<MenuItem>, c: Category, x: MenuItem)
    ensures multiset(Where(items, c))[x] == if x.category == c then multiset(items)[x] else 0
  {
    if items != [] {
      WhereComplete(items[1..], c, x);
      assert items == [items[0]] + items[1..];
    }
  }

  /** The lookups over all six categories together return the whole table:
      each item is found under its own category. */
  lemma WhereCoversTable(items: seq<MenuItem>, x: MenuItem)
    requires x in items
    ensures x in Where(items, x.category)
  {
    WhereComplete(items, x.category, x);
  }

  lemma {:induction false} WhereAllMatch(items: seq<MenuItem>, c: Category)
    requires forall i :: 0 <= i < |items| ==> items[i].category == c
    ensures Where(items, c) == items
  {
    if items != [] {
      WhereAllMatch(items[1..], c);
    }
  }

  lemma {:induction false} WhereNoneMatch(items: seq<MenuItem>, c: Category)
    requires forall i :: 0 <= i < |items| ==> items[i].category != c
    ensures Where(items, c) == []
  {
    if items != [] {
      WhereNoneMatch(items[1..], c);
    }
  }

  /** Numbering a batch does not change which categories it holds. */
  lemma {:induction false} WhereNumbered(items: seq<MenuItem>, first: int, c: Category)
    ensures |Where(Numbered(items, first), c)| == |Where(items, c)|
  {
    if items != [] {
      assert Numbered(items, first)[1..] == Numbered(items[1..], first + 1);
      WhereNumbered(items[1..], first + 1, c);
    }
  }

  /** The catalog lists 8 milk tea classics, 8 fruit teas, 5 cheese teas,
      6 special lattes and 7 seasonal specials, and no plain MilkTea. */
  lemma CatalogCategoryCounts()
    ensures |Where(Catalog, MilkTea)| == 0
    ensures |Where(Catalog, MilkTeaClassics)| == 8
    ensures |Where(Catalog, FruitTea)| == 8
    ensures |Where(Catalog, CheeseTea)| == 5
    ensures |Where(Catalog, SpecialLattes)| == 6
    ensures |Where(Catalog, SeasonalSpecials)| == 7
  {
    CatalogBlocks();
    FiveBlockCounts(MilkTeaClassicsEntries, FruitTeaEntries, CheeseTeaEntries,
                    SpecialLattesEntries, SeasonalSpecialsEntries);
  }

  /** On a freshly created and seeded store, the FruitTea lookup returns
      exactly eight items, all of that category. */
  lemma FreshStoreFruitTeaLookup()
    ensures |Where(Seeded(Tables([], [], 1, 1)).menuItems, FruitTea)| == 8
    ensures forall x :: x in Where(Seeded(Tables([], [], 1, 1)).menuItems, FruitTea) ==> x.category == FruitTea
  {
    CatalogCategoryCounts();
    WhereNumbered(Catalog, 1, FruitTea);
  }

  lemma FiveBlockCounts(b0: seq<MenuItem>, b1: seq<MenuItem>, b2: seq<MenuItem>,
                        b3: seq<MenuItem>, b4: seq<MenuItem>)
    requires forall i :: 0 <= i < |b0| ==> b0[i].category == MilkTeaClassics
    requires forall i :: 0 <= i < |b1| ==> b1[i].category == FruitTea
    requires forall i :: 0 <= i < |b2| ==> b2[i].category == CheeseTea
    requires forall i :: 0 <= i < |b3| ==> b3[i].category == SpecialLattes
    requires forall i :: 0 <= i < |b4| ==> b4[i].category == SeasonalSpecials
    ensures |Where(b0 + b1 + b2 + b3 + b4, MilkTea)| == 0
    ensures |Where(b0 + b1 + b2 + b3 + b4, MilkTeaClassics)| == |b0|
    ensures |Where(b0 + b1 + b2 + b3 + b4, FruitTea)| == |b1|
    ensures |Where(b0 + b1 + b2 + b3 + b4, CheeseTea)| == |b2|
    ensures |Where(b0 + b1 + b2 + b3 + b4, SpecialLattes)| == |b3|
    ensures |Where(b0 + b1 + b2 + b3 + b4, SeasonalSpecials)| == |b4|
  {
    FiveBlockCount(b0, b1, b2, b3, b4, MilkTea);
    FiveBlockCount(b0, b1, b2, b3, b4, MilkTeaClassics);
    FiveBlockCount(b0, b1, b2, b3, b4, FruitTea);
    FiveBlockCount(b0, b1, b2, b3, b4, CheeseTea);
    FiveBlockCount(b0, b1, b2, b3, b4, SpecialLattes);
    FiveBlockCount(b0, b1, b2, b3, b4, SeasonalSpecials);
  }

  lemma FiveBlockCount(b0: seq<MenuItem>, b1: seq<MenuItem>, b2: seq<MenuItem>,
                       b3: seq<MenuItem>, b4: seq<MenuItem>, c: Category)
    requires forall i :: 0 <= i < |b0| ==> b0[i].category == MilkTeaClassics
    requires forall i :: 0 <= i < |b1| ==> b1[i].category == FruitTea
    requires forall i :: 0 <= i < |b2| ==> b2[i].category == CheeseTea
    requires forall i :: 0 <= i < |b3| ==> b3[i].category == SpecialLattes
    requires forall i :: 0 <= i < |b4| ==> b4[i].category == SeasonalSpecials
    ensures |Where(b0 + b1 + b2 + b3 + b4, c)| ==
      (if c == MilkTeaClassics then |b0| else 0) + (if c == FruitTea then |b1| else 0)
      + (if c == CheeseTea then |b2| else 0) + (if c == SpecialLattes then |b3| else 0)
      + (if c == SeasonalSpecials then |b4| else 0)
  {
    FiveBlockSum(b0, b1, b2, b3, b4, c);
    BlockCount(b0, MilkTeaClassics, c);
    BlockCount(b1, FruitTea, c);
    BlockCount(b2, CheeseTea, c);
    BlockCount(b3, SpecialLattes, c);
    BlockCount(b4, SeasonalSpecials, c);
  }

  lemma FiveBlockSum(b0: seq<MenuItem>, b1: seq<MenuItem>, b2: seq<MenuItem>,
                     b3: seq<MenuItem>, b4: seq<MenuItem>, c: Category)
    ensures |Where(b0 + b1 + b2 + b3 + b4, c)| ==
      |Where(b0, c)| + |Where(b1, c)| + |Where(b2, c)| + |Where(b3, c)| + |Where(b4, c)|
  {
    WhereAppend(b0 + b1 + b2 + b3, b4, c);
    WhereAppend(b0 + b1 + b2, b3, c);
    WhereAppend(b0 + b1, b2, c);
    WhereAppend(b0, b1, c);
  }

  /** A run of items of one category contributes all of itself to that
      category and nothing to any other. */
  lemma BlockCount(block: seq<MenuItem>, kind: Category, c: Category)
    requires forall i :: 0 <= i < |block| ==> block[i].category == kind
    ensures |Where(block, c)| == if c == kind then |block| else 0
  {
    if c == kind {
      WhereAllMatch(block, c);
    } else {
      WhereNoneMatch(block, c);
    }
  }

  // ----- Order validation -----

  const ItemNameRequired: string := "ItemName is required"
  const QuantityNotPositive: string := "Quantity must be greater than 0"

  /** The two checks of the order endpoint, the name first. */
  function ValidateOrder(body: OrderBody): (error: Option<string>) {
    if IsNullOrWhiteSpace(body.itemName) then Some(ItemNameRequired)
    else if body.quantity <= 0 then Some(QuantityNotPositive)
    else None
  }

  /** What every stored order satisfies: a name that is not blank once
      trimmed, and a quantity of at least one. */
  predicate Accepted(o: Order) {
    Trim(o.itemName) != [] && o.quantity >= 1
  }

  /** The name error is reported exactly when the name is null or blank after
      trimming, whatever the quantity; the quantity error exactly when the
      name is fine and the quantity is not positive. */
  lemma ValidateOrderErrors(body: OrderBody)
    ensures ValidateOrder(body) == Some(ItemNameRequired) <==>
      body.itemName.None? || Trim(body.itemName.value) == []
    ensures ValidateOrder(body) == Some(QuantityNotPositive) <==>
      body.itemName.Some? && Trim(body.itemName.value) != [] && body.quantity <= 0
  {
    if body.itemName.Some? {
      TrimEmptyIffWhiteSpace(body.itemName.value);
    }
  }

  /** A body passes validation exactly when the order it describes is acceptable. */
  lemma ValidateOrderAccepts(body: OrderBody, id: int)
    ensures ValidateOrder(body) == None <==>
      body.itemName.Some? && Accepted(Order(id, body.itemName.value, body.quantity))
  {
    ValidateOrderErrors(body);
  }

  /** A well-formed order such as two "Taro Milk Tea" passes validation. */
  lemma ValidateOrderExample()
    ensures ValidateOrder(OrderBody(Some("Taro Milk Tea"), 2)) == None
    ensures ValidateOrder(OrderBody(Some(" \t"), 2)) == Some(ItemNameRequired)
    ensures ValidateOrder(OrderBody(None, 0)) == Some(ItemNameRequired)
    ensures ValidateOrder(OrderBody(Some("Taro Milk Tea"), 0)) == Some(QuantityNotPositive)
  {
    assert !IsWhiteSpace("Taro Milk Tea"[0]);
  }

  /** The Location header of a created order. */
  function OrderLocation(id: nat): (location: string) {
    "/api/orders/" + DecimalString(id)
  }

  /** The location names the order: the identity can be read back from it,
      and distinct orders get distinct locations. */
  lemma OrderLocationRoundTrip(id: nat)
    ensures |OrderLocation(id)| > 12 && OrderLocation(id)[..12] == "/api/orders/"
    ensures forall i :: 12 <= i < |OrderLocation(id)| ==> IsDigit(OrderLocation(id)[i])
    ensures DecimalValue(OrderLocation(id)[12..]) == id
  {
    assert OrderLocation(id)[12..] == DecimalString(id);
    DecimalRoundTrip(id);
  }

  // ----- Handlers -----

  /** GET /api/menu: the whole table, as stored. */
  method GetAllMenuItems(db: AppDbContext) returns (r: Response)
    ensures r == Ok(db.menuItems)
  {
    r := Ok(db.menuItems);
  }

  /** GET /api/menu/{category}: 400 unless the text names a category in some
      casing; otherwise the items of that category, in table order. */
  method GetMenuItemsByCategory(db: AppDbContext, category: string) returns (r: Response)
    ensures (forall c: Category :: !EqualsIgnoreCase(category, Name(c))) ==>
      r == BadRequest("Invalid category: " + category)
    ensures forall c: Category :: EqualsIgnoreCase(category, Name(c)) ==>
      r == Ok(Where(db.menuItems, c))
  {
    ParseSound(category);
    forall c: Category | EqualsIgnoreCase(category, Name(c)) ensures Parse(category) == Some(c) {
      ParseAnyCasing(category, c);
    }
    match Parse(category)
    case None =>
      r := BadRequest("Invalid category: " + category);
    case Some(c) =>
      r := Ok(Where(db.menuItems, c));
  }

  /** POST /api/orders: a rejected body changes nothing; an accepted one
      appends exactly one order with a fresh identity. */
  method CreateOrder(db: AppDbContext, body: OrderBody) returns (r: Response)
    requires db.Valid()
    modifies db
    ensures db.Valid()
    ensures ValidateOrder(body).Some? ==>
      r == BadRequest(ValidateOrder(body).value) && db.State() == old(db.State())
    ensures ValidateOrder(body).None? ==>
      && body.itemName.Some?
      && r == Created(OrderLocation(old(db.nextOrderId)),
                      Order(old(db.nextOrderId), body.itemName.value, body.quantity))
      && Accepted(r.order)
      && (forall i :: 0 <= i < |old(db.orders)| ==> old(db.orders)[i].id != r.order.id)
      && db.orders == old(db.orders) + [r.order]
      && db.nextOrderId == old(db.nextOrderId) + 1
      && db.menuItems == old(db.menuItems) && db.nextMenuId == old(db.nextMenuId)
  {
    match ValidateOrder(body)
    case Some(e) =>
      r := BadRequest(e);
    case None =>
      ValidateOrderAccepts(body, db.nextOrderId);
      var order := db.AddOrder(body.itemName.value, body.quantity);
      r := Created(OrderLocation(order.id), order);
  }

  // ----- Start-up and serving -----

  /** `Database.EnsureCreated()`: an existing database is kept as it is; a
      missing one is created with both tables empty. */
  method EnsureCreated(existing: AppDbContext?) returns (db: AppDbContext)
    requires existing != null ==> existing.Valid()
    ensures db.Valid()
    ensures existing != null ==> db == existing
    ensures existing == null ==> fresh(db) && db.State() == Tables([], [], 1, 1)
  {
    if existing != null {
      db := existing;
    } else {
      db := new AppDbContext();
    }
  }

  /** The start-up sequence: create the schema if needed, then seed. */
  method Startup(existing: AppDbContext?) returns (db: AppDbContext)
    requires existing != null ==> existing.Valid()
    modifies existing
    ensures db.Valid() && db.menuItems != []
    ensures existing != null ==> db == existing && db.State() == Seeded(old(existing.State()))
    ensures existing == null ==> fresh(db) && db.State() == Seeded(Tables([], [], 1, 1))
  {
    db := EnsureCreated(existing);
    ghost var before := db.State();
    SeedData(db);
    SeededNotEmpty(before);
  }

  datatype Request =
    | GetMenu
    | GetMenuByCategory(category: string)
    | PostOrder(body: OrderBody)

  /** Whether a request is an order that passes validation. */
  predicate IsAcceptedPost(req: Request) {
    req.PostOrder? && ValidateOrder(req.body).None?
  }

  /** What the handlers promise about the response to one request, given
      the menu table it was served from. */
  ghost predicate Answers(menu: seq<MenuItem>, req: Request, r: Response) {
    match req
    case GetMenu => r == Ok(menu)
    case GetMenuByCategory(category) =>
      && ((forall c: Category :: !EqualsIgnoreCase(category, Name(c))) ==>
            r == BadRequest("Invalid category: " + category))
      && (forall c: Category :: EqualsIgnoreCase(category, Name(c)) ==> r == Ok(Where(menu, c)))
    case PostOrder(body) =>
      match ValidateOrder(body)
      case Some(e) => r == BadRequest(e)
      case None =>
        && r.Created? && r.order.id >= 1 && r.location == OrderLocation(r.order.id)
        && body.itemName == Some(r.order.itemName) && r.order.quantity == body.quantity
  }

  /** Dispatch of one request to its handler. */
  method Handle(db: AppDbContext, req: Request) returns (r: Response)
    requires db.Valid()
    modifies db
    ensures db.Valid()
    ensures db.menuItems == old(db.menuItems)
    ensures Answers(db.menuItems, req, r)
    ensures old(db.orders) <= db.orders
    ensures |db.orders| == |old(db.orders)| + (if IsAcceptedPost(req) then 1 else 0)
    ensures db.orders == old(db.orders) + if IsAcceptedPost(req) && r.Created? then [r.order] else []
    ensures forall i :: |old(db.orders)| <= i < |db.orders| ==> Accepted(db.orders[i])
    ensures db.nextMenuId == old(db.nextMenuId)
    ensures db.nextOrderId == old(db.nextOrderId) + (if IsAcceptedPost(req) then 1 else 0)
  {
    match req
    case GetMenu =>
      r := GetAllMenuItems(db);
    case GetMenuByCategory(category) =>
      r := GetMenuItemsByCategory(db, category);
    case PostOrder(body) =>
      r := CreateOrder(db, body);
  }

  /** The orders that the responses to `requests` report as created, in
      request order. */
  function CreatedOrders(requests: seq<Request>, responses: seq<Response>): (os: seq<Order>)
    requires |requests| == |responses|
    ensures |os| <= |requests|
  {
    if requests == [] then []
    else
      var n := |requests| - 1;
      CreatedOrders(requests[..n], responses[..n])
        + if IsAcceptedPost(requests[n]) && responses[n].Created? then [responses[n].order] else []
  }

  /** The number of order requests in `requests` that pass validation. */
  function AcceptedPosts(requests: seq<Request>): (n: nat)
    ensures n <= |requests|
  {
    if requests == [] then 0
    else AcceptedPosts(requests[..|requests| - 1]) + (if IsAcceptedPost(requests[|requests| - 1]) then 1 else 0)
  }

  /** What serving `reqs` from the orders table `start` has produced: the
      responses answer their requests, and the table `orders` is `start`
      followed by the orders created, each acceptable. */
  ghost predicate Served(menu: seq<MenuItem>, start: seq<Order>, orders: seq<Order>, reqs: seq<Request>, resps: seq<Response>) {
    && |reqs| == |resps|
    && |orders| == |start| + AcceptedPosts(reqs)
    && orders == start + CreatedOrders(reqs, resps)
    && (forall i :: |start| <= i < |orders| ==> Accepted(orders[i]))
    && (forall i :: 0 <= i < |reqs| ==> Answers(menu, reqs[i], resps[i]))
  }

  /** Serving one more request as `Handle` promises keeps `Served`. */
  lemma ServedOneMore(menu: seq<MenuItem>, start: seq<Order>, before: seq<Order>, after: seq<Order>,
                      reqs: seq<Request>, resps: seq<Response>, req: Request, r: Response)
    requires Served(menu, start, before, reqs, resps)
    requires Answers(menu, req, r)
    requires |after| == |before| + (if IsAcceptedPost(req) then 1 else 0)
    requires after == before + if IsAcceptedPost(req) && r.Created? then [r.order] else []
    requires forall i :: |before| <= i < |after| ==> Accepted(after[i])
    ensures Served(menu, start, after, reqs + [req], resps + [r])
  {
    var n := |reqs|;
    assert (reqs + [req])[..n] == reqs;
    assert (resps + [r])[..n] == resps;
    forall i | |start| <= i < |after| ensures Accepted(after[i]) {
      if i < |before| {
        assert after[i] == before[i];
      }
    }
  }

  /** Serving a sequence of requests one after another on a started store:
      the menu never changes, every response is what its handler promises,
      and the orders table becomes the old one followed by exactly the
      orders the responses report as created, in request order. */
  method Serve(db: AppDbContext, requests: seq<Request>) returns (responses: seq<Response>)
    requires db.Valid()
    modifies db
    ensures db.Valid() && |responses| == |requests|
    ensures db.menuItems == old(db.menuItems)
    ensures forall i :: 0 <= i < |requests| ==> Answers(db.menuItems, requests[i], responses[i])
    ensures old(db.orders) <= db.orders
    ensures |db.orders| == |old(db.orders)| + AcceptedPosts(requests)
    ensures db.orders == old(db.orders) + CreatedOrders(requests, responses)
    ensures forall i :: |old(db.orders)| <= i < |db.orders| ==> Accepted(db.orders[i])
    ensures db.nextMenuId == old(db.nextMenuId)
    ensures db.nextOrderId == old(db.nextOrderId) + AcceptedPosts(requests)
  {
    ghost var menu, start := db.menuItems, db.orders;
    ghost var menuId, orderId := db.nextMenuId, db.nextOrderId;
    responses := [];
    var k := 0;
    while k < |requests|
      invariant 0 <= k <= |requests|
      invariant db.Valid() && db.menuItems == menu
      invariant Served(menu, start, db.orders, requests[..k], responses)
      invariant db.nextMenuId == menuId
      invariant db.nextOrderId == orderId + AcceptedPosts(requests[..k])
    {
      ghost var before := db.orders;
      var r := Handle(db, requests[k]);
      ServedOneMore(menu, start, before, db.orders, requests[..k], responses, requests[k], r);
      assert requests[..k] + [requests[k]] == requests[..k + 1];
      assert requests[..k + 1][..k] == requests[..k];
      responses := responses + [r];
      k := k + 1;
    }
    assert requests[..k] == requests;
  }

  /** The process: start-up, then the requests. The menu is populated before
      the first request is handled and stays as seeding left it. */
  method Run(existing: AppDbContext?, requests: seq<Request>) returns (db: AppDbContext, responses: seq<Response>)
    requires existing != null ==> existing.Valid()
    modifies existing
    ensures db.Valid() && |responses| == |requests|
    ensures db.menuItems != []
    ensures existing != null ==> db == existing && db.menuItems == Seeded(old(existing.State())).menuItems
    ensures existing == null ==> fresh(db) && db.menuItems == Seeded(Tables([], [], 1, 1)).menuItems
    ensures forall i :: 0 <= i < |requests| ==> Answers(db.menuItems, requests[i], responses[i])
    ensures existing != null ==> old(existing.orders) <= db.orders
    ensures |db.orders| == old(if existing != null then |existing.orders| else 0) + AcceptedPosts(requests)
    ensures db.orders == old(if existing != null then existing.orders else []) + CreatedOrders(requests, responses)
    ensures forall i :: old(if existing != null then |existing.orders| else 0) <= i < |db.orders| ==> Accepted(db.orders[i])
    ensures existing != null ==> db.nextMenuId == Seeded(old(existing.State())).nextMenuId
    ensures existing == null ==> db.nextMenuId == Seeded(Tables([], [], 1, 1)).nextMenuId
    ensures db.nextOrderId == old(if existing != null then existing.nextOrderId else 1) + AcceptedPosts(requests)
  {
    db := Startup(existing);
    responses := Serve(db, requests);
  }
}
