/**
 * The order workflow: pricing and creating an order from line items, the
 * cancellation and status-update rules, and the per-item order view.
 */
module OrderService {
  import opened Base
  import opened Records
  import opened Text
  import opened Store
  import ProductCrud
  import AddressCrud
  import opened OrderCrud

  /** A requested (product, quantity) pair. */
  datatype LineItem = LineItem(productId: Id, quantity: int)

  /** What a customer submits: where to deliver and what to deliver. */
  datatype OrderRequest = OrderRequest(addressId: Id, items: seq<LineItem>)

  /** Every requested product is in the catalog. */
  predicate AllProductsExist(catalog: seq<Product>, lines: seq<LineItem>)
  {
    forall i :: 0 <= i < |lines| ==> ProductCrud.Get(catalog, lines[i].productId).Some?
  }

  /** The item entry for one line: the product's price captured now, and price times quantity. */
  function EntryFor(line: LineItem, p: Product): ItemData
  {
    ItemData(line.productId, line.quantity, p.price, p.price * line.quantity)
  }

  /** One entry per line, in line order, each priced from the catalog. */
  function PricedEntries(catalog: seq<Product>, lines: seq<LineItem>): (r: seq<ItemData>)
    requires AllProductsExist(catalog, lines)
    ensures |r| == |lines|
    ensures forall i :: 0 <= i < |lines| ==> r[i] == EntryFor(lines[i], ProductCrud.Get(catalog, lines[i].productId).value)
  {
    seq(|lines|, i requires 0 <= i < |lines| => EntryFor(lines[i], ProductCrud.Get(catalog, lines[i].productId).value))
  }

  /** The sum over the lines of the catalog price times the quantity, starting from 0. */
  function LinesTotal(catalog: seq<Product>, lines: seq<LineItem>): int
    requires AllProductsExist(catalog, lines)
  {
    if lines == [] then 0
    else
      var last := lines[|lines| - 1];
      LinesTotal(catalog, lines[..|lines| - 1]) + ProductCrud.Get(catalog, last.productId).value.price * last.quantity
  }

  /** With positive prices and quantities, a non-empty order costs something. */
  lemma {:induction false} LinesTotalPositive(catalog: seq<Product>, lines: seq<LineItem>)
    requires AllProductsExist(catalog, lines)
    requires forall i :: 0 <= i < |catalog| ==> catalog[i].price > 0
    requires forall i :: 0 <= i < |lines| ==> lines[i].quantity > 0
    ensures lines == [] ==> LinesTotal(catalog, lines) == 0
    ensures lines != [] ==> LinesTotal(catalog, lines) > 0
  {
    if lines != [] {
      var init := lines[..|lines| - 1];
      LinesTotalPositive(catalog, init);
      var p := ProductCrud.Get(catalog, lines[|lines| - 1].productId).value;
      assert p.price > 0;
      assert p.price * lines[|lines| - 1].quantity > 0;
    }
  }

  /** The total of a concatenation of line lists is the sum of their totals. */
  lemma {:induction false} LinesTotalAppend(catalog: seq<Product>, a: seq<LineItem>, b: seq<LineItem>)
    requires AllProductsExist(catalog, a + b)
    ensures AllProductsExist(catalog, a) && AllProductsExist(catalog, b)
    ensures LinesTotal(catalog, a + b) == LinesTotal(catalog, a) + LinesTotal(catalog, b)
    decreases |b|
  {
    assert AllProductsExist(catalog, a) by {
      assert forall i :: 0 <= i < |a| ==> (a + b)[i] == a[i];
    }
    assert AllProductsExist(catalog, b) by {
      assert forall i :: 0 <= i < |b| ==> (a + b)[|a| + i] == b[i];
    }
    if b == [] {
      assert a + b == a;
    } else {
      var init := b[..|b| - 1];
      assert (a + b)[..|a + b| - 1] == a + init;
      LinesTotalAppend(catalog, a, init);
    }
  }

  /** Pricing one more line extends the entries by that line's entry and the total by its amount. */
  lemma PricingStep(catalog: seq<Product>, lines: seq<LineItem>, i: nat)
    requires i < |lines|
    requires AllProductsExist(catalog, lines[..i])
    requires ProductCrud.Get(catalog, lines[i].productId).Some?
    ensures AllProductsExist(catalog, lines[..i + 1])
    ensures var p := ProductCrud.Get(catalog, lines[i].productId).value;
      && PricedEntries(catalog, lines[..i + 1]) == PricedEntries(catalog, lines[..i]) + [EntryFor(lines[i], p)]
      && LinesTotal(catalog, lines[..i + 1]) == LinesTotal(catalog, lines[..i]) + p.price * lines[i].quantity
  {
    var next := lines[..i + 1];
    assert next[..i] == lines[..i];
    assert forall j :: 0 <= j < i ==> next[j] == lines[..i][j];
  }

  /** The item entries of an order and its total. */
  datatype Pricing = Pricing(entries: seq<ItemData>, total: int)

  /**
   * The loop of order creation: looks up each line's product, failing on
   * the first missing one, snapshots its price into an entry and adds price
   * times quantity to the running total.
   */
  method PriceLines(catalog: seq<Product>, lines: seq<LineItem>) returns (r: Result<Pricing>)
    ensures r.Failure? <==> !AllProductsExist(catalog, lines)
    ensures r.Failure? ==> r.error == NotFound
    ensures r.Success? ==> r.value.entries == PricedEntries(catalog, lines)
    ensures r.Success? ==> r.value.total == LinesTotal(catalog, lines)
  {
    var total := 0;
    var entries := [];
    var i := 0;
    while i < |lines|
      invariant 0 <= i <= |lines|
      invariant AllProductsExist(catalog, lines[..i])
      invariant entries == PricedEntries(catalog, lines[..i])
      invariant total == LinesTotal(catalog, lines[..i])
    {
      var line := lines[i];
      var product := ProductCrud.Get(catalog, line.productId);
      if product.None? {
        return Failure(NotFound);
      }
      var itemPrice := product.value.price * line.quantity;
      total := total + itemPrice;
      entries := entries + [ItemData(line.productId, line.quantity, product.value.price, itemPrice)];
      PricingStep(catalog, lines, i);
      i := i + 1;
    }
    assert lines[..i] == lines;
    r := Success(Pricing(entries, total));
  }

  /** The items stored for a freshly created order follow the line items one to one, and all their products resolve. */
  lemma CreatedItemsFollowLines(catalog: seq<Product>, lines: seq<LineItem>, orderId: Id, firstId: Id)
    requires AllProductsExist(catalog, lines)
    ensures
      var its := NewItems(orderId, firstId, PricedEntries(catalog, lines));
      && |its| == |lines|
      && ItemsResolve(catalog, its)
      && forall i :: 0 <= i < |lines| ==>
           && its[i].orderId == orderId
           && its[i].productId == lines[i].productId
           && its[i].quantity == lines[i].quantity
           && its[i].unitPrice == ProductCrud.Get(catalog, lines[i].productId).value.price
  {
  }

  /** The stored items of an order priced from `lines` add up, at their captured prices, to the order's total. */
  lemma {:induction false} TotalMatchesItems(catalog: seq<Product>, lines: seq<LineItem>, orderId: Id, firstId: Id)
    requires AllProductsExist(catalog, lines)
    ensures ItemsTotal(NewItems(orderId, firstId, PricedEntries(catalog, lines))) == LinesTotal(catalog, lines)
  {
    if lines != [] {
      var n := |lines| - 1;
      PricedEntriesPrefix(catalog, lines, n);
      TotalMatchesItems(catalog, lines[..n], orderId, firstId);
      NewItemsPrefix(orderId, firstId, PricedEntries(catalog, lines), n);
    }
  }

  /** Pricing a prefix of the lines gives the matching prefix of the entries. */
  lemma PricedEntriesPrefix(catalog: seq<Product>, lines: seq<LineItem>, n: nat)
    requires AllProductsExist(catalog, lines)
    requires n <= |lines|
    ensures AllProductsExist(catalog, lines[..n])
    ensures PricedEntries(catalog, lines)[..n] == PricedEntries(catalog, lines[..n])
  {
    assert forall i :: 0 <= i < n ==> lines[..n][i] == lines[i];
  }

  /**
   * In a consistent session, the items stored under the key a new order
   * takes add up to the total that order was created with.
   */
  lemma CreatedOrderTotalMatchesItems(orders: seq<Order>, items: seq<OrderItem>, addresses: seq<Address>, next: nat,
                                      catalog: seq<Product>, lines: seq<LineItem>)
    requires KeysBelow(orders, items, addresses, next)
    requires AllProductsExist(catalog, lines)
    ensures ItemsTotal(ItemsOf(items + NewItems(next, next + 1, PricedEntries(catalog, lines)), next))
         == LinesTotal(catalog, lines)
  {
    NextKeyOwnsCreatedItems(orders, items, addresses, next, PricedEntries(catalog, lines));
    TotalMatchesItems(catalog, lines, next, next + 1);
  }

  /**
   * Prices the request against the catalog and, only if every product
   * exists, creates a PENDING order for `userId` at the requested address
   * with the computed total, and one item per line.
   */
  method CreateOrder(db: Session, request: OrderRequest, userId: Id, createdAt: int) returns (r: Result<Order>)
    requires db.Valid()
    modifies db`orders, db`orderItems, db`nextId
    ensures db.Valid()
    ensures r.Failure? <==> !AllProductsExist(old(db.products), request.items)
    ensures r.Failure? ==>
      r.error == NotFound && db.orders == old(db.orders) && db.orderItems == old(db.orderItems) && db.nextId == old(db.nextId)
    ensures r.Success? ==>
      var entries := PricedEntries(old(db.products), request.items);
      && r.value == Order(old(db.nextId), userId, request.addressId, LinesTotal(old(db.products), request.items), Pending, createdAt)
      && db.orders == old(db.orders) + [r.value]
      && db.orderItems == old(db.orderItems) + NewItems(r.value.id, r.value.id + 1, entries)
  {
    var pricing := PriceLines(db.products, request.items);
    if pricing.Failure? {
      return Failure(pricing.error);
    }
    var entries := pricing.value.entries;
    var data := OrderData(request.addressId, pricing.value.total, Pending);
    var order := CreateWithItems(db, data, userId, entries, createdAt);
    r := Success(order);
  }

  /** The source's cancellation guard, `status in OrderStatus.DELIVERED`: a substring test on the status strings. */
  predicate CancelBlocked(s: OrderStatus)
  {
    Contains(StatusValue(Delivered), StatusValue(s))
  }

  /** No status string other than "delivered" occurs inside "delivered", so the guard is plain equality. */
  lemma CancelBlockedIffDelivered(s: OrderStatus)
    ensures CancelBlocked(s) <==> s == Delivered
  {
    var h := StatusValue(Delivered);
    match s
    case Delivered => assert IsPrefix(h, h);
    case Delivering => NoOccurrence(h, StatusValue(s));
    case Pending => assert 'p' !in h; NoOccurrence(h, StatusValue(s));
    case Preparing => assert 'p' !in h; NoOccurrence(h, StatusValue(s));
    case Confirmed => assert 'c' !in h; NoOccurrence(h, StatusValue(s));
    case Cancelled => assert 'c' !in h; NoOccurrence(h, StatusValue(s));
  }

  /** The status cancellation moves to: refused from DELIVERED, CANCELLED from anything else. */
  function CancelStatus(s: OrderStatus): (r: Result<OrderStatus>)
    ensures r.Failure? <==> s == Delivered
    ensures r.Failure? ==> r.error == InvalidTransition
    ensures r.Success? ==> r.value == Cancelled
  {
    CancelBlockedIffDelivered(s);
    if CancelBlocked(s) then Failure(InvalidTransition) else Success(Cancelled)
  }

  /**
   * The status a status update moves to: refused when the order is
   * CANCELLED or DELIVERED and the new status differs; otherwise the new
   * status, with no ordering among the other states.
   */
  function StatusChange(current: OrderStatus, requested: OrderStatus): (r: Result<OrderStatus>)
    ensures r.Failure? <==> IsTerminal(current) && requested != current
    ensures r.Failure? ==> r.error == InvalidTransition
    ensures r.Success? ==> r.value == requested
  {
    if current == Cancelled && requested != Cancelled then Failure(InvalidTransition)
    else if current == Delivered && requested != Delivered then Failure(InvalidTransition)
    else Success(requested)
  }

  /** The orders table after cancelling order `orderId`. */
  function ApplyCancel(orders: seq<Order>, orderId: Id): (r: Result<seq<Order>>)
    ensures Find(orders, orderId).None? ==> r == Failure(NotFound)
    ensures Find(orders, orderId).Some? ==>
      var k := Find(orders, orderId).value;
      && (orders[k].status == Delivered ==> r == Failure(InvalidTransition))
      && (orders[k].status != Delivered ==> r == Success(orders[k := orders[k].(status := Cancelled)]))
  {
    match Find(orders, orderId)
    case None => Failure(NotFound)
    case Some(k) =>
      match CancelStatus(orders[k].status)
      case Failure(e) => Failure(e)
      case Success(s) =>
        StatusOnlyChangesStatus(orders[k], s);
        Success(orders[k := ApplyPatch(orders[k], StatusOnly(s))])
  }

  /** The orders table after setting the status of order `orderId` to `status`. */
  function ApplyStatusChange(orders: seq<Order>, orderId: Id, status: OrderStatus): (r: Result<seq<Order>>)
    ensures Find(orders, orderId).None? ==> r == Failure(NotFound)
    ensures Find(orders, orderId).Some? ==>
      var k := Find(orders, orderId).value;
      && (IsTerminal(orders[k].status) && status != orders[k].status ==> r == Failure(InvalidTransition))
      && (!IsTerminal(orders[k].status) || status == orders[k].status ==>
            r == Success(orders[k := orders[k].(status := status)]))
  {
    match Find(orders, orderId)
    case None => Failure(NotFound)
    case Some(k) =>
      match StatusChange(orders[k].status, status)
      case Failure(e) => Failure(e)
      case Success(s) =>
        StatusOnlyChangesStatus(orders[k], s);
        Success(orders[k := ApplyPatch(orders[k], StatusOnly(s))])
  }

  /** Changing a row's status keeps its key, so the lookup by key finds the same row. */
  lemma StatusEditKeepsFind(orders: seq<Order>, orderId: Id, status: OrderStatus)
    requires Find(orders, orderId).Some?
    ensures var k := Find(orders, orderId).value;
            Find(orders[k := orders[k].(status := status)], orderId) == Some(k)
  {
    var k := Find(orders, orderId).value;
    Queries.IndexWhereAgrees(orders[k := orders[k].(status := status)], OrderCrud.HasId(orderId), orders, OrderCrud.HasId(orderId));
  }

  /** Cancelling twice gives the same table as cancelling once. */
  lemma CancelIdempotent(orders: seq<Order>, orderId: Id)
    requires ApplyCancel(orders, orderId).Success?
    ensures ApplyCancel(ApplyCancel(orders, orderId).value, orderId) == ApplyCancel(orders, orderId)
  {
    StatusEditKeepsFind(orders, orderId, Cancelled);
    var k := Find(orders, orderId).value;
    var once := orders[k := orders[k].(status := Cancelled)];
    assert once[k := once[k].(status := Cancelled)] == once;
  }

  /** Once cancelled, an order accepts no status update other than CANCELLED again. */
  lemma CancelledOrderStaysCancelled(orders: seq<Order>, orderId: Id, status: OrderStatus)
    requires ApplyCancel(orders, orderId).Success?
    ensures ApplyStatusChange(ApplyCancel(orders, orderId).value, orderId, status).Success? <==> status == Cancelled
  {
    StatusEditKeepsFind(orders, orderId, Cancelled);
  }

  /** A status update on a CANCELLED or DELIVERED order either fails or leaves the table as it was. */
  lemma TerminalStatusIsSticky(orders: seq<Order>, orderId: Id, status: OrderStatus)
    requires Find(orders, orderId).Some? && IsTerminal(orders[Find(orders, orderId).value].status)
    ensures ApplyStatusChange(orders, orderId, status).Failure? || ApplyStatusChange(orders, orderId, status).value == orders
  {
    var k := Find(orders, orderId).value;
    if status == orders[k].status {
      assert orders[k := orders[k].(status := status)] == orders;
    }
  }

  /**
   * Cancels order `orderId` with a status-only update, unless the order is
   * missing or already DELIVERED.
   */
  method CancelOrder(db: Session, orderId: Id) returns (r: Result<Order>)
    requires db.Valid()
    modifies db`orders
    ensures db.Valid()
    ensures ApplyCancel(old(db.orders), orderId).Failure? ==>
      r == Failure(ApplyCancel(old(db.orders), orderId).error) && db.orders == old(db.orders)
    ensures ApplyCancel(old(db.orders), orderId).Success? ==>
      && db.orders == ApplyCancel(old(db.orders), orderId).value
      && r == Success(db.orders[Find(old(db.orders), orderId).value])
  {
    var k := Find(db.orders, orderId);
    if k.None? {
      return Failure(NotFound);
    }
    var order := db.orders[k.value];
    if CancelBlocked(order.status) {
      return Failure(InvalidTransition);
    }
    var updated := Update(db, k.value, StatusOnly(Cancelled));
    r := Success(updated);
  }

  /**
   * Sets the status of order `orderId` with a status-only update, unless
   * the order is missing or is CANCELLED or DELIVERED and the new status
   * differs.
   */
  method UpdateOrderStatus(db: Session, orderId: Id, status: OrderStatus) returns (r: Result<Order>)
    requires db.Valid()
    modifies db`orders
    ensures db.Valid()
    ensures ApplyStatusChange(old(db.orders), orderId, status).Failure? ==>
      r == Failure(ApplyStatusChange(old(db.orders), orderId, status).error) && db.orders == old(db.orders)
    ensures ApplyStatusChange(old(db.orders), orderId, status).Success? ==>
      && db.orders == ApplyStatusChange(old(db.orders), orderId, status).value
      && r == Success(db.orders[Find(old(db.orders), orderId).value])
  {
    var k := Find(db.orders, orderId);
    if k.None? {
      return Failure(NotFound);
    }
    var order := db.orders[k.value];
    if order.status == Cancelled && status != Cancelled {
      return Failure(InvalidTransition);
    }
    if order.status == Delivered && status != Delivered {
      return Failure(InvalidTransition);
    }
    var updated := Update(db, k.value, StatusOnly(status));
    r := Success(updated);
  }

  /** One line of the order view: the item's product, that product's name, and the quantity. */
  datatype ItemDetail = ItemDetail(productId: Id, productName: string, quantity: int)

  /** The order view: the order's metadata, its delivery address and its items. */
  datatype OrderDetails = OrderDetails(
    orderId: Id, userId: Id, status: OrderStatus, createdAt: int,
    items: seq<ItemDetail>, address: Option<Address>)

  /** Every item's product is still in the catalog. */
  predicate ItemsResolve(products: seq<Product>, its: seq<OrderItem>)
  {
    forall i :: 0 <= i < |its| ==> ProductCrud.Get(products, its[i].productId).Some?
  }

  /** One detail per item, in item order, each naming the item's product. */
  function DetailsOf(products: seq<Product>, its: seq<OrderItem>): (r: seq<ItemDetail>)
    requires ItemsResolve(products, its)
    ensures |r| == |its|
    ensures forall j :: 0 <= j < |its| ==>
      r[j] == ItemDetail(its[j].productId, ProductCrud.Get(products, its[j].productId).value.name, its[j].quantity)
  {
    seq(|its|, j requires 0 <= j < |its| =>
      ItemDetail(its[j].productId, ProductCrud.Get(products, its[j].productId).value.name, its[j].quantity))
  }

  /** Describing one more item extends the details by that item's detail. */
  lemma DetailsStep(products: seq<Product>, its: seq<OrderItem>, i: nat)
    requires i < |its|
    requires ItemsResolve(products, its[..i])
    requires ProductCrud.Get(products, its[i].productId).Some?
    ensures ItemsResolve(products, its[..i + 1])
    ensures DetailsOf(products, its[..i + 1])
         == DetailsOf(products, its[..i]) + [ItemDetail(its[i].productId, ProductCrud.Get(products, its[i].productId).value.name, its[i].quantity)]
  {
    var next := its[..i + 1];
    assert next[..i] == its[..i];
    assert forall j :: 0 <= j < i ==> next[j] == its[..i][j];
  }

  /**
   * Builds the view of order `orderId`: one detail per item of the order, in
   * item order, naming its product. A missing order is NotFound; an item
   * whose product is gone fails as reading a name off None does.
   */
  method GetOrderDetails(orders: seq<Order>, items: seq<OrderItem>, products: seq<Product>,
                         addresses: seq<Address>, orderId: Id) returns (r: Result<OrderDetails>)
    ensures Find(orders, orderId).None? ==> r == Failure(NotFound)
    ensures Find(orders, orderId).Some? ==>
      var o := orders[Find(orders, orderId).value];
      var its := ItemsOf(items, o.id);
      && (r.Failure? <==> !ItemsResolve(products, its))
      && (r.Failure? ==> r.error == MissingAttribute)
      && (r.Success? ==>
            && r.value.orderId == o.id && r.value.userId == o.userId
            && r.value.status == o.status && r.value.createdAt == o.createdAt
            && r.value.address == AddressCrud.Get(addresses, o.addressId)
            && r.value.items == DetailsOf(products, its))
  {
    var k := Find(orders, orderId);
    if k.None? {
      return Failure(NotFound);
    }
    var order := orders[k.value];
    var its := ItemsOf(items, order.id);
    var details := [];
    var i := 0;
    while i < |its|
      invariant 0 <= i <= |its|
      invariant ItemsResolve(products, its[..i])
      invariant details == DetailsOf(products, its[..i])
    {
      var item := its[i];
      var product := ProductCrud.Get(products, item.productId);
      if product.None? {
        return Failure(MissingAttribute);
      }
      details := details + [ItemDetail(item.productId, product.value.name, item.quantity)];
      DetailsStep(products, its, i);
      i := i + 1;
    }
    assert its[..i] == its;
    r := Success(OrderDetails(order.id, order.userId, order.status, order.createdAt, details,
                              AddressCrud.Get(addresses, order.addressId)));
  }
}
