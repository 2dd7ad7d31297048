/** Order lookups, the generic update, and order creation with its items. */
module OrderCrud {
  import opened Base
  import opened Records
  import opened Queries
  import opened Store

  const SecondsPerDay := 86400

  function HasId(id: Id): Order -> bool { (o: Order) => o.id == id }
  function PlacedBy(userId: Id): Order -> bool { (o: Order) => o.userId == userId }
  function HasStatus(status: OrderStatus): Order -> bool { (o: Order) => o.status == status }
  function CreatedSince(from: int): Order -> bool { (o: Order) => o.createdAt >= from }
  function BelongsTo(orderId: Id): OrderItem -> bool { (it: OrderItem) => it.orderId == orderId }

  /** The position of the order with key `id`, as the generic lookup by primary key finds it. */
  function Find(orders: seq<Order>, id: Id): (r: Option<nat>)
    ensures r.Some? ==> r.value < |orders| && orders[r.value].id == id
    ensures r.Some? ==> forall j :: 0 <= j < r.value ==> orders[j].id != id
    ensures r.None? <==> forall i :: 0 <= i < |orders| ==> orders[i].id != id
  {
    IndexWhere(orders, HasId(id))
  }

  /** The items of an order (its `items` relationship), in table order. */
  function ItemsOf(items: seq<OrderItem>, orderId: Id): (r: seq<OrderItem>)
    ensures forall i :: 0 <= i < |r| ==> r[i] in items && r[i].orderId == orderId
    ensures forall i :: 0 <= i < |items| && items[i].orderId == orderId ==> items[i] in r
  {
    Filter(items, BelongsTo(orderId))
  }

  /** Orders placed by `userId`, paged. */
  function GetMultiByUser(orders: seq<Order>, userId: Id, skip: nat, limit: nat): (r: seq<Order>)
    ensures |r| <= limit
    ensures |r| == Min(limit, if skip <= |Filter(orders, PlacedBy(userId))| then |Filter(orders, PlacedBy(userId))| - skip else 0)
    ensures forall i :: 0 <= i < |r| ==> r[i] == Filter(orders, PlacedBy(userId))[skip + i]
    ensures forall i :: 0 <= i < |r| ==> r[i] in orders && r[i].userId == userId
    ensures skip == 0 && |Filter(orders, PlacedBy(userId))| <= limit ==>
      forall i :: 0 <= i < |orders| && orders[i].userId == userId ==> orders[i] in r
  {
    Select(orders, PlacedBy(userId), skip, limit)
  }

  /** Orders in `status`, paged. */
  function GetOrdersByStatus(orders: seq<Order>, status: OrderStatus, skip: nat, limit: nat): (r: seq<Order>)
    ensures |r| <= limit
    ensures |r| == Min(limit, if skip <= |Filter(orders, HasStatus(status))| then |Filter(orders, HasStatus(status))| - skip else 0)
    ensures forall i :: 0 <= i < |r| ==> r[i] == Filter(orders, HasStatus(status))[skip + i]
    ensures forall i :: 0 <= i < |r| ==> r[i] in orders && r[i].status == status
    ensures skip == 0 && |Filter(orders, HasStatus(status))| <= limit ==>
      forall i :: 0 <= i < |orders| && orders[i].status == status ==> orders[i] in r
  {
    Select(orders, HasStatus(status), skip, limit)
  }

  /** The cut-off of a "last `days` days" query made at time `now` (seconds). */
  function CutOff(now: int, days: int): int
  {
    now - days * SecondsPerDay
  }

  /** Orders created at or after `days` days before `now`, paged. */
  function GetRecentOrders(orders: seq<Order>, now: int, days: int, skip: nat, limit: nat): (r: seq<Order>)
    ensures |r| <= limit
    ensures |r| == Min(limit, if skip <= |Filter(orders, CreatedSince(CutOff(now, days)))| then |Filter(orders, CreatedSince(CutOff(now, days)))| - skip else 0)
    ensures forall i :: 0 <= i < |r| ==> r[i] == Filter(orders, CreatedSince(CutOff(now, days)))[skip + i]
    ensures forall i :: 0 <= i < |r| ==> r[i] in orders && r[i].createdAt >= now - days * SecondsPerDay
    ensures skip == 0 && |Filter(orders, CreatedSince(CutOff(now, days)))| <= limit ==>
      forall i :: 0 <= i < |orders| && orders[i].createdAt >= CutOff(now, days) ==> orders[i] in r
  {
    Select(orders, CreatedSince(CutOff(now, days)), skip, limit)
  }

  /** A wider window never returns fewer of the unpaged matches. */
  lemma {:induction false} RecentWindowMonotone(orders: seq<Order>, now: int, days: int, more: int)
    requires days <= more
    ensures |Filter(orders, CreatedSince(CutOff(now, days)))| <= |Filter(orders, CreatedSince(CutOff(now, more)))|
  {
    if orders != [] {
      RecentWindowMonotone(orders[1..], now, days, more);
    }
  }

  /** The fields of an update; none means "not supplied". */
  datatype OrderPatch = OrderPatch(addressId: Option<Id>, totalAmount: Option<int>, status: Option<OrderStatus>)

  function StatusOnly(status: OrderStatus): OrderPatch
  {
    OrderPatch(None, None, Some(status))
  }

  /** The generic update: every supplied field is overwritten, every other field kept. */
  function ApplyPatch(o: Order, patch: OrderPatch): (r: Order)
    ensures r.id == o.id && r.userId == o.userId && r.createdAt == o.createdAt
    ensures r.addressId == (if patch.addressId.Some? then patch.addressId.value else o.addressId)
    ensures r.totalAmount == (if patch.totalAmount.Some? then patch.totalAmount.value else o.totalAmount)
    ensures r.status == (if patch.status.Some? then patch.status.value else o.status)
  {
    var o1 := if patch.addressId.Some? then o.(addressId := patch.addressId.value) else o;
    var o2 := if patch.totalAmount.Some? then o1.(totalAmount := patch.totalAmount.value) else o1;
    if patch.status.Some? then o2.(status := patch.status.value) else o2
  }

  /** A status-only update changes the status and nothing else. */
  lemma StatusOnlyChangesStatus(o: Order, status: OrderStatus)
    ensures ApplyPatch(o, StatusOnly(status)) == o.(status := status)
  {
  }

  /** Overwrites the fields `patch` supplies in the order at position `k`. */
  method Update(db: Session, k: nat, patch: OrderPatch) returns (updated: Order)
    requires db.Valid()
    requires k < |db.orders|
    modifies db`orders
    ensures db.Valid()
    ensures updated == ApplyPatch(old(db.orders)[k], patch)
    ensures db.orders == old(db.orders)[k := updated]
  {
    updated := ApplyPatch(db.orders[k], patch);
    db.orders := db.orders[k := updated];
  }

  /** The order fields other than its items. */
  datatype OrderData = OrderData(addressId: Id, totalAmount: int, status: OrderStatus)

  /** One entry of the item list handed to order creation. */
  datatype ItemData = ItemData(productId: Id, quantity: int, price: int, total: int)

  /** The items created for order `orderId` from `entries`, with keys from `firstId` on. */
  function NewItems(orderId: Id, firstId: Id, entries: seq<ItemData>): (r: seq<OrderItem>)
    ensures |r| == |entries|
    ensures forall k :: 0 <= k < |r| ==>
      r[k] == OrderItem(firstId + k, orderId, entries[k].productId, entries[k].quantity, entries[k].price)
  {
    seq(|entries|, k requires 0 <= k < |entries| =>
      OrderItem(firstId + k, orderId, entries[k].productId, entries[k].quantity, entries[k].price))
  }

  /** Creating items for a prefix of the entries gives the matching prefix of the items. */
  lemma NewItemsPrefix(orderId: Id, firstId: Id, entries: seq<ItemData>, n: nat)
    requires n <= |entries|
    ensures NewItems(orderId, firstId, entries)[..n] == NewItems(orderId, firstId, entries[..n])
  {
  }

  /** The sum over the items of unit price times quantity, starting from 0. */
  function ItemsTotal(its: seq<OrderItem>): int
  {
    if its == [] then 0
    else ItemsTotal(its[..|its| - 1]) + its[|its| - 1].unitPrice * its[|its| - 1].quantity
  }

  /** A fresh order key sees exactly the items created with it. */
  lemma CreatedItemsAreTheOrdersItems(items: seq<OrderItem>, orderId: Id, firstId: Id, entries: seq<ItemData>)
    requires forall i :: 0 <= i < |items| ==> items[i].orderId != orderId
    ensures ItemsOf(items + NewItems(orderId, firstId, entries), orderId) == NewItems(orderId, firstId, entries)
  {
    FilterAppend(items, NewItems(orderId, firstId, entries), BelongsTo(orderId));
    FilterKeepsNone(items, BelongsTo(orderId));
    FilterKeepsAll(NewItems(orderId, firstId, entries), BelongsTo(orderId));
  }

  /** In a consistent session, the order created under the next key has exactly the items created with it. */
  lemma NextKeyOwnsCreatedItems(orders: seq<Order>, items: seq<OrderItem>, addresses: seq<Address>, next: nat,
                                entries: seq<ItemData>)
    requires KeysBelow(orders, items, addresses, next)
    ensures ItemsOf(items + NewItems(next, next + 1, entries), next) == NewItems(next, next + 1, entries)
  {
    assert forall i :: 0 <= i < |items| ==> items[i].orderId != next;
    CreatedItemsAreTheOrdersItems(items, next, next + 1, entries);
  }

  /** A fresh order key is found at the end of the table. */
  lemma CreatedOrderIsFound(orders: seq<Order>, o: Order)
    requires forall i :: 0 <= i < |orders| ==> orders[i].id != o.id
    ensures Find(orders + [o], o.id) == Some(|orders|)
  {
    assert (orders + [o])[|orders|].id == o.id;
  }

  /**
   * Creates the order with key `nextId` for `userId` from `data`, then one
   * item per entry, in order, each carrying the new order's key and the
   * entry's product, quantity and price.
   */
  method CreateWithItems(db: Session, data: OrderData, userId: Id, entries: seq<ItemData>, createdAt: int)
    returns (order: Order)
    requires db.Valid()
    modifies db`orders, db`orderItems, db`nextId
    ensures db.Valid()
    ensures order == Order(old(db.nextId), userId, data.addressId, data.totalAmount, data.status, createdAt)
    ensures db.orders == old(db.orders) + [order]
    ensures db.orderItems == old(db.orderItems) + NewItems(order.id, order.id + 1, entries)
    ensures db.nextId == old(db.nextId) + 1 + |entries|
  {
    ghost var oldItems := db.orderItems;
    order := Order(db.nextId, userId, data.addressId, data.totalAmount, data.status, createdAt);
    KeysBelowAddOrder(db.orders, db.orderItems, db.addresses, db.nextId, order);
    db.orders := db.orders + [order];
    db.nextId := db.nextId + 1;
    ghost var created := NewItems(order.id, order.id + 1, entries);
    var i := 0;
    while i < |entries|
      invariant 0 <= i <= |entries|
      invariant db.orders == old(db.orders) + [order]
      invariant db.orderItems == oldItems + created[..i]
      invariant db.nextId == order.id + 1 + i
      invariant db.Valid()
    {
      var e := entries[i];
      var item := OrderItem(db.nextId, order.id, e.productId, e.quantity, e.price);
      KeysBelowAddItem(db.orders, db.orderItems, db.addresses, db.nextId, item);
      assert created[..i + 1] == created[..i] + [item];
      db.orderItems := db.orderItems + [item];
      db.nextId := db.nextId + 1;
      i := i + 1;
    }
    assert created[..i] == created;
  }
}
