/**
 * The database session the data-access layer works through: one table per
 * stored entity, each a sequence of rows in storage order, and the counter
 * the database draws new primary keys from.
 */
module Store {
  import opened Records

  /** Every order, order item and address key, and every item's parent key, was drawn below `next`. */
  ghost predicate KeysBelow(orders: seq<Order>, items: seq<OrderItem>, addresses: seq<Address>, next: nat)
  {
    && (forall i :: 0 <= i < |orders| ==> orders[i].id < next)
    && (forall i :: 0 <= i < |items| ==> items[i].id < next && items[i].orderId < next)
    && (forall i :: 0 <= i < |addresses| ==> addresses[i].id < next)
  }

  /** Storing an order under the next key, and advancing the counter, keeps every key below it. */
  lemma KeysBelowAddOrder(orders: seq<Order>, items: seq<OrderItem>, addresses: seq<Address>, next: nat, o: Order)
    requires KeysBelow(orders, items, addresses, next)
    requires o.id <= next
    ensures KeysBelow(orders + [o], items, addresses, next + 1)
  {
    assert forall i :: 0 <= i < |orders| ==> (orders + [o])[i] == orders[i];
  }

  /** Storing an item under the next key, with an already drawn parent key, keeps every key below the advanced counter. */
  lemma KeysBelowAddItem(orders: seq<Order>, items: seq<OrderItem>, addresses: seq<Address>, next: nat, it: OrderItem)
    requires KeysBelow(orders, items, addresses, next)
    requires it.id <= next && it.orderId < next
    ensures KeysBelow(orders, items + [it], addresses, next + 1)
  {
    assert forall i :: 0 <= i < |items| ==> (items + [it])[i] == items[i];
  }

  /** Rewriting address rows without changing their keys keeps every key below the counter. */
  lemma KeysBelowSameAddressKeys(orders: seq<Order>, items: seq<OrderItem>, a: seq<Address>, b: seq<Address>, next: nat)
    requires KeysBelow(orders, items, a, next)
    requires |a| == |b| && forall i :: 0 <= i < |a| ==> a[i].id == b[i].id
    ensures KeysBelow(orders, items, b, next)
  {
  }

  class Session {
    var products: seq<Product>
    var orders: seq<Order>
    var orderItems: seq<OrderItem>
    var addresses: seq<Address>
    var nextId: nat

    ghost predicate Valid()
      reads this
    {
      KeysBelow(orders, orderItems, addresses, nextId)
    }

    /** A session over existing tables whose keys are all below `nextId`. */
    constructor (products: seq<Product>, orders: seq<Order>, orderItems: seq<OrderItem>,
                 addresses: seq<Address>, nextId: nat)
      requires KeysBelow(orders, orderItems, addresses, nextId)
      ensures Valid()
      ensures this.products == products && this.orders == orders && this.orderItems == orderItems
      ensures this.addresses == addresses && this.nextId == nextId
    {
      this.products := products;
      this.orders := orders;
      this.orderItems := orderItems;
      this.addresses := addresses;
      this.nextId := nextId;
    }
  }
}
