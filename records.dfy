/** The stored records of the delivery backend and the order status enum. */
module Records {
  import opened Base

  type Id = nat

  /** The six order states; DELIVERED and CANCELLED are the terminal ones. */
  datatype OrderStatus = Pending | Confirmed | Preparing | Delivering | Delivered | Cancelled

  /** The string value each status carries (the enum derives from str). */
  function StatusValue(s: OrderStatus): string
  {
    match s
    case Pending => "pending"
    case Confirmed => "confirmed"
    case Preparing => "preparing"
    case Delivering => "delivering"
    case Delivered => "delivered"
    case Cancelled => "cancelled"
  }

  predicate IsTerminal(s: OrderStatus)
  {
    s == Delivered || s == Cancelled
  }

  /** A product; `price` is in minor currency units. */
  datatype Product = Product(
    id: Id,
    name: string,
    description: Option<string>,
    price: int,
    category: Option<string>,
    isAvailable: bool,
    stockQuantity: int)

  /** An order; `totalAmount` is in minor currency units, `createdAt` in seconds. */
  datatype Order = Order(
    id: Id,
    userId: Id,
    addressId: Id,
    totalAmount: int,
    status: OrderStatus,
    createdAt: int)

  /** One line of an order, with the unit price captured when it was created. */
  datatype OrderItem = OrderItem(
    id: Id,
    orderId: Id,
    productId: Id,
    quantity: int,
    unitPrice: int)

  datatype Address = Address(
    id: Id,
    userId: Id,
    street: string,
    city: string,
    state: Option<string>,
    postalCode: string,
    country: string,
    isDefault: bool)
}
