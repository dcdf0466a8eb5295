/** The records the application exchanges with its remote sheet and keeps in memory. */
module Types {

  datatype Status = Pending | Completed

  /** A template line that pre-fills a new order for a store. */
  datatype StoreDefaultItem = StoreDefaultItem(itemName: string, quantity: int)

  /**
   * A client store. `holidayDates` holds `YYYY-MM-DD` strings on which the store
   * takes no delivery; an absent `defaultItems` is the empty sequence.
   */
  datatype Store = Store(
    storeName: string,
    phone: string,
    holidayDates: seq<string>,
    deliveryTime: string,
    defaultItems: seq<StoreDefaultItem>)

  /** A catalog entry. */
  datatype Product = Product(itemName: string, unit: string)

  /**
   * One delivery line. `ref` stands for the identity of the JavaScript object
   * (two orders with equal fields are still different objects); `isLocal`
   * marks an order staged in memory and not yet uploaded; an absent flag is false.
   */
  datatype Order = Order(
    ref: nat,
    date: string,
    deliveryTime: string,
    storeName: string,
    itemName: string,
    quantity: int,
    status: Status,
    isLocal: bool)

  /** The full object graph the remote endpoint returns on a fetch. */
  datatype AppData = AppData(stores: seq<Store>, products: seq<Product>, orders: seq<Order>)
}
