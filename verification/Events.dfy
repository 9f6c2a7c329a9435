/** The decoded market-data events, and what each of them asks of an order book. */
module Events {
  import opened Words

  datatype Side = Buy | Sell

  datatype ItchEvent =
    | AddOrder(timestamp: uint64, orderRef: uint64, side: Side, shares: uint32, stock: uint64, price: uint64)
    | AddOrderMpid(timestamp: uint64, orderRef: uint64, side: Side, shares: uint32, stock: uint64, price: uint64,
                   mpid: uint32)
    | OrderExecuted(timestamp: uint64, orderRef: uint64, shares: uint32, matchNumber: uint64)
    | OrderExecutedPrice(timestamp: uint64, orderRef: uint64, shares: uint32, matchNumber: uint64, printable: bool,
                         price: uint64)
    | OrderCancel(timestamp: uint64, orderRef: uint64, shares: uint32)
    | OrderDelete(timestamp: uint64, orderRef: uint64)
    | OrderReplace(timestamp: uint64, orderRef: uint64, newOrderRef: uint64, shares: uint32, price: uint64)
    | StockDirectory(timestamp: uint64, stock: uint64, marketCategory: uint8, financialStatus: uint8,
                     roundLotSize: uint32, roundLotsOnly: bool, issueClassification: uint8)
    | SystemEvent(timestamp: uint64, eventCode: uint8)

  /** The order-book meaning of an event. Executions and cancellations both reduce an order. */
  datatype Intent =
    | Open(orderRef: uint64, stock: uint64, side: Side, price: uint64, shares: uint32)
    | Reduce(orderRef: uint64, shares: uint32)
    | Close(orderRef: uint64)
    | Swap(orderRef: uint64, newRef: uint64, price: uint64, shares: uint32)
    | Ignore

  function IntentOf(e: ItchEvent): Intent {
    match e
    case AddOrder(_, r, side, shares, stock, price) => Open(r, stock, side, price, shares)
    case AddOrderMpid(_, r, side, shares, stock, price, _) => Open(r, stock, side, price, shares)
    case OrderExecuted(_, r, shares, _) => Reduce(r, shares)
    case OrderExecutedPrice(_, r, shares, _, _, _) => Reduce(r, shares)
    case OrderCancel(_, r, shares) => Reduce(r, shares)
    case OrderDelete(_, r) => Close(r)
    case OrderReplace(_, r, newRef, shares, price) => Swap(r, newRef, price, shares)
    case _ => Ignore
  }

  /** Does the intent bring new shares in (if it takes effect)? */
  predicate Introduces(a: Intent) {
    a.Open? || a.Swap?
  }

  /** A feed is positive when its adds and replaces carry at least one share. */
  predicate Positive(a: Intent) {
    Introduces(a) ==> a.shares > 0
  }

  /** Number of order-introducing events of a feed. */
  function Introductions(events: seq<ItchEvent>): nat {
    if events == [] then 0
    else Introductions(events[..|events| - 1]) + if Introduces(IntentOf(events[|events| - 1])) then 1 else 0
  }
}
