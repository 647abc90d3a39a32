/** Scalar types, capacities and messages shared by the exchange and the trading client. */
module Types {

  const ME_MAX_TICKERS: nat := 8
  const ME_MAX_NUM_CLIENTS: nat := 256
  const ME_MAX_ORDER_IDS: nat := 1024 * 1024
  const ME_MAX_PRICE_LEVELS: nat := 256

  // The INVALID markers are the largest values of the fixed-width types.
  const OrderId_INVALID: nat := 0xFFFF_FFFF_FFFF_FFFF
  const Priority_INVALID: nat := 0xFFFF_FFFF_FFFF_FFFF
  const TickerId_INVALID: nat := 0xFFFF_FFFF
  const Qty_INVALID: nat := 0xFFFF_FFFF
  const Price_INVALID: int := 0x7FFF_FFFF_FFFF_FFFF

  datatype Option<+T> = None | Some(value: T)

  datatype Side = INVALID | BUY | SELL

  function Opposite(s: Side): Side {
    match s
    case BUY => SELL
    case SELL => BUY
    case INVALID => INVALID
  }

  /** The slot of a side in a per-side array. */
  function SideToIndex(side: Side): nat {
    match side
    case SELL => 0
    case INVALID => 1
    case BUY => 2
  }

  function SideToValue(side: Side): int {
    match side
    case BUY => 1
    case SELL => -1
    case INVALID => 0
  }

  /** The slot of a price in the 256-entry price index. */
  function PriceToIndex(price: int): nat {
    price % ME_MAX_PRICE_LEVELS
  }

  /** An order is found by the pair (client, client order id) at the exchange. */
  datatype ClientKey = ClientKey(client: nat, oid: nat)

  /** A resting order; `key` is what the owning book's index looks it up by. */
  datatype Order<+K> = Order(id: nat, key: K, side: Side, price: int, qty: nat, priority: nat)

  datatype ResponseType = ACCEPTED | CANCELED | FILLED | CANCEL_REJECTED

  datatype ClientResponse = ClientResponse(
    kind: ResponseType, client: nat, ticker: nat, clientOid: nat, marketOid: nat,
    side: Side, price: int, execQty: nat, leavesQty: nat)

  datatype UpdateType = NOTHING | CLEAR | ADD | MODIFY | CANCEL | TRADE | SNAPSHOT_START | SNAPSHOT_END

  datatype MarketUpdate = MarketUpdate(
    kind: UpdateType, orderId: nat, ticker: nat, side: Side, price: int, qty: nat, priority: nat)

  datatype Request =
    | New(client: nat, ticker: nat, oid: nat, side: Side, price: int, qty: nat)
    | Cancel(client: nat, ticker: nat, oid: nat)
}
