/** Orders as the matching engine sees them (internal/engine/order.go). */
module Orders {

  /** `decimal.Decimal` is exact under the operations the engine uses: +, - and comparison. */
  type Decimal = real

  type ID = string

  datatype OrderType = LimitOrder | MarketOrder | CancelOrder

  datatype OrderSide = Buy | Sell

  datatype OrderStatus = Open | Partial | Filled | Cancelled | Expired

  /** The value of an order at one moment. Expiry, behaviour and timestamp are never read by matching. */
  datatype OrderState = OrderState(
    id: ID, userID: ID, pair: string, orderType: OrderType, side: OrderSide,
    price: Decimal, quantity: Decimal, filled: Decimal, status: OrderStatus)
  {
    function Remaining(): Decimal {
      quantity - filled
    }

    /** Between nothing and everything has been matched. */
    predicate InRange() {
      0.0 <= filled <= quantity
    }
  }

  function Min(a: Decimal, b: Decimal): (m: Decimal)
    ensures m <= a && m <= b && (m == a || m == b)
  {
    if b < a then b else a
  }

  function Max(a: Decimal, b: Decimal): (m: Decimal)
    ensures a <= m && b <= m && (m == a || m == b)
  {
    if b > a then b else a
  }

  /** An order in memory: the book shares it, so `filled` and `status` change in place. */
  class Order {
    const id: ID
    const userID: ID
    const pair: string
    const orderType: OrderType
    const side: OrderSide
    const price: Decimal
    const quantity: Decimal
    var filled: Decimal
    var status: OrderStatus

    constructor (s: OrderState)
      ensures State() == s
    {
      id, userID, pair, orderType, side := s.id, s.userID, s.pair, s.orderType, s.side;
      price, quantity, filled, status := s.price, s.quantity, s.filled, s.status;
    }

    function State(): OrderState
      reads this
    {
      OrderState(id, userID, pair, orderType, side, price, quantity, filled, status)
    }

    function Remaining(): (r: Decimal)
      reads this
      ensures r == State().Remaining()
    {
      quantity - filled
    }

    method ChangeStatusTo(s: OrderStatus)
      modifies this`status
      ensures State() == old(State()).(status := s)
    {
      status := s;
    }
  }

  /** The values of a list of shared orders, in list order. */
  ghost function States(orders: seq<Order>): (s: seq<OrderState>)
    reads orders
    ensures |s| == |orders|
    ensures forall i :: 0 <= i < |orders| ==> s[i] == orders[i].State()
  {
    seq(|orders|, i requires 0 <= i < |orders| reads orders => orders[i].State())
  }
}
