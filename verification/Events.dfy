/** Events the engine publishes (internal/adapter/messaging/kafka/order_event.go, trade_event.go). */
module Events {
  import opened Orders

  datatype EventType = OrderFilled | OrderPartial | OrderCanceled | OrderExpired

  /** An order event as it is serialised when it is published. */
  datatype OrderEvent = OrderEvent(
    eventType: EventType, status: OrderStatus,
    id: ID, userID: ID, pair: string, orderType: OrderType, side: OrderSide,
    price: Decimal, quantity: Decimal, filled: Decimal, remainingQty: Decimal)

  /** The event that reports order `o` exactly as it stands. */
  function EventOf(o: OrderState, eventType: EventType, status: OrderStatus): OrderEvent {
    OrderEvent(eventType, status, o.id, o.userID, o.pair, o.orderType, o.side,
               o.price, o.quantity, o.filled, o.Remaining())
  }

  /** An event under construction; the engine keeps adding fills to it between publications. */
  class OrderStatusEvent {
    const order: OrderState // the order's fields when the event was built
    var eventType: EventType
    var status: OrderStatus
    var filled: Decimal
    var remainingQty: Decimal

    constructor (o: OrderState)
      ensures State() == EventOf(o, OrderPartial, Partial)
    {
      order, eventType, status := o, OrderPartial, Partial;
      filled, remainingQty := o.filled, o.quantity - o.filled;
    }

    function State(): OrderEvent
      reads this
    {
      OrderEvent(eventType, status, order.id, order.userID, order.pair, order.orderType, order.side,
                 order.price, order.quantity, filled, remainingQty)
    }

    method ChangeStatusEvent(newEventType: EventType, newStatus: OrderStatus)
      modifies this
      ensures State() == old(State()).(eventType := newEventType, status := newStatus)
    {
      eventType, status := newEventType, newStatus;
    }

    method UpdateOrderFilled(qty: Decimal)
      modifies this
      ensures State() == old(State()).(filled := old(filled) + qty, remainingQty := old(remainingQty) - qty)
    {
      filled := filled + qty;
      remainingQty := remainingQty - qty;
    }

    /** Adds a fill: the event says filled if it was the last one, and partial otherwise. */
    method RecordFill(last: bool, qty: Decimal)
      modifies this
      ensures State() == old(State()).(eventType := if last then OrderFilled else OrderPartial,
                                       status := if last then Filled else Partial,
                                       filled := old(filled) + qty, remainingQty := old(remainingQty) - qty)
    {
      if last {
        ChangeStatusEvent(OrderFilled, Filled);
      } else {
        ChangeStatusEvent(OrderPartial, Partial);
      }
      UpdateOrderFilled(qty);
    }
  }

  datatype TradeEvent = TradeEvent(
    makerUserID: ID, takerUserID: ID, makerOrderID: ID, takerOrderID: ID, pair: string,
    price: Decimal, quantity: Decimal, makerFilled: bool, takerFilled: bool,
    makerRemaining: Decimal, takerRemaining: Decimal)

  const ZERO_TRADE := TradeEvent("", "", "", "", "", 0.0, 0.0, false, false, 0.0, 0.0)

  predicate ValidTradeInputs(maker: OrderState, taker: OrderState, price: Decimal, qty: Decimal) {
    && maker.userID != "" && taker.userID != "" && maker.id != "" && taker.id != ""
    && ('-' in taker.pair || '/' in taker.pair)
    && price >= 0.0 && qty >= 0.0
  }

  /** Inputs that fail validation yield the zero event, as in the source. */
  function NewTradeEvent(maker: OrderState, taker: OrderState, price: Decimal, qty: Decimal,
                         makerFilled: bool, takerFilled: bool,
                         makerRemaining: Decimal, takerRemaining: Decimal): TradeEvent {
    if ValidTradeInputs(maker, taker, price, qty) then
      TradeEvent(maker.userID, taker.userID, maker.id, taker.id, taker.pair, price, qty,
                 makerFilled, takerFilled, makerRemaining, takerRemaining)
    else
      ZERO_TRADE
  }

  /** One match of a maker against the taker, both as they stood just before it. */
  datatype Fill = Fill(maker: OrderState, taker: OrderState, qty: Decimal) {
    predicate MakerFilled() {
      qty >= maker.Remaining()
    }

    predicate TakerFilled() {
      qty >= taker.Remaining()
    }

    function MakerAfter(): OrderState {
      maker.(filled := maker.filled + qty, status := if MakerFilled() then maker.status else Partial)
    }

    function TakerAfter(): OrderState {
      taker.(filled := taker.filled + qty, status := if TakerFilled() then taker.status else Partial)
    }

    function MakerEvent(): OrderEvent {
      if MakerFilled() then EventOf(MakerAfter(), OrderFilled, Filled)
      else EventOf(MakerAfter(), OrderPartial, Partial)
    }

    function TakerEvent(): OrderEvent {
      if TakerFilled() then EventOf(TakerAfter(), OrderFilled, Filled)
      else EventOf(TakerAfter(), OrderPartial, Partial)
    }

    /** A market match trades at the maker's price and reports what is left after it. */
    function MarketTrade(): TradeEvent {
      NewTradeEvent(maker, taker, maker.price, qty, MakerFilled(), TakerFilled(),
                    maker.Remaining() - qty, taker.Remaining() - qty)
    }

    /** A limit match trades at the taker's price, reports what was left before it, and
        raises the flags after the event is built, so even on the zero event. */
    function LimitTrade(): TradeEvent {
      NewTradeEvent(maker, taker, taker.price, qty, false, false, maker.Remaining(), taker.Remaining())
      .(makerFilled := MakerFilled(), takerFilled := TakerFilled())
    }
  }

  function MakerEvents(fills: seq<Fill>): (r: seq<OrderEvent>)
    ensures |r| == |fills|
  {
    seq(|fills|, i requires 0 <= i < |fills| => fills[i].MakerEvent())
  }

  function MarketTrades(fills: seq<Fill>): (r: seq<TradeEvent>)
    ensures |r| == |fills|
  {
    seq(|fills|, i requires 0 <= i < |fills| => fills[i].MarketTrade())
  }

  function LimitTrades(fills: seq<Fill>): (r: seq<TradeEvent>)
    ensures |r| == |fills|
  {
    seq(|fills|, i requires 0 <= i < |fills| => fills[i].LimitTrade())
  }

  /** A limit match publishes the maker's and then the taker's event for every fill. */
  function PairedEvents(fills: seq<Fill>): seq<OrderEvent> {
    if fills == [] then []
    else [fills[0].MakerEvent(), fills[0].TakerEvent()] + PairedEvents(fills[1..])
  }

  function Traded(fills: seq<Fill>): Decimal {
    if fills == [] then 0.0 else fills[0].qty + Traded(fills[1..])
  }

  /** What the publisher has been given so far: one stream of order events, one of trades. */
  class EventLog {
    var orderEvents: seq<OrderEvent>
    var tradeEvents: seq<TradeEvent>

    constructor ()
      ensures orderEvents == [] && tradeEvents == []
    {
      orderEvents, tradeEvents := [], [];
    }

    method PublishOrderEvents(events: seq<OrderEvent>)
      modifies this`orderEvents
      ensures orderEvents == old(orderEvents) + events
    {
      orderEvents := orderEvents + events;
    }

    method PublishTradeEvents(events: seq<TradeEvent>)
      modifies this`tradeEvents
      ensures tradeEvents == old(tradeEvents) + events
    {
      tradeEvents := tradeEvents + events;
    }
  }
}
