/** What `MatchMarket` does to a side of the book, as functions on values
    (internal/engine/orderbook.go:239-484). */
module Market {
  import opened Orders
  import opened Events
  import opened Books

  /** A queue after the sweep, the taker after it, and the fills in order. `done`: taker full. */
  datatype LevelSweep = LevelSweep(orders: seq<OrderState>, taker: OrderState, fills: seq<Fill>, done: bool)

  /** The order at which the sweep leaves the level. A buyer compares order IDs, a seller users. */
  predicate SkipsLevel(maker: OrderState, taker: OrderState) {
    if taker.side == Buy then maker.id == taker.id else maker.userID == taker.userID
  }

  /** The sweep of one price level, oldest order first. */
  function SweepLevel(orders: seq<OrderState>, taker: OrderState): LevelSweep {
    if orders == [] || SkipsLevel(orders[0], taker) then
      LevelSweep(orders, taker, [], false)
    else
      var maker := orders[0];
      var qty := Min(maker.Remaining(), taker.Remaining());
      if qty == 0.0 then
        if taker.side == Buy then
          LevelSweep(orders, taker, [], false) // a buyer goes on to the next level
        else
          var rest := SweepLevel(orders[1..], taker); // a seller to the next order
          rest.(orders := [maker] + rest.orders)
      else
        var fill := Fill(maker, taker, qty);
        var kept := if fill.MakerFilled() then [] else [fill.MakerAfter()];
        if fill.TakerFilled() then
          LevelSweep(kept + orders[1..], fill.TakerAfter(), [fill], true)
        else
          var rest := SweepLevel(orders[1..], fill.TakerAfter());
          LevelSweep(kept + rest.orders, rest.taker, [fill] + rest.fills, rest.done)
  }

  datatype SideSweep = SideSweep(levels: seq<LevelState>, taker: OrderState, fills: seq<Fill>, done: bool,
                                 cancelled: bool)
  {
    /** The taker's event as it stands when the batch is published. */
    function TakerEvent(): OrderEvent {
      if cancelled then EventOf(taker, OrderCanceled, Cancelled)
      else if done then EventOf(taker, OrderFilled, Filled)
      else EventOf(taker, OrderPartial, Partial)
    }

    /** One batch: an event per consumed maker, then the taker's. Nothing if nothing happened. */
    function OrderEvents(): seq<OrderEvent> {
      if done || cancelled || fills != [] then MakerEvents(fills) + [TakerEvent()] else []
    }
  }

  /** The sweep of a whole side, best level first, before drained levels are dropped. */
  function SweepSide(levels: seq<LevelState>, taker: OrderState): SideSweep {
    if levels == [] then
      SideSweep([], taker, [], false, false)
    else if !Crosses(taker, levels[0].price) then
      SideSweep(levels, taker, [], false, true)
    else
      var s := SweepLevel(levels[0].orders, taker);
      var level := levels[0].(orders := s.orders);
      if s.done then
        SideSweep([level] + levels[1..], s.taker, s.fills, true, false)
      else
        var rest := SweepSide(levels[1..], s.taker);
        rest.(levels := [level] + rest.levels, fills := s.fills + rest.fills)
  }

  /** What one matching call returns, leaves behind and publishes. */
  datatype MatchError = NoError | OrderbookEmpty

  datatype MatchResult = MatchResult(
    error: MatchError, book: BookState, taker: OrderState, fills: seq<Fill>,
    orderEvents: seq<OrderEvent>, tradeEvents: seq<TradeEvent>)

  function MarketResult(book: BookState, taker: OrderState): MatchResult {
    var opposite := book.Opposite(taker.side);
    if opposite == [] then
      MatchResult(OrderbookEmpty, book, taker, [], [], [])
    else
      var s := SweepSide(opposite, taker);
      MatchResult(NoError, MakeBook(taker.side, book.Own(taker.side), DropEmpty(s.levels)), s.taker, s.fills,
                  s.OrderEvents(), MarketTrades(s.fills))
  }

  // ---------- what one sweep keeps ----------

  /** The invariant of a side while a sweep is under way: levels may be drained. */
  predicate RoughLevel(side: OrderSide, level: LevelState) {
    forall o :: o in level.orders ==> o.price == level.price && o.side == side && o.InRange()
  }

  /** A fill of orders in range takes a positive quantity that both can afford and that empties one of them. */
  lemma FillInRange(maker: OrderState, taker: OrderState)
    requires maker.InRange() && taker.InRange()
    ensures var qty := Min(maker.Remaining(), taker.Remaining());
      var fill := Fill(maker, taker, qty);
      && qty >= 0.0
      && fill.MakerAfter().InRange() && fill.TakerAfter().InRange()
      && (fill.MakerFilled() || fill.TakerFilled())
      && (fill.MakerFilled() <==> fill.MakerAfter().Remaining() == 0.0)
      && (fill.TakerFilled() <==> fill.TakerAfter().Remaining() == 0.0)
      && (!fill.MakerFilled() ==> fill.MakerAfter().Remaining() > 0.0)
  {
  }

  predicate InRangeAll(orders: seq<OrderState>) {
    forall o :: o in orders ==> o.InRange()
  }

  /** Every order left in the queue is an old one untouched, or an old one after its only fill. */
  lemma {:induction false} SweepLevelMembers(orders: seq<OrderState>, taker: OrderState, o: OrderState)
    requires InRangeAll(orders) && taker.InRange()
    requires o in SweepLevel(orders, taker).orders
    ensures o.InRange()
    ensures exists before :: before in orders && o == before.(filled := o.filled, status := o.status)
    ensures AllLive(orders) ==> o.Remaining() > 0.0
  {
    if orders == [] || SkipsLevel(orders[0], taker) {
      assert o in orders && o == o.(filled := o.filled, status := o.status);
    } else {
      var maker := orders[0];
      var qty := Min(maker.Remaining(), taker.Remaining());
      var fill := Fill(maker, taker, qty);
      FillInRange(maker, taker);
      if o in orders {
        assert o == o.(filled := o.filled, status := o.status);
      } else if qty != 0.0 && o == fill.MakerAfter() {
        assert maker in orders && o == maker.(filled := o.filled, status := o.status);
        if fill.MakerFilled() {
          SweepLevelMembers(orders[1..], fill.TakerAfter(), o);
        }
      } else {
        SweepLevelMembers(orders[1..], if qty == 0.0 then taker else fill.TakerAfter(), o);
      }
    }
  }

  /** The taker only gains fill, never past its quantity; it is full exactly when the sweep says so. */
  lemma {:induction false} SweepLevelTaker(orders: seq<OrderState>, taker: OrderState)
    requires InRangeAll(orders) && taker.InRange()
    ensures var s := SweepLevel(orders, taker);
      && s.taker.InRange()
      && s.taker == taker.(filled := s.taker.filled, status := s.taker.status)
      && s.taker.filled - taker.filled == Traded(s.fills) >= 0.0
      && (s.done ==> s.taker.Remaining() == 0.0 && s.fills != [])
      && (!s.done && taker.Remaining() > 0.0 ==> s.taker.Remaining() > 0.0)
  {
    if orders != [] && !SkipsLevel(orders[0], taker) {
      FillInRange(orders[0], taker);
      var fill := Fill(orders[0], taker, Min(orders[0].Remaining(), taker.Remaining()));
      SweepLevelTaker(orders[1..], if fill.qty == 0.0 then taker else fill.TakerAfter());
      if fill.qty != 0.0 {
        if fill.TakerFilled() {
          assert Traded([fill]) == fill.qty + Traded([]);
        } else {
          var rest := SweepLevel(orders[1..], fill.TakerAfter());
          assert ([fill] + rest.fills)[1..] == rest.fills;
        }
      }
    }
  }

  /** Quantity is conserved and no order appears: what the queue loses is what is traded. */
  lemma {:induction false} SweepLevelConserves(orders: seq<OrderState>, taker: OrderState)
    requires InRangeAll(orders) && taker.InRange()
    ensures var s := SweepLevel(orders, taker);
      && Depth(orders) - Depth(s.orders) == Traded(s.fills)
      && IDs(s.orders) <= IDs(orders)
  {
    if orders != [] && !SkipsLevel(orders[0], taker) {
      FillInRange(orders[0], taker);
      var maker := orders[0];
      var fill := Fill(maker, taker, Min(maker.Remaining(), taker.Remaining()));
      if fill.qty == 0.0 {
        SweepLevelConserves(orders[1..], taker);
        var rest := SweepLevel(orders[1..], taker).orders;
        assert ([maker] + rest)[1..] == rest;
      } else {
        var kept := if fill.MakerFilled() then [] else [fill.MakerAfter()];
        var rest := if fill.TakerFilled() then LevelSweep(orders[1..], fill.TakerAfter(), [], true)
                    else SweepLevel(orders[1..], fill.TakerAfter());
        if !fill.TakerFilled() {
          SweepLevelConserves(orders[1..], fill.TakerAfter());
        }
        KeptHead(fill, rest.orders);
        assert ([fill] + rest.fills)[1..] == rest.fills;
      }
    }
  }

  lemma {:induction false} KeptHead(fill: Fill, rest: seq<OrderState>)
    requires fill.maker.InRange() && fill.taker.InRange()
    requires fill.qty == Min(fill.maker.Remaining(), fill.taker.Remaining())
    ensures var kept := if fill.MakerFilled() then [] else [fill.MakerAfter()];
      && Depth(kept + rest) == fill.maker.Remaining() - fill.qty + Depth(rest)
      && IDs(kept + rest) <= multiset{fill.maker.id} + IDs(rest)
  {
    if fill.MakerFilled() {
      assert [] + rest == rest;
    } else {
      assert ([fill.MakerAfter()] + rest)[1..] == rest;
    }
  }
}
