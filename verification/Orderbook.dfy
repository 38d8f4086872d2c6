/** The order book in memory and its operations (internal/engine/orderbook.go). Every operation is proved
    equal to the function on values that the laws are about. A method runs under the book's lock, so it is
    one step. */
module OrderbookModel {
  import opened Orders
  import opened Events
  import opened Books
  import opened Market
  import opened Limit
  import opened Sides

  /** The fills of a pass so far, and the taker's event after them. */
  predicate TellsTaker(e: OrderEvent, before: OrderEvent, taker: OrderState, fills: seq<Fill>, done: bool) {
    if done then e == EventOf(taker, OrderFilled, Filled)
    else if fills == [] then e == before
    else e == EventOf(taker, OrderPartial, Partial)
  }

  lemma FillsGrow(fills: seq<Fill>, f: Fill)
    ensures MakerEvents(fills + [f]) == MakerEvents(fills) + [f.MakerEvent()]
    ensures MarketTrades(fills + [f]) == MarketTrades(fills) + [f.MarketTrade()]
    ensures LimitTrades(fills + [f]) == LimitTrades(fills) + [f.LimitTrade()]
  {
  }

  /** One match of a market order: the maker's and the taker's event, and the trade. */
  method MatchOne(maker: Order, taker: OrderState, qty: Decimal, event: OrderStatusEvent)
      returns (next: OrderState, makerEvent: OrderEvent, trade: TradeEvent, restingFilled: bool, incomingFilled: bool)
    requires event.State() == EventOf(taker, event.eventType, event.status)
    modifies maker, event
    ensures var f := Fill(old(maker.State()), taker, qty);
      && maker.State() == f.MakerAfter() && next == f.TakerAfter()
      && makerEvent == f.MakerEvent() && event.State() == f.TakerEvent()
      && trade == f.MarketTrade()
      && restingFilled == f.MakerFilled() && incomingFilled == f.TakerFilled()
  {
    var resting := new OrderStatusEvent(maker.State());
    var makerRemainingBefore, takerRemainingBefore := maker.Remaining(), taker.Remaining();
    restingFilled := qty >= makerRemainingBefore;
    incomingFilled := qty >= takerRemainingBefore;
    trade := NewTradeEvent(maker.State(), taker, maker.price, qty, restingFilled, incomingFilled,
                           makerRemainingBefore - qty, takerRemainingBefore - qty);
    next := taker;
    if !restingFilled {
      maker.ChangeStatusTo(Partial);
    }
    resting.RecordFill(restingFilled, qty);
    makerEvent := resting.State();
    if !incomingFilled {
      next := next.(status := Partial);
    }
    event.RecordFill(incomingFilled, qty);
    maker.filled := maker.filled + qty;
    next := next.(filled := next.filled + qty);
  }

  /** A match at position `idx` of a level; a filled maker leaves the level there. */
  method MatchAt(level: PriceLevel, idx: nat, taker: OrderState, qty: Decimal, event: OrderStatusEvent)
      returns (next: OrderState, makerEvent: OrderEvent, trade: TradeEvent, restingFilled: bool, incomingFilled: bool)
    requires level.Valid() && idx < |level.orders| && event.State() == EventOf(taker, event.eventType, event.status)
    modifies level, level.orders[idx], event
    ensures level.Valid()
    ensures level.orders
         == if restingFilled then old(level.orders)[..idx] + old(level.orders)[idx + 1..] else old(level.orders)
    ensures var before := old(States(level.orders));
      var f := Fill(before[idx], taker, qty);
      && States(level.orders)
           == before[..idx] + (if f.MakerFilled() then [] else [f.MakerAfter()]) + before[idx + 1..]
      && next == f.TakerAfter() && makerEvent == f.MakerEvent() && event.State() == f.TakerEvent()
      && trade == f.MarketTrade()
      && restingFilled == f.MakerFilled() && incomingFilled == f.TakerFilled()
  {
    ghost var before := States(level.orders);
    var maker := level.orders[idx];
    next, makerEvent, trade, restingFilled, incomingFilled := MatchOne(maker, taker, qty, event);
    assert forall k :: 0 <= k < |level.orders| && k != idx ==> level.orders[k] != maker;
    assert forall k :: 0 <= k < |level.orders| && k != idx ==> level.orders[k].State() == before[k];
    if restingFilled {
      level.RemoveAt(idx);
      assert States(level.orders) == before[..idx] + [] + before[idx + 1..];
    } else {
      assert States(level.orders) == before[..idx] + [maker.State()] + before[idx + 1..];
    }
  }

  // ---------- the sweep of a level, step by step, on values ----------

  /** A sweep that will end as `whole` stands at position `idx` of the queue, with these fills behind it. */
  ghost predicate SweepStands(whole: LevelSweep, queue: seq<OrderState>, idx: nat, taker: OrderState,
                              fills: seq<Fill>) {
    && idx <= |queue|
    && var rest := SweepLevel(queue[idx..], taker);
       whole == LevelSweep(queue[..idx] + rest.orders, rest.taker, fills + rest.fills, rest.done)
  }

  /** It ends here without filling the taker: nothing left, or the order at hand stops it. */
  lemma SweepEnds(whole: LevelSweep, queue: seq<OrderState>, idx: nat, taker: OrderState, fills: seq<Fill>)
    requires SweepStands(whole, queue, idx, taker, fills)
    requires || idx == |queue| || SkipsLevel(queue[idx], taker)
             || (taker.side == Buy && Min(queue[idx].Remaining(), taker.Remaining()) == 0.0)
    ensures whole == LevelSweep(queue, taker, fills, false)
  {
    assert queue[..idx] + queue[idx..] == queue;
    assert fills + [] == fills;
  }

  /** A seller steps over a match of nothing. */
  lemma SweepSteps(whole: LevelSweep, queue: seq<OrderState>, idx: nat, taker: OrderState, fills: seq<Fill>)
    requires SweepStands(whole, queue, idx, taker, fills) && idx < |queue| && taker.side == Sell
    requires !SkipsLevel(queue[idx], taker) && Min(queue[idx].Remaining(), taker.Remaining()) == 0.0
    ensures SweepStands(whole, queue, idx + 1, taker, fills)
  {
    assert queue[idx..][1..] == queue[idx + 1..];
    assert queue[..idx + 1] == queue[..idx] + [queue[idx]];
  }

  /** A match, which may end the sweep. */
  lemma SweepMatches(whole: LevelSweep, queue: seq<OrderState>, idx: nat, taker: OrderState, fills: seq<Fill>, f: Fill,
                     after: seq<OrderState>)
    requires SweepStands(whole, queue, idx, taker, fills) && idx < |queue| && !SkipsLevel(queue[idx], taker)
    requires f == Fill(queue[idx], taker, Min(queue[idx].Remaining(), taker.Remaining())) && f.qty != 0.0
    requires after == queue[..idx] + (if f.MakerFilled() then [] else [f.MakerAfter()]) + queue[idx + 1..]
    ensures if f.TakerFilled() then whole == LevelSweep(after, f.TakerAfter(), fills + [f], true)
            else SweepStands(whole, after, if f.MakerFilled() then idx else idx + 1, f.TakerAfter(), fills + [f])
  {
    var kept := if f.MakerFilled() then [] else [f.MakerAfter()];
    assert queue[idx..][1..] == queue[idx + 1..];
    if f.TakerFilled() {
      assert after == queue[..idx] + (kept + queue[idx + 1..]);
    } else {
      var rest := SweepLevel(queue[idx + 1..], f.TakerAfter());
      var next := idx + |kept|;
      assert after[..next] == queue[..idx] + kept && after[next..] == queue[idx + 1..];
      assert queue[..idx] + (kept + rest.orders) == (queue[..idx] + kept) + rest.orders;
      assert fills + ([f] + rest.fills) == (fills + [f]) + rest.fills;
    }
  }

  /** A sweep of a level at position `idx`, with everything it has gathered up to date. */
  ghost predicate Sweeping(whole: LevelSweep, level: PriceLevel, idx: nat, taker: OrderState,
                           makerEvents: seq<OrderEvent>, trades: seq<TradeEvent>, fills: seq<Fill>,
                           event: OrderStatusEvent, first: OrderEvent)
    reads level, level.orders, event
  {
    && level.Valid() && SweepStands(whole, States(level.orders), idx, taker, fills)
    && makerEvents == MakerEvents(fills) && trades == MarketTrades(fills)
    && TellsTaker(event.State(), first, taker, fills, false)
    && event.State() == EventOf(taker, event.eventType, event.status)
  }

  /** The sweep once it has ended. */
  ghost predicate Swept(whole: LevelSweep, level: PriceLevel, taker: OrderState, makerEvents: seq<OrderEvent>,
                        trades: seq<TradeEvent>, done: bool, fills: seq<Fill>, event: OrderStatusEvent,
                        first: OrderEvent)
    reads level, level.orders, event
  {
    && level.Valid() && whole == LevelSweep(States(level.orders), taker, fills, done)
    && makerEvents == MakerEvents(fills) && trades == MarketTrades(fills)
    && TellsTaker(event.State(), first, taker, fills, done)
  }

  /** A match in the sweep: the level, the taker and all that is gathered move on by one fill. */
  method SweepMatch(level: PriceLevel, idx: nat, taker: OrderState, qty: Decimal, makerEvents: seq<OrderEvent>,
                    trades: seq<TradeEvent>, event: OrderStatusEvent, ghost whole: LevelSweep, ghost fills: seq<Fill>,
                    ghost first: OrderEvent)
      returns (next: OrderState, makerEvents': seq<OrderEvent>, trades': seq<TradeEvent>, idx': nat, done: bool,
               ghost fills': seq<Fill>)
    requires idx < |level.orders| && Sweeping(whole, level, idx, taker, makerEvents, trades, fills, event, first)
    requires !SkipsLevel(level.orders[idx].State(), taker)
    requires qty == Min(level.orders[idx].Remaining(), taker.Remaining()) && qty != 0.0
    modifies level, level.orders[idx], event
    ensures if done then Swept(whole, level, next, makerEvents', trades', true, fills', event, first)
            else Sweeping(whole, level, idx', next, makerEvents', trades', fills', event, first)
    ensures forall o :: o in level.orders ==> o in old(level.orders)
    ensures done || |level.orders| - idx' < old(|level.orders|) - idx
  {
    ghost var queue := States(level.orders);
    ghost var f := Fill(queue[idx], taker, qty);
    var makerEvent, trade, restingFilled;
    next, makerEvent, trade, restingFilled, done := MatchAt(level, idx, taker, qty, event);
    SweepMatches(whole, queue, idx, taker, fills, f, States(level.orders));
    FillsGrow(fills, f);
    makerEvents', trades', fills' := makerEvents + [makerEvent], trades + [trade], fills + [f];
    idx' := if restingFilled then idx else idx + 1;
  }

  /** The body of the closure's loop: it ends the sweep, steps over the order at hand, or matches it. */
  method SweepOrder(level: PriceLevel, idx: nat, taker: OrderState, makerEvents: seq<OrderEvent>,
                    trades: seq<TradeEvent>, event: OrderStatusEvent, ghost whole: LevelSweep, ghost fills: seq<Fill>,
                    ghost first: OrderEvent)
      returns (next: OrderState, makerEvents': seq<OrderEvent>, trades': seq<TradeEvent>, idx': nat, stop: bool,
               done: bool, ghost fills': seq<Fill>)
    requires idx < |level.orders| && Sweeping(whole, level, idx, taker, makerEvents, trades, fills, event, first)
    modifies level, level.orders[idx], event
    ensures if stop then Swept(whole, level, next, makerEvents', trades', done, fills', event, first)
            else !done && Sweeping(whole, level, idx', next, makerEvents', trades', fills', event, first)
    ensures forall o :: o in level.orders ==> o in old(level.orders)
    ensures stop || |level.orders| - idx' < old(|level.orders|) - idx
  {
    next, makerEvents', trades', idx', stop, done, fills' := taker, makerEvents, trades, idx, true, false, fills;
    if SkipsLevel(level.orders[idx].State(), taker) {
      SweepEnds(whole, States(level.orders), idx, taker, fills);
      return;
    }
    var qty := Min(level.orders[idx].Remaining(), taker.Remaining());
    if qty == 0.0 {
      if taker.side == Buy {
        SweepEnds(whole, States(level.orders), idx, taker, fills);
        return;
      }
      SweepSteps(whole, States(level.orders), idx, taker, fills);
      idx', stop := idx + 1, false;
      return;
    }
    next, makerEvents', trades', idx', done, fills' :=
      SweepMatch(level, idx, taker, qty, makerEvents, trades, event, whole, fills, first);
    stop := done;
  }

  lemma {:induction false} SweepStarts(queue: seq<OrderState>, taker: OrderState)
    ensures SweepStands(SweepLevel(queue, taker), queue, 0, taker, [])
  {
    assert queue[0..] == queue;
  }

  /** The closure `MatchMarket` runs on each level. */
  method SweepPriceLevel(level: PriceLevel, incoming: OrderState, event: OrderStatusEvent)
      returns (taker: OrderState, makerEvents: seq<OrderEvent>, trades: seq<TradeEvent>, done: bool,
               ghost fills: seq<Fill>)
    requires level.Valid() && event.State() == EventOf(incoming, event.eventType, event.status)
    modifies level, level.orders, event
    ensures forall o :: o in level.orders ==> o in old(level.orders)
    ensures Swept(SweepLevel(old(States(level.orders)), incoming), level, taker, makerEvents, trades, done, fills,
                  event, old(event.State()))
  {
    ghost var whole, first := SweepLevel(States(level.orders), incoming), event.State();
    taker, makerEvents, trades, done, fills := incoming, [], [], false, [];
    var idx: nat := 0;
    var stop := false;
    SweepStarts(States(level.orders), incoming);
    while idx < |level.orders|
      invariant Sweeping(whole, level, idx, taker, makerEvents, trades, fills, event, first)
      invariant !done && forall o :: o in level.orders ==> o in old(level.orders)
      decreases |level.orders| - idx
    {
      assert level.orders[idx] in level.orders;
      taker, makerEvents, trades, idx, stop, done, fills :=
        SweepOrder(level, idx, taker, makerEvents, trades, event, whole, fills, first);
      if stop {
        return;
      }
    }
    SweepEnds(whole, States(level.orders), idx, taker, fills);
  }

  // ---------- the sweep of a side ----------

  ghost predicate SideStands(whole: SideSweep, levels: seq<LevelState>, i: nat, taker: OrderState, fills: seq<Fill>) {
    && i <= |levels|
    && var rest := SweepSide(levels[i..], taker);
       whole == SideSweep(levels[..i] + rest.levels, rest.taker, fills + rest.fills, rest.done, rest.cancelled)
  }

  lemma {:induction false} SideStarts(levels: seq<LevelState>, taker: OrderState)
    ensures SideStands(SweepSide(levels, taker), levels, 0, taker, [])
  {
    assert levels[0..] == levels;
  }

  lemma SideEnds(whole: SideSweep, levels: seq<LevelState>, i: nat, taker: OrderState, fills: seq<Fill>)
    requires SideStands(whole, levels, i, taker, fills)
    requires i == |levels| || !Crosses(taker, levels[i].price)
    ensures whole == SideSweep(levels, taker, fills, false, i < |levels|)
  {
    assert levels[..i] + levels[i..] == levels;
    assert fills + [] == fills;
  }

  lemma {:induction false} SideSteps(whole: SideSweep, levels: seq<LevelState>, i: nat, taker: OrderState,
                                     fills: seq<Fill>, s: LevelSweep, after: seq<LevelState>)
    requires SideStands(whole, levels, i, taker, fills) && i < |levels| && Crosses(taker, levels[i].price)
    requires s == SweepLevel(levels[i].orders, taker)
    requires after == levels[i := LevelState(levels[i].price, s.orders)]
    ensures if s.done then whole == SideSweep(after, s.taker, fills + s.fills, true, false)
            else SideStands(whole, after, i + 1, s.taker, fills + s.fills)
  {
    var level := LevelState(levels[i].price, s.orders);
    assert levels[i..][1..] == levels[i + 1..];
    assert after[..i + 1] == levels[..i] + [level] && after[i + 1..] == levels[i + 1..];
    if s.done {
      assert after == levels[..i] + ([level] + levels[i + 1..]);
    } else {
      var rest := SweepSide(levels[i + 1..], s.taker);
      assert levels[..i] + ([level] + rest.levels) == (levels[..i] + [level]) + rest.levels;
      assert fills + (s.fills + rest.fills) == (fills + s.fills) + rest.fills;
    }
  }

  lemma {:induction false} NoFillNoChange(orders: seq<OrderState>, taker: OrderState)
    ensures SweepLevel(orders, taker).fills == [] ==> SweepLevel(orders, taker).taker == taker
  {
    if orders != [] && !SkipsLevel(orders[0], taker) {
      NoFillNoChange(orders[1..], taker);
    }
  }

  lemma FillsJoin(a: seq<Fill>, b: seq<Fill>)
    ensures MakerEvents(a + b) == MakerEvents(a) + MakerEvents(b)
    ensures MarketTrades(a + b) == MarketTrades(a) + MarketTrades(b)
  {
  }

  /** After a sweep the taker's event is up to date with the taker. */
  lemma {:induction false} StillTold(orders: seq<OrderState>, incoming: OrderState, first: OrderEvent, last: OrderEvent)
    requires first == EventOf(incoming, first.eventType, first.status)
    requires var s := SweepLevel(orders, incoming); TellsTaker(last, first, s.taker, s.fills, s.done)
    ensures last == EventOf(SweepLevel(orders, incoming).taker, last.eventType, last.status)
  {
    NoFillNoChange(orders, incoming);
  }

  /** One level of a side, swept; the others are as they were. */
  method SweepLevelAt(side: Side, i: nat, incoming: OrderState, event: OrderStatusEvent)
      returns (taker: OrderState, makerEvents: seq<OrderEvent>, trades: seq<TradeEvent>, done: bool,
               ghost fills: seq<Fill>)
    requires side.Valid() && i < |side.levels| && event.State() == EventOf(incoming, event.eventType, event.status)
    modifies side.levels[i], side.levels[i].orders, event
    ensures side.Valid()
    ensures forall k, o :: 0 <= k < |side.levels| && o in side.levels[k].orders ==> o in old(side.levels[k].orders)
    ensures Swept(SweepLevel(old(States(side.levels[i].orders)), incoming), side.levels[i], taker, makerEvents, trades,
                  done, fills, event, old(event.State()))
    ensures forall k :: 0 <= k < |side.levels| && k != i ==> side.levels[k].State() == old(side.levels[k].State())
  {
    ghost var queues := Queues(side.levels);
    QueuesAreApart(side.side, side.levels);
    LevelsApart(side.side, side.levels, i);
    taker, makerEvents, trades, done, fills := SweepPriceLevel(side.levels[i], incoming, event);
    OrderedAfter(side.side, side.levels, queues);
    forall k | 0 <= k < |side.levels| && k != i ensures side.levels[k].State() == old(side.levels[k].State()) {
      var other := side.levels[k];
      assert other.orders == old(other.orders);
      assert forall q :: 0 <= q < |other.orders| ==> other.orders[q].State() == old(other.orders[q].State());
    }
  }

  /** What happens at one level of an ordered side happens nowhere else on it. */
  lemma LevelsApart(side: OrderSide, levels: seq<PriceLevel>, i: nat)
    requires Ordered(side, levels) && i < |levels|
    ensures forall k :: 0 <= k < |levels| && k != i ==> levels[k] != levels[i]
    ensures forall k, q :: 0 <= k < |levels| && k != i && 0 <= q < |levels[k].orders| ==>
              levels[k].orders[q] !in levels[i].orders
  {
    forall k, q | 0 <= k < |levels| && k != i && 0 <= q < |levels[k].orders|
      ensures levels[k].orders[q] !in levels[i].orders
    {
      assert Apart(levels[if k < i then k else i], levels[if k < i then i else k]);
      assert levels[k].orders[q] in levels[k].orders;
    }
  }

  /** What the closure of `MatchMarket` carries from level to level. */
  datatype Gathered = Gathered(taker: OrderState, makerEvents: seq<OrderEvent>, trades: seq<TradeEvent>, done: bool,
                               cancelled: bool)

  /** What has been gathered is what these fills call for, and the taker's event is up to date with them. */
  ghost predicate Told(g: Gathered, fills: seq<Fill>, event: OrderEvent) {
    && g.makerEvents == MakerEvents(fills) && g.trades == MarketTrades(fills)
    && event == EventOf(g.taker, event.eventType, event.status)
    && (if g.done then event.eventType == OrderFilled && event.status == Filled
        else fills != [] ==> event.eventType == OrderPartial && event.status == Partial)
  }

  /** The sweep that will end as `whole` stands at level `i`, or has ended. */
  ghost predicate Underway(whole: SideSweep, levels: seq<LevelState>, i: nat, g: Gathered, fills: seq<Fill>) {
    if g.done || g.cancelled then whole == SideSweep(levels, g.taker, fills, g.done, g.cancelled)
    else SideStands(whole, levels, i, g.taker, fills)
  }

  /** The closure of `MatchMarket`, for the level a sweep stands at. */
  method SweepNext(side: Side, i: nat, g: Gathered, event: OrderStatusEvent, ghost whole: SideSweep,
                   ghost past: seq<Fill>)
      returns (next: Gathered, ghost fills: seq<Fill>)
    requires side.Valid() && i < |side.levels| && !g.done && !g.cancelled
    requires Underway(whole, side.State(), i, g, past) && Told(g, past, event.State())
    modifies side.levels[i], side.levels[i].orders, event
    ensures side.Valid()
    ensures forall k, o :: 0 <= k < |side.levels| && o in side.levels[k].orders ==> o in old(side.levels[k].orders)
    ensures Underway(whole, side.State(), i + 1, next, fills) && Told(next, fills, event.State())
  {
    ghost var before, first := side.State(), event.State();
    if !Crosses(g.taker, side.levels[i].price) {
      SideEnds(whole, before, i, g.taker, past);
      return g.(cancelled := true), past;
    }
    var taker, events, trades, done; ghost var matched;
    taker, events, trades, done, matched := SweepLevelAt(side, i, g.taker, event);
    StillTold(before[i].orders, g.taker, first, event.State());
    ghost var after := side.State();
    assert after == before[i := LevelState(before[i].price, after[i].orders)];
    SideSteps(whole, before, i, g.taker, past, SweepLevel(before[i].orders, g.taker), after);
    FillsJoin(past, matched);
    next, fills := Gathered(taker, g.makerEvents + events, g.trades + trades, done, false), past + matched;
  }

  /** The `Ascend` of `MatchMarket`: best level first, until the taker is filled or the prices turn against it;
      `MatchMarket` then marks the taker's event as cancelled. */
  method SweepLevels(side: Side, incoming: OrderState, event: OrderStatusEvent, ghost whole: SideSweep)
      returns (g: Gathered, ghost fills: seq<Fill>)
    requires side.Valid() && SideStands(whole, side.State(), 0, incoming, [])
    requires Told(Gathered(incoming, [], [], false, false), [], event.State())
    modifies side.levels, OrdersOf(side.levels), event
    ensures side.Valid()
    ensures forall k, o :: 0 <= k < |side.levels| && o in side.levels[k].orders ==> o in old(side.levels[k].orders)
    ensures Underway(whole, side.State(), |side.levels|, g, fills) && Told(g, fills, event.State())
  {
    g, fills := Gathered(incoming, [], [], false, false), [];
    var i := 0;
    while i < |side.levels| && !g.done && !g.cancelled
      invariant i <= |side.levels| && side.Valid()
      invariant forall k, o :: 0 <= k < |side.levels| && o in side.levels[k].orders ==> o in old(side.levels[k].orders)
      invariant Underway(whole, side.State(), i, g, fills) && Told(g, fills, event.State())
    {
      forall o | o in side.levels[i].orders ensures o in old(OrdersOf(side.levels)) {
        assert side.levels[i] in side.levels && o in old(side.levels[i].orders);
      }
      g, fills := SweepNext(side, i, g, event, whole, fills);
      i := i + 1;
    }
  }

  /** The whole sweep, against the sweep on values. */
  method SweepWhole(side: Side, incoming: OrderState, event: OrderStatusEvent)
      returns (g: Gathered, ghost fills: seq<Fill>)
    requires side.Valid() && event.State() == EventOf(incoming, event.eventType, event.status)
    modifies side.levels, OrdersOf(side.levels), event
    ensures side.Valid()
    ensures forall k, o :: 0 <= k < |side.levels| && o in side.levels[k].orders ==> o in old(side.levels[k].orders)
    ensures SweepSide(old(side.State()), incoming) == SideSweep(side.State(), g.taker, fills, g.done, g.cancelled)
    ensures Told(g, fills, event.State())
  {
    ghost var whole := SweepSide(side.State(), incoming);
    SideStarts(side.State(), incoming);
    g, fills := SweepLevels(side, incoming, event, whole);
    if !g.done && !g.cancelled {
      SideEnds(whole, side.State(), |side.levels|, g.taker, fills);
    }
  }

  /** The sweep brings no order to the side. */
  method SweepAll(side: Side, incoming: OrderState, event: OrderStatusEvent)
      returns (g: Gathered, ghost fills: seq<Fill>)
    requires side.Valid() && event.State() == EventOf(incoming, event.eventType, event.status)
    modifies side.levels, OrdersOf(side.levels), event
    ensures side.Valid() && OrdersOf(side.levels) <= old(OrdersOf(side.levels))
    ensures SweepSide(old(side.State()), incoming) == SideSweep(side.State(), g.taker, fills, g.done, g.cancelled)
    ensures Told(g, fills, event.State())
  {
    ghost var all := OrdersOf(side.levels);
    QueuesWithin(side.levels);
    g, fills := SweepWhole(side, incoming, event);
    OrdersWithin(side.levels, all);
  }

  // ---------- the pass of a limit order, step by step, on values ----------

  /** A pass that will end as `whole` stands at position `idx` of the queue it started on. */
  ghost predicate FillStands(whole: LevelFill, queue: seq<OrderState>, idx: nat, pops: nat, taker: OrderState,
                             fills: seq<Fill>) {
    && idx <= |queue| && pops <= idx
    && var rest := FillLevel(queue[idx..], taker);
       whole == LevelFill(queue[..idx] + rest.orders, pops + rest.pops, rest.taker, fills + rest.fills, rest.done)
  }

  lemma {:induction false} FillStarts(queue: seq<OrderState>, taker: OrderState)
    ensures FillStands(FillLevel(queue, taker), queue, 0, 0, taker, [])
  {
    assert queue[0..] == queue;
  }

  lemma FillEnds(whole: LevelFill, queue: seq<OrderState>, pops: nat, taker: OrderState, fills: seq<Fill>)
    requires FillStands(whole, queue, |queue|, pops, taker, fills)
    ensures whole == LevelFill(queue, pops, taker, fills, false)
  {
    assert queue[..|queue|] + [] == queue;
    assert fills + [] == fills;
  }

  lemma FillSteps(whole: LevelFill, queue: seq<OrderState>, idx: nat, pops: nat, taker: OrderState, fills: seq<Fill>)
    requires FillStands(whole, queue, idx, pops, taker, fills) && idx < |queue|
    requires queue[idx].userID == taker.userID || Min(queue[idx].Remaining(), taker.Remaining()) == 0.0
    ensures FillStands(whole, queue, idx + 1, pops, taker, fills)
  {
    assert queue[idx..][1..] == queue[idx + 1..];
    assert queue[..idx + 1] == queue[..idx] + [queue[idx]];
  }

  lemma FillMatches(whole: LevelFill, queue: seq<OrderState>, idx: nat, pops: nat, taker: OrderState, fills: seq<Fill>,
                    f: Fill)
    requires FillStands(whole, queue, idx, pops, taker, fills) && idx < |queue| && queue[idx].userID != taker.userID
    requires f == Fill(queue[idx], taker, Min(queue[idx].Remaining(), taker.Remaining())) && f.qty != 0.0
    ensures var after, popped := queue[idx := f.MakerAfter()], if f.MakerFilled() then pops + 1 else pops;
      if f.TakerFilled() then whole == LevelFill(after, popped, f.TakerAfter(), fills + [f], true)
      else FillStands(whole, after, idx + 1, popped, f.TakerAfter(), fills + [f])
  {
    var after := queue[idx := f.MakerAfter()];
    assert queue[idx..][1..] == queue[idx + 1..] == after[idx + 1..];
    assert after[..idx + 1] == queue[..idx] + [f.MakerAfter()];
    if f.TakerFilled() {
      assert after == queue[..idx] + ([f.MakerAfter()] + queue[idx + 1..]);
    } else {
      var rest := FillLevel(queue[idx + 1..], f.TakerAfter());
      assert queue[..idx] + ([f.MakerAfter()] + rest.orders) == (queue[..idx] + [f.MakerAfter()]) + rest.orders;
      assert fills + ([f] + rest.fills) == (fills + [f]) + rest.fills;
    }
  }

  lemma {:induction false} PairedGrows(fills: seq<Fill>, f: Fill)
    ensures PairedEvents(fills + [f]) == PairedEvents(fills) + [f.MakerEvent(), f.TakerEvent()]
  {
    if fills == [] {
      assert (fills + [f])[1..] == [];
    } else {
      assert (fills + [f])[1..] == fills[1..] + [f];
      PairedGrows(fills[1..], f);
    }
  }

  /** One match of a limit order, and what it publishes: the pair of order events, then the trade. */
  method FillOne(maker: Order, taker: OrderState, qty: Decimal, event: OrderStatusEvent, log: EventLog)
      returns (next: OrderState, incomingFilled: bool)
    requires event.State() == EventOf(taker, event.eventType, event.status)
    requires qty == Min(maker.Remaining(), taker.Remaining())
    modifies maker, event, log
    ensures var f := Fill(old(maker.State()), taker, qty);
      && maker.State() == f.MakerAfter() && next == f.TakerAfter() && incomingFilled == f.TakerFilled()
      && event.State() == f.TakerEvent()
      && log.orderEvents == old(log.orderEvents) + [f.MakerEvent(), f.TakerEvent()]
      && log.tradeEvents == old(log.tradeEvents) + [f.LimitTrade()]
  {
    var resting := new OrderStatusEvent(maker.State());
    var trade := NewTradeEvent(maker.State(), taker, taker.price, qty, false, false, maker.Remaining(),
                               taker.Remaining());
    var restingFilled := qty >= maker.Remaining();
    incomingFilled := qty >= taker.Remaining();
    next := taker;
    if restingFilled {
      trade := trade.(makerFilled := true);
    } else {
      maker.ChangeStatusTo(Partial);
    }
    resting.RecordFill(restingFilled, qty);
    if incomingFilled {
      trade := trade.(takerFilled := true);
    } else {
      next := next.(status := Partial);
    }
    event.RecordFill(incomingFilled, qty);
    maker.filled := maker.filled + qty;
    next := next.(filled := next.filled + qty);
    log.PublishOrderEvents([resting.State(), event.State()]);
    if trade.makerFilled || trade.takerFilled {
      log.PublishTradeEvents([trade]);
    }
  }

  /** The side after `pops` calls of `PopFront`, the best level having started as `orders`. */
  ghost predicate Popped(side: Side, levels: seq<PriceLevel>, orders: seq<Order>, pops: nat)
    reads side, levels
  {
    && levels != [] && pops <= |orders|
    && levels[0].orders == orders[pops..]
    && side.levels == if 0 < pops == |orders| then levels[1..] else levels
  }

  ghost predicate Distinct(orders: seq<Order>) {
    forall i, j :: 0 <= i < j < |orders| ==> orders[i] != orders[j]
  }

  /** The pass has ended with the taker filled, or stands at `idx`. */
  ghost predicate Filling(whole: LevelFill, queue: seq<OrderState>, idx: nat, pops: nat, taker: OrderState,
                          fills: seq<Fill>, done: bool) {
    if done then whole == LevelFill(queue, pops, taker, fills, true)
    else FillStands(whole, queue, idx, pops, taker, fills)
  }

  /** One match changes one order of the queue, and nothing about the side. */
  method FillAt(side: Side, ghost levels: seq<PriceLevel>, orders: seq<Order>, ghost pops: nat, idx: nat,
                taker: OrderState, qty: Decimal, event: OrderStatusEvent, log: EventLog)
      returns (next: OrderState, done: bool)
    requires side.Valid() && Popped(side, levels, orders, pops)
    requires Distinct(orders) && idx < |orders| && event.State() == EventOf(taker, event.eventType, event.status)
    requires qty == Min(orders[idx].Remaining(), taker.Remaining())
    modifies orders[idx], event, log
    ensures side.Valid() && Popped(side, levels, orders, pops)
    ensures var f := Fill(old(orders[idx].State()), taker, qty);
      && States(orders) == old(States(orders))[idx := f.MakerAfter()]
      && next == f.TakerAfter() && done == f.TakerFilled()
      && log.orderEvents == old(log.orderEvents) + [f.MakerEvent(), f.TakerEvent()]
      && log.tradeEvents == old(log.tradeEvents) + [f.LimitTrade()]
    ensures event.State() == EventOf(next, event.eventType, event.status)
  {
    next, done := FillOne(orders[idx], taker, qty, event, log);
    assert forall k :: 0 <= k < |orders| && k != idx ==> orders[k].State() == old(orders[k].State());
  }

  method PopFilled(side: Side, ghost levels: seq<PriceLevel>, ghost orders: seq<Order>, ghost pops: nat)
    requires side.Valid() && Popped(side, levels, orders, pops) && pops < |orders|
    modifies side, levels[0]
    ensures side.Valid() && Popped(side, levels, orders, pops + 1)
  {
    assert orders[pops..][1..] == orders[pops + 1..];
    side.PopFront();
  }

  /** One match; a filled maker makes the side drop the head of its best level. */
  method FillAndPop(side: Side, ghost levels: seq<PriceLevel>, orders: seq<Order>, ghost pops: nat, idx: nat,
                    taker: OrderState, qty: Decimal, event: OrderStatusEvent, log: EventLog)
      returns (next: OrderState, done: bool)
    requires side.Valid() && Popped(side, levels, orders, pops) && pops <= idx
    requires Distinct(orders) && idx < |orders| && event.State() == EventOf(taker, event.eventType, event.status)
    requires qty == Min(orders[idx].Remaining(), taker.Remaining())
    modifies side, levels[0], orders[idx], event, log
    ensures var f := Fill(old(orders[idx].State()), taker, qty);
      && side.Valid() && Popped(side, levels, orders, if f.MakerFilled() then pops + 1 else pops)
      && States(orders) == old(States(orders))[idx := f.MakerAfter()]
      && next == f.TakerAfter() && done == f.TakerFilled()
      && log.orderEvents == old(log.orderEvents) + [f.MakerEvent(), f.TakerEvent()]
      && log.tradeEvents == old(log.tradeEvents) + [f.LimitTrade()]
    ensures event.State() == EventOf(next, event.eventType, event.status)
  {
    var restingFilled := qty >= orders[idx].Remaining();
    next, done := FillAt(side, levels, orders, pops, idx, taker, qty, event, log);
    if restingFilled {
      PopFilled(side, levels, orders, pops);
    }
  }

  lemma OneFill(fills: seq<Fill>, f: Fill)
    ensures (fills + [f])[|fills|..] == [f]
    ensures PairedEvents([f]) == [f.MakerEvent(), f.TakerEvent()] && LimitTrades([f]) == [f.LimitTrade()]
  {
    assert PairedEvents([f]) == [f.MakerEvent(), f.TakerEvent()] + PairedEvents([]);
  }

  lemma {:induction false} LogGrows(a: seq<Fill>, b: seq<Fill>)
    requires a <= b
    ensures PairedEvents(a) + PairedEvents(b[|a|..]) == PairedEvents(b)
    ensures LimitTrades(a) + LimitTrades(b[|a|..]) == LimitTrades(b)
  {
    if a != [] {
      assert a[1..] <= b[1..] && b[1..][|a[1..]|..] == b[|a|..];
      LogGrows(a[1..], b[1..]);
    }
  }

  lemma {:induction false} LogGrowsFrom(orderEvents: seq<OrderEvent>, tradeEvents: seq<TradeEvent>, a: seq<Fill>,
                                        b: seq<Fill>)
    requires a <= b
    ensures orderEvents + PairedEvents(a) + PairedEvents(b[|a|..]) == orderEvents + PairedEvents(b)
    ensures tradeEvents + LimitTrades(a) + LimitTrades(b[|a|..]) == tradeEvents + LimitTrades(b)
  {
    LogGrows(a, b);
  }

  /** Since the pass began the log has gained exactly what these fills publish. */
  ghost predicate Logged(log: EventLog, orderEvents: seq<OrderEvent>, tradeEvents: seq<TradeEvent>, fills: seq<Fill>)
    reads log
  {
    log.orderEvents == orderEvents + PairedEvents(fills) && log.tradeEvents == tradeEvents + LimitTrades(fills)
  }

  lemma LogStarts(log: EventLog)
    ensures Logged(log, log.orderEvents, log.tradeEvents, [])
  {
  }

  /** The levels behind the best one hold none of these orders and queue the same orders as before. */
  ghost predicate OthersApart(levels: seq<PriceLevel>, orders: seq<Order>, queues: seq<seq<Order>>)
    reads levels
  {
    && |queues| == |levels|
    && (forall k :: 1 <= k < |levels| ==> levels[k] != levels[0] && levels[k].orders == queues[k])
    && (forall k, o :: 1 <= k < |queues| && o in queues[k] ==> o !in orders)
  }

  /** The body of `MatchLimit`'s loop: a filled maker makes the side drop the head of its best level. */
  method FillNext(side: Side, ghost levels: seq<PriceLevel>, orders: seq<Order>, idx: nat, taker: OrderState,
                  event: OrderStatusEvent, log: EventLog, ghost whole: LevelFill, ghost pops: nat,
                  ghost fills: seq<Fill>)
      returns (next: OrderState, done: bool, ghost pops': nat, ghost fills': seq<Fill>)
    requires side.Valid() && Popped(side, levels, orders, pops) && Distinct(orders) && idx < |orders|
    requires FillStands(whole, States(orders), idx, pops, taker, fills)
    requires event.State() == EventOf(taker, event.eventType, event.status)
    modifies side, levels[0], orders[idx], event, log
    ensures side.Valid() && Popped(side, levels, orders, pops')
    ensures Filling(whole, States(orders), idx + 1, pops', next, fills', done)
    ensures event.State() == EventOf(next, event.eventType, event.status)
    ensures fills <= fills' && Logged(log, old(log.orderEvents), old(log.tradeEvents), fills'[|fills|..])
  {
    ghost var queue := States(orders);
    var bestOrder := orders[idx];
    next, done, pops', fills' := taker, false, pops, fills;
    var qty := Min(bestOrder.Remaining(), taker.Remaining());
    if bestOrder.userID == taker.userID || qty == 0.0 {
      FillSteps(whole, queue, idx, pops, taker, fills);
      return;
    }
    ghost var f := Fill(queue[idx], taker, qty);
    FillMatches(whole, queue, idx, pops, taker, fills, f);
    OneFill(fills, f);
    fills' := fills + [f];
    pops' := if f.MakerFilled() then pops + 1 else pops;
    next, done := FillAndPop(side, levels, orders, pops, idx, taker, qty, event, log);
  }

  /** A pass over the best level at position `idx`, with the side, the log and the taker's event up to date. */
  ghost predicate Passing(side: Side, levels: seq<PriceLevel>, orders: seq<Order>, queues: seq<seq<Order>>,
                          event: OrderStatusEvent, log: EventLog, orderEvents: seq<OrderEvent>,
                          tradeEvents: seq<TradeEvent>, whole: LevelFill, idx: nat, pops: nat, taker: OrderState,
                          fills: seq<Fill>, done: bool)
    reads side, side.levels, levels, orders, event, log
  {
    && side.Valid() && Popped(side, levels, orders, pops) && OthersApart(levels, orders, queues)
    && event.State() == EventOf(taker, event.eventType, event.status)
    && Logged(log, orderEvents, tradeEvents, fills)
    && Filling(whole, States(orders), idx, pops, taker, fills, done)
  }

  /** The same, with what it leaves alone and what has been logged since the pass began. */
  method FillNextLogged(side: Side, ghost levels: seq<PriceLevel>, orders: seq<Order>, idx: nat, taker: OrderState,
                        event: OrderStatusEvent, log: EventLog, ghost whole: LevelFill, ghost pops: nat,
                        ghost fills: seq<Fill>, ghost queues: seq<seq<Order>>, ghost orderEvents: seq<OrderEvent>,
                        ghost tradeEvents: seq<TradeEvent>)
      returns (next: OrderState, done: bool, ghost pops': nat, ghost fills': seq<Fill>)
    requires Distinct(orders) && idx < |orders|
    requires Passing(side, levels, orders, queues, event, log, orderEvents, tradeEvents, whole, idx, pops, taker, fills,
                     false)
    modifies side, levels[0], orders[idx], event, log
    ensures Passing(side, levels, orders, queues, event, log, orderEvents, tradeEvents, whole, idx + 1, pops', next,
                    fills', done)
    ensures forall k, o: Order :: 1 <= k < |queues| && o in queues[k] ==> o.State() == old(o.State())
  {
    next, done, pops', fills' := FillNext(side, levels, orders, idx, taker, event, log, whole, pops, fills);
    LogGrowsFrom(orderEvents, tradeEvents, fills, fills');
  }

  /** The side's levels once its best level has been passed over. */
  lemma PoppedState(side: Side, levels: seq<PriceLevel>, orders: seq<Order>, pops: nat, queues: seq<seq<Order>>,
                    before: seq<LevelState>)
    requires Popped(side, levels, orders, pops) && |before| == |levels| && OthersApart(levels, orders, queues)
    requires forall k :: 0 <= k < |levels| ==> before[k].price == levels[k].price
    requires forall k :: 1 <= k < |levels| ==> before[k].orders == States(queues[k])
    ensures side.State() == AfterPops(before, States(orders), pops)
  {
    assert States(levels[0].orders) == States(orders)[pops..];
    assert forall k :: 1 <= k < |levels| ==> levels[k].State() == before[k];
  }

  lemma PoppedOrders(side: Side, levels: seq<PriceLevel>, orders: seq<Order>, pops: nat, queues: seq<seq<Order>>,
                     all: set<Order>)
    requires Popped(side, levels, orders, pops) && OthersApart(levels, orders, queues)
    requires (forall o :: o in orders ==> o in all) && forall k, o :: 1 <= k < |queues| && o in queues[k] ==> o in all
    ensures OrdersOf(side.levels) <= all
    ensures forall l :: l in side.levels ==> l in levels
  {
    forall l, o | l in side.levels && o in l.orders ensures o in all {
      var k :| 0 <= k < |levels| && levels[k] == l;
    }
  }

  /** `MatchLimit`'s loop over the orders the best level had when it began. */
  method FillLoop(side: Side, incoming: OrderState, event: OrderStatusEvent, log: EventLog,
                  ghost levels: seq<PriceLevel>, orders: seq<Order>, ghost queues: seq<seq<Order>>,
                  ghost whole: LevelFill, ghost orderEvents: seq<OrderEvent>, ghost tradeEvents: seq<TradeEvent>)
      returns (taker: OrderState, done: bool, ghost pops: nat, ghost fills: seq<Fill>)
    requires levels != [] && Distinct(orders)
    requires Passing(side, levels, orders, queues, event, log, orderEvents, tradeEvents, whole, 0, 0, incoming, [],
                     false)
    modifies side, levels[0], orders, event, log
    ensures Passing(side, levels, orders, queues, event, log, orderEvents, tradeEvents, whole, |orders|, pops, taker,
                    fills, done)
    ensures forall k, o: Order :: 1 <= k < |queues| && o in queues[k] ==> o.State() == old(o.State())
  {
    taker, done, pops, fills := incoming, false, 0, [];
    var idx := 0;
    while idx < |orders| && !done
      invariant idx <= |orders|
      invariant Passing(side, levels, orders, queues, event, log, orderEvents, tradeEvents, whole, idx, pops, taker,
                        fills, done)
      invariant forall k, o: Order :: 1 <= k < |queues| && o in queues[k] ==> o.State() == old(o.State())
    {
      taker, done, pops, fills := FillNextLogged(side, levels, orders, idx, taker, event, log, whole, pops, fills,
                                                 queues, orderEvents, tradeEvents);
      idx := idx + 1;
    }
  }

  /** The whole loop, against the pass on values. */
  method FillAll(side: Side, incoming: OrderState, event: OrderStatusEvent, log: EventLog,
                 ghost levels: seq<PriceLevel>, orders: seq<Order>, ghost queues: seq<seq<Order>>)
      returns (taker: OrderState, done: bool, ghost pops: nat, ghost fills: seq<Fill>)
    requires side.Valid() && Popped(side, levels, orders, 0) && Distinct(orders) && OthersApart(levels, orders, queues)
    requires event.State() == EventOf(incoming, event.eventType, event.status)
    modifies side, levels[0], orders, event, log
    ensures side.Valid() && Popped(side, levels, orders, pops) && OthersApart(levels, orders, queues)
    ensures FillLevel(old(States(orders)), incoming) == LevelFill(States(orders), pops, taker, fills, done)
    ensures forall k, o: Order :: 1 <= k < |queues| && o in queues[k] ==> o.State() == old(o.State())
    ensures Logged(log, old(log.orderEvents), old(log.tradeEvents), fills)
  {
    ghost var whole, orderEvents, tradeEvents := FillLevel(States(orders), incoming), log.orderEvents, log.tradeEvents;
    FillStarts(States(orders), incoming);
    LogStarts(log);
    taker, done, pops, fills := FillLoop(side, incoming, event, log, levels, orders, queues, whole, orderEvents,
                                         tradeEvents);
    if !done {
      FillEnds(whole, States(orders), pops, taker, fills);
    }
  }

  /** The pass over the best level, and the side it leaves. */
  method FillBest(side: Side, incoming: OrderState, event: OrderStatusEvent, log: EventLog)
      returns (taker: OrderState, done: bool, ghost pops: nat, ghost fills: seq<Fill>)
    requires side.Valid() && side.levels != [] && event.State() == EventOf(incoming, event.eventType, event.status)
    modifies side, side.levels[0], side.levels[0].orders, event, log
    ensures side.Valid()
    ensures var before := old(side.State());
      var s := FillLevel(before[0].orders, incoming);
      && side.State() == AfterPops(before, s.orders, s.pops)
      && s == LevelFill(s.orders, pops, taker, fills, done)
    ensures forall l :: l in side.levels ==> l in old(side.levels)
    ensures OrdersOf(side.levels) <= old(OrdersOf(side.levels))
    ensures Logged(log, old(log.orderEvents), old(log.tradeEvents), fills)
  {
    ghost var levels, before, all := side.levels, side.State(), OrdersOf(side.levels);
    ghost var queues := Queues(levels);
    var orders := side.levels[0].orders;
    assert orders[0..] == orders;
    LevelsApart(side.side, levels, 0);
    QueuesWithin(levels);
    taker, done, pops, fills := FillAll(side, incoming, event, log, levels, orders, queues);
    PoppedOrders(side, levels, orders, pops, queues, all);
    PoppedState(side, levels, orders, pops, queues, before);
  }

  /** The end of a market order: the taker's event is settled and everything is published as one batch. */
  method PublishBatch(g: Gathered, ghost s: SideSweep, event: OrderStatusEvent, log: EventLog)
    requires s == SideSweep(s.levels, g.taker, s.fills, g.done, g.cancelled) && Told(g, s.fills, event.State())
    modifies event, log
    ensures log.orderEvents == old(log.orderEvents) + s.OrderEvents()
    ensures log.tradeEvents == old(log.tradeEvents) + MarketTrades(s.fills)
  {
    if g.cancelled {
      event.ChangeStatusEvent(OrderCanceled, Cancelled);
    }
    if g.done || g.cancelled || |g.makerEvents| > 0 {
      log.PublishOrderEvents(g.makerEvents + [event.State()]);
      if |g.trades| > 0 {
        log.PublishTradeEvents(g.trades);
      }
    }
  }

  /** Publishing leaves the side as it is. */
  method PublishBeside(side: Side, g: Gathered, ghost s: SideSweep, event: OrderStatusEvent, log: EventLog)
    requires side.Valid()
    requires s == SideSweep(s.levels, g.taker, s.fills, g.done, g.cancelled) && Told(g, s.fills, event.State())
    modifies event, log
    ensures side.Valid() && side.State() == old(side.State()) && OrdersOf(side.levels) == old(OrdersOf(side.levels))
    ensures log.orderEvents == old(log.orderEvents) + s.OrderEvents()
    ensures log.tradeEvents == old(log.tradeEvents) + MarketTrades(s.fills)
  {
    PublishBatch(g, s, event, log);
  }

  method DropDrained(side: Side)
    requires side.Valid()
    modifies side
    ensures side.Valid() && side.State() == DropEmpty(old(side.State()))
    ensures forall l :: l in side.levels ==> l in old(side.levels)
    ensures OrdersOf(side.levels) <= old(OrdersOf(side.levels))
  {
    side.RemoveEmptyLevel();
  }

  /** What a market order leaves of the side it trades with, and what it publishes. */
  ghost function MarketLeft(before: seq<LevelState>, incoming: OrderState): seq<LevelState> {
    DropEmpty(SweepSide(before, incoming).levels)
  }

  ghost function MarketOrderEvents(before: seq<LevelState>, incoming: OrderState): seq<OrderEvent> {
    SweepSide(before, incoming).OrderEvents()
  }

  ghost function MarketTradeEvents(before: seq<LevelState>, incoming: OrderState): seq<TradeEvent> {
    MarketTrades(SweepSide(before, incoming).fills)
  }

  /** A market order against a side with levels. */
  method SweepAndPublish(opposite: Side, log: EventLog, incoming: OrderState)
    requires opposite.Valid()
    modifies opposite.levels, OrdersOf(opposite.levels), log
    ensures opposite.Valid() && OrdersOf(opposite.levels) <= old(OrdersOf(opposite.levels))
    ensures opposite.State() == SweepSide(old(opposite.State()), incoming).levels
    ensures log.orderEvents == old(log.orderEvents) + MarketOrderEvents(old(opposite.State()), incoming)
    ensures log.tradeEvents == old(log.tradeEvents) + MarketTradeEvents(old(opposite.State()), incoming)
  {
    var g, event := SweepBegun(opposite, incoming);
    PublishBeside(opposite, g, SweepSide(old(opposite.State()), incoming), event, log);
  }

  /** The sweep with the taker's event it has built up. */
  method SweepBegun(opposite: Side, incoming: OrderState) returns (g: Gathered, event: OrderStatusEvent)
    requires opposite.Valid()
    modifies opposite.levels, OrdersOf(opposite.levels)
    ensures fresh(event)
    ensures opposite.Valid() && OrdersOf(opposite.levels) <= old(OrdersOf(opposite.levels))
    ensures var s := SweepSide(old(opposite.State()), incoming);
      opposite.State() == s.levels && Told(g, s.fills, event.State()) &&
      s == SideSweep(s.levels, g.taker, s.fills, g.done, g.cancelled)
  {
    event := new OrderStatusEvent(incoming);
    ghost var fills;
    g, fills := SweepAll(opposite, incoming, event);
  }

  /** A market order against the side it trades with. */
  method MatchMarketOn(opposite: Side, log: EventLog, incoming: OrderState) returns (err: MatchError)
    requires opposite.Valid()
    modifies opposite, opposite.levels, OrdersOf(opposite.levels), log
    ensures opposite.Valid() && OrdersOf(opposite.levels) <= old(OrdersOf(opposite.levels))
    ensures forall l :: l in opposite.levels ==> l in old(opposite.levels)
    ensures err == if old(opposite.levels) == [] then OrderbookEmpty else NoError
    ensures opposite.State() == MarketLeft(old(opposite.State()), incoming)
    ensures log.orderEvents == old(log.orderEvents) + MarketOrderEvents(old(opposite.State()), incoming)
    ensures log.tradeEvents == old(log.tradeEvents) + MarketTradeEvents(old(opposite.State()), incoming)
  {
    if |opposite.levels| == 0 {
      return OrderbookEmpty;
    }
    SweepAndPublish(opposite, log, incoming);
    DropDrained(opposite);
    return NoError;
  }

  /** What a limit order does to the opposite side, what it leaves to be booked, and what it publishes. */
  datatype LimitEffect = LimitEffect(error: MatchError, left: seq<LevelState>, taker: OrderState, rests: bool,
                                     orderEvents: seq<OrderEvent>, tradeEvents: seq<TradeEvent>)

  ghost function LimitEffectOf(before: seq<LevelState>, incoming: OrderState): LimitEffect {
    if before == [] then
      LimitEffect(OrderbookEmpty, before, incoming, false, [], [])
    else if Crosses(incoming, before[0].price) then
      var s := FillLevel(before[0].orders, incoming);
      LimitEffect(NoError, AfterPops(before, s.orders, s.pops), s.taker, !s.done && s.taker.status == Partial,
                  PairedEvents(s.fills), LimitTrades(s.fills))
    else
      LimitEffect(NoError, before, incoming, false,
                  if incoming.side == Buy then [] else [EventOf(incoming, OrderCanceled, Cancelled)], [])
  }

  /** A limit order against the side it trades with; `rests` says whether its remainder is to be booked. */
  method MatchLimitOn(opposite: Side, log: EventLog, incoming: OrderState)
      returns (err: MatchError, taker: OrderState, rests: bool)
    requires opposite.Valid()
    modifies opposite, opposite.levels, OrdersOf(opposite.levels), log
    ensures opposite.Valid() && OrdersOf(opposite.levels) <= old(OrdersOf(opposite.levels))
    ensures forall l :: l in opposite.levels ==> l in old(opposite.levels)
    ensures var e := LimitEffectOf(old(opposite.State()), incoming);
      && err == e.error && taker == e.taker && rests == e.rests && opposite.State() == e.left
      && log.orderEvents == old(log.orderEvents) + e.orderEvents
      && log.tradeEvents == old(log.tradeEvents) + e.tradeEvents
  {
    taker, rests := incoming, false;
    if |opposite.levels| == 0 {
      return OrderbookEmpty, taker, rests;
    }
    if Crosses(incoming, opposite.levels[0].price) {
      ghost var fills;
      taker, rests, fills := FillOn(opposite, log, incoming);
    } else if incoming.side == Sell {
      Refuse(incoming, log);
    }
    return NoError, taker, rests;
  }

  /** The best level meets the taker: fill from it. */
  method FillOn(opposite: Side, log: EventLog, incoming: OrderState)
      returns (taker: OrderState, rests: bool, ghost fills: seq<Fill>)
    requires opposite.Valid() && opposite.levels != []
    modifies opposite, opposite.levels, OrdersOf(opposite.levels), log
    ensures opposite.Valid() && OrdersOf(opposite.levels) <= old(OrdersOf(opposite.levels))
    ensures forall l :: l in opposite.levels ==> l in old(opposite.levels)
    ensures var before := old(opposite.State());
      var s := FillLevel(before[0].orders, incoming);
      && taker == s.taker && fills == s.fills && (rests <==> !s.done && s.taker.status == Partial)
      && opposite.State() == AfterPops(before, s.orders, s.pops)
    ensures Logged(log, old(log.orderEvents), old(log.tradeEvents), fills)
  {
    BestWithin(opposite.levels);
    assert opposite.levels[0] in opposite.levels;
    var event := new OrderStatusEvent(incoming);
    var done; ghost var pops;
    taker, done, pops, fills := FillBest(opposite, incoming, event, log);
    rests := !done && taker.status == Partial;
  }

  lemma BestWithin(levels: seq<PriceLevel>)
    requires levels != []
    ensures forall o :: o in levels[0].orders ==> o in OrdersOf(levels)
  {
    QueuesWithin(levels);
  }

  /** A seller's order that meets no acceptable bid is reported as cancelled. */
  method Refuse(incoming: OrderState, log: EventLog)
    modifies log
    ensures log.orderEvents == old(log.orderEvents) + [EventOf(incoming, OrderCanceled, Cancelled)]
    ensures log.tradeEvents == old(log.tradeEvents)
  {
    var event := new OrderStatusEvent(incoming);
    event.ChangeStatusEvent(OrderCanceled, Cancelled);
    log.PublishOrderEvents([event.State()]);
  }

  /** The two sides share no level and no order. */
  ghost predicate Separate(a: Side, b: Side)
    reads a, b, a.levels, b.levels
  {
    && a != b
    && (forall l :: l in a.levels ==> l !in b.levels)
    && OrdersOf(a.levels) !! OrdersOf(b.levels)
  }

  /** The states of levels, read from a set of orders that holds theirs. */
  ghost function LevelStatesIn(levels: seq<PriceLevel>, all: set<Order>): seq<LevelState>
    requires OrdersOf(levels) <= all
    reads levels, all
  {
    LevelStates(levels)
  }

  /** `MatchMarketOn`, confined to these levels and orders. */
  method MatchMarketWithin(opposite: Side, log: EventLog, incoming: OrderState, ghost levels: set<PriceLevel>,
                           ghost orders: set<Order>) returns (err: MatchError)
    requires opposite.Valid() && orders == OrdersOf(opposite.levels)
    requires forall l :: l in opposite.levels <==> l in levels
    modifies opposite, levels, orders, log
    ensures opposite.Valid() && OrdersOf(opposite.levels) <= orders && forall l :: l in opposite.levels ==> l in levels
    ensures err == if old(opposite.levels) == [] then OrderbookEmpty else NoError
    ensures opposite.State() == MarketLeft(old(opposite.State()), incoming)
    ensures log.orderEvents == old(log.orderEvents) + MarketOrderEvents(old(opposite.State()), incoming)
    ensures log.tradeEvents == old(log.tradeEvents) + MarketTradeEvents(old(opposite.State()), incoming)
  {
    err := MatchMarketOn(opposite, log, incoming);
  }

  /** The same, and a side apart from those as it was. */
  method MatchMarketApart(opposite: Side, own: Side, log: EventLog, incoming: OrderState, ghost levels: set<PriceLevel>,
                          ghost orders: set<Order>) returns (err: MatchError)
    requires opposite.Valid() && orders == OrdersOf(opposite.levels)
    requires forall l :: l in opposite.levels <==> l in levels
    requires own.Valid() && own != opposite && OrdersOf(own.levels) !! orders
    requires forall l :: l in own.levels ==> l !in levels
    modifies opposite, levels, orders, log
    ensures own.Valid() && LevelStates(own.levels) == old(LevelStates(own.levels))
    ensures own.levels == old(own.levels) && OrdersOf(own.levels) == old(OrdersOf(own.levels))
    ensures opposite.Valid() && OrdersOf(opposite.levels) <= orders && forall l :: l in opposite.levels ==> l in levels
    ensures err == if old(opposite.levels) == [] then OrderbookEmpty else NoError
    ensures opposite.State() == MarketLeft(old(opposite.State()), incoming)
    ensures log.orderEvents == old(log.orderEvents) + MarketOrderEvents(old(opposite.State()), incoming)
    ensures log.tradeEvents == old(log.tradeEvents) + MarketTradeEvents(old(opposite.State()), incoming)
  {
    ghost var mine := OrdersOf(own.levels);
    ghost var before := LevelStatesIn(own.levels, mine);
    err := MatchMarketWithin(opposite, log, incoming, levels, orders);
    assert own.Valid();
    assert OrdersOf(own.levels) == mine;
    assert LevelStatesIn(own.levels, mine) == before;
  }

  /** A market order against one of two separate sides. */
  method MatchMarketBeside(opposite: Side, own: Side, log: EventLog, incoming: OrderState) returns (err: MatchError)
    requires opposite.Valid() && own.Valid() && Separate(opposite, own)
    modifies opposite, opposite.levels, OrdersOf(opposite.levels), log
    ensures opposite.Valid() && own.Valid() && Separate(opposite, own)
    ensures own.State() == old(own.State())
    ensures err == if old(opposite.levels) == [] then OrderbookEmpty else NoError
    ensures opposite.State() == MarketLeft(old(opposite.State()), incoming)
    ensures log.orderEvents == old(log.orderEvents) + MarketOrderEvents(old(opposite.State()), incoming)
    ensures log.tradeEvents == old(log.tradeEvents) + MarketTradeEvents(old(opposite.State()), incoming)
  {
    ghost var orders := OrdersOf(opposite.levels);
    ghost var levels := set l | l in opposite.levels;
    err := MatchMarketApart(opposite, own, log, incoming, levels, orders);
    StaySeparate(opposite, own, levels, orders);
  }

  /** A side within these levels and orders is separate from a side apart from them. */
  lemma StaySeparate(a: Side, b: Side, levels: set<PriceLevel>, orders: set<Order>)
    requires a != b && OrdersOf(b.levels) !! orders && forall l :: l in b.levels ==> l !in levels
    requires OrdersOf(a.levels) <= orders && forall l :: l in a.levels ==> l in levels
    ensures Separate(a, b)
  {
  }

  /** `MatchLimitOn`, confined to these levels and orders. */
  method MatchLimitWithin(opposite: Side, log: EventLog, incoming: OrderState, ghost levels: set<PriceLevel>,
                          ghost orders: set<Order>)
      returns (err: MatchError, taker: OrderState, rests: bool)
    requires opposite.Valid() && orders == OrdersOf(opposite.levels)
    requires forall l :: l in opposite.levels <==> l in levels
    modifies opposite, levels, orders, log
    ensures opposite.Valid() && OrdersOf(opposite.levels) <= orders && forall l :: l in opposite.levels ==> l in levels
    ensures var e := LimitEffectOf(old(opposite.State()), incoming);
      && err == e.error && taker == e.taker && rests == e.rests && opposite.State() == e.left
      && log.orderEvents == old(log.orderEvents) + e.orderEvents
      && log.tradeEvents == old(log.tradeEvents) + e.tradeEvents
  {
    err, taker, rests := MatchLimitOn(opposite, log, incoming);
  }

  /** The same, and a side apart from those as it was. */
  method MatchLimitApart(opposite: Side, own: Side, log: EventLog, incoming: OrderState, ghost levels: set<PriceLevel>,
                         ghost orders: set<Order>)
      returns (err: MatchError, taker: OrderState, rests: bool)
    requires opposite.Valid() && orders == OrdersOf(opposite.levels)
    requires forall l :: l in opposite.levels <==> l in levels
    requires own.Valid() && own != opposite && OrdersOf(own.levels) !! orders
    requires forall l :: l in own.levels ==> l !in levels
    modifies opposite, levels, orders, log
    ensures own.Valid() && LevelStates(own.levels) == old(LevelStates(own.levels))
    ensures own.levels == old(own.levels) && OrdersOf(own.levels) == old(OrdersOf(own.levels))
    ensures opposite.Valid() && OrdersOf(opposite.levels) <= orders && forall l :: l in opposite.levels ==> l in levels
    ensures var e := LimitEffectOf(old(opposite.State()), incoming);
      && err == e.error && taker == e.taker && rests == e.rests && opposite.State() == e.left
      && log.orderEvents == old(log.orderEvents) + e.orderEvents
      && log.tradeEvents == old(log.tradeEvents) + e.tradeEvents
  {
    ghost var mine := OrdersOf(own.levels);
    ghost var before := LevelStatesIn(own.levels, mine);
    err, taker, rests := MatchLimitWithin(opposite, log, incoming, levels, orders);
    assert own.Valid();
    assert OrdersOf(own.levels) == mine;
    assert LevelStatesIn(own.levels, mine) == before;
  }

  /** A limit order against one of two separate sides, its remainder not booked yet. */
  method MatchLimitBeside(opposite: Side, own: Side, log: EventLog, incoming: OrderState)
      returns (err: MatchError, taker: OrderState, rests: bool)
    requires opposite.Valid() && own.Valid() && Separate(opposite, own)
    modifies opposite, opposite.levels, OrdersOf(opposite.levels), log
    ensures opposite.Valid() && own.Valid() && Separate(opposite, own)
    ensures own.State() == old(own.State())
    ensures var e := LimitEffectOf(old(opposite.State()), incoming);
      && err == e.error && taker == e.taker && rests == e.rests && opposite.State() == e.left
      && log.orderEvents == old(log.orderEvents) + e.orderEvents
      && log.tradeEvents == old(log.tradeEvents) + e.tradeEvents
  {
    ghost var orders := OrdersOf(opposite.levels);
    ghost var levels := set l | l in opposite.levels;
    err, taker, rests := MatchLimitApart(opposite, own, log, incoming, levels, orders);
    StaySeparate(opposite, own, levels, orders);
  }

  /** The remainder of a limit order is booked on its own side. */
  method Rest(own: Side, opposite: Side, order: Order)
    requires opposite.Valid() && own.Valid() && Separate(opposite, own)
    requires order !in OrdersOf(own.levels) && order !in OrdersOf(opposite.levels)
    modifies own, own.levels
    ensures opposite.Valid() && own.Valid() && Separate(opposite, own)
    ensures own.State() == Place(own.side, old(own.State()), order.State())
    ensures opposite.State() == old(opposite.State())
  {
    ghost var theirs := OrdersOf(opposite.levels);
    assert forall k :: 0 <= k < |opposite.levels| ==>
             opposite.levels[k] in opposite.levels && opposite.levels[k] !in own.levels;
    own.Add(order);
    assert forall k :: 0 <= k < |opposite.levels| ==> opposite.levels[k].orders == old(opposite.levels[k].orders);
    assert OrdersOf(opposite.levels) == theirs;
  }

  method RestTaker(own: Side, opposite: Side, taker: OrderState)
    requires opposite.Valid() && own.Valid() && Separate(opposite, own)
    modifies own, own.levels
    ensures opposite.Valid() && own.Valid() && Separate(opposite, own)
    ensures own.State() == Place(own.side, old(own.State()), taker)
    ensures opposite.State() == old(opposite.State())
  {
    var order := new Order(taker);
    Rest(own, opposite, order);
  }

  lemma {:induction false} LimitAssembled(own: seq<LevelState>, before: seq<LevelState>, incoming: OrderState)
    ensures var r := LimitResult(MakeBook(incoming.side, own, before), incoming);
      var e := LimitEffectOf(before, incoming);
      && r.error == e.error && r.orderEvents == e.orderEvents && r.tradeEvents == e.tradeEvents
      && r.book == MakeBook(incoming.side, if e.rests then Place(incoming.side, own, e.taker) else own, e.left)
  {
  }

  /** `MatchLimit`, seen from the taker. */
  method MatchLimitBoth(opposite: Side, own: Side, log: EventLog, incoming: OrderState) returns (err: MatchError)
    requires opposite.Valid() && own.Valid() && Separate(opposite, own) && own.side == incoming.side
    modifies opposite, opposite.levels, OrdersOf(opposite.levels), own, own.levels, log
    ensures opposite.Valid() && own.Valid() && Separate(opposite, own)
    ensures var r := LimitResult(MakeBook(incoming.side, old(own.State()), old(opposite.State())), incoming);
      && err == r.error && r.book == MakeBook(incoming.side, own.State(), opposite.State())
      && log.orderEvents == old(log.orderEvents) + r.orderEvents
      && log.tradeEvents == old(log.tradeEvents) + r.tradeEvents
  {
    var taker, rests;
    ghost var before, mine := opposite.State(), own.State();
    err, taker, rests := MatchLimitBeside(opposite, own, log, incoming);
    LimitAssembled(mine, before, incoming);
    if rests {
      RestTaker(own, opposite, taker);
    }
  }

  /** `RemoveOrderByOrderID`, and the other side as it was. */
  method RemoveBeside(side: Side, other: Side, id: ID, price: Decimal) returns (removed: bool)
    requires side.Valid() && other.Valid() && Separate(side, other)
    modifies side, side.levels
    ensures side.Valid() && other.Valid() && Separate(side, other)
    ensures side.State() == DropEmpty(WithoutAt(old(side.State()), price, id))
    ensures other.State() == old(other.State())
    ensures !removed
  {
    ghost var theirs := OrdersOf(other.levels);
    assert forall k :: 0 <= k < |other.levels| ==> other.levels[k] in other.levels && other.levels[k] !in side.levels;
    RemoveOn(side, id, price);
    removed := false;
    assert forall k :: 0 <= k < |other.levels| ==> other.levels[k].orders == old(other.levels[k].orders);
    assert OrdersOf(other.levels) == theirs;
  }

  method RemoveOn(side: Side, id: ID, price: Decimal)
    requires side.Valid()
    modifies side, side.levels
    ensures side.Valid() && side.State() == DropEmpty(WithoutAt(old(side.State()), price, id))
    ensures forall l :: l in side.levels ==> l in old(side.levels)
    ensures OrdersOf(side.levels) <= old(OrdersOf(side.levels))
  {
    ghost var all := OrdersOf(side.levels);
    QueuesWithin(side.levels);
    RemoveAtLevel(side, id, price);
    OrdersWithin(side.levels, all);
    DropDrained(side);
  }

  method RemoveAtLevel(side: Side, id: ID, price: Decimal)
    requires side.Valid()
    modifies side.levels
    ensures side.Valid() && side.State() == WithoutAt(old(side.State()), price, id)
    ensures forall k, o :: 0 <= k < |side.levels| && o in side.levels[k].orders ==> o in old(side.levels[k].orders)
  {
    ghost var before := side.State();
    var idx, exist := side.GetLevel(price);
    if exist {
      WithoutAtIndex(side.side, before, idx, id);
      RemoveFrom(side, idx, id);
      assert side.State() == before[idx := LevelState(before[idx].price, Without(before[idx].orders, id))];
    } else {
      assert forall k :: 0 <= k < |side.levels| ==> side.levels[k] in side.levels;
      WithoutAtNowhere(before, price, id);
    }
  }

  method RemoveFrom(side: Side, idx: nat, id: ID)
    requires side.Valid() && idx < |side.levels|
    modifies side.levels[idx]
    ensures side.Valid()
    ensures States(side.levels[idx].orders) == Without(old(States(side.levels[idx].orders)), id)
    ensures forall k :: 0 <= k < |side.levels| && k != idx ==> side.levels[k].State() == old(side.levels[k].State())
    ensures forall k, o :: 0 <= k < |side.levels| && o in side.levels[k].orders ==> o in old(side.levels[k].orders)
  {
    LevelsApart(side.side, side.levels, idx);
    var found := side.levels[idx].RemoveByID(id);
  }

  lemma {:induction false} WithoutAtIndex(side: OrderSide, levels: seq<LevelState>, idx: nat, id: ID)
    requires idx < |levels| && forall i, j :: 0 <= i < j < |levels| ==> Better(side, levels[i].price, levels[j].price)
    ensures WithoutAt(levels, levels[idx].price, id)
         == levels[idx := LevelState(levels[idx].price, Without(levels[idx].orders, id))]
  {
    if idx > 0 {
      WithoutAtIndex(side, levels[1..], idx - 1, id);
    }
  }

  lemma {:induction false} WithoutAtNowhere(levels: seq<LevelState>, price: Decimal, id: ID)
    requires forall k :: 0 <= k < |levels| ==> levels[k].price != price
    ensures WithoutAt(levels, price, id) == levels
  {
    if levels != [] {
      WithoutAtNowhere(levels[1..], price, id);
    }
  }

  /** The order book of one pair. `MatchLimit` and `MatchMarket` are written out twice in the source, once per
      side; here one text serves both, and the places where the copies differ test the taker's side. */
  class Orderbook {
    const bids: Side
    const asks: Side

    constructor ()
      ensures Valid() && State() == BookState([], [])
    {
      bids := new Side(Buy);
      asks := new Side(Sell);
    }

    ghost predicate Valid()
      reads this, bids, asks, bids.levels, asks.levels
    {
      && bids.side == Buy && asks.side == Sell && bids.Valid() && asks.Valid()
      && Separate(bids, asks)
    }

    ghost function State(): BookState
      reads bids, asks, bids.levels, asks.levels, OrdersOf(bids.levels), OrdersOf(asks.levels)
    {
      BookState(bids.State(), asks.State())
    }

    /** A market order: sweep the opposite side, publish one batch, drop the drained levels. */
    method MatchMarket(log: EventLog, incoming: OrderState) returns (err: MatchError)
      requires Valid()
      modifies bids, asks, bids.levels, asks.levels, OrdersOf(bids.levels), OrdersOf(asks.levels), log
      ensures Valid()
      ensures var r := MarketResult(old(State()), incoming);
        && err == r.error && State() == r.book
        && log.orderEvents == old(log.orderEvents) + r.orderEvents
        && log.tradeEvents == old(log.tradeEvents) + r.tradeEvents
    {
      if incoming.side == Buy {
        err := MatchMarketBeside(asks, bids, log, incoming);
      } else {
        err := MatchMarketBeside(bids, asks, log, incoming);
      }
    }

    /** A limit order: one pass over the best opposite level, then book the remainder. */
    method MatchLimit(log: EventLog, incoming: OrderState) returns (err: MatchError)
      requires Valid()
      modifies bids, asks, bids.levels, asks.levels, OrdersOf(bids.levels), OrdersOf(asks.levels), log
      ensures Valid()
      ensures var r := LimitResult(old(State()), incoming);
        && err == r.error && State() == r.book
        && log.orderEvents == old(log.orderEvents) + r.orderEvents
        && log.tradeEvents == old(log.tradeEvents) + r.tradeEvents
    {
      if incoming.side == Buy {
        err := MatchLimitBoth(asks, bids, log, incoming);
      } else {
        err := MatchLimitBoth(bids, asks, log, incoming);
      }
    }

    /** The order is taken out of the level of the price given, if it is there. The flag is never raised. */
    method RemoveOrderByOrderID(side: OrderSide, id: ID, price: Decimal) returns (removed: bool)
      requires Valid()
      modifies bids, asks, bids.levels, asks.levels
      ensures Valid() && State() == Removed(old(State()), side, id, price)
      ensures !removed
    {
      if side == Buy {
        removed := RemoveBeside(bids, asks, id, price);
      } else {
        removed := RemoveBeside(asks, bids, id, price);
      }
    }

    /** The full scan of a side. */
    method OrderExist(side: OrderSide, id: ID) returns (exist: bool)
      requires Valid()
      ensures exist <==> OrderExists(State(), side, id)
    {
      var scanned := if side == Buy then bids else asks;
      for i := 0 to |scanned.levels|
        invariant forall k :: 0 <= k < i ==> !HasID(scanned.State()[k].orders, id)
      {
        var here := scanned.levels[i].OrderExistByOrderID(id);
        if here {
          assert scanned.State()[i] in scanned.State();
          return true;
        }
      }
      return false;
    }

    /** The removal is made and, the flag never being raised, always reported as not found. */
    method Cancel(incoming: OrderState) returns (found: bool)
      requires Valid()
      modifies bids, asks, bids.levels, asks.levels
      ensures Valid() && State() == Removed(old(State()), incoming.side, incoming.id, incoming.price)
      ensures !found
    {
      found := RemoveOrderByOrderID(incoming.side, incoming.id, incoming.price);
    }
  }
}
