/** What is published, field by field: how many events, about whom, and with which figures
    (internal/adapter/messaging/kafka/order_event.go, trade_event.go). */
module Streams {
  import opened Orders
  import opened Events
  import opened Books
  import opened Market
  import opened MarketLaws
  import opened Greedy
  import opened Limit
  import opened LimitLaws
  import opened LimitPromises
  import opened LimitTheorems
  import opened Trades
  import opened Removal
  import opened Projection
  import opened ProjectionTheorems
  import opened RunProjection
  import opened RunStatus

  // ---------- the taker from fill to fill ----------

  /** Each fill meets the taker as the one before left it. */
  predicate Chained(fills: seq<Fill>, taker: OrderState) {
    fills == [] || (fills[0].taker == taker && Chained(fills[1..], fills[0].TakerAfter()))
  }

  lemma {:induction false} ChainedConcat(a: seq<Fill>, b: seq<Fill>, taker: OrderState, mid: OrderState)
    requires Chained(a, taker) && EndsWith(a, taker, mid) && Chained(b, mid)
    ensures Chained(a + b, taker)
  {
    if a == [] {
      assert a + b == b;
    } else {
      assert (a + b)[1..] == a[1..] + b;
      assert |a| > 1 ==> a[1..][|a| - 2] == a[|a| - 1];
      ChainedConcat(a[1..], b, a[0].TakerAfter(), mid);
    }
  }

  lemma {:induction false} SweepLevelChained(orders: seq<OrderState>, taker: OrderState)
    ensures Chained(SweepLevel(orders, taker).fills, taker)
  {
    if orders != [] && !SkipsLevel(orders[0], taker) {
      var fill := Fill(orders[0], taker, Min(orders[0].Remaining(), taker.Remaining()));
      if fill.qty == 0.0 {
        SweepLevelChained(orders[1..], taker);
      } else if fill.TakerFilled() {
        assert [fill][1..] == [];
      } else {
        SweepLevelChained(orders[1..], fill.TakerAfter());
        var rest := SweepLevel(orders[1..], fill.TakerAfter());
        assert ([fill] + rest.fills)[1..] == rest.fills;
      }
    }
  }

  lemma {:induction false} SweepSideChained(levels: seq<LevelState>, taker: OrderState)
    ensures Chained(SweepSide(levels, taker).fills, taker)
  {
    if levels != [] && Crosses(taker, levels[0].price) {
      var s := SweepLevel(levels[0].orders, taker);
      SweepLevelChained(levels[0].orders, taker);
      SweepLevelLast(levels[0].orders, taker);
      if !s.done {
        SweepSideChained(levels[1..], s.taker);
        ChainedConcat(s.fills, SweepSide(levels[1..], s.taker).fills, taker, s.taker);
      }
    }
  }

  lemma {:induction false} FillLevelChained(orders: seq<OrderState>, taker: OrderState)
    ensures Chained(FillLevel(orders, taker).fills, taker)
  {
    if orders != [] {
      var fill := Fill(orders[0], taker, Min(orders[0].Remaining(), taker.Remaining()));
      if orders[0].userID == taker.userID || fill.qty == 0.0 {
        FillLevelChained(orders[1..], taker);
      } else if fill.TakerFilled() {
        assert [fill][1..] == [];
      } else {
        FillLevelChained(orders[1..], fill.TakerAfter());
        var rest := FillLevel(orders[1..], fill.TakerAfter());
        assert ([fill] + rest.fills)[1..] == rest.fills;
      }
    }
  }

  /** What the taker has when fill `i` meets it. */
  lemma {:induction false} TakerSoFar(fills: seq<Fill>, taker: OrderState, i: nat)
    requires Chained(fills, taker) && i < |fills|
    ensures SameTaker(taker, fills[i].taker)
    ensures fills[i].taker.filled == taker.filled + Traded(fills[..i])
    ensures Traded(fills[..i + 1]) == Traded(fills[..i]) + fills[i].qty
  {
    if i == 0 {
      assert fills[..1][1..] == [] && fills[..0] == [];
      assert Traded(fills[..1]) == fills[0].qty + Traded([]);
    } else {
      TakerSoFar(fills[1..], fills[0].TakerAfter(), i - 1);
      assert fills[..i][1..] == fills[1..][..i - 1] && fills[..i + 1][1..] == fills[1..][..i];
    }
  }

  // ---------- order events ----------

  /** The event is about this order, and says that so much of it is filled. */
  predicate Tells(e: OrderEvent, o: OrderState, filled: Decimal) {
    && e.id == o.id && e.userID == o.userID && e.pair == o.pair
    && e.orderType == o.orderType && e.side == o.side
    && e.price == o.price && e.quantity == o.quantity
    && e.filled == filled && e.remainingQty == o.quantity - filled
  }

  /** Type and status say the same, and that of the remaining quantity: filled, partial, or cancelled. */
  predicate InStep(e: OrderEvent) {
    && (e.eventType == OrderFilled <==> e.status == Filled)
    && (e.eventType == OrderPartial <==> e.status == Partial)
    && (e.eventType == OrderCanceled <==> e.status == Cancelled)
    && e.eventType != OrderExpired
    && (e.status == Filled <==> e.remainingQty == 0.0)
  }

  lemma {:induction false} PairedAt(fills: seq<Fill>, i: nat)
    requires i < |fills|
    ensures |PairedEvents(fills)| == 2 * |fills|
    ensures PairedEvents(fills)[2 * i] == fills[i].MakerEvent()
    ensures PairedEvents(fills)[2 * i + 1] == fills[i].TakerEvent()
  {
    if i > 0 {
      PairedAt(fills[1..], i - 1);
    } else if |fills| > 1 {
      PairedAt(fills[1..], 0);
    } else {
      assert fills[1..] == [];
    }
  }

  /** The figures of one fill's two events. */
  lemma FillEvents(f: Fill)
    requires f.maker.InRange() && f.taker.InRange() && f.qty == Min(f.maker.Remaining(), f.taker.Remaining())
    ensures Tells(f.MakerEvent(), f.maker, f.maker.filled + f.qty) && InStep(f.MakerEvent())
    ensures Tells(f.TakerEvent(), f.taker, f.taker.filled + f.qty) && InStep(f.TakerEvent())
    ensures f.MakerEvent().status != Cancelled && f.TakerEvent().status != Cancelled
  {
  }

  lemma LimitFillAt(book: BookState, taker: OrderState, i: nat)
    requires WellFormed(book) && taker.InRange() && i < |LimitResult(book, taker).fills|
    ensures var f := LimitResult(book, taker).fills[i];
      GoodFill(f, taker, AllOrders(book.Opposite(taker.side)))
  {
    var orders, f := book.Opposite(taker.side)[0].orders, LimitResult(book, taker).fills[i];
    BestLevelFacts(book, taker);
    FillLevelFills(orders, taker, taker, f);
  }

  /** A limit order publishes two events for each of its trades, in order: the resting order's and then its own,
      each with the figures after that trade. */
  lemma LimitEventsTell(book: BookState, taker: OrderState, i: nat)
    requires WellFormed(book) && taker.InRange() && i < |LimitResult(book, taker).fills|
    ensures var r := LimitResult(book, taker);
      var maker := r.fills[i].maker;
      && |r.orderEvents| == 2 * |r.fills|
      && maker in AllOrders(book.Opposite(taker.side))
      && Tells(r.orderEvents[2 * i], maker, maker.filled + r.fills[i].qty)
      && Tells(r.orderEvents[2 * i + 1], taker, taker.filled + Traded(r.fills[..i + 1]))
      && InStep(r.orderEvents[2 * i]) && r.orderEvents[2 * i].status != Cancelled
      && InStep(r.orderEvents[2 * i + 1]) && r.orderEvents[2 * i + 1].status != Cancelled
  {
    var fills := LimitResult(book, taker).fills;
    LimitFillAt(book, taker, i);
    FillLevelChained(book.Opposite(taker.side)[0].orders, taker);
    TakerSoFar(fills, taker, i);
    FillEvents(fills[i]);
    PairedAt(fills, i);
  }

  /** Without a trade a limit order publishes nothing, unless it is a sell order the best bid refuses: then one
      event, that it is cancelled as it came. */
  lemma LimitRefusalTells(book: BookState, taker: OrderState)
    requires LimitResult(book, taker).fills == []
    ensures var r, levels := LimitResult(book, taker), book.Opposite(taker.side);
      && r.tradeEvents == []
      && (r.error == OrderbookEmpty <==> levels == [])
      && if taker.side == Sell && levels != [] && taker.price > levels[0].price
         then |r.orderEvents| == 1 && Tells(r.orderEvents[0], taker, taker.filled)
              && r.orderEvents[0].eventType == OrderCanceled && r.orderEvents[0].status == Cancelled
         else r.orderEvents == []
  {
  }

  lemma MarketFillAt(book: BookState, taker: OrderState, i: nat)
    requires WellFormed(book) && taker.InRange() && i < |MarketResult(book, taker).fills|
    ensures var f := MarketResult(book, taker).fills[i];
      GoodFill(f, taker, AllOrders(book.Opposite(taker.side)))
  {
    var levels, f := book.Opposite(taker.side), MarketResult(book, taker).fills[i];
    GoodIsRough(Other(taker.side), levels);
    var level := SweepSideFills(levels, taker, taker, f);
    AllOrdersMember(levels, f.maker);
  }

  /** The sweep says cancelled exactly if it came to a level it does not accept. */
  lemma {:induction false} StopsIff(levels: seq<LevelState>, taker: OrderState)
    ensures var s := SweepSide(levels, taker);
      s.cancelled <==> !s.done && exists l :: l in levels && !Crosses(taker, l.price)
  {
    if levels != [] {
      assert levels == [levels[0]] + levels[1..];
      if Crosses(taker, levels[0].price) {
        StopsIff(levels[1..], SweepLevel(levels[0].orders, taker).taker);
        SweepKeepsLimit(levels[0].orders, taker);
      }
    }
  }

  lemma {:induction false} SweepKeepsLimit(orders: seq<OrderState>, taker: OrderState)
    ensures var t := SweepLevel(orders, taker).taker; t.side == taker.side && t.price == taker.price
  {
    if orders != [] && !SkipsLevel(orders[0], taker) {
      var fill := Fill(orders[0], taker, Min(orders[0].Remaining(), taker.Remaining()));
      SweepKeepsLimit(orders[1..], if fill.qty == 0.0 then taker else fill.TakerAfter());
    }
  }

  /** A market order publishes one batch: an event for each of its trades and its own, or none if it neither
      traded nor came to a level it does not accept. */
  lemma MarketBatchSize(book: BookState, taker: OrderState)
    requires WellFormed(book) && taker.InRange()
    ensures var r, levels := MarketResult(book, taker), book.Opposite(taker.side);
      && (r.error == OrderbookEmpty <==> levels == [])
      && |r.orderEvents| == if r.fills == [] && forall l :: l in levels ==> Crosses(taker, l.price) then 0
                            else |r.fills| + 1
  {
    var levels := book.Opposite(taker.side);
    if levels != [] {
      GoodIsRough(Other(taker.side), levels);
      StopsIff(levels, taker);
      NoTradeNotDone(levels, taker);
    }
  }

  lemma LastOfBatch(s: SideSweep)
    requires s.OrderEvents() != []
    ensures s.OrderEvents()[|s.OrderEvents()| - 1] == s.TakerEvent()
  {
  }

  /** The taker's event, from what is known of a sweep. */
  lemma TakerEventTells(s: SideSweep, taker: OrderState)
    requires SameTaker(taker, s.taker) && !(s.done && s.cancelled)
    requires (s.done ==> s.taker.Remaining() == 0.0) && (!s.done ==> s.taker.Remaining() > 0.0)
    ensures var e := s.TakerEvent();
      && Tells(e, taker, s.taker.filled) && InStep(e) && (e.status == Cancelled <==> s.cancelled)
      && (e.remainingQty > 0.0 <==> !s.done)
  {
  }

  /** The last event of the batch is the taker's, with everything it got; it says cancelled exactly if something
      is left to get and a level it does not accept is in the book. */
  lemma MarketBatchEnd(book: BookState, taker: OrderState)
    requires WellFormed(book) && taker.InRange() && MarketResult(book, taker).orderEvents != []
    ensures var r, levels := MarketResult(book, taker), book.Opposite(taker.side);
      var e := r.orderEvents[|r.orderEvents| - 1];
      && Tells(e, taker, taker.filled + Traded(r.fills))
      && (taker.Remaining() > 0.0 ==> InStep(e))
      && (taker.Remaining() > 0.0 ==>
            (e.status == Cancelled <==> e.remainingQty > 0.0 && exists l :: l in levels && !Crosses(taker, l.price)))
  {
    var levels := book.Opposite(taker.side);
    var s := SweepSide(levels, taker);
    GoodIsRough(Other(taker.side), levels);
    SweepSideConserves(levels, taker);
    LastOfBatch(s);
    if taker.Remaining() > 0.0 {
      StopsIff(levels, taker);
      TakerEventTells(s, taker);
    }
  }

  lemma {:induction false} NoTradeNotDone(levels: seq<LevelState>, taker: OrderState)
    requires forall l :: l in levels ==> InRangeAll(l.orders)
    requires taker.InRange()
    ensures var s := SweepSide(levels, taker); s.done ==> s.fills != []
  {
    if levels != [] && Crosses(taker, levels[0].price) {
      var s := SweepLevel(levels[0].orders, taker);
      SweepLevelTaker(levels[0].orders, taker);
      if !s.done {
        NoTradeNotDone(levels[1..], s.taker);
      }
    }
  }

  /** The other events of the batch are those of the resting orders, in the order of the trades. */
  lemma MarketEventsTell(book: BookState, taker: OrderState, i: nat)
    requires WellFormed(book) && taker.InRange() && i < |MarketResult(book, taker).fills|
    ensures var r := MarketResult(book, taker);
      var maker := r.fills[i].maker;
      && |r.orderEvents| == |r.fills| + 1
      && maker in AllOrders(book.Opposite(taker.side))
      && Tells(r.orderEvents[i], maker, maker.filled + r.fills[i].qty)
      && InStep(r.orderEvents[i]) && r.orderEvents[i].status != Cancelled
  {
    var fills := MarketResult(book, taker).fills;
    MarketFillAt(book, taker, i);
    FillEvents(fills[i]);
  }

  // ---------- trade events ----------

  function Volume(trades: seq<TradeEvent>): Decimal {
    if trades == [] then 0.0 else trades[0].quantity + Volume(trades[1..])
  }

  /** The event names these parties, this pair and this quantity. */
  predicate Between(t: TradeEvent, maker: OrderState, taker: OrderState) {
    && t.makerOrderID == maker.id && t.makerUserID == maker.userID
    && t.takerOrderID == taker.id && t.takerUserID == taker.userID
    && t.pair == taker.pair
  }

  lemma {:induction false} VolumeIsTraded(trades: seq<TradeEvent>, fills: seq<Fill>)
    requires |trades| == |fills| && forall i :: 0 <= i < |fills| ==> trades[i].quantity == fills[i].qty
    ensures Volume(trades) == Traded(fills)
  {
    if fills != [] {
      VolumeIsTraded(trades[1..], fills[1..]);
    }
  }

  lemma MarketQuantities(book: BookState, taker: OrderState, i: nat)
    requires WellFormed(book) && IdentifiedBook(book) && taker.InRange() && Identified(taker)
    requires i <= |MarketResult(book, taker).fills|
    ensures var r := MarketResult(book, taker);
      |r.tradeEvents| == |r.fills| && Volume(r.tradeEvents[..i]) == Traded(r.fills[..i])
  {
    var r := MarketResult(book, taker);
    forall k | 0 <= k < i ensures r.tradeEvents[..i][k].quantity == r.fills[..i][k].qty {
      MarketTradesReport(book, taker, k);
    }
    VolumeIsTraded(r.tradeEvents[..i], r.fills[..i]);
  }

  lemma LimitQuantities(book: BookState, taker: OrderState, i: nat)
    requires WellFormed(book) && IdentifiedBook(book) && taker.InRange() && Identified(taker)
    requires i <= |LimitResult(book, taker).fills|
    ensures var r := LimitResult(book, taker);
      |r.tradeEvents| == |r.fills| && Volume(r.tradeEvents[..i]) == Traded(r.fills[..i])
  {
    var r := LimitResult(book, taker);
    forall k | 0 <= k < i ensures r.tradeEvents[..i][k].quantity == r.fills[..i][k].qty {
      LimitTradesReport(book, taker, k);
    }
    VolumeIsTraded(r.tradeEvents[..i], r.fills[..i]);
  }

  /** What is left of a maker in the book a market order leaves: nothing, and it is gone, if it was filled;
      otherwise it is there with what its fill left. */
  lemma MakerLeft(book: BookState, taker: OrderState, f: Fill)
    requires WellFormed(book) && taker.InRange() && f in MarketResult(book, taker).fills
    ensures var after := MarketResult(book, taker).book;
      && (f.maker.id !in BookIDs(after) <==> f.MakerFilled())
      && forall o :: o in AllOrders(after.Opposite(taker.side)) && o.id == f.maker.id ==> o == f.MakerAfter()
  {
    var levels, r := book.Opposite(taker.side), MarketResult(book, taker);
    BookIDsOf(book, taker.side);
    SubsetUnique(SideIDs(levels), BookIDs(book));
    SweepSideMakers(levels, taker);
    SubsetUnique(MakerIDs(r.fills), SideIDs(levels));
    MakerIDsMember(r.fills, f);
    FilledMakersMember(r.fills, f);
    MarketLeaves(book, taker, f.maker.id);
    DropEmptyKeeps(SweepSide(levels, taker).levels);
    forall o | o in AllOrders(r.book.Opposite(taker.side)) && o.id == f.maker.id ensures o == f.MakerAfter() {
      SweepSideExplains(levels, taker, o);
      var g :| g in r.fills && o == g.MakerAfter();
      SameMaker(r.fills, f, g);
    }
  }

  lemma {:induction false} SameMaker(fills: seq<Fill>, f: Fill, g: Fill)
    requires f in fills && g in fills && f.maker.id == g.maker.id && Unique(MakerIDs(fills))
    ensures f == g
  {
    var rest := fills[1..];
    SubsetUnique(MakerIDs(rest), MakerIDs(fills));
    assert MakerIDs(fills)[fills[0].maker.id] == 1 + MakerIDs(rest)[fills[0].maker.id];
    if f in rest {
      MakerIDsMember(rest, f);
    }
    if g in rest {
      MakerIDsMember(rest, g);
    }
    if f in rest && g in rest {
      SameMaker(rest, f, g);
    }
  }

  /** The trades of a market order, in order: parties, pair, and what each leaves of both. The maker's remaining
      is that of the order in the book afterwards, and nothing exactly if it is gone; the taker's is what it came
      with less all trades so far. */
  lemma MarketTradesTell(book: BookState, taker: OrderState, i: nat)
    requires WellFormed(book) && IdentifiedBook(book) && taker.InRange() && Identified(taker)
    requires i < |MarketResult(book, taker).fills|
    ensures var r := MarketResult(book, taker);
      var t := r.tradeEvents[i];
      && |r.tradeEvents| == |r.fills| && |r.orderEvents| == |r.tradeEvents| + 1
      && r.orderEvents[i].id == t.makerOrderID && r.orderEvents[|r.fills|].id == t.takerOrderID
      && (exists maker :: maker in AllOrders(book.Opposite(taker.side)) && Between(t, maker, taker)
                          && t.price == maker.price && t.quantity <= maker.Remaining())
      && t.takerRemaining == taker.Remaining() - Volume(r.tradeEvents[..i + 1])
      && (t.takerFilled <==> t.takerRemaining == 0.0)
      && (t.makerFilled <==> t.makerOrderID !in BookIDs(r.book))
      && (t.makerOrderID !in BookIDs(r.book) <==> t.makerRemaining == 0.0)
      && forall o :: o in AllOrders(r.book.Opposite(taker.side)) && o.id == t.makerOrderID ==>
           t.makerRemaining == o.Remaining()
  {
    var r := MarketResult(book, taker);
    var f := r.fills[i];
    MarketFillAt(book, taker, i);
    MarketTradesReport(book, taker, i);
    MarketEventsTell(book, taker, i);
    MarketBatchEnd(book, taker);
    MarketQuantities(book, taker, i + 1);
    SweepSideChained(book.Opposite(taker.side), taker);
    TakerSoFar(r.fills, taker, i);
    MakerLeft(book, taker, f);
    AllIdentified(book, taker, f.maker);
    assert Between(r.tradeEvents[i], f.maker, taker);
  }

  lemma AllIdentified(book: BookState, taker: OrderState, o: OrderState)
    requires IdentifiedBook(book) && o in AllOrders(book.Opposite(taker.side))
    ensures Identified(o)
  {
    AllOrdersMember(book.Opposite(taker.side), o);
    var l :| l in book.Opposite(taker.side) && o in l.orders;
    assert l in book.bids + book.asks;
  }

  /** The trades of a limit order, in order: parties, pair, and both remaining quantities as they were just
      before the trade. The maker's is that of the order in the book it met. */
  lemma LimitTradesTell(book: BookState, taker: OrderState, i: nat)
    requires WellFormed(book) && IdentifiedBook(book) && taker.InRange() && Identified(taker)
    requires i < |LimitResult(book, taker).fills|
    ensures var r := LimitResult(book, taker);
      var t := r.tradeEvents[i];
      && |r.tradeEvents| == |r.fills| && |r.orderEvents| == 2 * |r.tradeEvents|
      && r.orderEvents[2 * i].id == t.makerOrderID && r.orderEvents[2 * i + 1].id == t.takerOrderID
      && (exists maker :: maker in AllOrders(book.Opposite(taker.side)) && Between(t, maker, taker)
                          && t.makerRemaining == maker.Remaining())
      && t.takerRemaining == taker.Remaining() - Volume(r.tradeEvents[..i])
      && t.price == taker.price
      && (t.makerFilled <==> t.quantity == t.makerRemaining)
      && (t.takerFilled <==> t.quantity == t.takerRemaining)
  {
    var r := LimitResult(book, taker);
    var f := r.fills[i];
    LimitFillAt(book, taker, i);
    LimitTradesReport(book, taker, i);
    LimitEventsTell(book, taker, i);
    LimitQuantities(book, taker, i);
    FillLevelChained(book.Opposite(taker.side)[0].orders, taker);
    TakerSoFar(r.fills, taker, i);
    AllIdentified(book, taker, f.maker);
    assert Between(r.tradeEvents[i], f.maker, taker);
  }

  /** Something the event constructor refuses: a party without an ID or a user, a pair without a separator, or a
      negative price. */
  predicate Refused(maker: OrderState, taker: OrderState, price: Decimal) {
    || maker.id == "" || maker.userID == "" || taker.id == "" || taker.userID == ""
    || ('-' !in taker.pair && '/' !in taker.pair) || price < 0.0
  }

  /** The trade is then published as the zero event, with a limit order's two flags raised as they should be. */
  lemma RefusedTradeIsZero(maker: OrderState, taker: OrderState, qty: Decimal)
    ensures var f := Fill(maker, taker, qty);
      && (Refused(maker, taker, maker.price) ==>
            f.MarketTrade() == TradeEvent("", "", "", "", "", 0.0, 0.0, false, false, 0.0, 0.0))
      && (Refused(maker, taker, taker.price) ==>
            f.LimitTrade() == TradeEvent("", "", "", "", "", 0.0, 0.0, qty >= maker.Remaining(),
                                         qty >= taker.Remaining(), 0.0, 0.0))
  {
  }

  // ---------- what a match leaves of the orders ----------

  /** The order after a fill of so much: nothing but the fill and the status change, and the status only if
      something is left. */
  predicate Refilled(before: OrderState, after: OrderState, qty: Decimal) {
    && after.filled == before.filled + qty && qty > 0.0
    && after == before.(filled := after.filled, status := if after.Remaining() == 0.0 then before.status else Partial)
  }

  lemma InBook(book: BookState, side: OrderSide, o: OrderState)
    requires o in AllOrders(book.Opposite(side))
    ensures o.id in BookIDs(book)
  {
    AllOrdersMember(book.Opposite(side), o);
    var l :| l in book.Opposite(side) && o in l.orders;
    LevelHasID(book.Opposite(side), l, o);
    BookIDsOf(book, side);
  }

  lemma LeftIsExplained(book: BookState, taker: OrderState, o: OrderState)
    requires WellFormed(book) && o in AllOrders(MarketResult(book, taker).book.Opposite(taker.side))
    ensures Explained(o, AllOrders(book.Opposite(taker.side)), MarketResult(book, taker).fills)
  {
    var levels := book.Opposite(taker.side);
    BookIDsOf(book, taker.side);
    SubsetUnique(SideIDs(levels), BookIDs(book));
    DropEmptyKeeps(SweepSide(levels, taker).levels);
    SweepSideExplains(levels, taker, o);
  }

  lemma FillLeaves(f: Fill)
    requires f.maker.InRange() && f.taker.InRange() && f.qty == Min(f.maker.Remaining(), f.taker.Remaining()) > 0.0
    ensures Refilled(f.maker, f.MakerAfter(), f.qty)
    ensures !f.MakerFilled() ==> f.MakerAfter().Remaining() > 0.0
  {
  }

  /** An order on the opposite side after a market order is an old one as it was, or the maker of one of its fills
      with something left. */
  lemma MarketLeavesOrders(book: BookState, taker: OrderState, o: OrderState)
    requires WellFormed(book) && taker.InRange()
    requires o in AllOrders(MarketResult(book, taker).book.Opposite(taker.side))
    ensures var r := MarketResult(book, taker);
      || o in AllOrders(book.Opposite(taker.side))
      || (o.Remaining() > 0.0 && exists f :: f in r.fills && Refilled(f.maker, o, f.qty))
  {
    var fills := MarketResult(book, taker).fills;
    LeftIsExplained(book, taker, o);
    InBook(MarketResult(book, taker).book, taker.side, o);
    if f :| f in fills && o == f.MakerAfter() {
      var i :| 0 <= i < |fills| && fills[i] == f;
      MarketFillAt(book, taker, i);
      MakerLeft(book, taker, f);
      FillLeaves(f);
    }
  }

  /** The same after a limit order, but that a maker with nothing left may be there still. */
  lemma LimitLeavesOrders(book: BookState, taker: OrderState, o: OrderState)
    requires WellFormed(book) && taker.InRange()
    requires o in AllOrders(LimitResult(book, taker).book.Opposite(taker.side))
    ensures var r := LimitResult(book, taker);
      || o in AllOrders(book.Opposite(taker.side))
      || exists f :: f in r.fills && Refilled(f.maker, o, f.qty)
  {
    var levels, r := book.Opposite(taker.side), LimitResult(book, taker);
    if Meets(book, taker) {
      var s := FillLevel(levels[0].orders, taker);
      BestLevelFacts(book, taker);
      AfterPopsOrders(levels, s.orders, s.pops, o);
      if o in s.orders {
        FillLevelExplains(levels[0].orders, taker, o);
        if f :| f in r.fills && o == f.MakerAfter() {
          var i :| 0 <= i < |r.fills| && r.fills[i] == f;
          LimitFillAt(book, taker, i);
          FillLeaves(f);
        }
      }
    }
  }

  /** What rests is the order that came, partial, with everything it got. */
  lemma RestedIsPartial(book: BookState, taker: OrderState)
    requires WellFormed(book) && taker.InRange() && Rests(book, taker)
    ensures var r := LimitResult(book, taker);
      r.taker == taker.(filled := taker.filled + Traded(r.fills), status := Partial)
  {
    var orders := book.Opposite(taker.side)[0].orders;
    BestLevelFacts(book, taker);
    TradableInRange(orders, taker);
    FillLevelTaker(orders, taker);
    if taker.Remaining() == 0.0 {
      IdleFill(orders, taker);
    } else {
      FillLevelTraded(orders, taker, taker);
      NoFillsNoTrade(orders, taker);
    }
  }
}
