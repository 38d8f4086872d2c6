/** Who trades with whom, at what price, and what the trade stream says about it. */
module Trades {
  import opened Orders
  import opened Events
  import opened Books
  import opened Market
  import opened MarketLaws
  import opened Greedy
  import opened Limit
  import opened LimitTheorems

  /** A fill takes a positive quantity that empties a side, from a maker both in `orders` and acceptable. */
  predicate GoodFill(f: Fill, who: OrderState, orders: seq<OrderState>) {
    && SameTaker(who, f.taker) && f.taker.InRange()
    && f.maker in orders && f.maker.InRange()
    && f.qty == Min(f.maker.Remaining(), f.taker.Remaining()) > 0.0
  }

  lemma {:induction false} SweepLevelFills(orders: seq<OrderState>, who: OrderState, taker: OrderState, f: Fill)
    requires InRangeAll(orders) && taker.InRange() && SameTaker(who, taker)
    requires f in SweepLevel(orders, taker).fills
    ensures GoodFill(f, who, orders) && !SkipsLevel(f.maker, who)
  {
    FillInRange(orders[0], taker);
    var fill := Fill(orders[0], taker, Min(orders[0].Remaining(), taker.Remaining()));
    if fill.qty == 0.0 {
      SweepLevelFills(orders[1..], who, taker, f);
    } else if f != fill {
      SweepLevelFills(orders[1..], who, fill.TakerAfter(), f);
    }
  }

  lemma {:induction false} FillLevelFills(orders: seq<OrderState>, who: OrderState, taker: OrderState, f: Fill)
    requires InRangeAll(orders) && taker.InRange() && SameTaker(who, taker)
    requires f in FillLevel(orders, taker).fills
    ensures GoodFill(f, who, orders) && f.maker.userID != who.userID
  {
    FillInRange(orders[0], taker);
    var fill := Fill(orders[0], taker, Min(orders[0].Remaining(), taker.Remaining()));
    if orders[0].userID == taker.userID || fill.qty == 0.0 {
      FillLevelFills(orders[1..], who, taker, f);
    } else if f != fill {
      FillLevelFills(orders[1..], who, fill.TakerAfter(), f);
    }
  }

  lemma SweepSideFills(levels: seq<LevelState>, who: OrderState, taker: OrderState, f: Fill)
      returns (level: LevelState)
    requires (forall l :: l in levels ==> InRangeAll(l.orders))
    requires taker.InRange() && SameTaker(who, taker)
    requires f in SweepSide(levels, taker).fills
    ensures level in levels && Crosses(who, level.price)
    ensures GoodFill(f, who, level.orders) && !SkipsLevel(f.maker, who)
  {
    var s := SweepLevel(levels[0].orders, taker);
    SweepLevelTaker(levels[0].orders, taker);
    if f in s.fills {
      level := levels[0];
      SweepLevelFills(level.orders, who, taker, f);
    } else {
      level := SweepSideFills(levels[1..], who, s.taker, f);
    }
  }

  /** The fills of a matching call: positive, emptying a side, and within the limits of both parties. */
  ghost predicate FairFill(f: Fill, book: BookState, taker: OrderState) {
    && SameTaker(taker, f.taker)
    && f.qty > 0.0 && (f.MakerFilled() || f.TakerFilled())
    && Crosses(taker, f.maker.price)
    && f.maker.id in SideIDs(book.Opposite(taker.side))
  }

  lemma {:induction false} LevelHasID(levels: seq<LevelState>, level: LevelState, o: OrderState)
    requires level in levels && o in level.orders
    ensures o.id in SideIDs(levels)
  {
    assert HasID(level.orders, o.id);
    SideIDsMember(levels, o.id);
  }

  lemma MarketFillsFair(book: BookState, taker: OrderState, f: Fill)
    requires WellFormed(book) && taker.InRange() && f in MarketResult(book, taker).fills
    ensures FairFill(f, book, taker)
    ensures taker.side == Sell ==> f.maker.userID != taker.userID
  {
    var levels := book.Opposite(taker.side);
    GoodIsRough(Other(taker.side), levels);
    var level := SweepSideFills(levels, taker, taker, f);
    assert GoodLevel(Other(taker.side), level);
    LevelHasID(levels, level, f.maker);
  }

  /** No limit order trades with its own user. */
  lemma LimitFillsFair(book: BookState, taker: OrderState, f: Fill)
    requires WellFormed(book) && taker.InRange() && f in LimitResult(book, taker).fills
    ensures FairFill(f, book, taker)
    ensures f.maker.userID != taker.userID
  {
    var levels := book.Opposite(taker.side);
    BestLevelFacts(book, taker);
    FillLevelFills(levels[0].orders, taker, taker, f);
    LevelHasID(levels, levels[0], f.maker);
  }

  lemma {:induction false} SharesMember(queue: seq<OrderState>, budget: Decimal, k: nat, m: (OrderState, Decimal))
    requires k <= |queue|
    ensures m in Shares(queue, budget, k)
       <==> exists i :: k <= i < |queue| && m == (queue[i], Share(queue, i, budget)) && m.1 > 0.0
    decreases |queue| - k
  {
    if k < |queue| {
      SharesMember(queue, budget, k + 1, m);
    }
  }

  /** Position `i` of the queue is the taker's own, and is reached before the taker is filled. */
  predicate ReachesOwn(queue: seq<OrderState>, taker: OrderState, i: nat)
    requires i < |queue|
  {
    queue[i].userID == taker.userID && queue[i].Remaining() > 0.0 && Depth(queue[..i]) < taker.Remaining()
  }

  lemma ShareOfFill(queue: seq<OrderState>, budget: Decimal, fills: seq<Fill>, f: Fill) returns (i: nat)
    requires Matches(fills) == Shares(queue, budget, 0) && f in fills
    ensures i < |queue| && f.maker == queue[i] && f.qty == Share(queue, i, budget) > 0.0
  {
    var n :| 0 <= n < |fills| && fills[n] == f;
    assert Matches(fills)[n] in Matches(fills);
    SharesMember(queue, budget, 0, (f.maker, f.qty));
    i :| 0 <= i < |queue| && (f.maker, f.qty) == (queue[i], Share(queue, i, budget)) && f.qty > 0.0;
  }

  lemma FillOfShare(queue: seq<OrderState>, budget: Decimal, fills: seq<Fill>, i: nat) returns (f: Fill)
    requires Matches(fills) == Shares(queue, budget, 0) && i < |queue| && Share(queue, i, budget) > 0.0
    ensures f in fills && f.maker == queue[i]
  {
    var m := (queue[i], Share(queue, i, budget));
    SharesMember(queue, budget, 0, m);
    var n :| 0 <= n < |fills| && Matches(fills)[n] == m;
    f := fills[n];
  }

  /** A market buyer trades with itself if and only if one of its own asks is reached before it is filled:
      the buy sweep does not compare users. */
  lemma {:induction false} MarketBuySelfTradesIff(book: BookState, taker: OrderState)
    requires WellFormed(book) && taker.InRange() && taker.side == Buy
    ensures var queue := PriorityList(book.asks, taker);
      (exists f :: f in MarketResult(book, taker).fills && f.maker.userID == taker.userID)
      <==> exists i :: 0 <= i < |queue| && ReachesOwn(queue, taker, i)
  {
    var fills := MarketResult(book, taker).fills;
    var queue := PriorityList(book.asks, taker);
    MarketIsGreedy(book, taker);
    if f :| f in fills && f.maker.userID == taker.userID {
      var i := ShareOfFill(queue, taker.Remaining(), fills, f);
      assert ReachesOwn(queue, taker, i);
    }
    if i :| 0 <= i < |queue| && ReachesOwn(queue, taker, i) {
      var f := FillOfShare(queue, taker.Remaining(), fills, i);
    }
  }

  // ---------- the trade stream ----------

  /** A trade event that tells the truth about a fill: parties, quantity, flags, and a price that
      lies between the two limits. */
  predicate Reports(t: TradeEvent, f: Fill) {
    && t.makerOrderID == f.maker.id && t.takerOrderID == f.taker.id
    && t.makerUserID == f.maker.userID && t.takerUserID == f.taker.userID
    && t.quantity == f.qty
    && (t.makerFilled <==> f.maker.Remaining() == f.qty)
    && (t.takerFilled <==> f.taker.Remaining() == f.qty)
    && Min(f.maker.price, f.taker.price) <= t.price <= Max(f.maker.price, f.taker.price)
  }

  /** The order fields the event constructor insists on. */
  predicate Identified(o: OrderState) {
    o.id != "" && o.userID != "" && ('-' in o.pair || '/' in o.pair) && o.price >= 0.0
  }

  ghost predicate IdentifiedBook(book: BookState) {
    forall l :: l in book.bids + book.asks ==> forall o :: o in l.orders ==> Identified(o)
  }

  /** Every fill of a market order is reported by exactly one trade event, in order. */
  lemma MarketTradesReport(book: BookState, taker: OrderState, i: nat)
    requires WellFormed(book) && IdentifiedBook(book) && taker.InRange() && Identified(taker)
    requires i < |MarketResult(book, taker).fills|
    ensures var r := MarketResult(book, taker);
      && |r.tradeEvents| == |r.fills|
      && Reports(r.tradeEvents[i], r.fills[i])
      && r.tradeEvents[i].price == r.fills[i].maker.price
      && (r.tradeEvents[i].makerFilled || r.tradeEvents[i].takerFilled)
  {
    var f := MarketResult(book, taker).fills[i];
    var levels := book.Opposite(taker.side);
    GoodIsRough(Other(taker.side), levels);
    var level := SweepSideFills(levels, taker, taker, f);
    assert level in book.bids + book.asks;
    assert Identified(f.maker);
  }

  /** Every fill of a limit order is reported by exactly one trade event, in order. */
  lemma LimitTradesReport(book: BookState, taker: OrderState, i: nat)
    requires WellFormed(book) && IdentifiedBook(book) && taker.InRange() && Identified(taker)
    requires i < |LimitResult(book, taker).fills|
    ensures var r := LimitResult(book, taker);
      && |r.tradeEvents| == |r.fills|
      && Reports(r.tradeEvents[i], r.fills[i])
      && r.tradeEvents[i].price == taker.price
      && (r.tradeEvents[i].makerFilled || r.tradeEvents[i].takerFilled)
  {
    var f := LimitResult(book, taker).fills[i];
    var levels := book.Opposite(taker.side);
    BestLevelFacts(book, taker);
    FillLevelFills(levels[0].orders, taker, taker, f);
    assert levels[0] in book.bids + book.asks;
    assert Identified(f.maker);
  }
}
