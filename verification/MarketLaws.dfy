/** What every market match keeps, conserves and achieves, whatever the book. */
module MarketLaws {
  import opened Orders
  import opened Events
  import opened Books
  import opened Market

  lemma {:induction false} TradedConcat(a: seq<Fill>, b: seq<Fill>)
    ensures Traded(a + b) == Traded(a) + Traded(b)
  {
    if a == [] {
      assert a + b == b;
    } else {
      assert (a + b)[1..] == a[1..] + b;
      TradedConcat(a[1..], b);
    }
  }

  /** A side whose orders are where they belong; some levels may be empty. */
  predicate RoughSide(side: OrderSide, levels: seq<LevelState>) {
    Sorted(side, levels) && forall l :: l in levels ==> RoughLevel(side, l)
  }

  lemma {:induction false} RoughLevelSwept(side: OrderSide, level: LevelState, taker: OrderState)
    requires RoughLevel(side, level) && taker.InRange()
    ensures RoughLevel(side, level.(orders := SweepLevel(level.orders, taker).orders))
    ensures AllLive(level.orders) ==> AllLive(SweepLevel(level.orders, taker).orders)
  {
    forall o | o in SweepLevel(level.orders, taker).orders
      ensures o.price == level.price && o.side == side && o.InRange()
      ensures AllLive(level.orders) ==> o.Remaining() > 0.0
    {
      SweepLevelMembers(level.orders, taker, o);
    }
  }

  /** The sweep changes no level's price or position and leaves every order in range. */
  lemma {:induction false} SweepSideLevels(side: OrderSide, levels: seq<LevelState>, taker: OrderState)
    requires (forall l :: l in levels ==> RoughLevel(side, l)) && taker.InRange()
    ensures var s := SweepSide(levels, taker).levels;
      && |s| == |levels|
      && forall i :: 0 <= i < |s| ==>
           && s[i].price == levels[i].price
           && RoughLevel(side, s[i])
           && (AllLive(levels[i].orders) ==> AllLive(s[i].orders))
  {
    if levels != [] && Crosses(taker, levels[0].price) {
      RoughLevelSwept(side, levels[0], taker);
      SweepLevelTaker(levels[0].orders, taker);
      var s := SweepLevel(levels[0].orders, taker);
      var level := levels[0].(orders := s.orders);
      assert RoughLevel(side, level) && (AllLive(levels[0].orders) ==> AllLive(level.orders));
      if !s.done {
        SweepSideLevels(side, levels[1..], s.taker);
      }
    }
  }

  /** Conservation over a side: what is traded is what the taker gains and what the side loses. */
  lemma {:induction false} SweepSideConserves(levels: seq<LevelState>, taker: OrderState)
    requires (forall l :: l in levels ==> InRangeAll(l.orders)) && taker.InRange()
    ensures var s := SweepSide(levels, taker);
      && s.taker.InRange()
      && s.taker == taker.(filled := s.taker.filled, status := s.taker.status)
      && Traded(s.fills) == s.taker.filled - taker.filled
      && Traded(s.fills) == SideDepth(levels) - SideDepth(s.levels)
      && SideIDs(s.levels) <= SideIDs(levels)
      && !(s.done && s.cancelled)
      && (s.done ==> s.taker.Remaining() == 0.0)
      && (!s.done && taker.Remaining() > 0.0 ==> s.taker.Remaining() > 0.0)
  {
    if levels != [] && Crosses(taker, levels[0].price) {
      SweepLevelTaker(levels[0].orders, taker);
      SweepLevelConserves(levels[0].orders, taker);
      var s := SweepLevel(levels[0].orders, taker);
      var level := levels[0].(orders := s.orders);
      if s.done {
        assert ([level] + levels[1..])[1..] == levels[1..];
      } else {
        SweepSideConserves(levels[1..], s.taker);
        var rest := SweepSide(levels[1..], s.taker);
        TradedConcat(s.fills, rest.fills);
        assert ([level] + rest.levels)[1..] == rest.levels;
      }
    }
  }

  lemma GoodIsRough(side: OrderSide, levels: seq<LevelState>)
    requires GoodSide(side, levels)
    ensures RoughSide(side, levels)
    ensures forall l :: l in levels ==> InRangeAll(l.orders)
  {
    forall l | l in levels ensures RoughLevel(side, l) && InRangeAll(l.orders) {
      assert GoodLevel(side, l);
    }
  }

  lemma {:induction false} DropEmptyGood(side: OrderSide, levels: seq<LevelState>)
    requires RoughSide(side, levels)
    ensures GoodSide(side, DropEmpty(levels))
  {
    DropEmptySorted(side, levels);
    forall l | l in DropEmpty(levels) ensures GoodLevel(side, l) {
      DropEmptyMembers(levels, l);
      assert RoughLevel(side, l);
    }
  }

  /** The swept side after `RemoveEmptyLevel` is good again, and no price is new. */
  lemma {:induction false} SweptSideGood(side: OrderSide, levels: seq<LevelState>, taker: OrderState)
    requires GoodSide(side, levels) && taker.InRange()
    ensures GoodSide(side, DropEmpty(SweepSide(levels, taker).levels))
    ensures forall l :: l in DropEmpty(SweepSide(levels, taker).levels) ==>
              exists k :: k in levels && k.price == l.price
    ensures LiveSide(levels) ==> LiveSide(DropEmpty(SweepSide(levels, taker).levels))
  {
    GoodIsRough(side, levels);
    SweepSideLevels(side, levels, taker);
    var s := SweepSide(levels, taker).levels;
    assert RoughSide(side, s);
    DropEmptyGood(side, s);
    forall l | l in DropEmpty(s)
      ensures exists k :: k in levels && k.price == l.price
      ensures LiveSide(levels) ==> AllLive(l.orders)
    {
      DropEmptyMembers(s, l);
      var i :| 0 <= i < |s| && s[i] == l;
      assert levels[i] in levels && levels[i].price == l.price;
    }
  }

  lemma SubsetUnique(a: multiset<ID>, b: multiset<ID>)
    requires a <= b && Unique(b)
    ensures Unique(a)
  {
    forall x ensures a[x] <= 1 {
      assert a[x] <= b[x];
    }
  }

  /** Every market order keeps the book well-formed and adds no order to it. */
  lemma MarketKeepsWellFormed(book: BookState, taker: OrderState)
    requires WellFormed(book) && taker.InRange()
    ensures WellFormed(MarketResult(book, taker).book)
    ensures BookIDs(MarketResult(book, taker).book) <= BookIDs(book)
  {
    var side := Other(taker.side);
    var levels := book.Opposite(taker.side);
    if levels != [] {
      SweptSideGood(side, levels, taker);
      GoodIsRough(side, levels);
      SweepSideConserves(levels, taker);
      DropEmptyKeeps(SweepSide(levels, taker).levels);
      SubsetUnique(BookIDs(MarketResult(book, taker).book), BookIDs(book));
    }
  }

  /** Quantity conservation: traded volume is the taker's gain and the opposite side's loss;
      the taker's own side does not move. */
  lemma MarketConserves(book: BookState, taker: OrderState)
    requires WellFormed(book) && taker.InRange()
    ensures var r := MarketResult(book, taker);
      && Traded(r.fills) == r.taker.filled - taker.filled
      && Traded(r.fills) == SideDepth(book.Opposite(taker.side)) - SideDepth(r.book.Opposite(taker.side))
      && r.book.Own(taker.side) == book.Own(taker.side)
      && r.taker.InRange()
  {
    var levels := book.Opposite(taker.side);
    if levels != [] {
      GoodIsRough(Other(taker.side), levels);
      SweepSideConserves(levels, taker);
      DropEmptyKeeps(SweepSide(levels, taker).levels);
    }
  }

  /** A market order cannot cross an uncrossed book. */
  lemma MarketKeepsUncrossed(book: BookState, taker: OrderState)
    requires WellFormed(book) && taker.InRange() && Uncrossed(book)
    ensures Uncrossed(MarketResult(book, taker).book)
  {
    var levels := book.Opposite(taker.side);
    if levels != [] {
      SweptSideGood(Other(taker.side), levels, taker);
      var after := MarketResult(book, taker).book;
      forall b, a | b in after.bids && a in after.asks ensures b.price < a.price {
        var k :| k in levels && k.price == (if taker.side == Buy then a.price else b.price);
      }
    }
  }

  // ---------- maximal execution ----------

  /** A level the sweep left with the taker still hungry: drained, or its head stops the sweep. */
  lemma {:induction false} HungryLevel(orders: seq<OrderState>, taker: OrderState)
    requires InRangeAll(orders) && AllLive(orders) && taker.InRange() && taker.Remaining() > 0.0
    requires !SweepLevel(orders, taker).done
    ensures var s := SweepLevel(orders, taker);
      s.orders != [] ==> SkipsLevel(s.orders[0], taker) && s.orders[0] in orders
  {
    if orders != [] && !SkipsLevel(orders[0], taker) {
      FillInRange(orders[0], taker);
      var fill := Fill(orders[0], taker, Min(orders[0].Remaining(), taker.Remaining()));
      assert fill.MakerFilled();
      HungryLevel(orders[1..], fill.TakerAfter());
    }
  }

  /** A sweep that ends with the taker hungry has cleaned every acceptable level up to its first barred order. */
  lemma {:induction false} HungrySide(side: OrderSide, levels: seq<LevelState>, taker: OrderState)
    requires side == Other(taker.side) && GoodSide(side, levels) && LiveSide(levels)
    requires taker.InRange() && taker.Remaining() > 0.0
    requires !SweepSide(levels, taker).done
    ensures var s := SweepSide(levels, taker).levels;
      && |s| == |levels|
      && forall i :: 0 <= i < |s| && Crosses(taker, s[i].price) && s[i].orders != [] ==>
           SkipsLevel(s[i].orders[0], taker)
  {
    if levels != [] {
      assert levels[0] in levels;
      if Crosses(taker, levels[0].price) {
        GoodIsRough(side, levels);
        HungryLevel(levels[0].orders, taker);
        SweepLevelTaker(levels[0].orders, taker);
        HungrySide(side, levels[1..], SweepLevel(levels[0].orders, taker).taker);
      }
    }
  }

  predicate StartsWithOwn(level: LevelState, taker: OrderState) {
    level.orders != [] && level.orders[0].userID == taker.userID
  }

  /** Without spent orders: either the taker is filled, or no level it accepts is left, except,
      for a seller, levels that start with its own order. */
  lemma LiveMarketIsMaximal(book: BookState, taker: OrderState)
    requires WellFormed(book) && LiveSide(book.Opposite(taker.side))
    requires taker.InRange() && taker.Remaining() > 0.0 && taker.id !in BookIDs(book)
    ensures var r := MarketResult(book, taker);
      || r.taker.Remaining() == 0.0
      || forall l :: l in r.book.Opposite(taker.side) && Crosses(taker, l.price) ==>
           taker.side == Sell && StartsWithOwn(l, taker)
  {
    var side := Other(taker.side);
    var levels := book.Opposite(taker.side);
    if levels != [] {
      var s := SweepSide(levels, taker);
      GoodIsRough(side, levels);
      SweepSideConserves(levels, taker);
      SweptSideGood(side, levels, taker);
      if !s.done {
        HungrySide(side, levels, taker);
        forall l | l in DropEmpty(s.levels) && Crosses(taker, l.price)
          ensures taker.side == Sell && StartsWithOwn(l, taker)
        {
          DropEmptyMembers(s.levels, l);
          assert SkipsLevel(l.orders[0], taker);
          if taker.side == Buy {
            assert HasID(l.orders, taker.id);
            SideIDsMember(s.levels, taker.id);
            assert false;
          }
        }
      }
    }
  }

  /** Every fill but the last consumes its maker whole. */
  predicate OnlyLastPartial(fills: seq<Fill>) {
    forall i :: 0 <= i < |fills| - 1 ==> fills[i].MakerFilled()
  }

  lemma {:induction false} LevelOnlyLastPartial(orders: seq<OrderState>, taker: OrderState)
    requires InRangeAll(orders) && taker.InRange()
    ensures var s := SweepLevel(orders, taker);
      OnlyLastPartial(s.fills) && (!s.done ==> forall f :: f in s.fills ==> f.MakerFilled())
  {
    if orders != [] && !SkipsLevel(orders[0], taker) {
      FillInRange(orders[0], taker);
      var fill := Fill(orders[0], taker, Min(orders[0].Remaining(), taker.Remaining()));
      LevelOnlyLastPartial(orders[1..], if fill.qty == 0.0 then taker else fill.TakerAfter());
    }
  }

  /** At most one maker is left partially filled, and only by the fill that completes the taker. */
  lemma {:induction false} MarketOnlyLastPartial(levels: seq<LevelState>, taker: OrderState)
    requires (forall l :: l in levels ==> InRangeAll(l.orders)) && taker.InRange()
    ensures var s := SweepSide(levels, taker);
      OnlyLastPartial(s.fills) && (!s.done ==> forall f :: f in s.fills ==> f.MakerFilled())
  {
    if levels != [] && Crosses(taker, levels[0].price) {
      LevelOnlyLastPartial(levels[0].orders, taker);
      SweepLevelTaker(levels[0].orders, taker);
      var s := SweepLevel(levels[0].orders, taker);
      if !s.done {
        MarketOnlyLastPartial(levels[1..], s.taker);
        var rest := SweepSide(levels[1..], s.taker);
        forall i | 0 <= i < |s.fills + rest.fills| - 1 ensures (s.fills + rest.fills)[i].MakerFilled() {
          if i < |s.fills| {
            assert s.fills[i] in s.fills;
          }
        }
      }
    }
  }
}
