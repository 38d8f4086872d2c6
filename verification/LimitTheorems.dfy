/** What is promised of a limit order, with the exact condition under which the code keeps each promise. */
module LimitTheorems {
  import opened Orders
  import opened Events
  import opened Books
  import opened Market
  import opened MarketLaws
  import opened Greedy
  import opened Limit
  import opened LimitLaws
  import opened LimitPromises

  /** The best opposite level, when the taker accepts its price. */
  predicate Meets(book: BookState, taker: OrderState) {
    var levels := book.Opposite(taker.side);
    levels != [] && Crosses(taker, levels[0].price)
  }

  ghost predicate TakesWrongOrder(book: BookState, taker: OrderState) {
    Meets(book, taker) && Overreaches(book.Opposite(taker.side)[0].orders, taker)
  }

  lemma BestLevelFacts(book: BookState, taker: OrderState)
    requires WellFormed(book) && Meets(book, taker)
    ensures var best := book.Opposite(taker.side)[0];
      GoodLevel(Other(taker.side), best) && InRangeAll(best.orders) && Unique(IDs(best.orders))
  {
    var levels := book.Opposite(taker.side);
    assert GoodLevel(Other(taker.side), levels[0]);
    BookIDsOf(book, taker.side);
    SubsetUnique(IDs(levels[0].orders), BookIDs(book));
  }

  /** The opposite side loses exactly the makers the call filled, if and only if the taker does not
      step over an order on its way to one it fills. */
  lemma LimitRemovesFilledIff(book: BookState, taker: OrderState)
    requires WellFormed(book) && taker.InRange()
    ensures var r := LimitResult(book, taker);
      SideIDs(book.Opposite(taker.side)) == SideIDs(r.book.Opposite(taker.side)) + FilledMakers(r.fills)
      <==> !TakesWrongOrder(book, taker)
  {
    var r := LimitResult(book, taker);
    if Meets(book, taker) {
      BestLevelFacts(book, taker);
      PopsAreFillsIff(book.Opposite(taker.side)[0].orders, taker);
      LimitOppositeIDs(book, taker);
      var left := SideIDs(r.book.Opposite(taker.side));
      assert PoppedIDs(book, taker) == (left + PoppedIDs(book, taker)) - left;
      assert FilledMakers(r.fills) == (left + FilledMakers(r.fills)) - left;
    }
  }

  /** A level with none of the taker's orders and nothing spent cannot mislead the pops. */
  lemma NothingSkipped(book: BookState, taker: OrderState)
    requires WellFormed(book)
    requires Meets(book, taker) ==> forall o :: o in book.Opposite(taker.side)[0].orders ==>
               o.userID != taker.userID && o.Remaining() > 0.0
    ensures !TakesWrongOrder(book, taker)
  {
    if Meets(book, taker) {
      var levels := book.Opposite(taker.side);
      forall i | 0 <= i < |levels[0].orders| ensures !Skipped(levels[0].orders[i], taker) {
        assert levels[0].orders[i] in levels[0].orders;
      }
    }
  }

  // ---------- the greedy reading ----------

  /** A limit order trades, with everyone at the best level but itself, in greedy shares. */
  lemma {:induction false} LimitIsGreedy(book: BookState, taker: OrderState)
    requires WellFormed(book) && taker.InRange()
    ensures var queue := if Meets(book, taker) then Tradable(book.Opposite(taker.side)[0].orders, taker) else [];
      var r := LimitResult(book, taker);
      && Matches(r.fills) == Shares(queue, taker.Remaining(), 0)
      && r.taker.filled == taker.filled + Min(taker.Remaining(), Depth(queue))
  {
    if Meets(book, taker) {
      var orders := book.Opposite(taker.side)[0].orders;
      BestLevelFacts(book, taker);
      TradableInRange(orders, taker);
      if taker.Remaining() == 0.0 {
        IdleFill(orders, taker);
        NoBudget(Tradable(orders, taker), 0, 0.0, 0);
      } else {
        FillLevelTraded(orders, taker, taker);
        FillLevelMatches(orders, taker, taker);
        FillLevelTaker(orders, taker);
      }
    }
  }

  lemma {:induction false} LeftoverStep(orders: seq<OrderState>, budget: Decimal)
    requires orders != [] && orders[0].InRange() && orders[0].Remaining() > 0.0 && budget > 0.0
    ensures Leftover(orders, |orders|, budget, 0)
      == AfterShare(orders[0], Min(orders[0].Remaining(), budget))
         + Leftover(orders[1..], |orders| - 1, budget - orders[0].Remaining(), 0)
  {
    assert Depth(orders[..0]) == 0.0;
    LeftoverShift(orders, |orders|, budget, 0);
  }

  /** A maker that satisfies the taker leaves its own rest and the whole tail. */
  lemma {:induction false} LastMakerLeftover(orders: seq<OrderState>, taker: OrderState)
    requires orders != [] && orders[0].InRange() && orders[0].Remaining() > 0.0
    requires taker.InRange() && taker.Remaining() > 0.0 && orders[0].userID != taker.userID
    requires orders[0].Remaining() >= taker.Remaining()
    ensures var s := FillLevel(orders, taker);
      s.orders[s.pops..] == AfterShare(orders[0], taker.Remaining()) + orders[1..]
  {
    var fill, tail := Fill(orders[0], taker, taker.Remaining()), orders[1..];
    assert FillLevel(orders, taker)
        == LevelFill([fill.MakerAfter()] + tail, if fill.MakerFilled() then 1 else 0, fill.TakerAfter(), [fill], true);
    if fill.MakerFilled() {
      assert AfterShare(orders[0], fill.qty) == [];
      assert ([fill.MakerAfter()] + tail)[1..] == tail == [] + tail;
    } else {
      assert AfterShare(orders[0], fill.qty) == [fill.MakerAfter()];
      assert ([fill.MakerAfter()] + tail)[0..] == [fill.MakerAfter()] + tail;
    }
  }

  /** A maker that does not is popped, and the pass goes on behind it. */
  lemma {:induction false} SpentMakerLeftover(orders: seq<OrderState>, taker: OrderState)
    requires orders != [] && orders[0].InRange() && orders[0].Remaining() > 0.0
    requires taker.InRange() && orders[0].userID != taker.userID && orders[0].Remaining() < taker.Remaining()
    ensures var fill := Fill(orders[0], taker, orders[0].Remaining());
      var s, rest := FillLevel(orders, taker), FillLevel(orders[1..], fill.TakerAfter());
      s.orders[s.pops..] == rest.orders[rest.pops..]
  {
    var fill := Fill(orders[0], taker, orders[0].Remaining());
    var rest := FillLevel(orders[1..], fill.TakerAfter());
    assert ([fill.MakerAfter()] + rest.orders)[1 + rest.pops..] == rest.orders[rest.pops..];
  }

  lemma NothingAhead(a: seq<OrderState>, b: seq<OrderState>)
    requires a == []
    ensures a + b == b
  {
  }

  /** With nothing to step over, popping the front is the same as taking out the filled. */
  lemma {:induction false} FillLevelLeftover(orders: seq<OrderState>, who: OrderState, taker: OrderState)
    requires InRangeAll(orders) && AllLive(orders) && taker.InRange() && taker.Remaining() > 0.0
        && SameTaker(who, taker)
    requires forall o :: o in orders ==> o.userID != who.userID
    ensures var s := FillLevel(orders, taker);
      s.orders[s.pops..] == Leftover(orders, |orders|, taker.Remaining(), 0)
  {
    if orders != [] {
      var want, tail := taker.Remaining(), orders[1..];
      var left := want - orders[0].Remaining();
      assert orders[0] in orders && forall o :: o in tail ==> o in orders;
      LeftoverStep(orders, want);
      if left <= 0.0 {
        LastMakerLeftover(orders, taker);
        NoBudget(tail, |tail|, left, 0);
        assert tail[0..] == tail;
      } else {
        SpentMakerLeftover(orders, taker);
        FillLevelLeftover(tail, who, Fill(orders[0], taker, orders[0].Remaining()).TakerAfter());
        NothingAhead(AfterShare(orders[0], orders[0].Remaining()), Leftover(tail, |tail|, left, 0));
      }
    }
  }

  /** On a best level with nothing to step over, the level left behind is the greedy leftover. */
  lemma LimitLeavesGreedyLevel(book: BookState, taker: OrderState)
    requires WellFormed(book) && taker.InRange() && taker.Remaining() > 0.0
    requires Meets(book, taker) && AllLive(book.Opposite(taker.side)[0].orders)
    requires forall o :: o in book.Opposite(taker.side)[0].orders ==> o.userID != taker.userID
    ensures var levels := book.Opposite(taker.side);
      var left := Leftover(levels[0].orders, |levels[0].orders|, taker.Remaining(), 0);
      LimitResult(book, taker).book.Opposite(taker.side)
        == DropEmpty([levels[0].(orders := left)]) + levels[1..]
  {
    var levels := book.Opposite(taker.side);
    var s := FillLevel(levels[0].orders, taker);
    assert levels[0] in levels;
    BestLevelFacts(book, taker);
    FillLevelLeftover(levels[0].orders, taker, taker);
    var left := s.orders[s.pops..];
    assert |left| == |s.orders| - s.pops;
    assert DropEmpty([levels[0].(orders := left)]) == if left == [] then [] else [levels[0].(orders := left)];
  }

  // ---------- where the remainder goes ----------

  /** "Any unfilled remainder rests on the book" is true of a new order if and only if there is
      something tradable at an acceptable best opposite level. */
  lemma {:induction false} RemainderRestsIff(book: BookState, taker: OrderState)
    requires WellFormed(book) && taker.InRange() && taker.status == Open && taker.Remaining() > 0.0
    requires taker.id !in BookIDs(book)
    ensures var r := LimitResult(book, taker);
      (r.taker.Remaining() > 0.0 ==> taker.id in SideIDs(r.book.Own(taker.side)))
      <==> Meets(book, taker) && Tradable(book.Opposite(taker.side)[0].orders, taker) != []
  {
    var r := LimitResult(book, taker);
    LimitRestsIff(book, taker);
    LimitIsGreedy(book, taker);
    PlaceIDs(taker.side, book.Own(taker.side), r.taker);
    RestedTaker(book, taker);
    BookIDsOf(book, taker.side);
    if Meets(book, taker) {
      BestLevelFacts(book, taker);
      TradableInRange(book.Opposite(taker.side)[0].orders, taker);
    }
  }

  // ---------- crossing ----------

  /** The order rests while a level it accepts is still there: the best one, because an order on it
      was stepped over, or the next. */
  predicate RestsCrossed(book: BookState, taker: OrderState) {
    var levels := book.Opposite(taker.side);
    && Rests(book, taker)
    && (|| taker.Remaining() == 0.0
        || |Tradable(levels[0].orders, taker)| < |levels[0].orders|
        || (|levels| > 1 && Crosses(taker, levels[1].price)))
  }

  lemma UncrossedSides(book: BookState, side: OrderSide)
    ensures Uncrossed(book)
      <==> forall o, p :: o in book.Own(side) && p in book.Opposite(side) ==> Better(side, p.price, o.price)
  {
  }

  lemma {:induction false} OppositeAfter(book: BookState, taker: OrderState)
    requires WellFormed(book) && taker.InRange() && Meets(book, taker)
    ensures var levels := book.Opposite(taker.side);
      var after := LimitResult(book, taker).book.Opposite(taker.side);
      && (after == levels[1..]
          || (|after| == |levels| && after[0].price == levels[0].price && after[1..] == levels[1..]))
      && (Rests(book, taker) ==> (after == levels[1..]
            <==> taker.Remaining() > 0.0 && |Tradable(levels[0].orders, taker)| == |levels[0].orders|))
  {
    var levels := book.Opposite(taker.side);
    var orders := levels[0].orders;
    BestLevelFacts(book, taker);
    TradableInRange(orders, taker);
    if taker.Remaining() == 0.0 {
      IdleFill(orders, taker);
    } else {
      FillLevelTraded(orders, taker, taker);
    }
    var after := LimitResult(book, taker).book.Opposite(taker.side);
    if after != levels[1..] {
      assert after[1..] == levels[1..];
    }
  }

  /** An uncrossed book stays uncrossed under a limit order if and only if the order does not rest
      while a level it accepts remains. */
  lemma LimitUncrossedIff(book: BookState, taker: OrderState)
    requires WellFormed(book) && taker.InRange() && Uncrossed(book)
    ensures Uncrossed(LimitResult(book, taker).book) <==> !RestsCrossed(book, taker)
  {
    var r := LimitResult(book, taker);
    LimitRestsIff(book, taker);
    UncrossedSides(book, taker.side);
    UncrossedSides(r.book, taker.side);
    if Meets(book, taker) {
      OppositeAfter(book, taker);
      OldLevelsStayApart(book, taker);
      if Rests(book, taker) {
        RestedTaker(book, taker);
        RestedAgainst(book, taker);
        PlaceAddsPrice(taker.side, book.Own(taker.side), r.taker);
        var level :| level in r.book.Own(taker.side) && level.price == taker.price;
        forall o | o in r.book.Own(taker.side) ensures o in book.Own(taker.side) || o.price == taker.price
          || exists k :: k in book.Own(taker.side) && k.price == o.price
        {
          PlaceMembers(taker.side, book.Own(taker.side), r.taker, o);
        }
      }
    }
  }

  lemma {:induction false} PlaceAddsPrice(side: OrderSide, levels: seq<LevelState>, o: OrderState)
    ensures exists l :: l in Place(side, levels, o) && l.price == o.price
  {
    if levels == [] || Better(side, o.price, levels[0].price) || levels[0].price == o.price {
      assert Place(side, levels, o)[0] in Place(side, levels, o);
    } else {
      PlaceAddsPrice(side, levels[1..], o);
    }
  }

  /** Of what is left opposite, something is acceptable to the rested taker exactly when it rests crossed. */
  lemma RestedAgainst(book: BookState, taker: OrderState)
    requires WellFormed(book) && taker.InRange() && Rests(book, taker)
    ensures (forall p :: p in LimitResult(book, taker).book.Opposite(taker.side) ==>
               Better(taker.side, p.price, taker.price))
       <==> !RestsCrossed(book, taker)
  {
    OppositeAfter(book, taker);
    BestLevelFacts(book, taker);
    var levels := book.Opposite(taker.side);
    TradableInRange(levels[0].orders, taker);
    var after := LimitResult(book, taker).book.Opposite(taker.side);
    if after != levels[1..] {
      assert after[0] in after;
    } else if |levels| > 1 {
      assert levels[1] in after;
      forall p | p in after && !Crosses(taker, levels[1].price) ensures Better(taker.side, p.price, taker.price) {
        var k :| 0 <= k < |after| && after[k] == p;
        assert p == levels[k + 1];
      }
    }
  }

  lemma OldLevelsStayApart(book: BookState, taker: OrderState)
    requires WellFormed(book) && taker.InRange() && Uncrossed(book) && Meets(book, taker)
    ensures forall o, p :: o in book.Own(taker.side) && p in LimitResult(book, taker).book.Opposite(taker.side) ==>
              Better(taker.side, p.price, o.price)
  {
    OppositeAfter(book, taker);
    UncrossedSides(book, taker.side);
    var levels := book.Opposite(taker.side);
    forall o, p | o in book.Own(taker.side) && p in LimitResult(book, taker).book.Opposite(taker.side)
      ensures Better(taker.side, p.price, o.price)
    {
      assert p in levels[1..] || p.price == levels[0].price;
      assert levels[0] in levels;
    }
  }
}
