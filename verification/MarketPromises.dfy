/** What is promised of a market order, price-time priority over everything it may trade with, and the exact
    condition under which the code keeps it: on every well-formed book, spent orders included. */
module MarketPromises {
  import opened Orders
  import opened Events
  import opened Books
  import opened Market
  import opened MarketLaws
  import opened Greedy

  /** All orders of a level the taker may trade with, by its side's own test. */
  function Open(orders: seq<OrderState>, taker: OrderState): seq<OrderState> {
    if orders == [] then []
    else if SkipsLevel(orders[0], taker) then Open(orders[1..], taker)
    else [orders[0]] + Open(orders[1..], taker)
  }

  /** All orders of the acceptable levels the taker may trade with, best price first, then queue order. */
  function OpenList(levels: seq<LevelState>, taker: OrderState): seq<OrderState> {
    if levels == [] || !Crosses(taker, levels[0].price) then []
    else Open(levels[0].orders, taker) + OpenList(levels[1..], taker)
  }

  /** A live order the taker may trade with stands behind one that ends the level for it: one of the taker's
      own, or, for a buyer, a spent one. */
  predicate Hides(orders: seq<OrderState>, taker: OrderState) {
    exists i, j :: 0 <= i < j < |orders| && Bars(orders[i], taker)
                && !SkipsLevel(orders[j], taker) && orders[j].Remaining() > 0.0
  }

  /** The open orders from the first that bars the taker on. */
  function Behind(orders: seq<OrderState>, taker: OrderState): seq<OrderState> {
    if orders == [] then []
    else if Bars(orders[0], taker) then Open(orders, taker)
    else Behind(orders[1..], taker)
  }

  lemma {:induction false} OpenSplits(orders: seq<OrderState>, taker: OrderState)
    ensures Open(orders, taker) == Reach(orders, taker) + Behind(orders, taker)
  {
    if orders != [] && !Bars(orders[0], taker) {
      OpenSplits(orders[1..], taker);
    }
  }

  lemma {:induction false} OpenMembers(orders: seq<OrderState>, taker: OrderState)
    ensures forall o :: o in Open(orders, taker) <==> o in orders && !SkipsLevel(o, taker)
  {
    if orders != [] {
      OpenMembers(orders[1..], taker);
      assert orders == [orders[0]] + orders[1..];
    }
  }

  lemma {:induction false} BehindMembers(orders: seq<OrderState>, taker: OrderState)
    ensures forall o :: o in Behind(orders, taker) ==> o in orders
  {
    if orders != [] {
      if Bars(orders[0], taker) {
        OpenMembers(orders, taker);
      } else {
        BehindMembers(orders[1..], taker);
      }
    }
  }

  /** No depth means nothing left in any order. */
  lemma {:induction false} DepthZeroIff(orders: seq<OrderState>)
    requires InRangeAll(orders)
    ensures Depth(orders) >= 0.0
    ensures Depth(orders) > 0.0 <==> exists o :: o in orders && o.Remaining() > 0.0
  {
    if orders != [] {
      DepthZeroIff(orders[1..]);
      assert orders == [orders[0]] + orders[1..];
      assert orders[0].InRange();
    }
  }

  /** A level hides an order exactly if there is depth behind the one that bars. */
  lemma {:induction false} HidesIff(orders: seq<OrderState>, taker: OrderState)
    requires InRangeAll(orders)
    ensures InRangeAll(Behind(orders, taker))
    ensures Depth(Behind(orders, taker)) >= 0.0
    ensures Hides(orders, taker) <==> Depth(Behind(orders, taker)) > 0.0
  {
    BehindMembers(orders, taker);
    DepthZeroIff(Behind(orders, taker));
    if orders != [] {
      if Bars(orders[0], taker) {
        OpenMembers(orders, taker);
        if o :| o in Behind(orders, taker) && o.Remaining() > 0.0 {
          var j :| 0 <= j < |orders| && orders[j] == o;
          assert Bars(orders[0], taker) && 0 < j;
        }
      } else {
        HidesIff(orders[1..], taker);
        HidesTail(orders, taker);
      }
    }
  }

  lemma HidesTail(orders: seq<OrderState>, taker: OrderState)
    requires orders != [] && !Bars(orders[0], taker)
    ensures Hides(orders, taker) <==> Hides(orders[1..], taker)
  {
    var tail := orders[1..];
    if i, j :| 0 <= i < j < |orders| && Bars(orders[i], taker)
               && !SkipsLevel(orders[j], taker) && orders[j].Remaining() > 0.0 {
      assert tail[i - 1] == orders[i] && tail[j - 1] == orders[j];
    }
    if i, j :| 0 <= i < j < |tail| && Bars(tail[i], taker)
               && !SkipsLevel(tail[j], taker) && tail[j].Remaining() > 0.0 {
      assert orders[i + 1] == tail[i] && orders[j + 1] == tail[j];
    }
  }

  // ---------- how much a market order gets ----------

  /** Some acceptable level hides an order. */
  predicate HidesSide(levels: seq<LevelState>, taker: OrderState) {
    levels != [] && Crosses(taker, levels[0].price)
    && (Hides(levels[0].orders, taker) || HidesSide(levels[1..], taker))
  }

  /** The same by position, on a sorted side. */
  lemma {:induction false} HidesSideIff(side: OrderSide, levels: seq<LevelState>, taker: OrderState)
    requires Sorted(side, levels) && side == Other(taker.side)
    ensures HidesSide(levels, taker) <==> exists l :: l in levels && Crosses(taker, l.price) && Hides(l.orders, taker)
  {
    if levels != [] {
      HidesSideIff(side, levels[1..], taker);
      assert levels == [levels[0]] + levels[1..];
      if !Crosses(taker, levels[0].price) {
        forall l | l in levels ensures !Crosses(taker, l.price) {
          var k :| 0 <= k < |levels| && levels[k] == l;
        }
      }
    }
  }

  /** What lies open is what is in reach and what is hidden. */
  lemma {:induction false} OpenDepth(levels: seq<LevelState>, taker: OrderState)
    requires forall l :: l in levels ==> InRangeAll(l.orders)
    ensures Depth(OpenList(levels, taker)) >= Depth(PriorityList(levels, taker))
    ensures Depth(OpenList(levels, taker)) == Depth(PriorityList(levels, taker)) <==> !HidesSide(levels, taker)
  {
    if levels != [] && Crosses(taker, levels[0].price) {
      var orders := levels[0].orders;
      OpenDepth(levels[1..], taker);
      OpenSplits(orders, taker);
      HidesIff(orders, taker);
      DepthConcat(Reach(orders, taker), Behind(orders, taker));
      DepthConcat(Open(orders, taker), OpenList(levels[1..], taker));
      DepthConcat(Reach(orders, taker), PriorityList(levels[1..], taker));
    }
  }

  /** A market order gets the lesser of what it wants and what lies open to it at acceptable prices if and
      only if no acceptable level hides an order, or what is in reach suffices. */
  lemma {:induction false} MarketFillsIff(book: BookState, taker: OrderState)
    requires WellFormed(book) && taker.InRange()
    ensures var levels := book.Opposite(taker.side);
      MarketResult(book, taker).taker.filled == taker.filled + Min(taker.Remaining(), Depth(OpenList(levels, taker)))
      <==> !(HidesSide(levels, taker) && Depth(PriorityList(levels, taker)) < taker.Remaining())
  {
    var levels := book.Opposite(taker.side);
    GoodIsRough(Other(taker.side), levels);
    OpenDepth(levels, taker);
    MarketIsGreedy(book, taker);
  }

  // ---------- with whom it trades ----------

  lemma {:induction false} SharesEmptyIff(queue: seq<OrderState>, budget: Decimal)
    requires InRangeAll(queue)
    ensures Shares(queue, budget, 0) == [] <==> budget <= 0.0 || Depth(queue) == 0.0
  {
    if budget <= 0.0 {
      NoBudget(queue, |queue|, budget, 0);
    } else if queue != [] {
      assert queue == [queue[0]] + queue[1..];
      SharesHead(queue[0], queue[1..], budget);
      DepthZeroIff(queue[1..]);
      SharesEmptyIff(queue[1..], budget - queue[0].Remaining());
    }
  }

  /** Before it has what it wants, the taker passes over an order hidden on a level it is at. */
  predicate PassesOver(levels: seq<LevelState>, taker: OrderState, want: Decimal) {
    levels != [] && Crosses(taker, levels[0].price)
    && var reach := Depth(Reach(levels[0].orders, taker));
       (Hides(levels[0].orders, taker) && reach < want) || PassesOver(levels[1..], taker, want - reach)
  }

  /** Somebody gets a share of a queue, and is in it. */
  lemma {:induction false} SharerIsIn(queue: seq<OrderState>, budget: Decimal, m: (OrderState, Decimal))
    requires m in Shares(queue, budget, 0)
    ensures m.0 in queue
  {
    SharerIsInFrom(queue, budget, 0, m);
  }

  lemma {:induction false} SharerIsInFrom(queue: seq<OrderState>, budget: Decimal, k: nat, m: (OrderState, Decimal))
    requires k <= |queue| && m in Shares(queue, budget, k)
    ensures m.0 in queue
    decreases |queue| - k
  {
    if k < |queue| && m != (queue[k], Share(queue, k, budget)) {
      SharerIsInFrom(queue, budget, k + 1, m);
    }
  }

  lemma {:induction false} ListPrices(side: OrderSide, levels: seq<LevelState>, taker: OrderState, o: OrderState)
    requires GoodSide(side, levels) && o in PriorityList(levels, taker)
    ensures exists k :: 0 <= k < |levels| && levels[k].price == o.price
  {
    ReachFits(levels[0].orders, taker);
    if o in Reach(levels[0].orders, taker) {
      assert levels[0] in levels && GoodLevel(side, levels[0]);
    } else {
      assert forall l :: l in levels[1..] ==> l in levels;
      ListPrices(side, levels[1..], taker, o);
      var k :| 0 <= k < |levels[1..]| && levels[1..][k].price == o.price;
      assert levels[k + 1].price == o.price;
    }
  }

  /** Whatever is in reach behind the first level has a worse price. */
  lemma {:induction false} DeeperIsWorse(side: OrderSide, levels: seq<LevelState>, taker: OrderState, o: OrderState)
    requires GoodSide(side, levels) && levels != [] && o in PriorityList(levels[1..], taker)
    ensures Better(side, levels[0].price, o.price)
  {
    assert forall l :: l in levels[1..] ==> l in levels;
    ListPrices(side, levels[1..], taker, o);
    var k :| 0 <= k < |levels[1..]| && levels[1..][k].price == o.price;
    assert levels[k + 1].price == o.price;
  }

  /** Orders of one level are not among those in reach on the levels behind it. */
  lemma {:induction false} NotDeeper(side: OrderSide, levels: seq<LevelState>, taker: OrderState, o: OrderState)
    requires GoodSide(side, levels) && levels != [] && o in levels[0].orders
    ensures o !in PriorityList(levels[1..], taker)
  {
    assert levels[0] in levels && GoodLevel(side, levels[0]);
    if o in PriorityList(levels[1..], taker) {
      DeeperIsWorse(side, levels, taker, o);
    }
  }

  lemma {:induction false} OpenInRange(levels: seq<LevelState>, taker: OrderState)
    requires forall l :: l in levels ==> InRangeAll(l.orders)
    ensures InRangeAll(OpenList(levels, taker))
  {
    if levels != [] && Crosses(taker, levels[0].price) {
      OpenMembers(levels[0].orders, taker);
      OpenInRange(levels[1..], taker);
    }
  }

  /** Two queues are shared out alike. */
  predicate SharedAlike(a: seq<OrderState>, b: seq<OrderState>, want: Decimal) {
    Shares(a, want, 0) == Shares(b, want, 0)
  }

  lemma Cancel<T>(a: seq<T>, x: seq<T>, y: seq<T>)
    ensures a + x == a + y <==> x == y
  {
    assert (a + x)[|a|..] == x && (a + y)[|a|..] == y;
  }

  /** Two queues with the same head part are shared out alike exactly if what follows is. */
  lemma {:induction false} SameHead(a: seq<OrderState>, x: seq<OrderState>, y: seq<OrderState>, want: Decimal)
    ensures SharedAlike(a + x, a + y, want) <==> SharedAlike(x, y, want - Depth(a))
  {
    SharesConcat(a, x, want, 0);
    SharesConcat(a, y, want, 0);
    Cancel(Shares(a, want, 0), Shares(x, want - Depth(a), 0), Shares(y, want - Depth(a), 0));
  }

  /** Orders that stand before others and not among them have no share exactly if they have no depth, or
      nothing is wanted. */
  lemma {:induction false} NoneBetween(x: seq<OrderState>, b: seq<OrderState>, c: seq<OrderState>, left: Decimal)
    requires InRangeAll(x) && InRangeAll(b) && InRangeAll(c) && Depth(b) >= 0.0 && forall o :: o in b ==> o !in x
    ensures SharedAlike(x, b + c, left) <==> !(Depth(b) > 0.0 && left > 0.0) && SharedAlike(x, c, left)
  {
    SharesEmptyIff(b, left);
    SharesConcat(b, c, left, 0);
    if left > 0.0 && Depth(b) > 0.0 {
      SharedFirst(x, b, left, Shares(c, left - Depth(b), 0));
    } else if left <= 0.0 {
      SharesEmptyIff(x, left);
      SharesEmptyIff(c, left);
      SharesEmptyIff(c, left - Depth(b));
    }
  }

  lemma {:induction false} SharedFirst(x: seq<OrderState>, b: seq<OrderState>, left: Decimal,
                                       more: seq<(OrderState, Decimal)>)
    requires Shares(b, left, 0) != [] && forall o :: o in b ==> o !in x
    ensures Shares(x, left, 0) != Shares(b, left, 0) + more
  {
    var first := Shares(b, left, 0)[0];
    SharerIsIn(b, left, first);
    if (Shares(b, left, 0) + more)[0] in Shares(x, left, 0) {
      SharerIsIn(x, left, first);
    }
  }

  /** Orders inserted behind a common head part are noticed exactly if they have depth while something is
      still wanted. */
  lemma {:induction false} InsertedIff(a: seq<OrderState>, x: seq<OrderState>, b: seq<OrderState>, c: seq<OrderState>,
                                       want: Decimal)
    requires InRangeAll(x) && InRangeAll(b) && InRangeAll(c) && Depth(b) >= 0.0 && forall o :: o in b ==> o !in x
    ensures SharedAlike(a + x, a + (b + c), want)
       <==> !(Depth(b) > 0.0 && Depth(a) < want) && SharedAlike(x, c, want - Depth(a))
  {
    SameHead(a, x, b + c, want);
    NoneBetween(x, b, c, want - Depth(a));
  }

  lemma {:induction false} OpenListSplits(levels: seq<LevelState>, taker: OrderState)
    requires levels != [] && Crosses(taker, levels[0].price)
    ensures OpenList(levels, taker)
         == Reach(levels[0].orders, taker) + (Behind(levels[0].orders, taker) + OpenList(levels[1..], taker))
  {
    OpenSplits(levels[0].orders, taker);
    Regroup(Reach(levels[0].orders, taker), Behind(levels[0].orders, taker), OpenList(levels[1..], taker));
  }

  lemma Regroup<T>(a: seq<T>, b: seq<T>, c: seq<T>)
    ensures (a + b) + c == a + (b + c)
  {
  }

  /** What the taker has of the first level and behind it, apart. */
  lemma {:induction false} LevelApart(side: OrderSide, levels: seq<LevelState>, taker: OrderState)
    requires GoodSide(side, levels) && levels != []
    ensures var behind, deeper := Behind(levels[0].orders, taker), PriorityList(levels[1..], taker);
      && InRangeAll(behind) && InRangeAll(deeper) && InRangeAll(OpenList(levels[1..], taker))
      && Depth(behind) >= 0.0 && (Hides(levels[0].orders, taker) <==> Depth(behind) > 0.0)
      && forall o :: o in behind ==> o !in deeper
  {
    assert levels[0] in levels && GoodLevel(side, levels[0]);
    assert forall l :: l in levels[1..] ==> l in levels;
    GoodIsRough(side, levels);
    QueueInRange(levels[1..], taker);
    OpenInRange(levels[1..], taker);
    HidesIff(levels[0].orders, taker);
    BehindMembers(levels[0].orders, taker);
    forall o | o in Behind(levels[0].orders, taker) ensures o !in PriorityList(levels[1..], taker) {
      NotDeeper(side, levels, taker, o);
    }
  }

  /** What is in reach is shared out as all open orders would be. */
  predicate Agrees(levels: seq<LevelState>, taker: OrderState, want: Decimal) {
    SharedAlike(PriorityList(levels, taker), OpenList(levels, taker), want)
  }

  lemma {:induction false} AgreesHead(side: OrderSide, levels: seq<LevelState>, taker: OrderState, want: Decimal)
    requires GoodSide(side, levels) && levels != [] && Crosses(taker, levels[0].price)
    ensures var reach := Depth(Reach(levels[0].orders, taker));
      Agrees(levels, taker, want)
      <==> !(Hides(levels[0].orders, taker) && reach < want) && Agrees(levels[1..], taker, want - reach)
  {
    OpenListSplits(levels, taker);
    LevelApart(side, levels, taker);
    InsertedIff(Reach(levels[0].orders, taker), PriorityList(levels[1..], taker),
                Behind(levels[0].orders, taker), OpenList(levels[1..], taker), want);
  }

  lemma {:induction false} AgreesIff(side: OrderSide, levels: seq<LevelState>, taker: OrderState, want: Decimal)
    requires GoodSide(side, levels)
    ensures Agrees(levels, taker, want) <==> !PassesOver(levels, taker, want)
  {
    if levels != [] && Crosses(taker, levels[0].price) {
      assert forall l :: l in levels[1..] ==> l in levels;
      AgreesHead(side, levels, taker, want);
      AgreesIff(side, levels[1..], taker, want - Depth(Reach(levels[0].orders, taker)));
    }
  }

  /** Price-time priority: a market order trades with exactly those it should, in order and quantity, if and
      only if it passes over no order hidden on its way. */
  lemma {:induction false} MarketIsPriceTimeIff(book: BookState, taker: OrderState)
    requires WellFormed(book) && taker.InRange()
    ensures var levels := book.Opposite(taker.side);
      Matches(MarketResult(book, taker).fills) == Shares(OpenList(levels, taker), taker.Remaining(), 0)
      <==> !PassesOver(levels, taker, taker.Remaining())
  {
    MarketIsGreedy(book, taker);
    AgreesIff(Other(taker.side), book.Opposite(taker.side), taker, taker.Remaining());
  }

  // ---------- nothing in reach is left ----------

  lemma {:induction false} LevelExhausted(orders: seq<OrderState>, who: OrderState, taker: OrderState)
    requires InRangeAll(orders) && taker.InRange() && taker.Remaining() > 0.0 && SameTaker(who, taker)
    requires Depth(Reach(orders, who)) < taker.Remaining()
    ensures Depth(Reach(SweepLevel(orders, taker).orders, who)) == 0.0
  {
    if orders != [] && !Bars(orders[0], taker) {
      var share, tail := orders[0].Remaining(), Reach(orders[1..], who);
      assert orders[0].InRange() && ([orders[0]] + tail)[1..] == tail;
      TailDepth(orders[1..], who);
      SweptHead(orders, taker);
      var next := if share == 0.0 then taker else Fill(orders[0], taker, share).TakerAfter();
      LevelExhausted(orders[1..], who, next);
      var rest := SweepLevel(orders[1..], next).orders;
      assert ([orders[0]] + rest)[1..] == rest && [] + rest == rest;
      assert ([orders[0]] + Reach(rest, who))[1..] == Reach(rest, who);
    }
  }

  lemma {:induction false} SideExhausted(levels: seq<LevelState>, who: OrderState, taker: OrderState)
    requires forall l :: l in levels ==> InRangeAll(l.orders)
    requires taker.InRange() && taker.Remaining() > 0.0 && SameTaker(who, taker)
    requires Depth(PriorityList(levels, who)) < taker.Remaining()
    ensures Depth(PriorityList(SweepSide(levels, taker).levels, who)) == 0.0
  {
    if levels != [] && Crosses(taker, levels[0].price) {
      var orders := levels[0].orders;
      var s := SweepLevel(orders, taker);
      assert InRangeAll(orders) && forall l :: l in levels[1..] ==> l in levels;
      DepthConcat(Reach(orders, who), PriorityList(levels[1..], who));
      QueueInRange(levels[1..], who);
      LevelExhausted(orders, who, taker);
      LevelTraded(orders, who, taker);
      SweepLevelTaker(orders, taker);
      SideExhausted(levels[1..], who, s.taker);
      LeftList(levels[0].(orders := s.orders), SweepSide(levels[1..], s.taker).levels, who);
    }
  }

  lemma {:induction false} LeftList(level: LevelState, rest: seq<LevelState>, who: OrderState)
    ensures Depth(PriorityList([level] + rest, who))
         == if Crosses(who, level.price) then Depth(Reach(level.orders, who)) + Depth(PriorityList(rest, who)) else 0.0
  {
    assert ([level] + rest)[1..] == rest;
    DepthConcat(Reach(level.orders, who), PriorityList(rest, who));
  }

  lemma {:induction false} DropEmptyList(side: OrderSide, levels: seq<LevelState>, taker: OrderState)
    requires Sorted(side, levels) && side == Other(taker.side)
    ensures PriorityList(DropEmpty(levels), taker) == PriorityList(levels, taker)
  {
    if levels != [] {
      DropEmptyList(side, levels[1..], taker);
      var rest := DropEmpty(levels[1..]);
      if levels[0].orders != [] {
        assert ([levels[0]] + rest)[1..] == rest;
      } else if !Crosses(taker, levels[0].price) && rest != [] {
        DropEmptyMembers(levels[1..], rest[0]);
        var k :| 0 <= k < |levels[1..]| && levels[1..][k] == rest[0];
        assert levels[k + 1] == rest[0];
      }
    }
  }

  lemma MarketTakerKept(book: BookState, taker: OrderState)
    requires WellFormed(book) && taker.InRange()
    ensures MarketResult(book, taker).taker.quantity == taker.quantity
  {
    GoodIsRough(Other(taker.side), book.Opposite(taker.side));
    SweepSideConserves(book.Opposite(taker.side), taker);
  }

  /** The swept side, drained levels dropped, has nothing in reach unless the taker has what it wants. */
  lemma {:induction false} SweptIsExhausted(side: OrderSide, levels: seq<LevelState>, taker: OrderState)
    requires GoodSide(side, levels) && side == Other(taker.side) && taker.InRange()
    requires Depth(PriorityList(levels, taker)) < taker.Remaining()
    ensures Depth(PriorityList(DropEmpty(SweepSide(levels, taker).levels), taker)) == 0.0
  {
    GoodIsRough(side, levels);
    QueueInRange(levels, taker);
    SweepSideLevels(side, levels, taker);
    SideExhausted(levels, taker, taker);
    DropEmptyList(side, SweepSide(levels, taker).levels, taker);
  }

  lemma {:induction false} ReachListed(side: OrderSide, levels: seq<LevelState>, taker: OrderState, l: LevelState,
                                       o: OrderState)
    requires Sorted(side, levels) && side == Other(taker.side)
    requires l in levels && Crosses(taker, l.price) && o in Reach(l.orders, taker)
    ensures o in PriorityList(levels, taker)
  {
    if l != levels[0] {
      var k :| 0 <= k < |levels[1..]| && levels[1..][k] == l;
      assert levels[k + 1] == l;
      ReachListed(side, levels[1..], taker, l, o);
    }
  }

  /** A market order leaves nothing within its reach: it has what it wants, or on every acceptable level
      nothing is left in the orders before the first that bars it. */
  lemma {:induction false} MarketIsMaximal(book: BookState, taker: OrderState)
    requires WellFormed(book) && taker.InRange()
    ensures var r := MarketResult(book, taker);
      || r.taker.Remaining() == 0.0
      || forall l, o :: l in r.book.Opposite(taker.side) && Crosses(taker, l.price) && o in Reach(l.orders, taker) ==>
           o.Remaining() == 0.0
  {
    var side, levels := Other(taker.side), book.Opposite(taker.side);
    MarketIsGreedy(book, taker);
    MarketTakerKept(book, taker);
    if Depth(PriorityList(levels, taker)) < taker.Remaining() {
      var left := DropEmpty(SweepSide(levels, taker).levels);
      SweptIsExhausted(side, levels, taker);
      SweptSideGood(side, levels, taker);
      GoodIsRough(side, left);
      QueueInRange(left, taker);
      DepthZeroIff(PriorityList(left, taker));
      forall l, o | l in left && Crosses(taker, l.price) && o in Reach(l.orders, taker) ensures o.Remaining() == 0.0 {
        ReachListed(side, left, taker, l, o);
        assert o in PriorityList(left, taker) && o.InRange();
      }
    }
  }
}
