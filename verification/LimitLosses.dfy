/** What a limit order costs the book: how many orders leave it, whether quantity is lost with them, and
    whether spent orders stay behind. Every condition can be read off the best level beforehand. */
module LimitLosses {
  import opened Orders
  import opened Events
  import opened Books
  import opened Market
  import opened Limit
  import opened LimitLaws
  import opened LimitPromises
  import opened LimitTheorems

  /** How many orders from position `k` on the taker can fill. */
  function FillableFrom(orders: seq<OrderState>, taker: OrderState, k: nat): nat
    requires k <= |orders|
    decreases |orders| - k
  {
    if k == |orders| then 0
    else (if Fillable(orders, taker, k) then 1 else 0) + FillableFrom(orders, taker, k + 1)
  }

  lemma {:induction false} FilledAreFillable(orders: seq<OrderState>, taker: OrderState, k: nat)
    requires InRangeAll(orders) && taker.InRange() && k <= |orders|
    ensures |FilledIDs(orders[k..], FillLevel(orders, taker).orders[k..])| == FillableFrom(orders, taker, k)
    decreases |orders| - k
  {
    if k < |orders| {
      var after := FillLevel(orders, taker).orders;
      FilledIff(orders, taker, taker, k);
      FilledAreFillable(orders, taker, k + 1);
      assert orders[k..][1..] == orders[k + 1..] && after[k..][1..] == after[k + 1..];
    }
  }

  /** As many orders are popped as the taker can fill. */
  lemma {:induction false} PopsAreFillable(orders: seq<OrderState>, taker: OrderState)
    requires InRangeAll(orders) && taker.InRange()
    ensures FillLevel(orders, taker).pops == FillableFrom(orders, taker, 0)
  {
    var after := FillLevel(orders, taker).orders;
    FilledTwoWays(orders, taker);
    FilledAreFillable(orders, taker, 0);
    assert orders[0..] == orders && after[0..] == after;
  }

  /** A popped order that is not the taker's own has nothing left. */
  lemma {:induction false} PoppedIsOwnOrSpent(orders: seq<OrderState>, taker: OrderState, i: nat)
    requires InRangeAll(orders) && taker.InRange() && i < FillLevel(orders, taker).pops
    ensures orders[i].userID == taker.userID || FillLevel(orders, taker).orders[i].Remaining() == 0.0
  {
    FillInRange(orders[0], taker);
    var fill := Fill(orders[0], taker, Min(orders[0].Remaining(), taker.Remaining()));
    if taker.Remaining() == 0.0 {
      IdleFill(orders, taker);
    } else if i > 0 {
      if orders[0].userID == taker.userID || fill.qty == 0.0 {
        PoppedIsOwnOrSpent(orders[1..], taker, i - 1);
      } else if !fill.TakerFilled() {
        PoppedIsOwnOrSpent(orders[1..], fill.TakerAfter(), i - 1);
      }
    }
  }

  /** One of the taker's own live orders stands so near the front that the pops for the orders behind it
      reach it: at a position below the number of orders the taker can fill. */
  predicate DropsOwn(orders: seq<OrderState>, taker: OrderState) {
    exists i :: 0 <= i < |orders| && i < FillableFrom(orders, taker, 0)
             && orders[i].userID == taker.userID && orders[i].Remaining() > 0.0
  }

  /** Quantity is popped unspent exactly then. */
  lemma {:induction false} PoppedDepthIff(orders: seq<OrderState>, taker: OrderState)
    requires InRangeAll(orders) && taker.InRange()
    ensures var s := FillLevel(orders, taker); Depth(s.orders[..s.pops]) == 0.0 <==> !DropsOwn(orders, taker)
  {
    var s := FillLevel(orders, taker);
    var popped := s.orders[..s.pops];
    PopsAreFillable(orders, taker);
    FillLevelOrders(orders, taker);
    ZeroDepthIff(popped);
    if DropsOwn(orders, taker) {
      var i :| 0 <= i < |orders| && i < s.pops && orders[i].userID == taker.userID && orders[i].Remaining() > 0.0;
      assert popped[i] == orders[i] && popped[i] in popped;
    } else {
      forall o | o in popped ensures o.Remaining() == 0.0 {
        var i :| 0 <= i < s.pops && popped[i] == o;
        PoppedIsOwnOrSpent(orders, taker, i);
        assert orders[i] in orders;
      }
    }
  }

  lemma {:induction false} ZeroDepthIff(orders: seq<OrderState>)
    requires InRangeAll(orders)
    ensures Depth(orders) >= 0.0
    ensures Depth(orders) == 0.0 <==> forall o :: o in orders ==> o.Remaining() == 0.0
  {
    if orders != [] {
      ZeroDepthIff(orders[1..]);
      assert orders == [orders[0]] + orders[1..];
      assert orders[0].InRange();
    }
  }

  /** What the opposite side loses. */
  function Lost(book: BookState, taker: OrderState): Decimal {
    SideDepth(book.Opposite(taker.side)) - SideDepth(LimitResult(book, taker).book.Opposite(taker.side))
  }

  /** On every well-formed book, the opposite side loses exactly the traded quantity if and only if the
      pops do not reach one of the taker's own live orders; otherwise it loses more. */
  lemma LimitConservesIff(book: BookState, taker: OrderState)
    requires WellFormed(book) && taker.InRange()
    ensures Lost(book, taker) >= Traded(LimitResult(book, taker).fills)
    ensures Lost(book, taker) == Traded(LimitResult(book, taker).fills)
       <==> !(Meets(book, taker) && DropsOwn(book.Opposite(taker.side)[0].orders, taker))
  {
    if Meets(book, taker) {
      var levels := book.Opposite(taker.side);
      BestLevelFacts(book, taker);
      OppositeIDs(levels, taker);
      FillLevelOrders(levels[0].orders, taker);
      PoppedDepthIff(levels[0].orders, taker);
      var s := FillLevel(levels[0].orders, taker);
      ZeroDepthIff(s.orders[..s.pops]);
    }
  }

  /** In particular quantity is conserved whenever no order of the best level is the taker's own. */
  lemma LimitConserves(book: BookState, taker: OrderState)
    requires WellFormed(book) && taker.InRange()
    requires Meets(book, taker) ==> forall o :: o in book.Opposite(taker.side)[0].orders ==> o.userID != taker.userID
    ensures Lost(book, taker) == Traded(LimitResult(book, taker).fills)
         == LimitResult(book, taker).taker.filled - taker.filled
  {
    LimitConservesIff(book, taker);
    if Meets(book, taker) {
      var orders := book.Opposite(taker.side)[0].orders;
      BestLevelFacts(book, taker);
      FillLevelTaker(orders, taker);
      forall i | 0 <= i < |orders| ensures orders[i].userID != taker.userID {
        assert orders[i] in orders;
      }
    }
  }

  /** How many orders leave the opposite side. */
  function Leaving(book: BookState, taker: OrderState): nat {
    if Meets(book, taker) then FillableFrom(book.Opposite(taker.side)[0].orders, taker, 0) else 0
  }

  lemma PoppedCount(book: BookState, taker: OrderState)
    requires WellFormed(book) && taker.InRange()
    ensures |PoppedIDs(book, taker)| == Leaving(book, taker)
  {
    if Meets(book, taker) {
      var orders := book.Opposite(taker.side)[0].orders;
      BestLevelFacts(book, taker);
      PopsAreFillable(orders, taker);
      CardinalIDs(orders[..FillLevel(orders, taker).pops]);
    }
  }

  lemma SameCount(after: multiset<ID>, popped: multiset<ID>, before: multiset<ID>, rested: multiset<ID>)
    requires after + popped == before + rested
    ensures |after| + |popped| == |before| + |rested|
  {
    assert |after + popped| == |after| + |popped| && |before + rested| == |before| + |rested|;
  }

  /** The number of resting orders after any limit order, so when it grows: a taker rests for whom nothing left. */
  lemma LimitCounts(book: BookState, taker: OrderState)
    requires WellFormed(book) && taker.InRange()
    ensures |BookIDs(LimitResult(book, taker).book)| + Leaving(book, taker)
         == |BookIDs(book)| + if Rests(book, taker) then 1 else 0
  {
    var rested := if Rests(book, taker) then multiset{taker.id} else multiset{};
    LimitIDs(book, taker);
    PoppedCount(book, taker);
    SameCount(BookIDs(LimitResult(book, taker).book), PoppedIDs(book, taker), BookIDs(book), rested);
  }

  // ---------- spent orders ----------

  /** No order that rests is spent. */
  predicate LiveBook(book: BookState) {
    LiveSide(book.bids) && LiveSide(book.asks)
  }

  lemma {:induction false} AllFillable(orders: seq<OrderState>, taker: OrderState, k: nat, n: nat)
    requires k <= n <= |orders| && forall i :: k <= i < n ==> Fillable(orders, taker, i)
    ensures FillableFrom(orders, taker, k) >= n - k
    decreases n - k
  {
    if k < n {
      AllFillable(orders, taker, k + 1, n);
    }
  }

  /** If only positions below `n` are fillable, and not all of those, there are fewer than `n`. */
  lemma {:induction false} FewFillable(orders: seq<OrderState>, taker: OrderState, k: nat, n: nat)
    requires k <= n <= |orders| && forall i :: n <= i < |orders| ==> !Fillable(orders, taker, i)
    ensures FillableFrom(orders, taker, k) <= n - k
    ensures (exists i :: k <= i < n && !Fillable(orders, taker, i)) ==> FillableFrom(orders, taker, k) < n - k
    decreases |orders| - k
  {
    if k < n {
      FewFillable(orders, taker, k + 1, n);
    } else if k < |orders| {
      FewFillable(orders, taker, k + 1, n + 1);
    }
  }

  /** On a live level, the orders not popped are live exactly if no wrong one was popped. */
  lemma {:induction false} LeftAreLiveIff(orders: seq<OrderState>, taker: OrderState)
    requires InRangeAll(orders) && AllLive(orders) && taker.InRange()
    ensures var s := FillLevel(orders, taker); AllLive(s.orders[s.pops..]) <==> !Overreaches(orders, taker)
  {
    var s := FillLevel(orders, taker);
    var left := s.orders[s.pops..];
    PopsAreFillable(orders, taker);
    FillLevelOrders(orders, taker);
    forall j | 0 <= j < |orders| ensures s.orders[j].Remaining() == 0.0 <==> Fillable(orders, taker, j) {
      FilledIff(orders, taker, taker, j);
      assert orders[j] in orders;
    }
    if Overreaches(orders, taker) {
      if AllLive(left) {
        forall j | s.pops <= j < |orders| ensures !Fillable(orders, taker, j) {
          assert left[j - s.pops] in left;
        }
        FewFillable(orders, taker, 0, s.pops);
      }
    } else {
      forall o | o in left ensures o.Remaining() > 0.0 {
        var q :| 0 <= q < |left| && left[q] == o;
        LiveBehindPops(orders, taker, s.pops + q);
      }
    }
  }

  /** Without an overreach no order behind the pops is fillable. */
  lemma {:induction false} LiveBehindPops(orders: seq<OrderState>, taker: OrderState, j: nat)
    requires InRangeAll(orders) && taker.InRange() && !Overreaches(orders, taker)
    requires FillLevel(orders, taker).pops <= j < |orders|
    ensures !Fillable(orders, taker, j)
  {
    if Fillable(orders, taker, j) {
      forall i | 0 <= i < j + 1 ensures Fillable(orders, taker, i) {
        TradableMonotone(orders, taker, i + 1, j + 1);
      }
      AllFillable(orders, taker, 0, j + 1);
      PopsAreFillable(orders, taker);
      assert false;
    }
  }

  lemma {:induction false} PlaceLiveIff(side: OrderSide, levels: seq<LevelState>, o: OrderState)
    ensures LiveSide(Place(side, levels, o)) <==> LiveSide(levels) && o.Remaining() > 0.0
  {
    var after := Place(side, levels, o);
    if levels == [] || Better(side, o.price, levels[0].price) {
      LiveHead(LevelState(o.price, [o]), levels);
    } else if levels[0].price == o.price {
      LiveHead(levels[0], levels[1..]);
      LiveHead(LevelState(o.price, levels[0].orders + [o]), levels[1..]);
      assert levels == [levels[0]] + levels[1..];
      LiveLast(levels[0].orders, o);
    } else {
      PlaceLiveIff(side, levels[1..], o);
      LiveHead(levels[0], levels[1..]);
      LiveHead(levels[0], Place(side, levels[1..], o));
      assert levels == [levels[0]] + levels[1..];
    }
  }

  lemma LiveHead(level: LevelState, rest: seq<LevelState>)
    ensures LiveSide([level] + rest) <==> AllLive(level.orders) && LiveSide(rest)
  {
    var all := [level] + rest;
    assert all[0] in all && forall l :: l in rest ==> l in all;
  }

  lemma LiveLast(orders: seq<OrderState>, o: OrderState)
    ensures AllLive(orders + [o]) <==> AllLive(orders) && o.Remaining() > 0.0
  {
    var all := orders + [o];
    assert all[|orders|] in all && forall x :: x in orders ==> x in all;
  }

  lemma OppositeLiveIff(book: BookState, taker: OrderState)
    requires WellFormed(book) && taker.InRange() && LiveSide(book.Opposite(taker.side))
    ensures LiveSide(LimitResult(book, taker).book.Opposite(taker.side)) <==> !TakesWrongOrder(book, taker)
  {
    if Meets(book, taker) {
      var levels := book.Opposite(taker.side);
      var s := FillLevel(levels[0].orders, taker);
      BestLevelFacts(book, taker);
      assert levels == [levels[0]] + levels[1..];
      LiveHead(levels[0], levels[1..]);
      LeftAreLiveIff(levels[0].orders, taker);
      LiveHead(levels[0].(orders := s.orders[s.pops..]), levels[1..]);
    }
  }

  /** The call leaves a spent order in the book: it takes a wrong order off it and leaves the filled one,
      or it rests a taker with nothing left. */
  ghost predicate Spoils(book: BookState, taker: OrderState) {
    TakesWrongOrder(book, taker) || (Rests(book, taker) && taker.Remaining() == 0.0)
  }

  lemma RestsLive(book: BookState, taker: OrderState)
    requires WellFormed(book) && taker.InRange() && Rests(book, taker)
    ensures LimitResult(book, taker).taker.Remaining() > 0.0 <==> taker.Remaining() > 0.0
  {
    var orders := book.Opposite(taker.side)[0].orders;
    BestLevelFacts(book, taker);
    FillLevelTaker(orders, taker);
    if taker.Remaining() == 0.0 {
      IdleFill(orders, taker);
    } else {
      FillLevelTraded(orders, taker, taker);
    }
  }

  /** A live book stays live under a limit order if and only if the order does not spoil it. */
  lemma LimitKeepsLiveIff(book: BookState, taker: OrderState)
    requires WellFormed(book) && taker.InRange() && LiveBook(book)
    ensures LiveBook(LimitResult(book, taker).book) <==> !Spoils(book, taker)
  {
    OppositeLiveIff(book, taker);
    LimitRestsIff(book, taker);
    PlaceLiveIff(taker.side, book.Own(taker.side), LimitResult(book, taker).taker);
    if Rests(book, taker) {
      RestsLive(book, taker);
    }
  }
}
