/** What every limit match keeps and conserves, and exactly when it does what is promised of it. */
module LimitLaws {
  import opened Orders
  import opened Events
  import opened Books
  import opened Market
  import opened Greedy
  import opened Limit

  /** Every order after the pass is an old one, or an old one after its only fill. */
  lemma {:induction false} FillLevelOrders(orders: seq<OrderState>, taker: OrderState)
    requires InRangeAll(orders) && taker.InRange()
    ensures var s := FillLevel(orders, taker);
      forall i :: 0 <= i < |orders| ==>
        && s.orders[i] == orders[i].(filled := s.orders[i].filled, status := s.orders[i].status)
        && s.orders[i].InRange()
        && (orders[i].userID == taker.userID ==> s.orders[i] == orders[i])
  {
    if orders != [] {
      FillInRange(orders[0], taker);
      var fill := Fill(orders[0], taker, Min(orders[0].Remaining(), taker.Remaining()));
      var skip := orders[0].userID == taker.userID || fill.qty == 0.0;
      if skip || !fill.TakerFilled() {
        FillLevelOrders(orders[1..], if skip then taker else fill.TakerAfter());
      }
    }
  }

  lemma {:induction false} SameIDs(a: seq<OrderState>, b: seq<OrderState>)
    requires |a| == |b| && forall i :: 0 <= i < |a| ==> a[i].id == b[i].id
    ensures IDs(a) == IDs(b)
  {
    if a != [] {
      SameIDs(a[1..], b[1..]);
    }
  }

  /** The taker only gains fill; it is done exactly when it has nothing left, and partial once it has traded. */
  lemma {:induction false} FillLevelTaker(orders: seq<OrderState>, taker: OrderState)
    requires InRangeAll(orders) && taker.InRange()
    ensures var s := FillLevel(orders, taker);
      && s.taker.InRange()
      && s.taker == taker.(filled := s.taker.filled, status := s.taker.status)
      && Traded(s.fills) == s.taker.filled - taker.filled >= 0.0
      && Traded(s.fills) == Depth(orders) - Depth(s.orders)
      && (s.done ==> s.taker.Remaining() == 0.0 && s.fills != [])
      && (!s.done ==> (taker.Remaining() > 0.0 ==> s.taker.Remaining() > 0.0) && s.pops == |s.fills|)
      && (!s.done ==> s.taker.status == if s.fills == [] then taker.status else Partial)
  {
    if orders != [] {
      FillInRange(orders[0], taker);
      var fill := Fill(orders[0], taker, Min(orders[0].Remaining(), taker.Remaining()));
      if orders[0].userID == taker.userID || fill.qty == 0.0 {
        FillLevelTaker(orders[1..], taker);
        assert ([orders[0]] + FillLevel(orders[1..], taker).orders)[1..] == FillLevel(orders[1..], taker).orders;
      } else if fill.TakerFilled() {
        assert Traded([fill]) == fill.qty + Traded([]);
        assert ([fill.MakerAfter()] + orders[1..])[1..] == orders[1..];
      } else {
        FillLevelTaker(orders[1..], fill.TakerAfter());
        var rest := FillLevel(orders[1..], fill.TakerAfter());
        assert ([fill] + rest.fills)[1..] == rest.fills;
        assert ([fill.MakerAfter()] + rest.orders)[1..] == rest.orders;
      }
    }
  }

  // ---------- which makers trade, and how much ----------

  /** An order the pass steps over: the taker's own, or one with nothing left. */
  predicate Skipped(o: OrderState, taker: OrderState) {
    o.userID == taker.userID || o.Remaining() == 0.0
  }

  /** What the taker may trade with at a level. */
  function Tradable(orders: seq<OrderState>, taker: OrderState): seq<OrderState> {
    if orders == [] then []
    else if Skipped(orders[0], taker) then Tradable(orders[1..], taker)
    else [orders[0]] + Tradable(orders[1..], taker)
  }

  lemma {:induction false} TradableInRange(orders: seq<OrderState>, taker: OrderState)
    requires InRangeAll(orders)
    ensures InRangeAll(Tradable(orders, taker)) && Depth(Tradable(orders, taker)) >= 0.0
    ensures |Tradable(orders, taker)| <= |orders|
    ensures Depth(Tradable(orders, taker)) == 0.0 <==> Tradable(orders, taker) == []
  {
    if orders != [] {
      TradableInRange(orders[1..], taker);
      assert orders[0].InRange();
      if !Skipped(orders[0], taker) {
        assert Tradable(orders, taker)[1..] == Tradable(orders[1..], taker);
      }
    }
  }

  /** The taker gets the lesser of what it wants and what is tradable at the best level. */
  lemma {:induction false} FillLevelTraded(orders: seq<OrderState>, who: OrderState, taker: OrderState)
    requires InRangeAll(orders) && taker.InRange() && taker.Remaining() > 0.0 && SameTaker(who, taker)
    ensures var s := FillLevel(orders, taker);
      && Traded(s.fills) == Min(taker.Remaining(), Depth(Tradable(orders, who)))
      && (s.done <==> Depth(Tradable(orders, who)) >= taker.Remaining())
      && (!s.done ==> s.pops == |Tradable(orders, who)|)
  {
    if orders != [] {
      FillInRange(orders[0], taker);
      TradableInRange(orders[1..], who);
      var fill := Fill(orders[0], taker, Min(orders[0].Remaining(), taker.Remaining()));
      if Skipped(orders[0], who) {
        FillLevelTraded(orders[1..], who, taker);
      } else {
        assert Tradable(orders, who)[1..] == Tradable(orders[1..], who);
        if fill.TakerFilled() {
          assert Traded([fill]) == fill.qty + Traded([]);
        } else {
          FillLevelTraded(orders[1..], who, fill.TakerAfter());
          var rest := FillLevel(orders[1..], fill.TakerAfter());
          assert ([fill] + rest.fills)[1..] == rest.fills;
        }
      }
    }
  }

  lemma {:induction false} FillLevelHead(orders: seq<OrderState>, taker: OrderState)
    requires orders != [] && !Skipped(orders[0], taker)
    requires orders[0].InRange() && taker.InRange() && taker.Remaining() > 0.0
    ensures var maker := orders[0];
      var fill := Fill(maker, taker, Min(maker.Remaining(), taker.Remaining()));
      Matches(FillLevel(orders, taker).fills) ==
        if fill.TakerFilled() then [(maker, fill.qty)]
        else [(maker, fill.qty)] + Matches(FillLevel(orders[1..], fill.TakerAfter()).fills)
  {
    var maker := orders[0];
    var fill := Fill(maker, taker, Min(maker.Remaining(), taker.Remaining()));
    assert Matches([fill]) == [(maker, fill.qty)];
    if !fill.TakerFilled() {
      MatchesConcat([fill], FillLevel(orders[1..], fill.TakerAfter()).fills);
    }
  }

  /** Even with orders stepped over, the matches are the greedy shares of the tradable queue. */
  lemma {:induction false} FillLevelMatches(orders: seq<OrderState>, who: OrderState, taker: OrderState)
    requires InRangeAll(orders) && taker.InRange() && taker.Remaining() > 0.0 && SameTaker(who, taker)
    ensures Matches(FillLevel(orders, taker).fills) == Shares(Tradable(orders, who), taker.Remaining(), 0)
  {
    if orders != [] {
      var maker := orders[0];
      var tail := Tradable(orders[1..], who);
      if Skipped(maker, who) {
        FillLevelMatches(orders[1..], who, taker);
      } else {
        var fill := Fill(maker, taker, Min(maker.Remaining(), taker.Remaining()));
        FillLevelHead(orders, taker);
        SharesHead(maker, tail, taker.Remaining());
        FillInRange(maker, taker);
        if fill.TakerFilled() {
          TradableInRange(orders[1..], who);
          NoBudget(tail, |tail|, taker.Remaining() - maker.Remaining(), 0);
        } else {
          FillLevelMatches(orders[1..], who, fill.TakerAfter());
        }
      }
    }
  }

  // ---------- which orders leave the level ----------

  /** The order came in with something left and goes out with nothing. */
  predicate FilledNow(before: OrderState, after: OrderState) {
    before.Remaining() > 0.0 && after.Remaining() == 0.0
  }

  lemma {:induction false} TradablePrefix(orders: seq<OrderState>, taker: OrderState, j: nat)
    requires j < |orders| && InRangeAll(orders)
    ensures Depth(Tradable(orders[..j + 1], taker))
         == Depth(Tradable(orders[..j], taker)) + if Skipped(orders[j], taker) then 0.0 else orders[j].Remaining()
  {
    if j == 0 {
      assert orders[..1][1..] == [];
      assert orders[..0] == [];
      if !Skipped(orders[0], taker) {
        assert Tradable(orders[..1], taker) == [orders[0]];
        assert Depth([orders[0]]) == orders[0].Remaining() + Depth([]);
      }
    } else {
      TradablePrefix(orders[1..], taker, j - 1);
      assert orders[..j + 1][1..] == orders[1..][..j];
      assert orders[..j][1..] == orders[1..][..j - 1];
      TradableSplit(orders[..j + 1], taker);
      TradableSplit(orders[..j], taker);
    }
  }

  lemma {:induction false} TradableSplit(orders: seq<OrderState>, taker: OrderState)
    requires orders != []
    ensures Depth(Tradable(orders, taker))
         == (if Skipped(orders[0], taker) then 0.0 else orders[0].Remaining()) + Depth(Tradable(orders[1..], taker))
  {
    if !Skipped(orders[0], taker) {
      assert Tradable(orders, taker)[1..] == Tradable(orders[1..], taker);
    }
  }

  /** The pass over a queue, read off the pass over all but its first order. */
  lemma {:induction false} FillLevelBehind(orders: seq<OrderState>, taker: OrderState, j: nat)
    requires 0 < j < |orders|
    ensures var fill := Fill(orders[0], taker, Min(orders[0].Remaining(), taker.Remaining()));
      FillLevel(orders, taker).orders[j]
        == if orders[0].userID == taker.userID || fill.qty == 0.0 then FillLevel(orders[1..], taker).orders[j - 1]
           else if fill.TakerFilled() then orders[j]
           else FillLevel(orders[1..], fill.TakerAfter()).orders[j - 1]
  {
  }

  /** The tradable depth up to an order, without the first and with it. */
  lemma {:induction false} DepthBehind(orders: seq<OrderState>, who: OrderState, j: nat)
    requires 0 < j < |orders| && InRangeAll(orders)
    ensures var first := if Skipped(orders[0], who) then 0.0 else orders[0].Remaining();
      && Depth(Tradable(orders[..j + 1], who)) == first + Depth(Tradable(orders[1..][..j], who))
      && Depth(Tradable(orders[1..][..j], who))
           >= if Skipped(orders[j], who) then 0.0 else orders[j].Remaining()
  {
    TradableSplit(orders[..j + 1], who);
    assert orders[..j + 1][1..] == orders[1..][..j];
    TradablePrefix(orders[1..], who, j - 1);
    SubRange(orders[1..], j - 1);
    TradableInRange(orders[1..][..j - 1], who);
  }

  lemma {:induction false} HeadFilledIff(orders: seq<OrderState>, who: OrderState, taker: OrderState)
    requires orders != [] && orders[0].InRange() && taker.InRange() && SameTaker(who, taker)
    ensures FilledNow(orders[0], FillLevel(orders, taker).orders[0])
       <==> !Skipped(orders[0], who) && Depth(Tradable(orders[..1], who)) <= taker.Remaining()
  {
    FillInRange(orders[0], taker);
    TradableSplit(orders[..1], who);
    assert orders[..1][1..] == [];
  }

  /** An order is filled by the call exactly when the tradable depth up to and including it fits the taker. */
  lemma {:induction false} FilledIff(orders: seq<OrderState>, who: OrderState, taker: OrderState, j: nat)
    requires InRangeAll(orders) && taker.InRange() && SameTaker(who, taker) && j < |orders|
    ensures FilledNow(orders[j], FillLevel(orders, taker).orders[j])
       <==> !Skipped(orders[j], who) && Depth(Tradable(orders[..j + 1], who)) <= taker.Remaining()
  {
    if j == 0 {
      HeadFilledIff(orders, who, taker);
    } else {
      var fill := Fill(orders[0], taker, Min(orders[0].Remaining(), taker.Remaining()));
      assert orders[j].InRange();
      FillInRange(orders[0], taker);
      DepthBehind(orders, who, j);
      FillLevelBehind(orders, taker, j);
      if Skipped(orders[0], who) || fill.qty == 0.0 {
        FilledIff(orders[1..], who, taker, j - 1);
      } else if !fill.TakerFilled() {
        FilledIff(orders[1..], who, fill.TakerAfter(), j - 1);
      }
    }
  }

  lemma SubRange(orders: seq<OrderState>, k: nat)
    requires k <= |orders| && InRangeAll(orders)
    ensures InRangeAll(orders[..k])
  {
    forall o | o in orders[..k] ensures o in orders {}
  }
}
