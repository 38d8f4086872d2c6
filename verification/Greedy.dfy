/** The reference a market order is measured against: price-time priority by cumulative depth.
    Each order's share is computed on its own, from the depth queued ahead of it; there is no running state. */
module Greedy {
  import opened Orders
  import opened Events
  import opened Books
  import opened Market
  import opened MarketLaws

  /** An order that ends a level's turn: the taker's own by the side's test, or, for a buyer, a spent one. */
  predicate Bars(o: OrderState, taker: OrderState) {
    SkipsLevel(o, taker) || (taker.side == Buy && o.Remaining() == 0.0)
  }

  /** The orders of a level the taker may reach: all before the first that bars it. */
  function Reach(orders: seq<OrderState>, taker: OrderState): seq<OrderState> {
    if orders == [] || Bars(orders[0], taker) then [] else [orders[0]] + Reach(orders[1..], taker)
  }

  /** Everything the taker may trade with, best price first, then queue order. */
  function PriorityList(levels: seq<LevelState>, taker: OrderState): seq<OrderState> {
    if levels == [] || !Crosses(taker, levels[0].price) then []
    else Reach(levels[0].orders, taker) + PriorityList(levels[1..], taker)
  }

  /** What the order at `i` gets of `budget`: what the queue ahead leaves, up to its remaining. */
  function Share(queue: seq<OrderState>, i: nat, budget: Decimal): Decimal
    requires i < |queue|
  {
    Max(0.0, Min(queue[i].Remaining(), budget - Depth(queue[..i])))
  }

  /** The positive shares from position `from` on, with their makers. */
  function Shares(queue: seq<OrderState>, budget: Decimal, from: nat): seq<(OrderState, Decimal)>
    requires from <= |queue|
    decreases |queue| - from
  {
    if from == |queue| then []
    else if Share(queue, from, budget) > 0.0 then
      [(queue[from], Share(queue, from, budget))] + Shares(queue, budget, from + 1)
    else Shares(queue, budget, from + 1)
  }

  /** What an order leaves in the queue once it has had its share. */
  function AfterShare(o: OrderState, share: Decimal): seq<OrderState> {
    if share <= 0.0 then [o]
    else if share == o.Remaining() then []
    else [o.(filled := o.filled + share, status := Partial)]
  }

  /** The level from position `from` on, once the first `reach` orders have had their shares. */
  function Leftover(orders: seq<OrderState>, reach: nat, budget: Decimal, from: nat): seq<OrderState>
    requires reach <= |orders| && from <= |orders|
    decreases |orders| - from
  {
    if from == |orders| then []
    else (if from < reach then AfterShare(orders[from], Share(orders, from, budget)) else [orders[from]])
         + Leftover(orders, reach, budget, from + 1)
  }

  /** Every level after the shares; a level's budget is what the depth ahead of it leaves. */
  function LeftoverSide(levels: seq<LevelState>, taker: OrderState, budget: Decimal): seq<LevelState> {
    if levels == [] || !Crosses(taker, levels[0].price) then levels
    else
      ReachFits(levels[0].orders, taker);
      var reach := Reach(levels[0].orders, taker);
      [levels[0].(orders := Leftover(levels[0].orders, |reach|, budget, 0))]
      + LeftoverSide(levels[1..], taker, budget - Depth(reach))
  }

  function Matches(fills: seq<Fill>): (m: seq<(OrderState, Decimal)>)
    ensures |m| == |fills|
  {
    seq(|fills|, i requires 0 <= i < |fills| => (fills[i].maker, fills[i].qty))
  }

  lemma {:induction false} ReachFits(orders: seq<OrderState>, taker: OrderState)
    ensures Reach(orders, taker) <= orders
  {
    if orders != [] && !Bars(orders[0], taker) {
      ReachFits(orders[1..], taker);
    }
  }

  // ---------- shifting the reference by one order, one queue or one level ----------

  lemma DepthShift(queue: seq<OrderState>, k: nat)
    requires k < |queue|
    ensures Depth(queue[..k + 1]) == queue[0].Remaining() + Depth(queue[1..][..k])
  {
    assert queue[..k + 1][1..] == queue[1..][..k];
  }

  lemma SharesShift(queue: seq<OrderState>, budget: Decimal, k: nat)
    requires k < |queue|
    ensures Shares(queue, budget, k + 1) == Shares(queue[1..], budget - queue[0].Remaining(), k)
    decreases |queue| - k
  {
    if k + 1 < |queue| {
      DepthShift(queue, k);
      SharesShift(queue, budget, k + 1);
    }
  }

  lemma LeftoverShift(orders: seq<OrderState>, reach: nat, budget: Decimal, k: nat)
    requires 0 < reach <= |orders| && k < |orders|
    ensures Leftover(orders, reach, budget, k + 1)
        == Leftover(orders[1..], reach - 1, budget - orders[0].Remaining(), k)
    decreases |orders| - k
  {
    if k + 1 < |orders| {
      DepthShift(orders, k);
      LeftoverShift(orders, reach, budget, k + 1);
    }
  }

  lemma {:induction false} LeftoverOutOfReach(orders: seq<OrderState>, budget: Decimal, k: nat)
    requires k <= |orders|
    ensures Leftover(orders, 0, budget, k) == orders[k..]
    decreases |orders| - k
  {
    if k < |orders| {
      LeftoverOutOfReach(orders, budget, k + 1);
      assert orders[k..] == [orders[k]] + orders[k + 1..];
    }
  }

  lemma PrefixDepth(queue: seq<OrderState>, k: nat)
    requires k <= |queue| && InRangeAll(queue)
    ensures Depth(queue[..k]) >= 0.0
  {
    forall o | o in queue[..k] ensures o.Remaining() >= 0.0 {
      assert o in queue;
    }
    DepthNonNegative(queue[..k]);
  }

  /** With nothing to spend nobody gets a share and every order stays. */
  lemma {:induction false} NoBudget(queue: seq<OrderState>, reach: nat, budget: Decimal, k: nat)
    requires reach <= |queue| && k <= |queue| && InRangeAll(queue) && budget <= 0.0
    ensures Shares(queue, budget, k) == []
    ensures Leftover(queue, reach, budget, k) == queue[k..]
    decreases |queue| - k
  {
    if k < |queue| {
      PrefixDepth(queue, k);
      NoBudget(queue, reach, budget, k + 1);
      assert queue[k..] == [queue[k]] + queue[k + 1..];
    }
  }

  lemma {:induction false} NoBudgetSide(levels: seq<LevelState>, taker: OrderState, budget: Decimal)
    requires (forall l :: l in levels ==> InRangeAll(l.orders)) && budget <= 0.0
    ensures LeftoverSide(levels, taker, budget) == levels
  {
    if levels != [] && Crosses(taker, levels[0].price) {
      ReachFits(levels[0].orders, taker);
      var reach := Reach(levels[0].orders, taker);
      NoBudget(levels[0].orders, |reach|, budget, 0);
      assert levels[0].orders[0..] == levels[0].orders;
      PrefixDepth(levels[0].orders, |reach|);
      assert reach == levels[0].orders[..|reach|];
      NoBudgetSide(levels[1..], taker, budget - Depth(reach));
      assert levels[0].(orders := levels[0].orders) == levels[0];
    }
  }

  lemma {:induction false} SharesConcat(a: seq<OrderState>, b: seq<OrderState>, budget: Decimal, k: nat)
    requires k <= |a|
    ensures Shares(a + b, budget, k) == Shares(a, budget, k) + Shares(b, budget - Depth(a), 0)
    decreases |a| - k
  {
    if k < |a| {
      SharesConcat(a, b, budget, k + 1);
      assert (a + b)[..k] == a[..k];
    } else {
      SharesAfter(a, b, budget, 0);
    }
  }

  lemma {:induction false} ShareAfter(a: seq<OrderState>, b: seq<OrderState>, budget: Decimal, k: nat)
    requires k < |b|
    ensures Share(a + b, |a| + k, budget) == Share(b, k, budget - Depth(a))
  {
    TakeConcat(a, b, k);
    DepthConcat(a, b[..k]);
  }

  lemma TakeConcat<T>(a: seq<T>, b: seq<T>, k: nat)
    requires k < |b|
    ensures (a + b)[..|a| + k] == a + b[..k] && (a + b)[|a| + k] == b[k]
  {
  }

  lemma SharesAfter(a: seq<OrderState>, b: seq<OrderState>, budget: Decimal, k: nat)
    requires k <= |b|
    ensures Shares(a + b, budget, |a| + k) == Shares(b, budget - Depth(a), k)
    decreases |b| - k
  {
    if k < |b| {
      TakeConcat(a, b, k);
      ShareAfter(a, b, budget, k);
      SharesAfter(a, b, budget, k + 1);
    }
  }

  // ---------- the sweep is the reference ----------

  /** `now` is the taker `who` later in the same call. */
  predicate SameTaker(who: OrderState, now: OrderState) {
    now == who.(filled := now.filled, status := now.status)
  }

  /** One level: the taker gets the lesser of what it wants and what is in reach. */
  lemma {:induction false} LevelTraded(orders: seq<OrderState>, who: OrderState, taker: OrderState)
    requires InRangeAll(orders) && taker.InRange() && taker.Remaining() > 0.0 && SameTaker(who, taker)
    ensures var s := SweepLevel(orders, taker);
      && Traded(s.fills) == Min(taker.Remaining(), Depth(Reach(orders, who)))
      && (s.done <==> Depth(Reach(orders, who)) >= taker.Remaining())
  {
    if Reach(orders, who) != [] {
      var fill := Fill(orders[0], taker, Min(orders[0].Remaining(), taker.Remaining()));
      FillInRange(orders[0], taker);
      var tail := Reach(orders[1..], who);
      TailDepth(orders[1..], who);
      assert Reach(orders, who)[1..] == tail;
      if fill.qty != 0.0 && fill.TakerFilled() {
        assert Traded([fill]) == fill.qty + Traded([]);
      } else {
        var next := if fill.qty == 0.0 then taker else fill.TakerAfter();
        LevelTraded(orders[1..], who, next);
        var rest := SweepLevel(orders[1..], next);
        assert ([fill] + rest.fills)[1..] == rest.fills;
      }
    }
  }

  lemma MatchesConcat(a: seq<Fill>, b: seq<Fill>)
    ensures Matches(a + b) == Matches(a) + Matches(b)
  {
  }

  /** The head's share is what one match would give it; the rest share what it leaves. */
  lemma {:induction false} SharesHead(head: OrderState, rest: seq<OrderState>, budget: Decimal)
    requires head.InRange() && budget > 0.0
    ensures var qty := Min(head.Remaining(), budget);
      var others := Shares(rest, budget - head.Remaining(), 0);
      Shares([head] + rest, budget, 0) == if qty > 0.0 then [(head, qty)] + others else others
  {
    var queue := [head] + rest;
    assert queue[1..] == rest;
    assert Depth(queue[..0]) == 0.0;
    SharesShift(queue, budget, 0);
  }

  /** One step of the sweep, read off its matches. */
  lemma {:induction false} SweepLevelHead(orders: seq<OrderState>, taker: OrderState)
    requires orders != [] && !Bars(orders[0], taker)
    requires orders[0].InRange() && taker.InRange() && taker.Remaining() > 0.0
    ensures var maker := orders[0];
      var fill := Fill(maker, taker, Min(maker.Remaining(), taker.Remaining()));
      Matches(SweepLevel(orders, taker).fills) ==
        if fill.qty == 0.0 then Matches(SweepLevel(orders[1..], taker).fills)
        else if fill.TakerFilled() then [(maker, fill.qty)]
        else [(maker, fill.qty)] + Matches(SweepLevel(orders[1..], fill.TakerAfter()).fills)
  {
    var maker := orders[0];
    var fill := Fill(maker, taker, Min(maker.Remaining(), taker.Remaining()));
    assert Matches([fill]) == [(maker, fill.qty)];
    if fill.qty != 0.0 && !fill.TakerFilled() {
      MatchesConcat([fill], SweepLevel(orders[1..], fill.TakerAfter()).fills);
    }
  }

  /** One level: the same matches. */
  lemma {:induction false} LevelMatches(orders: seq<OrderState>, who: OrderState, taker: OrderState)
    requires InRangeAll(orders) && taker.InRange() && taker.Remaining() > 0.0 && SameTaker(who, taker)
    ensures Matches(SweepLevel(orders, taker).fills) == Shares(Reach(orders, who), taker.Remaining(), 0)
  {
    var reach := Reach(orders, who);
    if reach == [] {
      assert SweepLevel(orders, taker).fills == [];
    } else {
      var maker := orders[0];
      var fill := Fill(maker, taker, Min(maker.Remaining(), taker.Remaining()));
      var tail := Reach(orders[1..], who);
      SweepLevelHead(orders, taker);
      SharesHead(maker, tail, taker.Remaining());
      FillInRange(maker, taker);
      if fill.qty == 0.0 {
        LevelMatches(orders[1..], who, taker);
      } else if fill.TakerFilled() {
        NothingLeftToWant(orders[1..], who, taker.Remaining() - maker.Remaining());
      } else {
        LevelMatches(orders[1..], who, fill.TakerAfter());
      }
    }
  }

  /** A taker with nothing left to want has no share in the rest of a level. */
  lemma {:induction false} NothingLeftToWant(orders: seq<OrderState>, who: OrderState, want: Decimal)
    requires InRangeAll(orders) && want <= 0.0
    ensures Shares(Reach(orders, who), want, 0) == []
  {
    var reach := Reach(orders, who);
    TailDepth(orders, who);
    NoBudget(reach, |reach|, want, 0);
  }

  /** An order out of the taker's reach, and all behind it, stays. */
  lemma {:induction false} BarredLeftover(orders: seq<OrderState>, who: OrderState, want: Decimal)
    requires Reach(orders, who) == []
    ensures Leftover(orders, |Reach(orders, who)|, want, 0) == orders
  {
    LeftoverOutOfReach(orders, want, 0);
    assert orders[0..] == orders;
  }

  /** The first order's leftover, and then that of the rest with what the first leaves to want. */
  lemma LeftoverHead(orders: seq<OrderState>, reach: nat, want: Decimal)
    requires 0 < reach <= |orders| && orders[0].InRange() && want > 0.0
    ensures Leftover(orders, reach, want, 0)
         == AfterShare(orders[0], Min(orders[0].Remaining(), want))
            + Leftover(orders[1..], reach - 1, want - orders[0].Remaining(), 0)
  {
    assert Depth(orders[..0]) == 0.0;
    LeftoverShift(orders, reach, want, 0);
  }

  /** The same of the sweep. */
  lemma {:induction false} SweptHead(orders: seq<OrderState>, taker: OrderState)
    requires orders != [] && orders[0].InRange() && taker.InRange() && taker.Remaining() > 0.0
        && !Bars(orders[0], taker)
    ensures var share := Min(orders[0].Remaining(), taker.Remaining());
      var next := if share == 0.0 then taker else Fill(orders[0], taker, share).TakerAfter();
      SweepLevel(orders, taker).orders
        == AfterShare(orders[0], share)
           + if orders[0].Remaining() >= taker.Remaining() then orders[1..] else SweepLevel(orders[1..], next).orders
  {
  }

  /** One level: the same leftovers. */
  lemma {:induction false} LevelLeftover(orders: seq<OrderState>, who: OrderState, taker: OrderState)
    requires InRangeAll(orders) && taker.InRange() && taker.Remaining() > 0.0 && SameTaker(who, taker)
    ensures Reach(orders, who) <= orders
    ensures SweepLevel(orders, taker).orders == Leftover(orders, |Reach(orders, who)|, taker.Remaining(), 0)
  {
    ReachFits(orders, who);
    var reach := Reach(orders, who);
    var want := taker.Remaining();
    if reach == [] {
      BarredLeftover(orders, who, want);
    } else {
      var tail := Reach(orders[1..], who);
      assert orders[0] in orders && |reach| == |tail| + 1;
      ReachFits(orders[1..], who);
      LeftoverHead(orders, |reach|, want);
      SweptHead(orders, taker);
      if orders[0].Remaining() >= want {
        NoBudget(orders[1..], |tail|, want - orders[0].Remaining(), 0);
        assert orders[1..][0..] == orders[1..];
      } else {
        var share := orders[0].Remaining();
        LevelLeftover(orders[1..], who, if share == 0.0 then taker else Fill(orders[0], taker, share).TakerAfter());
      }
    }
  }

  lemma {:induction false} TailDepth(orders: seq<OrderState>, who: OrderState)
    requires InRangeAll(orders)
    ensures Depth(Reach(orders, who)) >= 0.0
    ensures InRangeAll(Reach(orders, who))
  {
    ReachFits(orders, who);
    var reach := Reach(orders, who);
    forall o | o in reach ensures o in orders {}
    PrefixDepth(reach, |reach|);
    assert reach[..|reach|] == reach;
  }

  lemma {:induction false} QueueInRange(levels: seq<LevelState>, who: OrderState)
    requires forall l :: l in levels ==> InRangeAll(l.orders)
    ensures InRangeAll(PriorityList(levels, who))
    ensures Depth(PriorityList(levels, who)) >= 0.0
  {
    if levels != [] && Crosses(who, levels[0].price) {
      TailDepth(levels[0].orders, who);
      QueueInRange(levels[1..], who);
      DepthConcat(Reach(levels[0].orders, who), PriorityList(levels[1..], who));
    }
  }

  /** A whole side: the volume. */
  lemma {:induction false} SideTraded(levels: seq<LevelState>, who: OrderState, taker: OrderState)
    requires (forall l :: l in levels ==> InRangeAll(l.orders))
    requires taker.InRange() && taker.Remaining() > 0.0 && SameTaker(who, taker)
    ensures Traded(SweepSide(levels, taker).fills) == Min(taker.Remaining(), Depth(PriorityList(levels, who)))
  {
    if levels != [] && Crosses(who, levels[0].price) {
      var orders := levels[0].orders;
      LevelTraded(orders, who, taker);
      SweepLevelTaker(orders, taker);
      DepthConcat(Reach(orders, who), PriorityList(levels[1..], who));
      QueueInRange(levels[1..], who);
      var s := SweepLevel(orders, taker);
      if !s.done {
        SideTraded(levels[1..], who, s.taker);
        TradedConcat(s.fills, SweepSide(levels[1..], s.taker).fills);
      }
    }
  }

  /** One level of the sweep, read off its matches. */
  lemma {:induction false} SweepSideHead(levels: seq<LevelState>, taker: OrderState)
    requires levels != [] && Crosses(taker, levels[0].price)
    ensures var s := SweepLevel(levels[0].orders, taker);
      Matches(SweepSide(levels, taker).fills)
        == Matches(s.fills) + if s.done then [] else Matches(SweepSide(levels[1..], s.taker).fills)
  {
    var s := SweepLevel(levels[0].orders, taker);
    MatchesConcat(s.fills, SweepSide(levels[1..], s.taker).fills);
  }

  /** The first level, swept: the shares of its reach, and what the taker still wants behind it. */
  lemma {:induction false} FirstLevelSwept(levels: seq<LevelState>, who: OrderState, taker: OrderState)
    requires levels != [] && InRangeAll(levels[0].orders)
    requires taker.InRange() && taker.Remaining() > 0.0 && SameTaker(who, taker)
    ensures var s, reach := SweepLevel(levels[0].orders, taker), Reach(levels[0].orders, who);
      && Matches(s.fills) == Shares(reach, taker.Remaining(), 0)
      && s.taker.InRange() && SameTaker(who, s.taker)
      && (s.done ==> taker.Remaining() - Depth(reach) <= 0.0)
      && (!s.done ==> s.taker.Remaining() == taker.Remaining() - Depth(reach) > 0.0)
  {
    var orders := levels[0].orders;
    LevelTraded(orders, who, taker);
    LevelMatches(orders, who, taker);
    SweepLevelTaker(orders, taker);
  }

  lemma ListHead(levels: seq<LevelState>, who: OrderState, want: Decimal)
    requires levels != [] && Crosses(who, levels[0].price)
    ensures var reach := Reach(levels[0].orders, who);
      Shares(PriorityList(levels, who), want, 0)
        == Shares(reach, want, 0) + Shares(PriorityList(levels[1..], who), want - Depth(reach), 0)
  {
    SharesConcat(Reach(levels[0].orders, who), PriorityList(levels[1..], who), want, 0);
  }

  /** A whole side: the matches. */
  lemma {:induction false} SideMatches(levels: seq<LevelState>, who: OrderState, taker: OrderState)
    requires forall l :: l in levels ==> InRangeAll(l.orders)
    requires taker.InRange() && taker.Remaining() > 0.0 && SameTaker(who, taker)
    ensures Matches(SweepSide(levels, taker).fills) == Shares(PriorityList(levels, who), taker.Remaining(), 0)
    decreases levels, 1
  {
    if levels != [] && Crosses(who, levels[0].price) {
      var first := Shares(Reach(levels[0].orders, who), taker.Remaining(), 0);
      var behind := BehindMatches(levels, who, taker);
      assert Matches(SweepSide(levels, taker).fills) == first + behind by {
        FirstLevelSwept(levels, who, taker);
        SweepSideHead(levels, taker);
      }
      ListHead(levels, who, taker.Remaining());
    }
  }

  lemma {:induction false} BehindMatches(levels: seq<LevelState>, who: OrderState, taker: OrderState)
      returns (behind: seq<(OrderState, Decimal)>)
    requires levels != [] && Crosses(who, levels[0].price) && forall l :: l in levels ==> InRangeAll(l.orders)
    requires taker.InRange() && taker.Remaining() > 0.0 && SameTaker(who, taker)
    ensures var s := SweepLevel(levels[0].orders, taker);
      && behind == (if s.done then [] else Matches(SweepSide(levels[1..], s.taker).fills))
      && behind == Shares(PriorityList(levels[1..], who), taker.Remaining() - Depth(Reach(levels[0].orders, who)), 0)
    decreases levels, 0
  {
    var s := SweepLevel(levels[0].orders, taker);
    FirstLevelSwept(levels, who, taker);
    if s.done {
      behind := [];
      NothingBehind(levels[1..], who, taker.Remaining() - Depth(Reach(levels[0].orders, who)));
    } else {
      behind := Matches(SweepSide(levels[1..], s.taker).fills);
      SideMatches(levels[1..], who, s.taker);
    }
  }

  /** A taker with nothing left to want has no share in deeper levels. */
  lemma {:induction false} NothingBehind(levels: seq<LevelState>, who: OrderState, want: Decimal)
    requires (forall l :: l in levels ==> InRangeAll(l.orders)) && want <= 0.0
    ensures Shares(PriorityList(levels, who), want, 0) == []
  {
    var queue := PriorityList(levels, who);
    QueueInRange(levels, who);
    NoBudget(queue, |queue|, want, 0);
  }

  /** A whole side, leftovers. */
  lemma {:induction false} SideLeftover(levels: seq<LevelState>, who: OrderState, taker: OrderState)
    requires (forall l :: l in levels ==> InRangeAll(l.orders))
    requires taker.InRange() && taker.Remaining() > 0.0 && SameTaker(who, taker)
    ensures SweepSide(levels, taker).levels == LeftoverSide(levels, who, taker.Remaining())
  {
    if levels != [] && Crosses(who, levels[0].price) {
      var orders := levels[0].orders;
      LevelTraded(orders, who, taker);
      LevelLeftover(orders, who, taker);
      SweepLevelTaker(orders, taker);
      var s := SweepLevel(orders, taker);
      if s.done {
        NoBudgetSide(levels[1..], who, taker.Remaining() - Depth(Reach(orders, who)));
      } else {
        SideLeftover(levels[1..], who, s.taker);
      }
    }
  }

  /** A taker with nothing left to trade moves nothing. */
  lemma {:induction false} IdleLevel(orders: seq<OrderState>, taker: OrderState)
    requires InRangeAll(orders) && taker.InRange() && taker.Remaining() == 0.0
    ensures SweepLevel(orders, taker) == LevelSweep(orders, taker, [], false)
  {
    if orders != [] && !SkipsLevel(orders[0], taker) {
      FillInRange(orders[0], taker);
      IdleLevel(orders[1..], taker);
      assert [orders[0]] + orders[1..] == orders;
    }
  }

  lemma {:induction false} IdleSide(levels: seq<LevelState>, taker: OrderState)
    requires (forall l :: l in levels ==> InRangeAll(l.orders))
    requires taker.InRange() && taker.Remaining() == 0.0
    ensures var s := SweepSide(levels, taker); s.levels == levels && s.fills == [] && s.taker == taker
  {
    if levels != [] && Crosses(taker, levels[0].price) {
      IdleLevel(levels[0].orders, taker);
      IdleSide(levels[1..], taker);
      assert levels[0].(orders := levels[0].orders) == levels[0];
    }
  }

  /** A market order is a greedy fill of the priority list: the same matches in the same order,
      the same total, and the same book left behind. */
  lemma {:induction false} MarketIsGreedy(book: BookState, taker: OrderState)
    requires WellFormed(book) && taker.InRange()
    ensures var levels := book.Opposite(taker.side);
      var queue := PriorityList(levels, taker);
      var r := MarketResult(book, taker);
      && Matches(r.fills) == Shares(queue, taker.Remaining(), 0)
      && r.taker.filled == taker.filled + Min(taker.Remaining(), Depth(queue))
      && r.book.Opposite(taker.side) == DropEmpty(LeftoverSide(levels, taker, taker.Remaining()))
      && r.book.Own(taker.side) == book.Own(taker.side)
  {
    var levels := book.Opposite(taker.side);
    GoodIsRough(Other(taker.side), levels);
    QueueInRange(levels, taker);
    if taker.Remaining() == 0.0 {
      IdleSide(levels, taker);
      NoBudgetSide(levels, taker, 0.0);
      NoBudget(PriorityList(levels, taker), 0, 0.0, 0);
    } else {
      SideTraded(levels, taker, taker);
      SideMatches(levels, taker, taker);
      SideLeftover(levels, taker, taker);
      SweepSideConserves(levels, taker);
    }
  }
}
