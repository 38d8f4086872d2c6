/** The book after a limit order: what always holds, and exactly when the promises made of it hold. */
module LimitPromises {
  import opened Orders
  import opened Events
  import opened Books
  import opened Market
  import opened MarketLaws
  import opened Limit
  import opened LimitLaws

  // ---------- the opposite side ----------

  lemma LeftAfterPops(levels: seq<LevelState>, orders: seq<OrderState>, pops: nat)
    requires levels != [] && pops <= |orders| == |levels[0].orders| && levels[0].orders != []
    ensures SideIDs(AfterPops(levels, orders, pops)) == IDs(orders[pops..]) + SideIDs(levels[1..])
  {
    if pops < |orders| {
      assert AfterPops(levels, orders, pops)[1..] == levels[1..];
    }
  }

  /** What the pops leave, and what they take with them. */
  lemma {:induction false} AfterPopsIDs(levels: seq<LevelState>, orders: seq<OrderState>, pops: nat)
    requires levels != [] && pops <= |orders| == |levels[0].orders| && levels[0].orders != []
    ensures SideIDs(AfterPops(levels, orders, pops)) + IDs(orders[..pops]) == IDs(orders) + SideIDs(levels[1..])
  {
    LeftAfterPops(levels, orders, pops);
    IDsConcat(orders[..pops], orders[pops..]);
    assert orders[..pops] + orders[pops..] == orders;
    SumSwap(IDs(orders[pops..]), SideIDs(levels[1..]), IDs(orders[..pops]));
  }

  lemma {:induction false} AfterPopsDepth(levels: seq<LevelState>, orders: seq<OrderState>, pops: nat)
    requires levels != [] && pops <= |orders| == |levels[0].orders| && levels[0].orders != []
    ensures SideDepth(AfterPops(levels, orders, pops)) + Depth(orders[..pops]) == Depth(orders) + SideDepth(levels[1..])
  {
    DepthConcat(orders[..pops], orders[pops..]);
    assert orders[..pops] + orders[pops..] == orders;
    if pops < |orders| {
      var after := AfterPops(levels, orders, pops);
      assert after[0].orders == orders[pops..] && after[1..] == levels[1..];
    }
  }

  /** The opposite side stays good even when the wrong orders are taken off it. */
  lemma {:induction false} AfterPopsGood(side: OrderSide, levels: seq<LevelState>, taker: OrderState)
    requires GoodSide(side, levels) && levels != [] && taker.InRange()
    ensures var s := FillLevel(levels[0].orders, taker);
      GoodSide(side, AfterPops(levels, s.orders, s.pops))
  {
    var orders := levels[0].orders;
    assert GoodLevel(side, levels[0]);
    FillLevelOrders(orders, taker);
    var s := FillLevel(orders, taker);
    var after := AfterPops(levels, s.orders, s.pops);
    if s.pops < |s.orders| {
      forall o | o in after[0].orders ensures o.price == levels[0].price && o.side == side && o.InRange() {
        var i :| 0 <= i < |s.orders| && s.orders[i] == o;
        assert orders[i] in orders;
      }
      assert GoodLevel(side, after[0]);
    }
    forall l | l in after ensures GoodLevel(side, l) {
      if l !in levels[1..] {
        assert l == after[0];
      }
    }
  }

  /** The side after a limit match has kept its IDs, less those popped. */
  lemma {:induction false} OppositeIDs(levels: seq<LevelState>, taker: OrderState)
    requires levels != [] && levels[0].orders != [] && InRangeAll(levels[0].orders) && taker.InRange()
    ensures var s := FillLevel(levels[0].orders, taker);
      && SideIDs(AfterPops(levels, s.orders, s.pops)) + IDs(levels[0].orders[..s.pops]) == SideIDs(levels)
      && SideDepth(AfterPops(levels, s.orders, s.pops)) + Depth(s.orders[..s.pops]) + Traded(s.fills)
          == SideDepth(levels)
  {
    var orders := levels[0].orders;
    var s := FillLevel(orders, taker);
    AfterPopsIDs(levels, s.orders, s.pops);
    AfterPopsDepth(levels, s.orders, s.pops);
    FillLevelOrders(orders, taker);
    FillLevelTaker(orders, taker);
    SameIDs(s.orders, orders);
    SameIDs(s.orders[..s.pops], orders[..s.pops]);
  }

  // ---------- well-formed books, for every limit order ----------

  /** Whether the remainder ends up in the book. */
  predicate Rests(book: BookState, taker: OrderState) {
    var opposite := book.Opposite(taker.side);
    && opposite != []
    && Crosses(taker, opposite[0].price)
    && var depth := Depth(Tradable(opposite[0].orders, taker));
       if taker.Remaining() == 0.0 then taker.status == Partial
       else depth < taker.Remaining() && (depth > 0.0 || taker.status == Partial)
  }

  lemma {:induction false} IdleFill(orders: seq<OrderState>, taker: OrderState)
    requires InRangeAll(orders) && taker.InRange() && taker.Remaining() == 0.0
    ensures FillLevel(orders, taker) == LevelFill(orders, 0, taker, [], false)
  {
    if orders != [] {
      FillInRange(orders[0], taker);
      IdleFill(orders[1..], taker);
      assert [orders[0]] + orders[1..] == orders;
    }
  }

  /** The remainder rests at the tail of its own price exactly when `Rests` says so. */
  lemma LimitRestsIff(book: BookState, taker: OrderState)
    requires WellFormed(book) && taker.InRange()
    ensures var r := LimitResult(book, taker);
      r.book.Own(taker.side)
        == if Rests(book, taker) then Place(taker.side, book.Own(taker.side), r.taker) else book.Own(taker.side)
  {
    var levels := book.Opposite(taker.side);
    if levels != [] && Crosses(taker, levels[0].price) {
      var orders := levels[0].orders;
      assert GoodLevel(Other(taker.side), levels[0]);
      FillLevelTaker(orders, taker);
      TradableInRange(orders, taker);
      if taker.Remaining() == 0.0 {
        IdleFill(orders, taker);
      } else {
        FillLevelTraded(orders, taker, taker);
        NoFillsNoTrade(orders, taker);
      }
    }
  }

  lemma {:induction false} NoFillsNoTrade(orders: seq<OrderState>, taker: OrderState)
    requires InRangeAll(orders) && taker.InRange()
    ensures var s := FillLevel(orders, taker);
      (s.fills == [] <==> Traded(s.fills) == 0.0) && Traded(s.fills) >= 0.0
  {
    if orders != [] {
      FillInRange(orders[0], taker);
      var fill := Fill(orders[0], taker, Min(orders[0].Remaining(), taker.Remaining()));
      if orders[0].userID == taker.userID || fill.qty == 0.0 {
        NoFillsNoTrade(orders[1..], taker);
      } else if fill.TakerFilled() {
        assert Traded([fill]) == fill.qty + Traded([]);
      } else {
        NoFillsNoTrade(orders[1..], fill.TakerAfter());
        var rest := FillLevel(orders[1..], fill.TakerAfter());
        assert ([fill] + rest.fills)[1..] == rest.fills;
      }
    }
  }

  lemma UniqueSum(kept: multiset<ID>, all: multiset<ID>, id: ID)
    requires Unique(all) && id !in all && kept <= all
    ensures Unique(kept + multiset{id})
  {
    forall x ensures (kept + multiset{id})[x] <= 1 {
      assert kept[x] <= all[x] <= 1;
    }
  }

  /** The IDs popped off the best level by a limit order. */
  ghost function PoppedIDs(book: BookState, taker: OrderState): multiset<ID> {
    var levels := book.Opposite(taker.side);
    if levels == [] || !Crosses(taker, levels[0].price) then multiset{}
    else
      var s := FillLevel(levels[0].orders, taker);
      IDs(levels[0].orders[..s.pops])
  }

  lemma LimitOppositeIDs(book: BookState, taker: OrderState)
    requires WellFormed(book) && taker.InRange()
    ensures SideIDs(LimitResult(book, taker).book.Opposite(taker.side)) + PoppedIDs(book, taker)
         == SideIDs(book.Opposite(taker.side))
  {
    var levels := book.Opposite(taker.side);
    if levels != [] && Crosses(taker, levels[0].price) {
      assert GoodLevel(Other(taker.side), levels[0]);
      OppositeIDs(levels, taker);
    }
  }

  /** The IDs in the book after a limit order: the old ones less those popped, and the taker's if it rests. */
  lemma LimitIDs(book: BookState, taker: OrderState)
    requires WellFormed(book) && taker.InRange()
    ensures BookIDs(LimitResult(book, taker).book) + PoppedIDs(book, taker)
         == BookIDs(book) + (if Rests(book, taker) then multiset{taker.id} else multiset{})
  {
    var after := LimitResult(book, taker).book;
    var rested := if Rests(book, taker) then multiset{taker.id} else multiset{};
    var popped := PoppedIDs(book, taker);
    var left, own := SideIDs(after.Opposite(taker.side)), SideIDs(book.Own(taker.side));
    LimitRestsIff(book, taker);
    LimitOppositeIDs(book, taker);
    BookIDsOf(book, taker.side);
    BookIDsOf(after, taker.side);
    assert SideIDs(after.Own(taker.side)) == own + rested by {
      if Rests(book, taker) {
        PlaceIDs(taker.side, book.Own(taker.side), LimitResult(book, taker).taker);
        RestedTaker(book, taker);
      }
    }
    SumShuffle(left, own, rested, popped);
  }

  lemma RestedTaker(book: BookState, taker: OrderState)
    requires WellFormed(book) && taker.InRange()
    ensures var t := LimitResult(book, taker).taker;
      && t == taker.(filled := t.filled, status := t.status)
      && t.InRange()
      && Traded(LimitResult(book, taker).fills) == t.filled - taker.filled
  {
    var levels := book.Opposite(taker.side);
    if levels != [] && Crosses(taker, levels[0].price) {
      assert GoodLevel(Other(taker.side), levels[0]);
      FillLevelTaker(levels[0].orders, taker);
    }
  }

  /** An order that was never partial takes at least one order out of the book for the one it rests. */
  lemma RestingPops(book: BookState, taker: OrderState)
    requires WellFormed(book) && taker.InRange() && Rests(book, taker) && taker.status != Partial
    ensures |PoppedIDs(book, taker)| >= 1
  {
    var orders := book.Opposite(taker.side)[0].orders;
    assert GoodLevel(Other(taker.side), book.Opposite(taker.side)[0]);
    var s := FillLevel(orders, taker);
    FillLevelTraded(orders, taker, taker);
    CardinalIDs(orders[..s.pops]);
    TradableInRange(orders, taker);
  }

  /** Every limit order with a fresh ID keeps the book well-formed and adds at most itself. */
  lemma LimitKeepsWellFormed(book: BookState, taker: OrderState)
    requires WellFormed(book) && taker.InRange() && taker.id !in BookIDs(book)
    ensures WellFormed(LimitResult(book, taker).book)
    ensures BookIDs(LimitResult(book, taker).book) <= BookIDs(book) + multiset{taker.id}
  {
    LimitIDs(book, taker);
    LimitSidesGood(book, taker);
    var ids := BookIDs(book) + multiset{taker.id};
    UniqueSum(BookIDs(book), BookIDs(book), taker.id);
    var after := BookIDs(LimitResult(book, taker).book);
    assert after <= after + PoppedIDs(book, taker) <= ids;
    SubsetUnique(after, ids);
  }

  lemma LimitSidesGood(book: BookState, taker: OrderState)
    requires WellFormed(book) && taker.InRange()
    ensures var after := LimitResult(book, taker).book;
      GoodSide(Buy, after.bids) && GoodSide(Sell, after.asks)
  {
    var levels := book.Opposite(taker.side);
    if levels != [] && Crosses(taker, levels[0].price) {
      assert GoodLevel(Other(taker.side), levels[0]);
      AfterPopsGood(Other(taker.side), levels, taker);
      FillLevelTaker(levels[0].orders, taker);
      PlaceKeeps(taker.side, book.Own(taker.side), FillLevel(levels[0].orders, taker).taker);
    }
  }

  /** Matching never grows the book: for the order it rests, a limit order has taken at least one out. */
  lemma LimitNeverGrows(book: BookState, taker: OrderState)
    requires WellFormed(book) && taker.InRange() && taker.status != Partial
    ensures |BookIDs(LimitResult(book, taker).book)| <= |BookIDs(book)|
  {
    var after, popped := BookIDs(LimitResult(book, taker).book), PoppedIDs(book, taker);
    LimitIDs(book, taker);
    assert |after + popped| == |after| + |popped|;
    if Rests(book, taker) {
      RestingPops(book, taker);
      assert |BookIDs(book) + multiset{taker.id}| == |BookIDs(book)| + 1;
    } else {
      assert BookIDs(book) + multiset{} == BookIDs(book);
    }
  }

  lemma {:induction false} CardinalIDs(orders: seq<OrderState>)
    ensures |IDs(orders)| == |orders|
  {
    if orders != [] {
      CardinalIDs(orders[1..]);
    }
  }

  // ---------- does the level lose the orders that were filled? ----------

  /** The IDs of the makers a call filled. */
  ghost function FilledMakers(fills: seq<Fill>): multiset<ID> {
    if fills == [] then multiset{}
    else if fills[0].MakerFilled() then multiset{fills[0].maker.id} + FilledMakers(fills[1..])
    else FilledMakers(fills[1..])
  }

  /** The same by position: orders that came in with something left and went out with nothing. */
  ghost function FilledIDs(before: seq<OrderState>, after: seq<OrderState>): multiset<ID>
    requires |before| == |after|
  {
    if before == [] then multiset{}
    else if FilledNow(before[0], after[0]) then multiset{before[0].id} + FilledIDs(before[1..], after[1..])
    else FilledIDs(before[1..], after[1..])
  }

  lemma {:induction false} FilledTwoWays(orders: seq<OrderState>, taker: OrderState)
    requires InRangeAll(orders) && taker.InRange()
    ensures var s := FillLevel(orders, taker);
      && FilledMakers(s.fills) == FilledIDs(orders, s.orders)
      && |FilledMakers(s.fills)| == s.pops
  {
    if orders != [] {
      FillInRange(orders[0], taker);
      var fill := Fill(orders[0], taker, Min(orders[0].Remaining(), taker.Remaining()));
      if orders[0].userID == taker.userID || fill.qty == 0.0 {
        FilledTwoWays(orders[1..], taker);
      } else if fill.TakerFilled() {
        NothingFilled(orders[1..]);
        assert FilledMakers([fill]) == if fill.MakerFilled() then multiset{fill.maker.id} else multiset{};
      } else {
        FilledTwoWays(orders[1..], fill.TakerAfter());
        var rest := FillLevel(orders[1..], fill.TakerAfter());
        assert ([fill] + rest.fills)[1..] == rest.fills;
        assert ([fill.MakerAfter()] + rest.orders)[1..] == rest.orders;
      }
    }
  }

  lemma {:induction false} NothingFilled(orders: seq<OrderState>)
    ensures FilledIDs(orders, orders) == multiset{}
  {
    if orders != [] {
      NothingFilled(orders[1..]);
    }
  }

  lemma {:induction false} FilledIDsMember(before: seq<OrderState>, after: seq<OrderState>, id: ID)
    requires |before| == |after|
    ensures id in FilledIDs(before, after)
       <==> exists p :: 0 <= p < |before| && before[p].id == id && FilledNow(before[p], after[p])
  {
    if before != [] {
      FilledIDsMember(before[1..], after[1..], id);
      if p :| 0 <= p < |before| && before[p].id == id && FilledNow(before[p], after[p]) && p > 0 {
        assert before[1..][p - 1] == before[p] && after[1..][p - 1] == after[p];
      }
      if p :| 0 <= p < |before| - 1 && before[1..][p].id == id && FilledNow(before[1..][p], after[1..][p]) {
        assert before[p + 1] == before[1..][p] && after[p + 1] == after[1..][p];
      }
    }
  }

  /** In a queue of distinct IDs an ID names a position. */
  lemma {:induction false} UniquePosition(orders: seq<OrderState>, a: nat, b: nat)
    requires Unique(IDs(orders)) && a < b < |orders|
    ensures orders[a].id != orders[b].id
  {
    var head, tail := multiset{orders[0].id}, IDs(orders[1..]);
    assert IDs(orders) == head + tail;
    if a == 0 {
      assert orders[1..][b - 1] == orders[b];
      IDsMember(orders[1..], orders[b].id);
      assert (head + tail)[orders[0].id] == 1 + tail[orders[0].id];
    } else {
      SubsetUnique(tail, IDs(orders));
      UniquePosition(orders[1..], a - 1, b - 1);
    }
  }

  /** The tradable depth up to and including the order fits the taker, so the taker can fill it. */
  predicate Fillable(orders: seq<OrderState>, taker: OrderState, j: nat)
    requires j < |orders|
  {
    !Skipped(orders[j], taker) && Depth(Tradable(orders[..j + 1], taker)) <= taker.Remaining()
  }

  /** Some order the pass steps over has a fillable order behind it. A caller can read this off the
      level beforehand. */
  ghost predicate Overreaches(orders: seq<OrderState>, taker: OrderState) {
    exists i, j :: 0 <= i < j < |orders| && Skipped(orders[i], taker) && Fillable(orders, taker, j)
  }

  /** Without that, the filled orders are the front of the queue. */
  lemma {:induction false} FilledFront(before: seq<OrderState>, after: seq<OrderState>)
    requires |before| == |after|
    requires forall i, j :: 0 <= i < j < |before| && FilledNow(before[j], after[j]) ==> FilledNow(before[i], after[i])
    ensures |FilledIDs(before, after)| <= |before|
    ensures FilledIDs(before, after) == IDs(before[..|FilledIDs(before, after)|])
  {
    if before != [] {
      FilledFront(before[1..], after[1..]);
      var tail := |FilledIDs(before[1..], after[1..])|;
      if FilledNow(before[0], after[0]) {
        assert before[..tail + 1][1..] == before[1..][..tail];
      } else {
        forall p | 0 <= p < |before| ensures !FilledNow(before[p], after[p]) {}
        NoneFilled(before, after);
      }
    }
  }

  lemma {:induction false} NoneFilled(before: seq<OrderState>, after: seq<OrderState>)
    requires |before| == |after| && forall p :: 0 <= p < |before| ==> !FilledNow(before[p], after[p])
    ensures FilledIDs(before, after) == multiset{}
  {
    if before != [] {
      NoneFilled(before[1..], after[1..]);
    }
  }

  lemma {:induction false} FilledIsFrontWithout(orders: seq<OrderState>, taker: OrderState)
    requires InRangeAll(orders) && taker.InRange() && !Overreaches(orders, taker)
    ensures var s := FillLevel(orders, taker);
      forall i, j :: 0 <= i < j < |orders| && FilledNow(orders[j], s.orders[j]) ==> FilledNow(orders[i], s.orders[i])
  {
    var s := FillLevel(orders, taker);
    forall i, j | 0 <= i < j < |orders| && FilledNow(orders[j], s.orders[j])
      ensures FilledNow(orders[i], s.orders[i])
    {
      FilledIff(orders, taker, taker, i);
      FilledIff(orders, taker, taker, j);
      assert Fillable(orders, taker, j);
      assert !Skipped(orders[i], taker);
      TradableMonotone(orders, taker, i + 1, j + 1);
    }
  }

  lemma {:induction false} TradableMonotone(orders: seq<OrderState>, taker: OrderState, a: nat, b: nat)
    requires a <= b <= |orders| && InRangeAll(orders)
    ensures Depth(Tradable(orders[..a], taker)) <= Depth(Tradable(orders[..b], taker))
    decreases b
  {
    if a < b {
      TradableMonotone(orders, taker, a, b - 1);
      TradablePrefix(orders, taker, b - 1);
      assert orders[b - 1].InRange();
    }
  }

  /** The pops take out exactly the filled makers if and only if the pass did not overreach. */
  lemma {:induction false} PopsAreFillsIff(orders: seq<OrderState>, taker: OrderState)
    requires InRangeAll(orders) && taker.InRange() && Unique(IDs(orders))
    ensures var s := FillLevel(orders, taker);
      IDs(orders[..s.pops]) == FilledMakers(s.fills) <==> !Overreaches(orders, taker)
  {
    var s := FillLevel(orders, taker);
    FilledTwoWays(orders, taker);
    if !Overreaches(orders, taker) {
      FilledIsFrontWithout(orders, taker);
      FilledFront(orders, s.orders);
    } else {
      var i, j :| 0 <= i < j < |orders| && Skipped(orders[i], taker) && Fillable(orders, taker, j);
      OverreachMispops(orders, taker, i, j);
    }
  }

  lemma {:induction false} OverreachMispops(orders: seq<OrderState>, taker: OrderState, i: nat, j: nat)
    requires InRangeAll(orders) && taker.InRange() && Unique(IDs(orders))
    requires i < j < |orders| && Skipped(orders[i], taker) && Fillable(orders, taker, j)
    ensures var s := FillLevel(orders, taker); IDs(orders[..s.pops]) != FilledIDs(orders, s.orders)
  {
    var s := FillLevel(orders, taker);
    var front := orders[..s.pops];
    FilledIff(orders, taker, taker, i);
    FilledIff(orders, taker, taker, j);
    FilledIDsMember(orders, s.orders, orders[i].id);
    FilledIDsMember(orders, s.orders, orders[j].id);
    IDsMember(front, orders[i].id);
    IDsMember(front, orders[j].id);
    if i < s.pops { // the skipped order is popped though nothing filled it
      assert orders[i] == front[i] && front[i] in front;
      if p :| 0 <= p < |orders| && p != i && orders[p].id == orders[i].id {
        UniquePosition(orders, if p < i then p else i, if p < i then i else p);
      }
    } else { // the filled order behind it is not popped
      if q :| 0 <= q < |front| && front[q].id == orders[j].id {
        UniquePosition(orders, q, j);
      }
    }
  }
}
