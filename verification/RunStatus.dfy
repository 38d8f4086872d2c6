/** The status column of the table: of takers after one call, and of makers over whole runs. */
module RunStatus {
  import opened Orders
  import opened Events
  import opened Books
  import opened Market
  import opened MarketLaws
  import opened Greedy
  import opened MarketPromises
  import opened Limit
  import opened LimitLaws
  import opened LimitPromises
  import opened LimitTheorems
  import opened Runs
  import opened Projection
  import opened ProjectionTheorems
  import opened RunProjection

  // ---------- takers ----------

  /** The sweep ends a hungry taker as cancelled exactly if some level is not acceptable. */
  lemma {:induction false} CancelledIff(levels: seq<LevelState>, taker: OrderState)
    requires forall l :: l in levels ==> InRangeAll(l.orders)
    requires taker.InRange() && taker.Remaining() > 0.0
    ensures var s := SweepSide(levels, taker);
      && (s.done <==> s.taker.Remaining() == 0.0)
      && (s.cancelled <==> !s.done && exists l :: l in levels && !Crosses(taker, l.price))
  {
    if levels != [] {
      assert levels == [levels[0]] + levels[1..];
      if Crosses(taker, levels[0].price) {
        var s := SweepLevel(levels[0].orders, taker);
        SweepLevelTaker(levels[0].orders, taker);
        if !s.done {
          CancelledIff(levels[1..], s.taker);
        }
      }
    }
  }

  lemma {:induction false} NoFillsIff(book: BookState, taker: OrderState)
    requires WellFormed(book) && taker.InRange() && taker.Remaining() > 0.0
    ensures var r := MarketResult(book, taker);
      var depth := Depth(PriorityList(book.Opposite(taker.side), taker));
      && depth >= 0.0
      && (r.fills == [] <==> depth == 0.0)
      && (r.taker.Remaining() == 0.0 <==> depth >= taker.Remaining())
  {
    var levels := book.Opposite(taker.side);
    MarketIsGreedy(book, taker);
    MarketTakerKept(book, taker);
    GoodIsRough(Other(taker.side), levels);
    QueueInRange(levels, taker);
    SharesEmptyIff(PriorityList(levels, taker), taker.Remaining());
  }

  /** The row of a market order that wants something, read off the book it meets: filled if enough is within
      its reach; otherwise cancelled if some opposite level is not acceptable to it; otherwise partial if it
      traded. It never rests, so a partial row is that of an order that is gone. */
  lemma {:induction false} MarketTakerStatus(table: Table, book: BookState, taker: OrderState)
    requires WellFormed(book) && taker.InRange() && taker.Remaining() > 0.0 && taker.id !in BookIDs(book)
    requires taker.id in table
    ensures var r := MarketResult(book, taker);
      var rows, levels := Replay(table, r.orderEvents), book.Opposite(taker.side);
      var depth := Depth(PriorityList(levels, taker));
      && taker.id in rows && taker.id !in BookIDs(r.book)
      && rows[taker.id].status == if depth >= taker.Remaining() then Filled
                                  else if exists l :: l in levels && !Crosses(taker, l.price) then Cancelled
                                  else if depth > 0.0 then Partial
                                  else table[taker.id].status
  {
    var levels := book.Opposite(taker.side);
    MarketKeepsWellFormed(book, taker);
    NoFillsIff(book, taker);
    if levels != [] {
      var s := SweepSide(levels, taker);
      GoodIsRough(Other(taker.side), levels);
      CancelledIff(levels, taker);
      SweepSideConserves(levels, taker);
      if s.OrderEvents() != [] {
        MarketMakers(book, taker);
        MarketRowsTold(table, s.fills, s.TakerEvent(), taker.id);
      }
    }
  }

  /** The last fill completes the taker exactly if the pass says so. */
  lemma {:induction false} LastFillDone(orders: seq<OrderState>, taker: OrderState)
    ensures var s := FillLevel(orders, taker);
      if s.fills == [] then !s.done else s.done <==> s.fills[|s.fills| - 1].TakerFilled()
  {
    if orders != [] {
      var fill := Fill(orders[0], taker, Min(orders[0].Remaining(), taker.Remaining()));
      if orders[0].userID == taker.userID || fill.qty == 0.0 {
        LastFillDone(orders[1..], taker);
      } else if !fill.TakerFilled() {
        LastFillDone(orders[1..], fill.TakerAfter());
      }
    }
  }

  lemma {:induction false} FilledTakerStatus(table: Table, book: BookState, taker: OrderState)
    requires WellFormed(book) && taker.InRange() && taker.id !in BookIDs(book) && taker.id in table
    requires Meets(book, taker) && taker.Remaining() > 0.0
    ensures var r := LimitResult(book, taker);
      var depth := Depth(Tradable(book.Opposite(taker.side)[0].orders, taker));
      && depth >= 0.0 && (r.taker.Remaining() == 0.0 <==> depth >= taker.Remaining())
      && taker.id in Replay(table, r.orderEvents)
      && Replay(table, r.orderEvents)[taker.id].status
           == if depth >= taker.Remaining() then Filled else if depth > 0.0 then Partial else table[taker.id].status
  {
    var orders := book.Opposite(taker.side)[0].orders;
    var fills := FillLevel(orders, taker).fills;
    BestLevelFacts(book, taker);
    TradableInRange(orders, taker);
    FillLevelTaker(orders, taker);
    FillLevelTraded(orders, taker, taker);
    NoFillsNoTrade(orders, taker);
    LastFillDone(orders, taker);
    LimitMakers(book, taker);
    if fills != [] {
      LimitTakerRow(table, fills, taker.id);
    }
  }

  /** The order a call rests is its own. */
  lemma TakerRestsIff(book: BookState, taker: OrderState)
    requires WellFormed(book) && taker.InRange() && taker.id !in BookIDs(book)
    ensures taker.id in BookIDs(LimitResult(book, taker).book) <==> Rests(book, taker)
  {
    var popped, after := PoppedIDs(book, taker), BookIDs(LimitResult(book, taker).book);
    LimitIDs(book, taker);
    LimitOppositeIDs(book, taker);
    BookIDsOf(book, taker.side);
    assert popped[taker.id] == 0;
    assert (after + popped)[taker.id] == after[taker.id];
  }

  lemma {:induction false} RefusedTakerStatus(table: Table, book: BookState, taker: OrderState)
    requires taker.id in table && !Meets(book, taker)
    ensures var r := LimitResult(book, taker);
      && r.taker == taker && taker.id in Replay(table, r.orderEvents)
      && Replay(table, r.orderEvents)[taker.id].status
           == if taker.side == Sell && book.Opposite(taker.side) != [] then Cancelled else table[taker.id].status
  {
    var r := LimitResult(book, taker);
    if r.orderEvents != [] {
      var e := r.orderEvents[0];
      assert r.orderEvents == [e] && [e][1..] == [];
      assert Replay(table, [e]) == Replay(Update(table, e), []);
    }
  }

  /** The row of a new limit order that wants something: it reads partial if and only if the order rests,
      filled if and only if it has all it wants, cancelled if and only if it is a sell order the best bid
      refuses. Otherwise it is left open, though the order is gone. */
  lemma {:induction false} LimitTakerStatus(table: Table, book: BookState, taker: OrderState)
    requires WellFormed(book) && taker.InRange() && taker.Remaining() > 0.0 && taker.id !in BookIDs(book)
    requires taker.id in table && taker.status == Open == table[taker.id].status
    ensures var r := LimitResult(book, taker);
      var rows, levels := Replay(table, r.orderEvents), book.Opposite(taker.side);
      && taker.id in rows
      && (rows[taker.id].status == Partial <==> taker.id in BookIDs(r.book))
      && (rows[taker.id].status == Filled <==> r.taker.Remaining() == 0.0)
      && (rows[taker.id].status == Cancelled <==> taker.side == Sell && levels != [] && !Meets(book, taker))
  {
    TakerRestsIff(book, taker);
    if Meets(book, taker) {
      FilledTakerStatus(table, book, taker);
    } else {
      RefusedTakerStatus(table, book, taker);
    }
  }

  // ---------- one step of a run ----------

  ghost predicate StepWrong(book: BookState, step: Step) {
    step.LimitStep? && TakesWrongOrder(book, step.order)
  }

  /** The makers of a step, and what its events tell the table. */
  lemma {:induction false} StepTells(table: Table, book: BookState, steps: seq<Step>)
    requires steps != [] && WellFormed(book) && FreshOrders(book, steps)
    ensures var step, fills := steps[0], StepFills(book, steps[0]);
      var after := Replay(table, Apply(book, step).orderEvents);
      && MakerIDs(fills) <= BookIDs(book) && Unique(MakerIDs(fills))
      && after.Keys == table.Keys
      && (step.Takes() ==> RowsTold(table, after, fills, step.order.id))
      && (!step.Takes() ==> after == table && fills == [])
  {
    assert steps[0] in steps;
    match steps[0] {
      case LimitStep(taker) =>
        FreshTaker(book, steps);
        LimitTells(table, book, taker);
        LimitMakers(book, taker);
      case MarketStep(taker) =>
        FreshTaker(book, steps);
        MarketTells(table, book, taker);
        MarketMakers(book, taker);
      case RemoveStep(_, _, _) =>
    }
  }

  /** A call that takes no wrong order takes out of the book exactly the makers it fills. */
  lemma StepLeaves(book: BookState, steps: seq<Step>, id: ID)
    requires steps != [] && WellFormed(book) && FreshOrders(book, steps)
    requires steps[0].Takes() && !StepWrong(book, steps[0]) && id in BookIDs(book)
    ensures id !in BookIDs(Apply(book, steps[0]).book) <==> id in FilledMakers(StepFills(book, steps[0]))
  {
    assert steps[0] in steps;
    FreshTaker(book, steps);
    match steps[0] {
      case LimitStep(taker) =>
        LimitLeaves(book, taker, id);
      case MarketStep(taker) =>
        MarketLeaves(book, taker, id);
      case RemoveStep(_, _, _) =>
    }
  }

  lemma LimitLeaves(book: BookState, taker: OrderState, id: ID)
    requires WellFormed(book) && taker.InRange() && taker.id !in BookIDs(book) && id in BookIDs(book)
    requires !TakesWrongOrder(book, taker)
    ensures var r := LimitResult(book, taker);
      id !in BookIDs(r.book) <==> id in FilledMakers(r.fills)
  {
    var after, popped := BookIDs(LimitResult(book, taker).book), PoppedIDs(book, taker);
    PopsFilled(book, taker);
    LimitIDs(book, taker);
    assert (after + popped)[id] == BookIDs(book)[id] == 1;
  }

  lemma PopsFilled(book: BookState, taker: OrderState)
    requires WellFormed(book) && taker.InRange() && !TakesWrongOrder(book, taker)
    ensures PoppedIDs(book, taker) == FilledMakers(LimitResult(book, taker).fills)
  {
    var r := LimitResult(book, taker);
    var left := SideIDs(r.book.Opposite(taker.side));
    LimitRemovesFilledIff(book, taker);
    LimitOppositeIDs(book, taker);
    SameRest(left, PoppedIDs(book, taker), FilledMakers(r.fills));
  }

  lemma SameRest(left: multiset<ID>, a: multiset<ID>, b: multiset<ID>)
    requires left + a == left + b
    ensures a == b
  {
    assert a == (left + a) - left && b == (left + b) - left;
  }

  lemma MarketLeaves(book: BookState, taker: OrderState, id: ID)
    requires WellFormed(book) && id in BookIDs(book)
    ensures var r := MarketResult(book, taker);
      id !in BookIDs(r.book) <==> id in FilledMakers(r.fills)
  {
    var r := MarketResult(book, taker);
    var gone, left, own := FilledMakers(r.fills), SideIDs(r.book.Opposite(taker.side)), SideIDs(book.Own(taker.side));
    MarketRemovesFilled(book, taker);
    BookIDsOf(book, taker.side);
    BookIDsOf(r.book, taker.side);
    assert BookIDs(book)[id] == left[id] + gone[id] + own[id] <= 1;
    assert BookIDs(r.book)[id] == left[id] + own[id];
  }

  lemma {:induction false} FilledMakerIDs(fills: seq<Fill>, id: ID)
    requires Unique(MakerIDs(fills)) && id in MakerIDs(fills)
    ensures exists f :: f in fills && f.maker.id == id && (id in FilledMakers(fills) <==> f.MakerFilled())
  {
    var f := MakerOf(fills, id);
    FilledMakersMember(fills, f);
  }

  /** After a call that takes no wrong order, a maker it touched reads filled exactly when it is gone. */
  lemma {:induction false} StepStatus(table: Table, book: BookState, steps: seq<Step>, id: ID)
    requires steps != [] && WellFormed(book) && FreshOrders(book, steps) && !StepWrong(book, steps[0])
    requires id in table && id in MakerIDs(StepFills(book, steps[0]))
    ensures var after := Replay(table, Apply(book, steps[0]).orderEvents);
      id in after && (after[id].status == Filled <==> id !in BookIDs(Apply(book, steps[0]).book))
  {
    var fills := StepFills(book, steps[0]);
    StepTells(table, book, steps);
    FilledMakerIDs(fills, id);
    StepLeaves(book, steps, id);
  }

  // ---------- whole runs ----------

  ghost predicate NeverWrong(book: BookState, steps: seq<Step>)
    decreases steps
  {
    steps == [] || (!StepWrong(book, steps[0]) && NeverWrong(Apply(book, steps[0]).book, steps[1..]))
  }

  /** The IDs a run takes out of the book by removal. */
  ghost function RemovedIDs(book: BookState, steps: seq<Step>): multiset<ID>
    decreases steps
  {
    if steps == [] then multiset{}
    else
      var after := Apply(book, steps[0]).book;
      (if steps[0].Takes() then multiset{} else BookIDs(book) - BookIDs(after)) + RemovedIDs(after, steps[1..])
  }

  /** Makers of a run and orders removed by it were in the book or came in with it. */
  lemma {:induction false} ComeFrom(book: BookState, steps: seq<Step>, id: ID)
    requires WellFormed(book) && FreshOrders(book, steps)
    requires id in MakerIDs(RunFills(book, steps)) || id in RemovedIDs(book, steps)
    ensures id in BookIDs(book) + TakerIDs(steps)
    decreases steps
  {
    var after := Apply(book, steps[0]).book;
    StepTells(map[], book, steps);
    StepKeeps(book, steps);
    MakerIDsConcat(StepFills(book, steps[0]), RunFills(after, steps[1..]));
    if id in MakerIDs(RunFills(after, steps[1..])) || id in RemovedIDs(after, steps[1..]) {
      ComeFrom(after, steps[1..], id);
    }
  }

  /** A row that no fill and no taker of the run names stays as it was. */
  lemma {:induction false} RowStays(table: Table, book: BookState, steps: seq<Step>, id: ID)
    requires WellFormed(book) && FreshOrders(book, steps) && id in table
    requires id !in MakerIDs(RunFills(book, steps)) && id !in TakerIDs(steps)
    ensures id in Replay(table, Run(book, steps).orderEvents)
    ensures Replay(table, Run(book, steps).orderEvents)[id] == table[id]
    decreases steps
  {
    if steps != [] {
      var first := Apply(book, steps[0]);
      StepTells(table, book, steps);
      StepKeeps(book, steps);
      MakerIDsConcat(StepFills(book, steps[0]), RunFills(first.book, steps[1..]));
      RowStays(Replay(table, first.orderEvents), first.book, steps[1..], id);
      ReplayConcat(table, first.orderEvents, Run(first.book, steps[1..]).orderEvents);
    }
  }

  /** An order no fill names stays in the book unless it is removed, as long as no wrong order is taken. */
  lemma {:induction false} StaysOrRemoved(book: BookState, steps: seq<Step>, id: ID)
    requires WellFormed(book) && FreshOrders(book, steps) && NeverWrong(book, steps)
    requires id in BookIDs(book) && id !in MakerIDs(RunFills(book, steps))
    ensures id in BookIDs(Run(book, steps).book) || id in RemovedIDs(book, steps)
    decreases steps
  {
    if steps != [] {
      var after := Apply(book, steps[0]).book;
      StepKeeps(book, steps);
      MakerIDsConcat(StepFills(book, steps[0]), RunFills(after, steps[1..]));
      if steps[0].Takes() {
        StepLeaves(book, steps, id);
        FilledAmongMakers(StepFills(book, steps[0]));
      }
      if id in BookIDs(after) {
        StaysOrRemoved(after, steps[1..], id);
      } else {
        assert (BookIDs(book) - BookIDs(after))[id] > 0;
      }
    }
  }

  /** A touched maker reads filled exactly when it has left the book, other than by a removal. */
  ghost predicate StatusTold(table: Table, book: BookState, steps: seq<Step>) {
    var rows := Replay(table, Run(book, steps).orderEvents);
    forall id :: id in MakerIDs(RunFills(book, steps)) && id in rows ==>
      (rows[id].status == Filled <==> id !in BookIDs(Run(book, steps).book) && id !in RemovedIDs(book, steps))
  }

  /** A maker touched by the first step and by no later one: its row and its place stay. */
  lemma {:induction false} LastTouched(table: Table, book: BookState, steps: seq<Step>, id: ID)
    requires steps != [] && WellFormed(book) && FreshOrders(book, steps) && NeverWrong(book, steps)
    requires id in table && id in MakerIDs(StepFills(book, steps[0]))
    requires id !in MakerIDs(RunFills(Apply(book, steps[0]).book, steps[1..]))
    ensures var rows := Replay(table, Run(book, steps).orderEvents);
      && id in rows
      && (rows[id].status == Filled <==> id !in BookIDs(Run(book, steps).book) && id !in RemovedIDs(book, steps))
  {
    var first, rest := Apply(book, steps[0]), steps[1..];
    var mid := Replay(table, first.orderEvents);
    StepTells(table, book, steps);
    StepKeeps(book, steps);
    StepStatus(table, book, steps, id);
    NoLaterTaker(book, steps, id);
    RowStays(mid, first.book, rest, id);
    ReplayConcat(table, first.orderEvents, Run(first.book, rest).orderEvents);
    if id in BookIDs(first.book) {
      StaysOrRemoved(first.book, rest, id);
    } else {
      GoneForGood(first.book, rest, id);
    }
  }

  lemma {:induction false} NoLaterTaker(book: BookState, steps: seq<Step>, id: ID)
    requires steps != [] && FreshOrders(book, steps) && id in BookIDs(book)
    ensures id !in TakerIDs(steps) && id !in TakerIDs(steps[1..])
  {
    assert (BookIDs(book) + TakerIDs(steps))[id] == BookIDs(book)[id] + TakerIDs(steps)[id];
    assert TakerIDs(steps[1..])[id] <= TakerIDs(steps)[id];
  }

  /** What is not in the book and does not come in is never in the book again, and never removed. */
  lemma {:induction false} GoneForGood(book: BookState, steps: seq<Step>, id: ID)
    requires WellFormed(book) && FreshOrders(book, steps) && id !in BookIDs(book) && id !in TakerIDs(steps)
    ensures id !in BookIDs(Run(book, steps).book) && id !in RemovedIDs(book, steps)
  {
    RunKeepsWellFormed(book, steps);
    if id in RemovedIDs(book, steps) {
      ComeFrom(book, steps, id);
    }
  }

  lemma {:induction false} RunStatusOf(table: Table, book: BookState, steps: seq<Step>, id: ID)
    requires WellFormed(book) && FreshOrders(book, steps) && NeverWrong(book, steps)
    requires id in table && id in MakerIDs(RunFills(book, steps))
    ensures var rows := Replay(table, Run(book, steps).orderEvents);
      && id in rows
      && (rows[id].status == Filled <==> id !in BookIDs(Run(book, steps).book) && id !in RemovedIDs(book, steps))
    decreases steps
  {
    var first, rest := Apply(book, steps[0]), steps[1..];
    StepTells(table, book, steps);
    StepKeeps(book, steps);
    MakerIDsConcat(StepFills(book, steps[0]), RunFills(first.book, rest));
    if id in MakerIDs(RunFills(first.book, rest)) {
      RunStatusOf(Replay(table, first.orderEvents), first.book, rest, id);
      ReplayConcat(table, first.orderEvents, Run(first.book, rest).orderEvents);
      NotRemovedFirst(book, steps, id);
    } else {
      LastTouched(table, book, steps, id);
    }
  }

  /** What a removal takes out is no maker later. */
  lemma {:induction false} NotRemovedFirst(book: BookState, steps: seq<Step>, id: ID)
    requires steps != [] && WellFormed(book) && FreshOrders(book, steps)
    requires id in MakerIDs(RunFills(Apply(book, steps[0]).book, steps[1..]))
    ensures id in RemovedIDs(book, steps) <==> id in RemovedIDs(Apply(book, steps[0]).book, steps[1..])
  {
    var after := Apply(book, steps[0]).book;
    StepKeeps(book, steps);
    ComeFrom(after, steps[1..], id);
    if id in BookIDs(book) {
      NoLaterTaker(book, steps, id);
      assert BookIDs(book)[id] == 1 == BookIDs(after)[id];
    }
  }

  /** The table knows every order of a run. */
  ghost predicate Knows(table: Table, book: BookState, steps: seq<Step>) {
    forall id :: id in BookIDs(book) + TakerIDs(steps) ==> id in table
  }

  lemma {:induction false} KnowsLater(table: Table, book: BookState, steps: seq<Step>)
    requires steps != [] && WellFormed(book) && FreshOrders(book, steps) && Knows(table, book, steps)
    ensures Knows(Replay(table, Apply(book, steps[0]).orderEvents), Apply(book, steps[0]).book, steps[1..])
  {
    StepTells(table, book, steps);
    StepKeeps(book, steps);
  }

  /** A maker of the run that rests after it and reads filled. */
  ghost predicate ReadsFilledInBook(table: Table, book: BookState, steps: seq<Step>, id: ID) {
    var rows := Replay(table, Run(book, steps).orderEvents);
    && id in MakerIDs(RunFills(book, steps)) && id in BookIDs(Run(book, steps).book)
    && id in rows && rows[id].status == Filled
  }

  /** The first wrong order taken leaves a maker in the book that reads filled. */
  lemma {:induction false} WrongShows(table: Table, book: BookState, steps: seq<Step>)
      returns (past: seq<Step>, id: ID)
    requires WellFormed(book) && FreshOrders(book, steps) && Knows(table, book, steps)
    requires !NeverWrong(book, steps)
    ensures past <= steps && ReadsFilledInBook(table, book, past, id)
    decreases steps
  {
    if StepWrong(book, steps[0]) {
      past := [steps[0]];
      id := FirstWrongShows(table, book, steps);
    } else {
      StepKeeps(book, steps);
      KnowsLater(table, book, steps);
      past, id := WrongShows(Replay(table, Apply(book, steps[0]).orderEvents), Apply(book, steps[0]).book, steps[1..]);
      ShowsEarlier(table, book, steps[0], past, id);
      past := [steps[0]] + past;
    }
  }

  lemma FirstWrongShows(table: Table, book: BookState, steps: seq<Step>) returns (id: ID)
    requires steps != [] && WellFormed(book) && FreshOrders(book, steps) && Knows(table, book, steps)
    requires StepWrong(book, steps[0])
    ensures ReadsFilledInBook(table, book, [steps[0]], id)
  {
    var taker := steps[0].order;
    var r := LimitResult(book, taker);
    assert steps[0] in steps;
    FreshTaker(book, steps);
    StepTells(table, book, steps);
    var f := WrongOrderShows(book, taker);
    MakerIDsMember(r.fills, f);
    RunOne(book, steps[0]);
    BookIDsOf(r.book, taker.side);
    id := f.maker.id;
  }

  lemma {:induction false} RunOne(book: BookState, step: Step)
    ensures Run(book, [step]) == Apply(book, step) && RunFills(book, [step]) == StepFills(book, step)
  {
    var first := Apply(book, step);
    assert [step][1..] == [] && Run(first.book, []) == Outcome(first.book, [], []) && RunFills(first.book, []) == [];
    assert first.orderEvents + [] == first.orderEvents && first.tradeEvents + [] == first.tradeEvents;
    assert StepFills(book, step) + [] == StepFills(book, step);
  }

  lemma {:induction false} ShowsEarlier(table: Table, book: BookState, step: Step, rest: seq<Step>, id: ID)
    requires ReadsFilledInBook(Replay(table, Apply(book, step).orderEvents), Apply(book, step).book, rest, id)
    ensures ReadsFilledInBook(table, book, [step] + rest, id)
  {
    var first := Apply(book, step);
    assert ([step] + rest)[1..] == rest;
    RunHead(book, step, rest);
    MakerIDsConcat(StepFills(book, step), RunFills(first.book, rest));
    ReplayConcat(table, first.orderEvents, Run(first.book, rest).orderEvents);
  }

  /** A run that never takes a wrong order tells the status of every maker it touched. */
  lemma {:induction false} RunStatusTold(table: Table, book: BookState, steps: seq<Step>)
    requires WellFormed(book) && FreshOrders(book, steps) && NeverWrong(book, steps)
    ensures StatusTold(table, book, steps)
  {
    var rows := Replay(table, Run(book, steps).orderEvents);
    ReplayRows(table, Run(book, steps).orderEvents);
    forall id | id in MakerIDs(RunFills(book, steps)) && id in rows
      ensures rows[id].status == Filled <==> id !in BookIDs(Run(book, steps).book) && id !in RemovedIDs(book, steps)
    {
      RunStatusOf(table, book, steps, id);
    }
  }

  lemma {:induction false} PrefixNeverWrong(book: BookState, past: seq<Step>, steps: seq<Step>)
    requires past <= steps && NeverWrong(book, steps)
    ensures NeverWrong(book, past)
    decreases past
  {
    if past != [] {
      PrefixNeverWrong(Apply(book, steps[0]).book, past[1..], steps[1..]);
    }
  }

  lemma {:induction false} PrefixTakers(past: seq<Step>, steps: seq<Step>)
    requires past <= steps
    ensures TakerIDs(past) <= TakerIDs(steps)
  {
    if past != [] {
      PrefixTakers(past[1..], steps[1..]);
    }
  }

  lemma PrefixFresh(book: BookState, past: seq<Step>, steps: seq<Step>)
    requires past <= steps && FreshOrders(book, steps)
    ensures FreshOrders(book, past)
  {
    PrefixTakers(past, steps);
    SubsetUnique(BookIDs(book) + TakerIDs(past), BookIDs(book) + TakerIDs(steps));
    assert forall s :: s in past ==> s in steps;
  }

  /** At every moment of a run, every maker touched so far reads filled exactly when it has left the book other
      than by a removal, if and only if the run never takes a wrong order. */
  lemma {:induction false} RunStatusIff(table: Table, book: BookState, steps: seq<Step>)
    requires WellFormed(book) && FreshOrders(book, steps) && Knows(table, book, steps)
    ensures (forall past :: past <= steps ==> StatusTold(table, book, past)) <==> NeverWrong(book, steps)
  {
    if NeverWrong(book, steps) {
      forall past | past <= steps ensures StatusTold(table, book, past) {
        PrefixNeverWrong(book, past, steps);
        PrefixFresh(book, past, steps);
        RunStatusTold(table, book, past);
      }
    } else {
      var past, id := WrongShows(table, book, steps);
      assert !StatusTold(table, book, past);
    }
  }
}
