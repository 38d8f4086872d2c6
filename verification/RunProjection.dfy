/** Over whole runs, every row of the table shows what the last fill left: of resting orders, of makers that have
    gone, and of takers that never rested. */
module RunProjection {
  import opened Orders
  import opened Events
  import opened Books
  import opened Market
  import opened MarketLaws
  import opened Limit
  import opened LimitLaws
  import opened LimitTheorems
  import opened Trades
  import opened Runs
  import opened Projection
  import opened ProjectionTheorems

  /** What the engine has filled of an order: what the last fill that touches it left, as maker or as taker,
      and `x` if there is none. */
  function LastFilled(x: Decimal, id: ID, fills: seq<Fill>): Decimal {
    if fills == [] then x
    else
      var last := fills[|fills| - 1];
      if last.maker.id == id then last.MakerAfter().filled
      else if last.taker.id == id then last.TakerAfter().filled
      else LastFilled(x, id, fills[..|fills| - 1])
  }

  lemma {:induction false} LastFilledConcat(x: Decimal, id: ID, a: seq<Fill>, b: seq<Fill>)
    ensures LastFilled(x, id, a + b) == LastFilled(LastFilled(x, id, a), id, b)
  {
    if b == [] {
      assert a + b == a;
    } else {
      assert (a + b)[..|a + b| - 1] == a + b[..|b| - 1];
      LastFilledConcat(x, id, a, b[..|b| - 1]);
    }
  }

  lemma {:induction false} Untouched(x: Decimal, id: ID, fills: seq<Fill>)
    requires forall f :: f in fills ==> f.maker.id != id && f.taker.id != id
    ensures LastFilled(x, id, fills) == x
  {
    if fills != [] {
      var last := fills[|fills| - 1];
      assert last in fills;
      Untouched(x, id, fills[..|fills| - 1]);
    }
  }

  /** A maker of one call is filled by it once. */
  lemma {:induction false} TouchedOnce(x: Decimal, fills: seq<Fill>, f: Fill)
    requires f in fills && Unique(MakerIDs(fills)) && forall g :: g in fills ==> g.taker.id != f.maker.id
    ensures LastFilled(x, f.maker.id, fills) == f.MakerAfter().filled
  {
    var n := |fills| - 1;
    var last := fills[n];
    assert fills == fills[..n] + [last];
    MakerIDsConcat(fills[..n], [last]);
    assert MakerIDs([last]) == multiset{last.maker.id};
    assert MakerIDs(fills)[last.maker.id] == MakerIDs(fills[..n])[last.maker.id] + 1;
    if last.maker.id == f.maker.id {
      if f in fills[..n] {
        MakerIDsMember(fills[..n], f);
        assert false;
      }
    } else {
      assert last in fills && f in fills[..n];
      SubsetUnique(MakerIDs(fills[..n]), MakerIDs(fills));
      TouchedOnce(x, fills[..n], f);
    }
  }

  lemma MakerOf(fills: seq<Fill>, id: ID) returns (f: Fill)
    requires id in MakerIDs(fills)
    ensures f in fills && f.maker.id == id
  {
    if fills[0].maker.id == id {
      f := fills[0];
    } else {
      f := MakerOf(fills[1..], id);
    }
  }

  /** A call fills its taker last: the taker it ends with is the one its last fill leaves. */
  predicate EndsWith(fills: seq<Fill>, taker: OrderState, end: OrderState) {
    if fills == [] then end == taker else end == fills[|fills| - 1].TakerAfter()
  }

  lemma EndsWithConcat(a: seq<Fill>, b: seq<Fill>, taker: OrderState, mid: OrderState, end: OrderState)
    requires EndsWith(a, taker, mid) && EndsWith(b, mid, end)
    ensures EndsWith(a + b, taker, end)
  {
    if b == [] {
      assert a + b == a;
    }
  }

  lemma {:induction false} SweepLevelLast(orders: seq<OrderState>, taker: OrderState)
    ensures var s := SweepLevel(orders, taker); EndsWith(s.fills, taker, s.taker)
  {
    if orders != [] && !SkipsLevel(orders[0], taker) {
      var fill := Fill(orders[0], taker, Min(orders[0].Remaining(), taker.Remaining()));
      if fill.qty == 0.0 {
        SweepLevelLast(orders[1..], taker);
      } else if !fill.TakerFilled() {
        SweepLevelLast(orders[1..], fill.TakerAfter());
      }
    }
  }

  lemma {:induction false} SweepSideLast(levels: seq<LevelState>, taker: OrderState)
    ensures var s := SweepSide(levels, taker); EndsWith(s.fills, taker, s.taker)
  {
    if levels != [] && Crosses(taker, levels[0].price) {
      SweepLevelLast(levels[0].orders, taker);
      var s := SweepLevel(levels[0].orders, taker);
      if !s.done {
        SweepSideLast(levels[1..], s.taker);
        var rest := SweepSide(levels[1..], s.taker);
        EndsWithConcat(s.fills, rest.fills, taker, s.taker, rest.taker);
      }
    }
  }

  /** All rows after one call. */
  ghost predicate Shows(before: Table, after: Table, fills: seq<Fill>) {
    && after.Keys == before.Keys
    && forall id :: id in before ==> after[id].filled == LastFilled(before[id].filled, id, fills)
  }

  lemma {:induction false} CallShows(before: Table, after: Table, fills: seq<Fill>, taker: OrderState, end: OrderState)
    requires RowsTold(before, after, fills, taker.id) && EndsWith(fills, taker, end) && end.id == taker.id
    requires Unique(MakerIDs(fills)) && taker.id !in MakerIDs(fills)
    requires forall f :: f in fills ==> f.taker.id == taker.id
    requires InSync(before, [taker]) && InSync(after, [end])
    ensures Shows(before, after, fills)
  {
    assert taker in [taker] && end in [end];
    forall id | id in before ensures after[id].filled == LastFilled(before[id].filled, id, fills) {
      if id == taker.id {
        if fills != [] {
          MakerIDsMember(fills, fills[|fills| - 1]);
        }
      } else if id in MakerIDs(fills) {
        var f := MakerOf(fills, id);
        TouchedOnce(before[id].filled, fills, f);
      } else {
        forall f | f in fills ensures f.maker.id != id {
          MakerIDsMember(fills, f);
        }
        Untouched(before[id].filled, id, fills);
      }
    }
  }

  lemma {:induction false} MarketShows(table: Table, book: BookState, taker: OrderState)
    requires WellFormed(book) && taker.InRange() && taker.id !in BookIDs(book) && InSync(table, [taker])
    ensures var r := MarketResult(book, taker); Shows(table, Replay(table, r.orderEvents), r.fills)
  {
    var levels, r := book.Opposite(taker.side), MarketResult(book, taker);
    MarketTells(table, book, taker);
    MarketMakers(book, taker);
    SweepSideLast(levels, taker);
    GoodIsRough(Other(taker.side), levels);
    SweepSideConserves(levels, taker);
    forall f | f in r.fills ensures f.taker.id == taker.id {
      var level := SweepSideFills(levels, taker, taker, f);
    }
    CallShows(table, Replay(table, r.orderEvents), r.fills, taker, r.taker);
  }

  lemma LimitMakers(book: BookState, taker: OrderState)
    requires WellFormed(book) && taker.InRange() && taker.id !in BookIDs(book)
    ensures var r := LimitResult(book, taker);
      && Unique(MakerIDs(r.fills)) && taker.id !in MakerIDs(r.fills) && EndsWith(r.fills, taker, r.taker)
      && r.taker.id == taker.id && forall f :: f in r.fills ==> f.taker.id == taker.id
  {
    SidesApart(book, taker);
    if Meets(book, taker) {
      LevelMakers(book, taker);
      LevelTaker(book, taker);
    }
  }

  lemma {:induction false} LimitShows(table: Table, book: BookState, taker: OrderState)
    requires WellFormed(book) && taker.InRange() && taker.id !in BookIDs(book) && InSync(table, [taker])
    ensures var r := LimitResult(book, taker); Shows(table, Replay(table, r.orderEvents), r.fills)
  {
    var r := LimitResult(book, taker);
    LimitTells(table, book, taker);
    LimitMakers(book, taker);
    CallShows(table, Replay(table, r.orderEvents), r.fills, taker, r.taker);
  }

  // ---------- whole runs ----------

  function StepFills(book: BookState, step: Step): seq<Fill> {
    match step
    case LimitStep(order) => LimitResult(book, order).fills
    case MarketStep(order) => MarketResult(book, order).fills
    case RemoveStep(_, _, _) => []
  }

  /** All fills of a run, in order. */
  function RunFills(book: BookState, steps: seq<Step>): seq<Fill>
    decreases steps
  {
    if steps == [] then [] else StepFills(book, steps[0]) + RunFills(Apply(book, steps[0]).book, steps[1..])
  }

  lemma {:induction false} StepShows(table: Table, book: BookState, steps: seq<Step>)
    requires steps != [] && WellFormed(book) && FreshOrders(book, steps) && TakersInSync(table, steps)
    ensures var after := Replay(table, Apply(book, steps[0]).orderEvents);
      Shows(table, after, StepFills(book, steps[0])) && TakersInSync(after, steps[1..])
  {
    var step, after := steps[0], Replay(table, Apply(book, steps[0]).orderEvents);
    assert step in steps;
    match step {
      case LimitStep(taker) =>
        FreshTaker(book, steps);
        LimitTells(table, book, taker);
        LimitShows(table, book, taker);
        LaterRows(table, after, book, steps, LimitResult(book, taker).fills);
      case MarketStep(taker) =>
        FreshTaker(book, steps);
        MarketTells(table, book, taker);
        MarketShows(table, book, taker);
        LaterRows(table, after, book, steps, MarketResult(book, taker).fills);
      case RemoveStep(side, id, price) =>
        assert forall s :: s in steps[1..] ==> s in steps;
    }
  }

  lemma ShowsTrans(a: Table, b: Table, c: Table, one: seq<Fill>, two: seq<Fill>)
    requires Shows(a, b, one) && Shows(b, c, two)
    ensures Shows(a, c, one + two)
  {
    forall id | id in a ensures c[id].filled == LastFilled(a[id].filled, id, one + two) {
      LastFilledConcat(a[id].filled, id, one, two);
    }
  }

  /** Replaying everything a run published, in order, leaves every row with what the last fill of the run
      that touched its order left of it, whether the order still rests, has left, or never rested. */
  lemma {:induction false} RunShowsLast(table: Table, book: BookState, steps: seq<Step>)
    requires WellFormed(book) && FreshOrders(book, steps) && TakersInSync(table, steps)
    ensures Shows(table, Replay(table, Run(book, steps).orderEvents), RunFills(book, steps))
    decreases steps
  {
    if steps != [] {
      var first := Apply(book, steps[0]);
      var mid := Replay(table, first.orderEvents);
      StepShows(table, book, steps);
      StepKeeps(book, steps);
      RunShowsLast(mid, first.book, steps[1..]);
      ReplayConcat(table, first.orderEvents, Run(first.book, steps[1..]).orderEvents);
      ShowsTrans(table, mid, Replay(table, Run(book, steps).orderEvents),
                 StepFills(book, steps[0]), RunFills(first.book, steps[1..]));
    }
  }
}
