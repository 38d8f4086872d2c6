/** Replaying what was published gives the table the engine's own figures, call by call and over whole runs. */
module ProjectionTheorems {
  import opened Orders
  import opened Events
  import opened Books
  import opened Market
  import opened MarketLaws
  import opened Limit
  import opened LimitLaws
  import opened LimitPromises
  import opened LimitTheorems
  import opened Trades
  import opened Removal
  import opened Runs
  import opened Projection

  /** `after` differs from `before` only in the rows of the makers, which are right, and the taker. */
  ghost predicate RowsTold(before: Table, after: Table, fills: seq<Fill>, taker: ID) {
    && after.Keys == before.Keys
    && (forall f :: f in fills && f.maker.id in before ==> after[f.maker.id] == MakerRow(f))
    && (forall id :: id in before && id !in MakerIDs(fills) && id != taker ==> after[id] == before[id])
  }

  lemma {:induction false} MarketRowsTold(table: Table, fills: seq<Fill>, last: OrderEvent, taker: ID)
    requires Unique(MakerIDs(fills)) && taker !in MakerIDs(fills) && last.id == taker
    ensures RowsTold(table, Replay(table, MakerEvents(fills) + [last]), fills, taker)
    ensures taker in table ==> Replay(table, MakerEvents(fills) + [last])[taker] == Row(last.status, last.filled)
  {
    var mid := Replay(table, MakerEvents(fills));
    ReplayConcat(table, MakerEvents(fills), [last]);
    assert [last][1..] == [] && Replay(mid, [last]) == Replay(Update(mid, last), []);
    ReplayRows(table, MakerEvents(fills));
    forall f | f in fills && f.maker.id in table ensures mid[f.maker.id] == MakerRow(f) && f.maker.id != taker {
      MarketMakerRow(table, fills, f);
      MakerIDsMember(fills, f);
    }
    forall id | id in table && id !in MakerIDs(fills) ensures mid[id] == table[id] {
      MakerEventIDs(fills, id);
      ReplayKeeps(table, MakerEvents(fills), id);
    }
  }

  lemma {:induction false} LimitRowsTold(table: Table, fills: seq<Fill>, taker: ID)
    requires Unique(MakerIDs(fills)) && taker !in MakerIDs(fills) && forall f :: f in fills ==> f.taker.id == taker
    ensures RowsTold(table, Replay(table, PairedEvents(fills)), fills, taker)
  {
    ReplayRows(table, PairedEvents(fills));
    forall f | f in fills && f.maker.id in table
      ensures Replay(table, PairedEvents(fills))[f.maker.id] == MakerRow(f)
    {
      LimitMakerRow(table, fills, f, taker);
    }
    forall id | id in table && id !in MakerIDs(fills) && id != taker
      ensures Replay(table, PairedEvents(fills))[id] == table[id]
    {
      PairedEventIDs(fills, id);
      ReplayKeeps(table, PairedEvents(fills), id);
    }
  }

  /** Every row of these orders shows what the engine has filled. */
  predicate InSync(table: Table, orders: seq<OrderState>) {
    forall o :: o in orders && o.id in table ==> table[o.id].filled == o.filled
  }

  predicate BookInSync(table: Table, book: BookState) {
    InSync(table, AllOrders(book.bids)) && InSync(table, AllOrders(book.asks))
  }

  lemma {:induction false} ExplainedInSync(before: Table, after: Table, orders: seq<OrderState>, fills: seq<Fill>,
                                           taker: ID, o: OrderState)
    requires InSync(before, orders) && RowsTold(before, after, fills, taker)
    requires Explained(o, orders, fills) && taker !in IDs(orders)
    ensures o.id in after ==> after[o.id].filled == o.filled
  {
    if f :| f in fills && o == f.MakerAfter() {
    } else {
      IDsMember(orders, o.id);
      assert HasID(orders, o.id);
    }
  }

  lemma {:induction false} UntouchedInSync(before: Table, after: Table, orders: seq<OrderState>, fills: seq<Fill>,
                                           taker: ID)
    requires InSync(before, orders) && RowsTold(before, after, fills, taker)
    requires taker !in IDs(orders) && forall id :: id in MakerIDs(fills) ==> id !in IDs(orders)
    ensures InSync(after, orders)
  {
    forall o | o in orders && o.id in after ensures after[o.id].filled == o.filled {
      assert HasID(orders, o.id);
      IDsMember(orders, o.id);
    }
  }

  // ---------- market ----------

  lemma {:induction false} SweepSideMakers(levels: seq<LevelState>, taker: OrderState)
    ensures MakerIDs(SweepSide(levels, taker).fills) <= SideIDs(levels)
  {
    if levels != [] && Crosses(taker, levels[0].price) {
      var s := SweepLevel(levels[0].orders, taker);
      SweepLevelMakers(levels[0].orders, taker);
      if !s.done {
        SweepSideMakers(levels[1..], s.taker);
        MakerIDsConcat(s.fills, SweepSide(levels[1..], s.taker).fills);
      }
    }
  }

  lemma {:induction false} ExplainedWider(o: OrderState, own: seq<OrderState>, ownFills: seq<Fill>,
                                          all: seq<OrderState>, allFills: seq<Fill>)
    requires Explained(o, own, ownFills)
    requires forall x :: x in own ==> x in all
    requires forall f :: f in ownFills ==> f in allFills
    requires o in own && o.id in MakerIDs(allFills) ==> o.id in MakerIDs(ownFills)
    ensures Explained(o, all, allFills)
  {
  }

  lemma {:induction false} SweepSideExplains(levels: seq<LevelState>, taker: OrderState, o: OrderState)
    requires Unique(SideIDs(levels)) && o in AllOrders(SweepSide(levels, taker).levels)
    ensures Explained(o, AllOrders(levels), SweepSide(levels, taker).fills)
  {
    if levels != [] && Crosses(taker, levels[0].price) {
      var orders := levels[0].orders;
      var head, tail := IDs(orders), SideIDs(levels[1..]);
      var s := SweepLevel(orders, taker);
      var rest := if s.done then SideSweep(levels[1..], s.taker, [], true, false) else SweepSide(levels[1..], s.taker);
      SubsetUnique(head, head + tail);
      SubsetUnique(tail, head + tail);
      SweepLevelMakers(orders, taker);
      if !s.done {
        SweepSideMakers(levels[1..], s.taker);
      }
      MakerIDsConcat(s.fills, rest.fills);
      assert SweepSide(levels, taker).fills == s.fills + rest.fills;
      assert SweepSide(levels, taker).levels[1..] == rest.levels;
      assert forall x :: (head + tail)[x] == head[x] + tail[x];
      if o in s.orders {
        SweepLevelExplains(orders, taker, o);
        IDsMember(orders, o.id);
        assert o in orders ==> HasID(orders, o.id);
        ExplainedWider(o, orders, s.fills, AllOrders(levels), s.fills + rest.fills);
      } else {
        if !s.done {
          SweepSideExplains(levels[1..], s.taker, o);
        }
        IDsMember(AllOrders(levels[1..]), o.id);
        AllOrdersIDs(levels[1..]);
        assert o in AllOrders(levels[1..]) ==> HasID(AllOrders(levels[1..]), o.id);
        ExplainedWider(o, AllOrders(levels[1..]), rest.fills, AllOrders(levels), s.fills + rest.fills);
      }
    }
  }

  /** The two sides and the taker share no ID. */
  lemma SidesApart(book: BookState, taker: OrderState)
    requires Unique(BookIDs(book)) && taker.id !in BookIDs(book)
    ensures var own, opposite := book.Own(taker.side), book.Opposite(taker.side);
      && Unique(SideIDs(own)) && Unique(SideIDs(opposite))
      && IDs(AllOrders(own)) == SideIDs(own) && IDs(AllOrders(opposite)) == SideIDs(opposite)
      && taker.id !in SideIDs(own) && taker.id !in SideIDs(opposite)
      && forall id :: id in SideIDs(opposite) ==> id !in SideIDs(own)
  {
    var own, opposite := SideIDs(book.Own(taker.side)), SideIDs(book.Opposite(taker.side));
    BookIDsOf(book, taker.side);
    SubsetUnique(own, BookIDs(book));
    SubsetUnique(opposite, BookIDs(book));
    AllOrdersIDs(book.Own(taker.side));
    AllOrdersIDs(book.Opposite(taker.side));
    assert forall id :: (opposite + own)[id] == opposite[id] + own[id];
  }

  lemma MarketMakers(book: BookState, taker: OrderState)
    requires WellFormed(book) && taker.id !in BookIDs(book)
    ensures var fills := MarketResult(book, taker).fills;
      && MakerIDs(fills) <= SideIDs(book.Opposite(taker.side)) <= BookIDs(book)
      && Unique(MakerIDs(fills)) && taker.id !in MakerIDs(fills)
  {
    var levels := book.Opposite(taker.side);
    SidesApart(book, taker);
    BookIDsOf(book, taker.side);
    SweepSideMakers(levels, taker);
    SubsetUnique(MakerIDs(SweepSide(levels, taker).fills), SideIDs(levels));
  }

  /** The makers of a market order, and what its events tell the table. */
  lemma {:induction false} MarketTells(table: Table, book: BookState, taker: OrderState)
    requires WellFormed(book) && taker.InRange() && taker.id !in BookIDs(book)
    ensures var r := MarketResult(book, taker);
      && MakerIDs(r.fills) <= SideIDs(book.Opposite(taker.side)) <= BookIDs(book)
      && RowsTold(table, Replay(table, r.orderEvents), r.fills, taker.id)
      && (InSync(table, [taker]) ==> InSync(Replay(table, r.orderEvents), [r.taker]))
  {
    var levels := book.Opposite(taker.side);
    MarketMakers(book, taker);
    assert taker in [taker];
    if levels != [] {
      var s := SweepSide(levels, taker);
      GoodIsRough(Other(taker.side), levels);
      SweepSideConserves(levels, taker);
      if s.OrderEvents() != [] {
        MarketRowsTold(table, s.fills, s.TakerEvent(), taker.id);
      }
    }
  }

  /** After a market order the table agrees with the engine on every order in the book. */
  lemma {:induction false} MarketInSync(table: Table, book: BookState, taker: OrderState)
    requires WellFormed(book) && taker.InRange() && taker.id !in BookIDs(book)
    requires BookInSync(table, book)
    ensures BookInSync(Replay(table, MarketResult(book, taker).orderEvents), MarketResult(book, taker).book)
  {
    var levels := book.Opposite(taker.side);
    var after := Replay(table, MarketResult(book, taker).orderEvents);
    SidesApart(book, taker);
    MarketTells(table, book, taker);
    if levels != [] {
      var s := SweepSide(levels, taker);
      DropEmptyKeeps(s.levels);
      forall o | o in AllOrders(s.levels) && o.id in after ensures after[o.id].filled == o.filled {
        SweepSideExplains(levels, taker, o);
        ExplainedInSync(table, after, AllOrders(levels), s.fills, taker.id, o);
      }
      UntouchedInSync(table, after, AllOrders(book.Own(taker.side)), s.fills, taker.id);
    }
  }

  // ---------- limit ----------

  lemma AfterPopsOrders(levels: seq<LevelState>, orders: seq<OrderState>, pops: nat, o: OrderState)
    requires levels != [] && pops <= |orders| && o in AllOrders(AfterPops(levels, orders, pops))
    ensures o in orders || o in AllOrders(levels[1..])
  {
    var after := AfterPops(levels, orders, pops);
    if after != levels[1..] {
      assert after[1..] == levels[1..];
    }
  }

  lemma {:induction false} FillLevelLast(orders: seq<OrderState>, taker: OrderState)
    ensures var s := FillLevel(orders, taker);
      if s.fills == [] then s.taker == taker else s.taker == s.fills[|s.fills| - 1].TakerAfter()
  {
    if orders != [] {
      var fill := Fill(orders[0], taker, Min(orders[0].Remaining(), taker.Remaining()));
      if orders[0].userID == taker.userID || fill.qty == 0.0 {
        FillLevelLast(orders[1..], taker);
      } else if !fill.TakerFilled() {
        FillLevelLast(orders[1..], fill.TakerAfter());
      }
    }
  }

  lemma {:induction false} PlaceOrders(side: OrderSide, levels: seq<LevelState>, o: OrderState, x: OrderState)
    requires x in AllOrders(Place(side, levels, o))
    ensures x in AllOrders(levels) || x == o
  {
    if levels == [] || Better(side, o.price, levels[0].price) {
      assert Place(side, levels, o)[1..] == levels;
    } else if levels[0].price == o.price {
      assert Place(side, levels, o)[1..] == levels[1..];
    } else {
      assert Place(side, levels, o)[1..] == Place(side, levels[1..], o);
      if x !in levels[0].orders {
        PlaceOrders(side, levels[1..], o, x);
      }
    }
  }

  /** The makers of a limit order, and what its events tell the table. */
  lemma {:induction false} LimitTells(table: Table, book: BookState, taker: OrderState)
    requires WellFormed(book) && taker.InRange() && taker.id !in BookIDs(book)
    ensures var r := LimitResult(book, taker);
      && MakerIDs(r.fills) <= SideIDs(book.Opposite(taker.side)) <= BookIDs(book)
      && RowsTold(table, Replay(table, r.orderEvents), r.fills, taker.id)
      && (InSync(table, [taker]) ==> InSync(Replay(table, r.orderEvents), [r.taker]))
  {
    var r := LimitResult(book, taker);
    SidesApart(book, taker);
    BookIDsOf(book, taker.side);
    if Meets(book, taker) {
      LimitTellsFills(table, book, taker);
    } else {
      LimitTellsRefusal(table, book, taker);
    }
  }

  /** A refused order changes no fill. */
  lemma {:induction false} LimitTellsRefusal(table: Table, book: BookState, taker: OrderState)
    requires !Meets(book, taker)
    ensures var r := LimitResult(book, taker);
      && r.fills == [] && MakerIDs(r.fills) == multiset{}
      && RowsTold(table, Replay(table, r.orderEvents), [], taker.id)
      && (InSync(table, [taker]) ==> InSync(Replay(table, r.orderEvents), [r.taker]))
  {
    var r := LimitResult(book, taker);
    assert taker in [taker];
    if r.orderEvents != [] {
      var e := r.orderEvents[0];
      assert r.orderEvents == [e] && [e][1..] == [];
      assert Replay(table, [e]) == Replay(Update(table, e), []);
    }
  }

  /** The fills of a limit order have distinct makers at the best level, and the taker of the call. */
  lemma {:induction false} LevelMakers(book: BookState, taker: OrderState)
    requires WellFormed(book) && taker.InRange() && taker.id !in SideIDs(book.Opposite(taker.side))
    requires Meets(book, taker)
    ensures var orders := book.Opposite(taker.side)[0].orders;
      var fills := FillLevel(orders, taker).fills;
      && MakerIDs(fills) <= IDs(orders) && Unique(MakerIDs(fills)) && taker.id !in MakerIDs(fills)
      && forall f :: f in fills ==> f.taker.id == taker.id
  {
    var orders := book.Opposite(taker.side)[0].orders;
    var fills := FillLevel(orders, taker).fills;
    BestLevelFacts(book, taker);
    FillLevelMakers(orders, taker);
    SubsetUnique(MakerIDs(fills), IDs(orders));
    forall f | f in fills ensures f.taker.id == taker.id {
      FillLevelFills(orders, taker, taker, f);
    }
  }

  /** The pass ends with the taker its last fill leaves, if it filled anything. */
  lemma {:induction false} LevelTaker(book: BookState, taker: OrderState)
    requires WellFormed(book) && taker.InRange() && Meets(book, taker)
    ensures var s := FillLevel(book.Opposite(taker.side)[0].orders, taker);
      && s.taker.id == taker.id
      && (if s.fills == [] then s.taker == taker else s.taker == s.fills[|s.fills| - 1].TakerAfter())
  {
    var orders := book.Opposite(taker.side)[0].orders;
    BestLevelFacts(book, taker);
    FillLevelLast(orders, taker);
    FillLevelTaker(orders, taker);
  }

  /** What such fills tell the table when they end with the taker as it is at the end. */
  lemma {:induction false} FillsTell(table: Table, fills: seq<Fill>, taker: OrderState, end: OrderState)
    requires Unique(MakerIDs(fills)) && taker.id !in MakerIDs(fills) && end.id == taker.id
    requires forall f :: f in fills ==> f.taker.id == taker.id
    requires if fills == [] then end == taker else end == fills[|fills| - 1].TakerAfter()
    ensures RowsTold(table, Replay(table, PairedEvents(fills)), fills, taker.id)
    ensures InSync(table, [taker]) ==> InSync(Replay(table, PairedEvents(fills)), [end])
  {
    LimitRowsTold(table, fills, taker.id);
    assert taker in [taker];
    if fills != [] && taker.id in table {
      LimitTakerRow(table, fills, taker.id);
    }
  }

  lemma {:induction false} LimitTellsFills(table: Table, book: BookState, taker: OrderState)
    requires WellFormed(book) && taker.InRange() && taker.id !in SideIDs(book.Opposite(taker.side))
    requires Meets(book, taker)
    ensures var r := LimitResult(book, taker);
      && MakerIDs(r.fills) <= IDs(book.Opposite(taker.side)[0].orders)
      && RowsTold(table, Replay(table, r.orderEvents), r.fills, taker.id)
      && (InSync(table, [taker]) ==> InSync(Replay(table, r.orderEvents), [r.taker]))
  {
    var s := FillLevel(book.Opposite(taker.side)[0].orders, taker);
    LevelMakers(book, taker);
    LevelTaker(book, taker);
    FillsTell(table, s.fills, taker, s.taker);
  }

  lemma LimitOppositeInSync(table: Table, after: Table, book: BookState, taker: OrderState)
    requires WellFormed(book) && taker.InRange() && taker.id !in BookIDs(book) && Meets(book, taker)
    requires BookInSync(table, book) && RowsTold(table, after, LimitResult(book, taker).fills, taker.id)
    ensures InSync(after, AllOrders(LimitResult(book, taker).book.Opposite(taker.side)))
  {
    var levels := book.Opposite(taker.side);
    var orders, rest := levels[0].orders, AllOrders(levels[1..]);
    var s := FillLevel(orders, taker);
    SidesApart(book, taker);
    BestLevelFacts(book, taker);
    FillLevelMakers(orders, taker);
    var head, tail := IDs(orders), SideIDs(levels[1..]);
    assert forall x :: (head + tail)[x] == head[x] + tail[x];
    AllOrdersIDs(levels[1..]);
    UntouchedInSync(table, after, rest, s.fills, taker.id);
    forall o | o in AllOrders(AfterPops(levels, s.orders, s.pops)) && o.id in after
      ensures after[o.id].filled == o.filled
    {
      AfterPopsOrders(levels, s.orders, s.pops, o);
      if o in s.orders {
        FillLevelExplains(orders, taker, o);
        ExplainedInSync(table, after, orders, s.fills, taker.id, o);
      }
    }
  }

  lemma LimitOwnInSync(table: Table, after: Table, book: BookState, taker: OrderState)
    requires WellFormed(book) && taker.InRange() && taker.id !in BookIDs(book)
    requires BookInSync(table, book) && RowsTold(table, after, LimitResult(book, taker).fills, taker.id)
    requires MakerIDs(LimitResult(book, taker).fills) <= SideIDs(book.Opposite(taker.side))
    requires InSync(after, [LimitResult(book, taker).taker])
    ensures InSync(after, AllOrders(LimitResult(book, taker).book.Own(taker.side)))
  {
    var r := LimitResult(book, taker);
    SidesApart(book, taker);
    UntouchedInSync(table, after, AllOrders(book.Own(taker.side)), r.fills, taker.id);
    LimitRestsIff(book, taker);
    forall o | o in AllOrders(r.book.Own(taker.side)) && o.id in after ensures after[o.id].filled == o.filled {
      if Rests(book, taker) {
        PlaceOrders(taker.side, book.Own(taker.side), r.taker, o);
      }
      assert r.taker in [r.taker];
    }
  }

  /** After a limit order the table agrees with the engine on every order in the book,
      even when the wrong order was taken off the book. */
  lemma {:induction false} LimitInSync(table: Table, book: BookState, taker: OrderState)
    requires WellFormed(book) && taker.InRange() && taker.id !in BookIDs(book)
    requires BookInSync(table, book) && InSync(table, [taker])
    ensures BookInSync(Replay(table, LimitResult(book, taker).orderEvents), LimitResult(book, taker).book)
  {
    var r := LimitResult(book, taker);
    var after := Replay(table, r.orderEvents);
    LimitTells(table, book, taker);
    LimitOwnInSync(table, after, book, taker);
    if Meets(book, taker) {
      LimitOppositeInSync(table, after, book, taker);
    } else {
      SidesApart(book, taker);
      UntouchedInSync(table, after, AllOrders(book.Opposite(taker.side)), [], taker.id);
    }
  }

  // ---------- whole runs ----------

  predicate TakersInSync(table: Table, steps: seq<Step>) {
    forall s :: s in steps && s.Takes() ==> InSync(table, [s.order])
  }

  lemma LaterTaker(book: BookState, steps: seq<Step>, s: Step)
    requires steps != [] && s in steps[1..] && s.Takes() && FreshOrders(book, steps)
    ensures s.order.id !in BookIDs(book)
    ensures steps[0].Takes() ==> s.order.id != steps[0].order.id
  {
    TakerIDsMember(steps[1..], s);
    var id := s.order.id;
    assert (BookIDs(book) + TakerIDs(steps))[id] == BookIDs(book)[id] + TakerIDs(steps)[id];
    assert TakerIDs(steps)[id]
        == TakerIDs(steps[1..])[id] + if steps[0].Takes() && steps[0].order.id == id then 1 else 0;
  }

  lemma {:induction false} TakerIDsMember(steps: seq<Step>, s: Step)
    requires s in steps && s.Takes()
    ensures s.order.id in TakerIDs(steps)
  {
    if s != steps[0] {
      TakerIDsMember(steps[1..], s);
    }
  }

  /** One step keeps the table and the engine in agreement. */
  lemma {:induction false} StepInSync(table: Table, book: BookState, steps: seq<Step>)
    requires steps != [] && WellFormed(book) && FreshOrders(book, steps)
    requires BookInSync(table, book) && TakersInSync(table, steps)
    ensures var first := Apply(book, steps[0]);
      var after := Replay(table, first.orderEvents);
      BookInSync(after, first.book) && TakersInSync(after, steps[1..])
  {
    var step, first := steps[0], Apply(book, steps[0]);
    var after := Replay(table, first.orderEvents);
    assert step in steps;
    match step {
      case LimitStep(taker) =>
        FreshTaker(book, steps);
        LimitTells(table, book, taker);
        LimitInSync(table, book, taker);
        LaterRows(table, after, book, steps, LimitResult(book, taker).fills);
      case MarketStep(taker) =>
        FreshTaker(book, steps);
        MarketTells(table, book, taker);
        MarketInSync(table, book, taker);
        LaterRows(table, after, book, steps, MarketResult(book, taker).fills);
      case RemoveStep(side, id, price) =>
        RemovalInSync(table, book, side, id, price);
    }
  }

  lemma {:induction false} LaterRows(before: Table, after: Table, book: BookState, steps: seq<Step>, fills: seq<Fill>)
    requires steps != [] && steps[0].Takes() && FreshOrders(book, steps) && TakersInSync(before, steps)
    requires RowsTold(before, after, fills, steps[0].order.id) && MakerIDs(fills) <= BookIDs(book)
    ensures TakersInSync(after, steps[1..])
  {
    forall s | s in steps[1..] && s.Takes() ensures InSync(after, [s.order]) {
      LaterTaker(book, steps, s);
      assert s in steps && s.order in [s.order];
    }
  }

  lemma RemovalInSync(table: Table, book: BookState, side: OrderSide, id: ID, price: Decimal)
    requires WellFormed(book) && BookInSync(table, book)
    ensures BookInSync(table, Removed(book, side, id, price))
  {
    RemovalKeeps(book, side, id, price);
    var after := Removed(book, side, id, price);
    forall o | o in AllOrders(after.Own(side)) && o.id in table ensures table[o.id].filled == o.filled {
      AllOrdersMember(after.Own(side), o);
    }
  }

  /** Replaying everything a run published, in order, leaves the table showing, for every order in the
      book, exactly what the engine has filled. */
  lemma {:induction false} RunInSync(table: Table, book: BookState, steps: seq<Step>)
    requires WellFormed(book) && FreshOrders(book, steps)
    requires BookInSync(table, book) && TakersInSync(table, steps)
    ensures var r := Run(book, steps); BookInSync(Replay(table, r.orderEvents), r.book)
    decreases steps
  {
    if steps != [] {
      var first := Apply(book, steps[0]);
      StepInSync(table, book, steps);
      StepKeeps(book, steps);
      RunInSync(Replay(table, first.orderEvents), first.book, steps[1..]);
      ReplayConcat(table, first.orderEvents, Run(first.book, steps[1..]).orderEvents);
    }
  }

  // ---------- the status column ----------

  lemma {:induction false} FilledMakersConcat(a: seq<Fill>, b: seq<Fill>)
    ensures FilledMakers(a + b) == FilledMakers(a) + FilledMakers(b)
  {
    if a == [] {
      assert a + b == b;
    } else {
      assert (a + b)[1..] == a[1..] + b;
      FilledMakersConcat(a[1..], b);
    }
  }

  lemma {:induction false} FilledAmongMakers(fills: seq<Fill>)
    ensures FilledMakers(fills) <= MakerIDs(fills)
  {
    if fills != [] {
      FilledAmongMakers(fills[1..]);
    }
  }

  lemma {:induction false} FilledMakersMember(fills: seq<Fill>, f: Fill)
    requires f in fills && Unique(MakerIDs(fills))
    ensures f.maker.id in FilledMakers(fills) <==> f.MakerFilled()
  {
    var tail := fills[1..];
    SubsetUnique(MakerIDs(tail), MakerIDs(fills));
    FilledAmongMakers(tail);
    assert MakerIDs(fills)[fills[0].maker.id] == 1 + MakerIDs(tail)[fills[0].maker.id];
    if f != fills[0] {
      FilledMakersMember(tail, f);
      MakerIDsMember(tail, f);
    }
  }

  /** A match at the head of a queue: what it takes out, if what is behind loses just what it fills. */
  lemma {:induction false} HeadRemoves(fill: Fill, behind: seq<OrderState>, rest: seq<OrderState>, fills: seq<Fill>)
    requires IDs(behind) == IDs(rest) + FilledMakers(fills)
    ensures var kept := if fill.MakerFilled() then [] else [fill.MakerAfter()];
      multiset{fill.maker.id} + IDs(behind) == IDs(kept + rest) + FilledMakers([fill] + fills)
  {
    assert ([fill] + fills)[1..] == fills;
    if fill.MakerFilled() {
      assert [] + rest == rest;
    } else {
      assert ([fill.MakerAfter()] + rest)[1..] == rest;
    }
  }

  lemma {:induction false} SweepLevelRemoves(orders: seq<OrderState>, taker: OrderState)
    ensures var s := SweepLevel(orders, taker); IDs(orders) == IDs(s.orders) + FilledMakers(s.fills)
  {
    if orders != [] && !SkipsLevel(orders[0], taker) {
      var fill := Fill(orders[0], taker, Min(orders[0].Remaining(), taker.Remaining()));
      if fill.qty == 0.0 {
        SweepLevelRemoves(orders[1..], taker);
        assert ([orders[0]] + SweepLevel(orders[1..], taker).orders)[1..] == SweepLevel(orders[1..], taker).orders;
      } else if fill.TakerFilled() {
        HeadRemoves(fill, orders[1..], orders[1..], []);
        assert [fill] + [] == [fill];
      } else {
        var rest := SweepLevel(orders[1..], fill.TakerAfter());
        SweepLevelRemoves(orders[1..], fill.TakerAfter());
        HeadRemoves(fill, orders[1..], rest.orders, rest.fills);
      }
    }
  }

  lemma {:induction false} SweepSideRemoves(levels: seq<LevelState>, taker: OrderState)
    ensures var s := SweepSide(levels, taker); SideIDs(levels) == SideIDs(s.levels) + FilledMakers(s.fills)
  {
    if levels != [] && Crosses(taker, levels[0].price) {
      var s := SweepLevel(levels[0].orders, taker);
      var level := levels[0].(orders := s.orders);
      SweepLevelRemoves(levels[0].orders, taker);
      if s.done {
        assert ([level] + levels[1..])[1..] == levels[1..];
        SumSwap(IDs(s.orders), FilledMakers(s.fills), SideIDs(levels[1..]));
      } else {
        SweepSideRemoves(levels[1..], s.taker);
        var rest := SweepSide(levels[1..], s.taker);
        FilledMakersConcat(s.fills, rest.fills);
        assert ([level] + rest.levels)[1..] == rest.levels;
        SumPairs(IDs(s.orders), FilledMakers(s.fills), SideIDs(rest.levels), FilledMakers(rest.fills));
      }
    }
  }

  lemma SumPairs(a: multiset<ID>, b: multiset<ID>, c: multiset<ID>, d: multiset<ID>)
    ensures (a + b) + (c + d) == (a + c) + (b + d)
  {
  }

  /** A market order takes out of the book exactly the makers it fills. */
  lemma MarketRemovesFilled(book: BookState, taker: OrderState)
    ensures var r := MarketResult(book, taker);
      SideIDs(book.Opposite(taker.side)) == SideIDs(r.book.Opposite(taker.side)) + FilledMakers(r.fills)
  {
    var levels := book.Opposite(taker.side);
    SweepSideRemoves(levels, taker);
    DropEmptyKeeps(SweepSide(levels, taker).levels);
  }

  lemma GoneIff(before: multiset<ID>, after: multiset<ID>, gone: multiset<ID>, id: ID)
    requires before == after + gone && Unique(before) && id in before
    ensures id in gone <==> id !in after
  {
    assert before[id] == after[id] + gone[id];
  }

  /** After a market order, a maker it touched reads "filled" exactly when it has left the book. */
  lemma {:induction false} MarketStatusTold(table: Table, book: BookState, taker: OrderState, f: Fill)
    requires WellFormed(book) && taker.InRange() && taker.id !in BookIDs(book)
    requires f in MarketResult(book, taker).fills && f.maker.id in table
    ensures var r := MarketResult(book, taker);
      var rows := Replay(table, r.orderEvents);
      && f.maker.id in rows
      && var row := rows[f.maker.id];
      && row.filled == f.MakerAfter().filled
      && (row.status == Filled <==> f.maker.id !in SideIDs(r.book.Opposite(taker.side)))
  {
    var r := MarketResult(book, taker);
    MarketTells(table, book, taker);
    SidesApart(book, taker);
    MarketRemovesFilled(book, taker);
    SubsetUnique(MakerIDs(r.fills), SideIDs(book.Opposite(taker.side)));
    MakerIDsMember(r.fills, f);
    FilledMakersMember(r.fills, f);
    GoneIff(SideIDs(book.Opposite(taker.side)), SideIDs(r.book.Opposite(taker.side)), FilledMakers(r.fills),
            f.maker.id);
  }

  /** Multisets of the same size, one without repetitions, are equal once it is inside the other. */
  lemma SameSize(a: multiset<ID>, b: multiset<ID>)
    requires |a| == |b| && Unique(b) && forall x :: x in b ==> x in a
    ensures a == b
  {
    assert b <= a by {
      forall x ensures b[x] <= a[x] {}
    }
    assert a == b + (a - b);
    assert |a - b| == 0;
  }

  /** After a limit order, "filled" means "has left the book" for every maker it touched
      if and only if it did not take a wrong order. */
  lemma {:induction false} LimitStatusIff(table: Table, book: BookState, taker: OrderState)
    requires WellFormed(book) && taker.InRange() && taker.id !in BookIDs(book)
    requires forall f :: f in LimitResult(book, taker).fills ==> f.maker.id in table
    ensures var r := LimitResult(book, taker);
      var rows := Replay(table, r.orderEvents);
      && rows.Keys == table.Keys
      && ((forall f :: f in r.fills ==>
             (rows[f.maker.id].status == Filled <==> f.maker.id !in SideIDs(r.book.Opposite(taker.side))))
          <==> !TakesWrongOrder(book, taker))
  {
    var r := LimitResult(book, taker);
    var before, after := SideIDs(book.Opposite(taker.side)), SideIDs(r.book.Opposite(taker.side));
    LimitTells(table, book, taker);
    SidesApart(book, taker);
    LimitRemovesFilledIff(book, taker);
    SubsetUnique(MakerIDs(r.fills), before);
    forall f | f in r.fills
      ensures Replay(table, r.orderEvents)[f.maker.id].status == Filled <==> f.maker.id in FilledMakers(r.fills)
      ensures f.maker.id in before
    {
      FilledMakersMember(r.fills, f);
      MakerIDsMember(r.fills, f);
    }
    if !TakesWrongOrder(book, taker) {
      forall f | f in r.fills ensures f.maker.id in FilledMakers(r.fills) <==> f.maker.id !in after {
        GoneIff(before, after, FilledMakers(r.fills), f.maker.id);
      }
    } else {
      var f := WrongOrderShows(book, taker);
    }
  }

  /** When a wrong order is taken, some filled maker stays behind in the book. */
  lemma WrongOrderShows(book: BookState, taker: OrderState) returns (f: Fill)
    requires WellFormed(book) && taker.InRange() && taker.id !in BookIDs(book) && TakesWrongOrder(book, taker)
    ensures var r := LimitResult(book, taker);
      f in r.fills && f.MakerFilled() && f.maker.id in SideIDs(r.book.Opposite(taker.side))
  {
    var orders := book.Opposite(taker.side)[0].orders;
    var s := FillLevel(orders, taker);
    var popped, filled := IDs(orders[..s.pops]), FilledMakers(s.fills);
    SidesApart(book, taker);
    BestLevelFacts(book, taker);
    PopsAreFillsIff(orders, taker);
    FilledTwoWays(orders, taker);
    CardinalIDs(orders[..s.pops]);
    FillLevelMakers(orders, taker);
    FilledAmongMakers(s.fills);
    SubsetUnique(filled, IDs(orders));
    if forall x :: x in filled ==> x in popped {
      SameSize(popped, filled);
    }
    var x :| x in filled && x !in popped;
    f := FilledMakerOf(s.fills, x);
    LimitOppositeIDs(book, taker);
    var left := SideIDs(LimitResult(book, taker).book.Opposite(taker.side));
    assert (left + popped)[x] == left[x] + popped[x];
    assert x in IDs(orders) && IDs(orders) <= SideIDs(book.Opposite(taker.side));
  }

  lemma FilledMakerOf(fills: seq<Fill>, id: ID) returns (f: Fill)
    requires id in FilledMakers(fills)
    ensures f in fills && f.MakerFilled() && f.maker.id == id
  {
    if fills[0].MakerFilled() && fills[0].maker.id == id {
      f := fills[0];
    } else {
      f := FilledMakerOf(fills[1..], id);
    }
  }
}
