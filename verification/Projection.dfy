/** The database a consumer builds by replaying the order events, last write wins
    (internal/adapter/repository/postgres/order_repo.go:40-48). */
module Projection {
  import opened Orders
  import opened Events
  import opened Books
  import opened Market
  import opened MarketLaws
  import opened Limit

  datatype Row = Row(status: OrderStatus, filled: Decimal)

  type Table = map<ID, Row>

  /** An update of a row that is not there changes nothing. */
  function Update(table: Table, e: OrderEvent): Table {
    if e.id in table then table[e.id := Row(e.status, e.filled)] else table
  }

  function Replay(table: Table, events: seq<OrderEvent>): Table {
    if events == [] then table else Replay(Update(table, events[0]), events[1..])
  }

  lemma {:induction false} ReplayConcat(table: Table, a: seq<OrderEvent>, b: seq<OrderEvent>)
    ensures Replay(table, a + b) == Replay(Replay(table, a), b)
  {
    if a == [] {
      assert a + b == b;
    } else {
      assert (a + b)[1..] == a[1..] + b;
      ReplayConcat(Update(table, a[0]), a[1..], b);
    }
  }

  /** Replay adds no row and leaves alone the rows no event names. */
  lemma {:induction false} ReplayKeeps(table: Table, events: seq<OrderEvent>, id: ID)
    requires forall e :: e in events ==> e.id != id
    ensures id in Replay(table, events) <==> id in table
    ensures id in table ==> Replay(table, events)[id] == table[id]
  {
    if events != [] {
      assert events[0] in events;
      ReplayKeeps(Update(table, events[0]), events[1..], id);
    }
  }

  lemma {:induction false} ReplayRows(table: Table, events: seq<OrderEvent>)
    ensures Replay(table, events).Keys == table.Keys
  {
    if events != [] {
      ReplayRows(Update(table, events[0]), events[1..]);
    }
  }

  lemma {:induction false} ReplayPair(table: Table, first: OrderEvent, second: OrderEvent)
    ensures Replay(table, [first, second]) == Update(Update(table, first), second)
  {
    assert [first, second][1..] == [second] && [second][1..] == [];
    assert Replay(Update(table, first), [second]) == Replay(Update(Update(table, first), second), []);
  }

  /** The IDs of the makers of a list of fills. */
  ghost function MakerIDs(fills: seq<Fill>): multiset<ID> {
    if fills == [] then multiset{} else multiset{fills[0].maker.id} + MakerIDs(fills[1..])
  }

  lemma {:induction false} MakerIDsMember(fills: seq<Fill>, f: Fill)
    requires f in fills
    ensures f.maker.id in MakerIDs(fills)
  {
    if f != fills[0] {
      MakerIDsMember(fills[1..], f);
    }
  }

  lemma {:induction false} MakerIDsConcat(a: seq<Fill>, b: seq<Fill>)
    ensures MakerIDs(a + b) == MakerIDs(a) + MakerIDs(b)
  {
    if a == [] {
      assert a + b == b;
    } else {
      assert (a + b)[1..] == a[1..] + b;
      MakerIDsConcat(a[1..], b);
    }
  }

  /** What the table should say about a maker after a fill. */
  function MakerRow(f: Fill): Row {
    Row(if f.MakerFilled() then Filled else Partial, f.MakerAfter().filled)
  }

  function TakerRow(f: Fill): Row {
    Row(if f.TakerFilled() then Filled else Partial, f.TakerAfter().filled)
  }

  lemma {:induction false} MakerEventIDs(fills: seq<Fill>, id: ID)
    requires id !in MakerIDs(fills)
    ensures forall e :: e in MakerEvents(fills) ==> e.id != id
  {
    forall e | e in MakerEvents(fills) ensures e.id != id {
      var i :| 0 <= i < |fills| && e == fills[i].MakerEvent();
      MakerIDsMember(fills, fills[i]);
    }
  }

  lemma {:induction false} PairedEventIDs(fills: seq<Fill>, id: ID)
    requires id !in MakerIDs(fills) && forall f :: f in fills ==> f.taker.id != id
    ensures forall e :: e in PairedEvents(fills) ==> e.id != id
  {
    if fills != [] {
      assert fills[0] in fills;
      PairedEventIDs(fills[1..], id);
    }
  }

  /** After the makers' events of a market order, each maker's row tells the truth. */
  lemma {:induction false} MarketMakerRow(table: Table, fills: seq<Fill>, f: Fill)
    requires f in fills && Unique(MakerIDs(fills)) && f.maker.id in table
    ensures f.maker.id in Replay(table, MakerEvents(fills))
    ensures Replay(table, MakerEvents(fills))[f.maker.id] == MakerRow(f)
  {
    var next := Update(table, fills[0].MakerEvent());
    assert MakerEvents(fills)[1..] == MakerEvents(fills[1..]);
    SubsetUnique(MakerIDs(fills[1..]), MakerIDs(fills));
    if f == fills[0] {
      assert MakerIDs(fills)[f.maker.id] == 1 + MakerIDs(fills[1..])[f.maker.id];
      MakerEventIDs(fills[1..], f.maker.id);
      ReplayKeeps(next, MakerEvents(fills[1..]), f.maker.id);
    } else {
      MarketMakerRow(next, fills[1..], f);
    }
  }

  /** The same for a limit order, whose stream interleaves the taker's events. */
  lemma {:induction false} LimitMakerRow(table: Table, fills: seq<Fill>, f: Fill, taker: ID)
    requires f in fills && Unique(MakerIDs(fills)) && f.maker.id in table
    requires taker !in MakerIDs(fills) && forall g :: g in fills ==> g.taker.id == taker
    ensures f.maker.id in Replay(table, PairedEvents(fills))
    ensures Replay(table, PairedEvents(fills))[f.maker.id] == MakerRow(f)
  {
    var pair := [fills[0].MakerEvent(), fills[0].TakerEvent()];
    assert fills[0] in fills;
    MakerIDsMember(fills, f);
    ReplayConcat(table, pair, PairedEvents(fills[1..]));
    var next := Replay(table, pair);
    ReplayPair(table, pair[0], pair[1]);
    SubsetUnique(MakerIDs(fills[1..]), MakerIDs(fills));
    if f == fills[0] {
      assert MakerIDs(fills)[f.maker.id] == 1 + MakerIDs(fills[1..])[f.maker.id];
      PairedEventIDs(fills[1..], f.maker.id);
      ReplayKeeps(next, PairedEvents(fills[1..]), f.maker.id);
    } else {
      LimitMakerRow(next, fills[1..], f, taker);
    }
  }

  /** The taker's row after a limit order is its state after the last fill. */
  lemma {:induction false} LimitTakerRow(table: Table, fills: seq<Fill>, taker: ID)
    requires fills != [] && taker in table
    requires taker !in MakerIDs(fills) && forall g :: g in fills ==> g.taker.id == taker
    ensures taker in Replay(table, PairedEvents(fills))
    ensures Replay(table, PairedEvents(fills))[taker] == TakerRow(fills[|fills| - 1])
  {
    var pair := [fills[0].MakerEvent(), fills[0].TakerEvent()];
    assert fills[0] in fills;
    ReplayConcat(table, pair, PairedEvents(fills[1..]));
    var next := Replay(table, pair);
    ReplayPair(table, pair[0], pair[1]);
    if |fills| > 1 {
      LimitTakerRow(next, fills[1..], taker);
    } else {
      assert fills[1..] == [];
    }
  }

  // ---------- every order in the book is an old one untouched, or a maker after its fill ----------

  /** `o` was there before and no fill named it, or it is some fill's maker after that fill. */
  ghost predicate Explained(o: OrderState, orders: seq<OrderState>, fills: seq<Fill>) {
    (o in orders && o.id !in MakerIDs(fills)) || exists f :: f in fills && o == f.MakerAfter()
  }

  lemma {:induction false} SweepLevelMakers(orders: seq<OrderState>, taker: OrderState)
    ensures MakerIDs(SweepLevel(orders, taker).fills) <= IDs(orders)
  {
    if orders != [] && !SkipsLevel(orders[0], taker) {
      var fill := Fill(orders[0], taker, Min(orders[0].Remaining(), taker.Remaining()));
      if fill.qty == 0.0 {
        SweepLevelMakers(orders[1..], taker);
      } else if fill.TakerFilled() {
        assert MakerIDs([fill]) == multiset{fill.maker.id};
      } else {
        SweepLevelMakers(orders[1..], fill.TakerAfter());
        assert ([fill] + SweepLevel(orders[1..], fill.TakerAfter()).fills)[1..]
            == SweepLevel(orders[1..], fill.TakerAfter()).fills;
      }
    }
  }

  lemma {:induction false} FillLevelMakers(orders: seq<OrderState>, taker: OrderState)
    ensures MakerIDs(FillLevel(orders, taker).fills) <= IDs(orders)
  {
    if orders != [] {
      var fill := Fill(orders[0], taker, Min(orders[0].Remaining(), taker.Remaining()));
      if orders[0].userID == taker.userID || fill.qty == 0.0 {
        FillLevelMakers(orders[1..], taker);
      } else if fill.TakerFilled() {
        assert MakerIDs([fill]) == multiset{fill.maker.id};
      } else {
        FillLevelMakers(orders[1..], fill.TakerAfter());
        assert ([fill] + FillLevel(orders[1..], fill.TakerAfter()).fills)[1..]
            == FillLevel(orders[1..], fill.TakerAfter()).fills;
      }
    }
  }

  /** The head of a queue of distinct IDs is named by no fill of the rest. */
  lemma {:induction false} HeadApart(orders: seq<OrderState>, rest: multiset<ID>)
    requires orders != [] && Unique(IDs(orders)) && rest <= IDs(orders[1..])
    ensures Unique(IDs(orders[1..])) && orders[0].id !in rest
    ensures forall o :: o in orders[1..] ==> o.id != orders[0].id
  {
    SubsetUnique(IDs(orders[1..]), IDs(orders));
    assert IDs(orders)[orders[0].id] == 1 + IDs(orders[1..])[orders[0].id];
    forall o | o in orders[1..] ensures o.id != orders[0].id {
      IDsMember(orders[1..], o.id);
    }
  }

  lemma {:induction false} ExplainedLater(o: OrderState, orders: seq<OrderState>, fill: Fill, fills: seq<Fill>)
    requires orders != [] && fill.maker == orders[0] && Unique(IDs(orders)) && MakerIDs(fills) <= IDs(orders[1..])
    requires Explained(o, orders[1..], fills)
    ensures Explained(o, orders, [fill] + fills)
  {
    HeadApart(orders, MakerIDs(fills));
    assert ([fill] + fills)[1..] == fills;
    if f :| f in fills && o == f.MakerAfter() {
      assert f in [fill] + fills;
    }
  }

  lemma {:induction false} SweepLevelExplains(orders: seq<OrderState>, taker: OrderState, o: OrderState)
    requires Unique(IDs(orders)) && o in SweepLevel(orders, taker).orders
    ensures Explained(o, orders, SweepLevel(orders, taker).fills)
  {
    if orders != [] && !SkipsLevel(orders[0], taker) {
      var fill := Fill(orders[0], taker, Min(orders[0].Remaining(), taker.Remaining()));
      var next := if fill.qty == 0.0 then taker else fill.TakerAfter();
      var rest := SweepLevel(orders[1..], next);
      SweepLevelMakers(orders[1..], next);
      HeadApart(orders, MakerIDs(rest.fills));
      if fill.qty == 0.0 {
        if taker.side == Sell && o != orders[0] {
          SweepLevelExplains(orders[1..], next, o);
        }
      } else if o == fill.MakerAfter() && !fill.MakerFilled() {
        assert fill in SweepLevel(orders, taker).fills;
      } else if fill.TakerFilled() {
        assert MakerIDs([fill]) == multiset{fill.maker.id};
        assert o in orders[1..];
      } else {
        SweepLevelExplains(orders[1..], next, o);
        ExplainedLater(o, orders, fill, rest.fills);
      }
    }
  }

  lemma {:induction false} FillLevelExplains(orders: seq<OrderState>, taker: OrderState, o: OrderState)
    requires Unique(IDs(orders)) && o in FillLevel(orders, taker).orders
    ensures Explained(o, orders, FillLevel(orders, taker).fills)
  {
    var fill := Fill(orders[0], taker, Min(orders[0].Remaining(), taker.Remaining()));
    var skip := orders[0].userID == taker.userID || fill.qty == 0.0;
    var next := if skip then taker else fill.TakerAfter();
    var rest := FillLevel(orders[1..], next);
    FillLevelMakers(orders[1..], next);
    HeadApart(orders, MakerIDs(rest.fills));
    if skip {
      if o != orders[0] {
        FillLevelExplains(orders[1..], next, o);
      }
    } else if o == fill.MakerAfter() {
      assert fill in FillLevel(orders, taker).fills;
    } else if fill.TakerFilled() {
      assert MakerIDs([fill]) == multiset{fill.maker.id};
      assert o in orders[1..];
    } else {
      FillLevelExplains(orders[1..], next, o);
      ExplainedLater(o, orders, fill, rest.fills);
    }
  }
}
