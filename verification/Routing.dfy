/** Orders routed to pairs, one queue and one worker per pair, the reaper beside them
    (internal/engine/engine.go:42-53, 100-113, 163-175, 226-262, 421-458). Every step is atomic: a channel
    operation, or a book operation under the book's lock. */
module Routing {
  import opened Orders
  import opened Events
  import opened Books
  import opened Market
  import opened Limit
  import opened Removal
  import opened ProjectionTheorems
  import opened Runs

  const CAPACITY: nat := 10_000

  /** What has happened to one pair: its book and what its book has published. */
  datatype PairState = PairState(book: BookState, orderEvents: seq<OrderEvent>, tradeEvents: seq<TradeEvent>)

  datatype Engine = Engine(queues: map<string, seq<OrderState>>, pairs: map<string, PairState>)

  datatype Action =
    | Route(order: OrderState)                                      // `addOrder`
    | Work(pair: string)                                            // one turn of `orderHandlerWorker`
    | Reap(pair: string, side: OrderSide, id: ID, price: Decimal)   // one removal by `orderReaper`

  /** `orderTypeRouter`'s choice; a cancel is a removal. */
  function StepOf(order: OrderState): Step {
    match order.orderType
    case LimitOrder => LimitStep(order)
    case MarketOrder => MarketStep(order)
    case CancelOrder => RemoveStep(order.side, order.id, order.price)
  }

  function Advance(p: PairState, step: Step): PairState {
    var o := Apply(p.book, step);
    PairState(o.book, p.orderEvents + o.orderEvents, p.tradeEvents + o.tradeEvents)
  }

  /** A send blocks on a full channel, a receive on an empty one. An order for an unknown pair is dropped. */
  predicate Enabled(e: Engine, a: Action) {
    match a
    case Route(order) => order.pair in e.queues ==> |e.queues[order.pair]| < CAPACITY
    case Work(pair) => pair in e.queues && e.queues[pair] != []
    case Reap(pair, _, _, _) => pair in e.pairs
  }

  function Next(e: Engine, a: Action): Engine
    requires Enabled(e, a)
  {
    match a
    case Route(order) =>
      if order.pair in e.queues then e.(queues := e.queues[order.pair := e.queues[order.pair] + [order]]) else e
    case Work(pair) =>
      var order := e.queues[pair][0];
      var rest := e.queues[pair := e.queues[pair][1..]];
      // the book is looked up by the order's own pair, not the worker's
      if order.pair in e.pairs then Engine(rest, e.pairs[order.pair := Advance(e.pairs[order.pair], StepOf(order))])
      else e.(queues := rest)
    case Reap(pair, side, id, price) =>
      e.(pairs := e.pairs[pair := Advance(e.pairs[pair], RemoveStep(side, id, price))])
  }

  ghost predicate Possible(e: Engine, actions: seq<Action>)
    decreases actions
  {
    actions == [] || (Enabled(e, actions[0]) && Possible(Next(e, actions[0]), actions[1..]))
  }

  ghost function After(e: Engine, actions: seq<Action>): Engine
    requires Possible(e, actions)
    decreases actions
  {
    if actions == [] then e else After(Next(e, actions[0]), actions[1..])
  }

  /** Queues and books are made for the same pairs, and each queue holds its own pair's orders. */
  ghost predicate Sound(e: Engine) {
    && e.queues.Keys == e.pairs.Keys
    && forall p :: p in e.queues ==> forall o :: o in e.queues[p] ==> o.pair == p
  }

  lemma NextSound(e: Engine, a: Action)
    requires Sound(e) && Enabled(e, a)
    ensures Sound(Next(e, a))
  {
    match a {
      case Route(order) =>
      case Work(pair) =>
        assert e.queues[pair][0] in e.queues[pair];
        assert forall o :: o in e.queues[pair][1..] ==> o in e.queues[pair];
      case Reap(pair, side, id, price) =>
    }
  }

  // ---------- what the actions mean for one pair ----------

  /** The orders routed to a pair, in routing order. */
  function Routed(actions: seq<Action>, pair: string): seq<OrderState> {
    if actions == [] then []
    else if actions[0].Route? && actions[0].order.pair == pair then [actions[0].order] + Routed(actions[1..], pair)
    else Routed(actions[1..], pair)
  }

  /** The orders the pair's worker takes up, in order. */
  ghost function Consumed(e: Engine, actions: seq<Action>, pair: string): seq<OrderState>
    requires Possible(e, actions)
    decreases actions
  {
    if actions == [] then []
    else
      var rest := Consumed(Next(e, actions[0]), actions[1..], pair);
      if actions[0] == Work(pair) then [e.queues[pair][0]] + rest else rest
  }

  /** Everything done to the pair's book, by its worker or by the reaper, in order. */
  ghost function History(e: Engine, actions: seq<Action>, pair: string): seq<Step>
    requires Possible(e, actions)
    decreases actions
  {
    if actions == [] then []
    else
      var rest := History(Next(e, actions[0]), actions[1..], pair);
      match actions[0]
      case Route(_) => rest
      case Work(p) => if p == pair then [StepOf(e.queues[p][0])] + rest else rest
      case Reap(p, side, id, price) => if p == pair then [RemoveStep(side, id, price)] + rest else rest
  }

  function Steps(orders: seq<OrderState>): (s: seq<Step>)
    ensures |s| == |orders|
  {
    seq(|orders|, i requires 0 <= i < |orders| => StepOf(orders[i]))
  }

  /** Whose turn it was at a pair's book: its worker's, or the reaper's for one removal. */
  datatype Turn = Worked | Reaped(step: Step)

  function Turns(actions: seq<Action>, pair: string): seq<Turn> {
    if actions == [] then []
    else
      var rest := Turns(actions[1..], pair);
      match actions[0]
      case Route(_) => rest
      case Work(p) => if p == pair then [Worked] + rest else rest
      case Reap(p, side, id, price) => if p == pair then [Reaped(RemoveStep(side, id, price))] + rest else rest
  }

  /** A worker's orders, in order, with the reaper's removals at their turns. */
  function Merged(orders: seq<OrderState>, turns: seq<Turn>): seq<Step> {
    if turns == [] then []
    else if turns[0].Reaped? then [turns[0].step] + Merged(orders, turns[1..])
    else if orders == [] then Merged(orders, turns[1..])
    else [StepOf(orders[0])] + Merged(orders[1..], turns[1..])
  }

  predicate Unreaped(turns: seq<Turn>) {
    forall t :: t in turns ==> t.Worked?
  }

  /** The pair a step belongs to. */
  function PairOf(a: Action): string {
    if a.Route? then a.order.pair else a.pair
  }

  /** No step on one pair changes another pair's queue, book or log. */
  lemma StepsKeepApart(e: Engine, a: Action, pair: string)
    requires Sound(e) && Enabled(e, a) && pair in e.pairs && PairOf(a) != pair
    ensures pair in Next(e, a).pairs && Next(e, a).pairs[pair] == e.pairs[pair]
    ensures Next(e, a).queues[pair] == e.queues[pair]
  {
    if a.Work? {
      assert e.queues[a.pair][0] in e.queues[a.pair];
    }
  }

  lemma {:induction false} AdvanceRun(p: PairState, step: Step, rest: seq<Step>)
    ensures var first, all := Advance(p, step), Run(p.book, [step] + rest);
      var later := Run(first.book, rest);
      && all.book == later.book
      && p.orderEvents + all.orderEvents == first.orderEvents + later.orderEvents
      && p.tradeEvents + all.tradeEvents == first.tradeEvents + later.tradeEvents
  {
    RunHead(p.book, step, rest);
    var o := Apply(p.book, step);
    var later := Run(o.book, rest);
    Reassociate(p.orderEvents, o.orderEvents, later.orderEvents);
    Reassociate(p.tradeEvents, o.tradeEvents, later.tradeEvents);
  }

  /** Whatever the interleaving, a pair's book and log are those of a sequential run of its own history. */
  lemma {:induction false} PairRunsItsHistory(e: Engine, actions: seq<Action>, pair: string)
    requires Sound(e) && Possible(e, actions) && pair in e.pairs
    ensures Sound(After(e, actions)) && pair in After(e, actions).pairs
    ensures var r := Run(e.pairs[pair].book, History(e, actions, pair));
      After(e, actions).pairs[pair]
        == PairState(r.book, e.pairs[pair].orderEvents + r.orderEvents, e.pairs[pair].tradeEvents + r.tradeEvents)
    decreases actions
  {
    if actions != [] {
      var a, next := actions[0], Next(e, actions[0]);
      NextSound(e, a);
      PairRunsItsHistory(next, actions[1..], pair);
      if PairOf(a) != pair {
        StepsKeepApart(e, a, pair);
      } else if !a.Route? {
        if a.Work? {
          assert e.queues[pair][0] in e.queues[pair];
        }
        var step := if a.Work? then StepOf(e.queues[pair][0]) else RemoveStep(a.side, a.id, a.price);
        AdvanceRun(e.pairs[pair], step, History(next, actions[1..], pair));
      }
    }
  }

  /** What one step does to the queue of a pair. */
  lemma NextQueue(e: Engine, a: Action, pair: string)
    requires Enabled(e, a) && pair in e.queues
    ensures pair in Next(e, a).queues
    ensures var queue := e.queues[pair];
      Next(e, a).queues[pair]
        == if a.Route? && a.order.pair == pair then queue + [a.order]
           else if a == Work(pair) then queue[1..] else queue
  {
  }

  lemma JoinAt<T>(a: seq<T>, x: T, b: seq<T>)
    ensures a + ([x] + b) == (a + [x]) + b
  {
  }

  /** Queues are first in, first out and lose nothing: what was queued and routed is what was consumed and is queued. */
  lemma {:induction false} QueueKeepsOrder(e: Engine, actions: seq<Action>, pair: string)
    requires Possible(e, actions) && pair in e.queues
    ensures pair in After(e, actions).queues
    ensures e.queues[pair] + Routed(actions, pair) == Consumed(e, actions, pair) + After(e, actions).queues[pair]
    decreases actions
  {
    if actions != [] {
      var a, next := actions[0], Next(e, actions[0]);
      NextQueue(e, a, pair);
      QueueKeepsOrder(next, actions[1..], pair);
      var queue := e.queues[pair];
      if a.Route? && a.order.pair == pair {
        JoinAt(queue, a.order, Routed(actions[1..], pair));
      } else if a == Work(pair) {
        ConsumedFirst(queue, Routed(actions[1..], pair), Consumed(next, actions[1..], pair),
                      After(next, actions[1..]).queues[pair]);
      }
    }
  }

  lemma ConsumedFirst<T>(queue: seq<T>, routed: seq<T>, consumed: seq<T>, left: seq<T>)
    requires queue != [] && queue[1..] + routed == consumed + left
    ensures queue + routed == ([queue[0]] + consumed) + left
  {
    assert queue + routed == [queue[0]] + (queue[1..] + routed);
  }

  /** A pair's history is what its worker took up, merged with the reaper's removals by whose turn it was. */
  lemma {:induction false} HistoryIsMerged(e: Engine, actions: seq<Action>, pair: string)
    requires Possible(e, actions)
    ensures History(e, actions, pair) == Merged(Consumed(e, actions, pair), Turns(actions, pair))
    ensures |Consumed(e, actions, pair)| == Workings(Turns(actions, pair))
    decreases actions
  {
    if actions != [] {
      var next := Next(e, actions[0]);
      HistoryIsMerged(next, actions[1..], pair);
      if actions[0] == Work(pair) {
        MergedHead(e.queues[pair][0], Consumed(next, actions[1..], pair), Turns(actions[1..], pair));
      } else if actions[0].Reap? && actions[0].pair == pair {
        assert Turns(actions, pair)[1..] == Turns(actions[1..], pair);
      }
    }
  }

  function Workings(turns: seq<Turn>): nat {
    if turns == [] then 0 else (if turns[0].Worked? then 1 else 0) + Workings(turns[1..])
  }

  lemma {:induction false} MergedHead(order: OrderState, orders: seq<OrderState>, turns: seq<Turn>)
    ensures Merged([order] + orders, [Worked] + turns) == [StepOf(order)] + Merged(orders, turns)
    ensures Workings([Worked] + turns) == 1 + Workings(turns)
  {
    assert ([order] + orders)[1..] == orders && ([Worked] + turns)[1..] == turns;
  }

  /** Once its queue has drained, a pair has the book and the log of a sequential run of what was queued for it
      and routed to it, in that order, with the reaper's removals at their turns: nothing depends on other
      pairs, nor on how routing and the worker interleaved. */
  lemma {:induction false} DrainedPairIsSequential(e: Engine, actions: seq<Action>, pair: string)
    requires Sound(e) && Possible(e, actions) && pair in e.pairs
    requires pair in After(e, actions).queues && After(e, actions).queues[pair] == []
    ensures pair in After(e, actions).pairs
    ensures var r := Run(e.pairs[pair].book, Merged(e.queues[pair] + Routed(actions, pair), Turns(actions, pair)));
      After(e, actions).pairs[pair]
        == PairState(r.book, e.pairs[pair].orderEvents + r.orderEvents, e.pairs[pair].tradeEvents + r.tradeEvents)
  {
    PairRunsItsHistory(e, actions, pair);
    QueueKeepsOrder(e, actions, pair);
    HistoryIsMerged(e, actions, pair);
    assert Consumed(e, actions, pair) + [] == Consumed(e, actions, pair);
  }

  /** Where the reaper left the pair alone, that is the run of those orders and nothing else. */
  lemma {:induction false} UnreapedIsSequential(e: Engine, actions: seq<Action>, pair: string)
    requires Sound(e) && Possible(e, actions) && pair in e.pairs && Unreaped(Turns(actions, pair))
    requires pair in After(e, actions).queues && After(e, actions).queues[pair] == []
    ensures pair in After(e, actions).pairs
    ensures var r := Run(e.pairs[pair].book, Steps(e.queues[pair] + Routed(actions, pair)));
      After(e, actions).pairs[pair]
        == PairState(r.book, e.pairs[pair].orderEvents + r.orderEvents, e.pairs[pair].tradeEvents + r.tradeEvents)
  {
    DrainedPairIsSequential(e, actions, pair);
    QueueKeepsOrder(e, actions, pair);
    HistoryIsMerged(e, actions, pair);
    assert Consumed(e, actions, pair) + [] == Consumed(e, actions, pair);
    AllWorked(e.queues[pair] + Routed(actions, pair), Turns(actions, pair));
  }

  lemma {:induction false} AllWorked(orders: seq<OrderState>, turns: seq<Turn>)
    requires Unreaped(turns) && |orders| == Workings(turns)
    ensures Merged(orders, turns) == Steps(orders)
  {
    if turns != [] {
      assert turns[0] in turns && forall t :: t in turns[1..] ==> t in turns;
      AllWorked(orders[1..], turns[1..]);
      assert Steps(orders) == [StepOf(orders[0])] + Steps(orders[1..]);
    }
  }

  /** Two schedules that route the same orders to a pair, and give its worker and the reaper the same turns,
      agree on the pair once it is drained, whatever else they do. */
  lemma {:induction false} SchedulesAgree(e: Engine, one: seq<Action>, two: seq<Action>, pair: string)
    requires Sound(e) && Possible(e, one) && Possible(e, two) && pair in e.pairs
    requires Routed(one, pair) == Routed(two, pair) && Turns(one, pair) == Turns(two, pair)
    requires pair in After(e, one).queues && After(e, one).queues[pair] == []
    requires pair in After(e, two).queues && After(e, two).queues[pair] == []
    ensures pair in After(e, one).pairs && pair in After(e, two).pairs
    ensures After(e, one).pairs[pair] == After(e, two).pairs[pair]
  {
    DrainedPairIsSequential(e, one, pair);
    DrainedPairIsSequential(e, two, pair);
  }

  // ---------- what a turn does, by the kind of order ----------

  /** A worker's turn takes the head of the queue. A market order is matched as a market order, a limit order as
      a limit order, and a cancel takes its order out at its price and publishes nothing. */
  lemma WorkMatches(e: Engine, pair: string)
    requires Sound(e) && Enabled(e, Work(pair))
    ensures pair in Next(e, Work(pair)).pairs && pair in Next(e, Work(pair)).queues
    ensures Next(e, Work(pair)).queues[pair] == e.queues[pair][1..]
    ensures var order, before, after := e.queues[pair][0], e.pairs[pair], Next(e, Work(pair)).pairs[pair];
      match order.orderType
      case MarketOrder =>
        var r := MarketResult(before.book, order);
        && after.book == r.book && after.orderEvents == before.orderEvents + r.orderEvents
        && after.tradeEvents == before.tradeEvents + r.tradeEvents
      case LimitOrder =>
        var r := LimitResult(before.book, order);
        && after.book == r.book && after.orderEvents == before.orderEvents + r.orderEvents
        && after.tradeEvents == before.tradeEvents + r.tradeEvents
      case CancelOrder =>
        && after.book == Removed(before.book, order.side, order.id, order.price)
        && after.orderEvents == before.orderEvents && after.tradeEvents == before.tradeEvents
  {
    assert e.queues[pair][0] in e.queues[pair];
  }

  /** The reaper's turn takes an order out and publishes nothing. */
  lemma ReapRemoves(e: Engine, pair: string, side: OrderSide, id: ID, price: Decimal)
    requires pair in e.pairs
    ensures var before, after := e.pairs[pair], Next(e, Reap(pair, side, id, price));
      && after.queues == e.queues && after.pairs.Keys == e.pairs.Keys
      && after.pairs[pair]
           == PairState(Removed(before.book, side, id, price), before.orderEvents, before.tradeEvents)
  {
  }

  /** An order for a pair that has no queue is dropped. */
  lemma UnknownPairIsDropped(e: Engine, order: OrderState)
    requires order.pair !in e.queues
    ensures Enabled(e, Route(order)) && Next(e, Route(order)) == e
  {
  }

  /** No queue ever holds more than the ten thousand orders of its channel. */
  lemma {:induction false} QueuesAreBounded(e: Engine, actions: seq<Action>, pair: string)
    requires Possible(e, actions) && pair in e.queues && |e.queues[pair]| <= 10_000
    ensures pair in After(e, actions).queues && |After(e, actions).queues[pair]| <= 10_000
    decreases actions
  {
    if actions != [] {
      NextQueue(e, actions[0], pair);
      QueuesAreBounded(Next(e, actions[0]), actions[1..], pair);
    }
  }

  // ---------- where the orders of a book come from ----------

  lemma RemovalAddsNothing(book: BookState, side: OrderSide, id: ID, price: Decimal, x: ID)
    requires x in BookIDs(Removed(book, side, id, price))
    ensures x in BookIDs(book)
  {
    var cut := WithoutAt(book.Own(side), price, id);
    WithoutAtIDs(book.Own(side), price, id);
    DropEmptyKeeps(cut);
    BookIDsOf(book, side);
    BookIDsOf(Removed(book, side, id, price), side);
  }

  lemma MarketAddsNothing(book: BookState, taker: OrderState, x: ID)
    requires x in BookIDs(MarketResult(book, taker).book)
    ensures x in BookIDs(book)
  {
    var r := MarketResult(book, taker);
    MarketRemovesFilled(book, taker);
    BookIDsOf(book, taker.side);
    BookIDsOf(r.book, taker.side);
  }

  lemma {:induction false} FillLevelIDs(orders: seq<OrderState>, taker: OrderState)
    ensures IDs(FillLevel(orders, taker).orders) == IDs(orders) && FillLevel(orders, taker).taker.id == taker.id
  {
    if orders != [] {
      var fill := Fill(orders[0], taker, Min(orders[0].Remaining(), taker.Remaining()));
      var skip := orders[0].userID == taker.userID || fill.qty == 0.0;
      if skip || !fill.TakerFilled() {
        FillLevelIDs(orders[1..], if skip then taker else fill.TakerAfter());
      }
    }
  }

  lemma {:induction false} SuffixIDs(orders: seq<OrderState>, k: nat)
    requires k <= |orders|
    ensures IDs(orders[k..]) <= IDs(orders)
  {
    IDsConcat(orders[..k], orders[k..]);
    assert orders[..k] + orders[k..] == orders;
  }

  lemma {:induction false} PopsAddNothing(levels: seq<LevelState>, orders: seq<OrderState>, pops: nat)
    requires levels != [] && pops <= |orders| && IDs(orders) == IDs(levels[0].orders)
    ensures SideIDs(AfterPops(levels, orders, pops)) <= SideIDs(levels)
  {
    var after := AfterPops(levels, orders, pops);
    if after != levels[1..] {
      SuffixIDs(orders, pops);
      assert after[0].orders == orders[pops..] && after[1..] == levels[1..];
    }
  }

  lemma LimitAddsItself(book: BookState, taker: OrderState, x: ID)
    requires x in BookIDs(LimitResult(book, taker).book)
    ensures x in BookIDs(book) || x == taker.id
  {
    var levels, r := book.Opposite(taker.side), LimitResult(book, taker);
    if levels != [] && Crosses(taker, levels[0].price) {
      var s := FillLevel(levels[0].orders, taker);
      FillLevelIDs(levels[0].orders, taker);
      PopsAddNothing(levels, s.orders, s.pops);
      PlaceIDs(taker.side, book.Own(taker.side), s.taker);
      BookIDsOf(book, taker.side);
      BookIDsOf(r.book, taker.side);
    }
  }

  /** A limit order of that ID is among these. */
  predicate Limits(orders: seq<OrderState>, id: ID) {
    exists o :: o in orders && o.orderType == LimitOrder && o.id == id
  }

  lemma TurnAdds(e: Engine, a: Action, pair: string, id: ID)
    requires Sound(e) && Enabled(e, a) && pair in e.pairs
    ensures pair in Next(e, a).pairs
    ensures id in BookIDs(Next(e, a).pairs[pair].book) ==>
              id in BookIDs(e.pairs[pair].book) || (a == Work(pair) && Limits([e.queues[pair][0]], id))
  {
    if PairOf(a) != pair {
      StepsKeepApart(e, a, pair);
    } else if id in BookIDs(Next(e, a).pairs[pair].book) {
      var book := e.pairs[pair].book;
      match a {
        case Route(order) =>
        case Work(p) =>
          var order := e.queues[p][0];
          WorkMatches(e, p);
          assert order in [order];
          match order.orderType {
            case MarketOrder => MarketAddsNothing(book, order, id);
            case LimitOrder => LimitAddsItself(book, order, id);
            case CancelOrder => RemovalAddsNothing(book, order.side, order.id, order.price, id);
          }
        case Reap(p, side, x, price) =>
          RemovalAddsNothing(book, side, x, price, id);
      }
    }
  }

  /** Whatever the schedule, an order is in a pair's book only if it was there or came as a limit order, queued
      for the pair or routed to it. So without limit orders no order is ever added to a book. */
  lemma {:induction false} OnlyLimitOrdersRest(e: Engine, actions: seq<Action>, pair: string, id: ID)
    requires Sound(e) && Possible(e, actions) && pair in e.pairs && pair in After(e, actions).pairs
    requires id in BookIDs(After(e, actions).pairs[pair].book)
    ensures id in BookIDs(e.pairs[pair].book) || Limits(e.queues[pair] + Routed(actions, pair), id)
    decreases actions
  {
    if actions != [] {
      var a, next := actions[0], Next(e, actions[0]);
      NextSound(e, a);
      TurnAdds(e, a, pair, id);
      NextQueue(e, a, pair);
      OnlyLimitOrdersRest(next, actions[1..], pair, id);
      QueueOrders(e, a, actions, pair);
      if Limits(next.queues[pair] + Routed(actions[1..], pair), id) {
        var o :| o in next.queues[pair] + Routed(actions[1..], pair) && o.orderType == LimitOrder && o.id == id;
        assert o in e.queues[pair] + Routed(actions, pair);
      } else if a == Work(pair) && Limits([e.queues[pair][0]], id) {
        assert e.queues[pair][0] in e.queues[pair] + Routed(actions, pair);
      }
    }
  }

  lemma {:induction false} QueueOrders(e: Engine, a: Action, actions: seq<Action>, pair: string)
    requires actions != [] && a == actions[0] && Enabled(e, a) && pair in e.queues
    requires pair in Next(e, a).queues
    ensures forall o :: o in Next(e, a).queues[pair] + Routed(actions[1..], pair) ==>
              o in e.queues[pair] + Routed(actions, pair)
  {
    NextQueue(e, a, pair);
  }
}
