/** Whole runs of one book: any sequence of limit orders, market orders and removals. */
module Runs {
  import opened Orders
  import opened Events
  import opened Books
  import opened Market
  import opened MarketLaws
  import opened Limit
  import opened LimitPromises
  import opened LimitTheorems
  import opened LimitLosses
  import opened Removal

  /** A cancel or an expiry is a removal; neither reaches the publisher through the book. */
  datatype Step =
    | LimitStep(order: OrderState)
    | MarketStep(order: OrderState)
    | RemoveStep(side: OrderSide, id: ID, price: Decimal)
  {
    predicate Takes() {
      LimitStep? || MarketStep?
    }
  }

  datatype Outcome = Outcome(book: BookState, orderEvents: seq<OrderEvent>, tradeEvents: seq<TradeEvent>)

  function Apply(book: BookState, step: Step): Outcome {
    match step
    case LimitStep(order) =>
      var r := LimitResult(book, order);
      Outcome(r.book, r.orderEvents, r.tradeEvents)
    case MarketStep(order) =>
      var r := MarketResult(book, order);
      Outcome(r.book, r.orderEvents, r.tradeEvents)
    case RemoveStep(side, id, price) =>
      Outcome(Removed(book, side, id, price), [], [])
  }

  /** One outcome after another: the last book, and all events in order. */
  function Then(first: Outcome, second: Outcome): Outcome {
    Outcome(second.book, first.orderEvents + second.orderEvents, first.tradeEvents + second.tradeEvents)
  }

  function Run(book: BookState, steps: seq<Step>): Outcome
    decreases steps
  {
    if steps == [] then Outcome(book, [], [])
    else
      var first := Apply(book, steps[0]);
      Then(first, Run(first.book, steps[1..]))
  }

  ghost function TakerIDs(steps: seq<Step>): multiset<ID> {
    if steps == [] then multiset{}
    else if steps[0].Takes() then multiset{steps[0].order.id} + TakerIDs(steps[1..])
    else TakerIDs(steps[1..])
  }

  /** No order comes in under an ID that is in the book or has come in before, and none comes in overfilled. */
  ghost predicate FreshOrders(book: BookState, steps: seq<Step>) {
    && Unique(BookIDs(book) + TakerIDs(steps))
    && forall s :: s in steps && s.Takes() ==> s.order.InRange()
  }

  /** One step keeps the book well-formed and the later steps fresh. */
  lemma {:induction false} StepKeeps(book: BookState, steps: seq<Step>)
    requires steps != [] && WellFormed(book) && FreshOrders(book, steps)
    ensures var after := Apply(book, steps[0]).book;
      && WellFormed(after) && FreshOrders(after, steps[1..])
      && BookIDs(after) + TakerIDs(steps[1..]) <= BookIDs(book) + TakerIDs(steps)
  {
    var after := Apply(book, steps[0]).book;
    assert steps[0] in steps;
    match steps[0] {
      case LimitStep(order) =>
        FreshTaker(book, steps);
        LimitKeepsWellFormed(book, order);
      case MarketStep(order) =>
        MarketKeepsWellFormed(book, order);
      case RemoveStep(side, id, price) =>
        RemovalKeeps(book, side, id, price);
    }
    assert BookIDs(after) + TakerIDs(steps[1..]) <= BookIDs(book) + TakerIDs(steps);
    SubsetUnique(BookIDs(after) + TakerIDs(steps[1..]), BookIDs(book) + TakerIDs(steps));
  }

  lemma FreshTaker(book: BookState, steps: seq<Step>)
    requires steps != [] && steps[0].Takes() && FreshOrders(book, steps)
    ensures steps[0].order.id !in BookIDs(book)
  {
    var id := steps[0].order.id;
    assert (BookIDs(book) + TakerIDs(steps))[id] == BookIDs(book)[id] + TakerIDs(steps)[id];
    assert TakerIDs(steps)[id] >= 1;
  }

  /** Every run keeps the book well-formed, even where orders are stepped over, and invents no order. */
  lemma {:induction false} RunKeepsWellFormed(book: BookState, steps: seq<Step>)
    requires WellFormed(book) && FreshOrders(book, steps)
    ensures WellFormed(Run(book, steps).book)
    ensures BookIDs(Run(book, steps).book) <= BookIDs(book) + TakerIDs(steps)
    decreases steps
  {
    if steps != [] {
      StepKeeps(book, steps);
      RunKeepsWellFormed(Apply(book, steps[0]).book, steps[1..]);
    }
  }

  /** Matching never grows the book: on a run of new orders the number of resting orders does not increase. */
  lemma {:induction false} RunNeverGrows(book: BookState, steps: seq<Step>)
    requires WellFormed(book) && FreshOrders(book, steps)
    requires forall s :: s in steps && s.LimitStep? ==> s.order.status == Open
    ensures |BookIDs(Run(book, steps).book)| <= |BookIDs(book)|
    decreases steps
  {
    if steps != [] {
      var step, after := steps[0], Apply(book, steps[0]).book;
      assert step in steps;
      StepKeeps(book, steps);
      RunNeverGrows(after, steps[1..]);
      match step {
        case LimitStep(order) =>
          LimitNeverGrows(book, order);
        case MarketStep(order) =>
          MarketKeepsWellFormed(book, order);
          SmallerIDs(BookIDs(after), BookIDs(book));
        case RemoveStep(side, id, price) =>
          RemovalKeeps(book, side, id, price);
          SmallerIDs(BookIDs(after), BookIDs(book));
      }
    }
  }

  lemma SmallerIDs(a: multiset<ID>, b: multiset<ID>)
    requires a <= b
    ensures |a| <= |b|
  {
    assert b == a + (b - a);
  }

  /** A book that starts empty, as the engine creates it, stays empty: no order ever rests on it. */
  lemma {:induction false} EmptyBookStaysEmpty(steps: seq<Step>)
    ensures Run(BookState([], []), steps) == Outcome(BookState([], []), [], [])
  {
    if steps != [] {
      EmptyBookStaysEmpty(steps[1..]);
    }
  }

  /** A step crosses an uncrossed book if and only if it is a limit order that rests while a level it
      accepts remains. */
  lemma StepUncrossedIff(book: BookState, step: Step)
    requires WellFormed(book) && Uncrossed(book) && (step.Takes() ==> step.order.InRange())
    ensures Uncrossed(Apply(book, step).book) <==> !(step.LimitStep? && RestsCrossed(book, step.order))
  {
    match step {
      case LimitStep(order) => LimitUncrossedIff(book, order);
      case MarketStep(order) => MarketKeepsUncrossed(book, order);
      case RemoveStep(side, id, price) => RemovalKeeps(book, side, id, price);
    }
  }

  ghost predicate StepSpoils(book: BookState, step: Step) {
    step.LimitStep? && Spoils(book, step.order)
  }

  /** A step leaves a live book live if and only if it is not a limit order that spoils it. */
  lemma StepKeepsLiveIff(book: BookState, step: Step)
    requires WellFormed(book) && LiveBook(book) && (step.Takes() ==> step.order.InRange())
    ensures LiveBook(Apply(book, step).book) <==> !StepSpoils(book, step)
  {
    match step {
      case LimitStep(order) =>
        LimitKeepsLiveIff(book, order);
      case MarketStep(order) =>
        MarketKeepsLive(book, order);
      case RemoveStep(side, id, price) =>
        RemovalKeepsLive(book, side, id, price);
    }
  }

  lemma MarketKeepsLive(book: BookState, taker: OrderState)
    requires WellFormed(book) && LiveBook(book) && taker.InRange()
    ensures LiveBook(MarketResult(book, taker).book)
  {
    if book.Opposite(taker.side) != [] {
      SweptSideGood(Other(taker.side), book.Opposite(taker.side), taker);
    }
  }

  lemma RemovalKeepsLive(book: BookState, side: OrderSide, id: ID, price: Decimal)
    requires WellFormed(book) && LiveBook(book)
    ensures LiveBook(Removed(book, side, id, price))
  {
    RemovalKeeps(book, side, id, price);
    var after := Removed(book, side, id, price);
    forall l | l in after.Own(side) ensures AllLive(l.orders) {
      forall o | o in l.orders ensures o.Remaining() > 0.0 {
        AllOrdersMember(book.Own(side), o);
      }
    }
  }

  /** The book is live before and after every step. */
  ghost predicate StaysLive(book: BookState, steps: seq<Step>)
    decreases steps
  {
    LiveBook(book) && (steps == [] || StaysLive(Apply(book, steps[0]).book, steps[1..]))
  }

  ghost predicate NeverSpoils(book: BookState, steps: seq<Step>)
    decreases steps
  {
    steps == [] || (!StepSpoils(book, steps[0]) && NeverSpoils(Apply(book, steps[0]).book, steps[1..]))
  }

  /** A live book stays live all through a run if and only if no limit order of the run spoils it. */
  lemma {:induction false} RunStaysLiveIff(book: BookState, steps: seq<Step>)
    requires WellFormed(book) && FreshOrders(book, steps) && LiveBook(book)
    ensures StaysLive(book, steps) <==> NeverSpoils(book, steps)
    decreases steps
  {
    if steps != [] {
      StepKeeps(book, steps);
      StepKeepsLiveIff(book, steps[0]);
      if !StepSpoils(book, steps[0]) {
        RunStaysLiveIff(Apply(book, steps[0]).book, steps[1..]);
      }
    }
  }

  lemma {:induction false} RunHead(book: BookState, step: Step, rest: seq<Step>)
    ensures Run(book, [step] + rest) == Then(Apply(book, step), Run(Apply(book, step).book, rest))
  {
    assert ([step] + rest)[1..] == rest;
  }

  lemma Reassociate<T>(a: seq<T>, b: seq<T>, c: seq<T>)
    ensures a + (b + c) == (a + b) + c
  {
  }

  lemma ThenAssociates(a: Outcome, b: Outcome, c: Outcome)
    ensures Then(a, Then(b, c)) == Then(Then(a, b), c)
  {
    Reassociate(a.orderEvents, b.orderEvents, c.orderEvents);
    Reassociate(a.tradeEvents, b.tradeEvents, c.tradeEvents);
  }

  lemma NothingFirst(book: BookState, o: Outcome)
    ensures Then(Outcome(book, [], []), o) == o
  {
    assert [] + o.orderEvents == o.orderEvents && [] + o.tradeEvents == o.tradeEvents;
  }

  /** A run in two parts. */
  lemma {:induction false} RunConcat(book: BookState, a: seq<Step>, b: seq<Step>)
    ensures Run(book, a + b) == Then(Run(book, a), Run(Run(book, a).book, b))
    decreases a
  {
    if a == [] {
      assert a + b == b;
      NothingFirst(book, Run(book, b));
    } else {
      var head := Apply(book, a[0]);
      assert a + b == [a[0]] + (a[1..] + b);
      RunHead(book, a[0], a[1..] + b);
      RunConcat(head.book, a[1..], b);
      ThenAssociates(head, Run(head.book, a[1..]), Run(Run(head.book, a[1..]).book, b));
    }
  }
}
