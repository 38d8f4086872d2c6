/** Concrete books on which the code does not do what its comments promise of it. */
module Examples {
  import opened Orders
  import opened Events
  import opened Books
  import opened Market
  import opened Limit

  function Ask(id: ID, user: ID, price: Decimal): OrderState {
    OrderState(id, user, "BTC-USD", LimitOrder, Sell, price, 1.0, 0.0, Open)
  }

  function Bid(id: ID, user: ID, price: Decimal, quantity: Decimal): OrderState {
    OrderState(id, user, "BTC-USD", LimitOrder, Buy, price, quantity, 0.0, Open)
  }

  function Asks(levels: seq<LevelState>): BookState {
    BookState([], levels)
  }

  /** Ann buys one from a level where her own ask is first: Bob's ask is the one that trades, Ann's is the one
      that leaves, and Bob's stays in the book with nothing left. */
  lemma WrongOrderLeaves()
    ensures var own, other := Ask("1", "ann", 100.0), Ask("2", "bob", 100.0);
            var book := Asks([LevelState(100.0, [own, other])]);
            var r := LimitResult(book, Bid("3", "ann", 100.0, 1.0));
            r.taker.Remaining() == 0.0 &&
            r.book == Asks([LevelState(100.0, [other.(filled := 1.0)])])
  {
    var own, other := Ask("1", "ann", 100.0), Ask("2", "bob", 100.0);
    var taker := Bid("3", "ann", 100.0, 1.0);
    var fill := Fill(other, taker, 1.0);
    assert [own, other][1..] == [other] && [other][1..] == [];
    assert FillLevel([other], taker) == LevelFill([fill.MakerAfter()], 1, fill.TakerAfter(), [fill], true);
    assert FillLevel([own, other], taker).orders == [own, fill.MakerAfter()];
    assert [own, fill.MakerAfter()][1..] == [fill.MakerAfter()];
  }

  /** On a book without asks a limit buy is refused, and not rested. */
  lemma FirstOrderIsNotRested()
    ensures var book := BookState([], []);
            var taker := Bid("1", "ann", 100.0, 1.0);
            LimitResult(book, taker) == MatchResult(OrderbookEmpty, book, taker, [], [], [])
  {
  }

  /** A limit buy of two at 101 takes the one at 100 and rests at 101 opposite the ask at 101: crossed. */
  lemma RemainderRestsCrossed()
    ensures var near, far := LevelState(100.0, [Ask("1", "bob", 100.0)]), LevelState(101.0, [Ask("2", "bob", 101.0)]);
            var r := LimitResult(Asks([near, far]), Bid("3", "ann", 101.0, 2.0));
            r.taker.Remaining() == 1.0 && r.book == BookState([LevelState(101.0, [r.taker])], [far]) &&
            Uncrossed(Asks([near, far])) && !Uncrossed(r.book)
  {
    var maker := Ask("1", "bob", 100.0);
    var near, far := LevelState(100.0, [maker]), LevelState(101.0, [Ask("2", "bob", 101.0)]);
    var taker := Bid("3", "ann", 101.0, 2.0);
    var fill := Fill(maker, taker, 1.0);
    assert [maker][1..] == [];
    assert FillLevel([maker], taker) == LevelFill([fill.MakerAfter()], 1, fill.TakerAfter(), [fill], false);
    assert [near, far][1..] == [far];
    var r := LimitResult(Asks([near, far]), taker);
    assert [LevelState(101.0, [r.taker])] + [] == [LevelState(101.0, [r.taker])];
    assert LevelState(101.0, [r.taker]) in r.book.bids && far in r.book.asks;
  }

  /** A market buy trades with the buyer's own ask. */
  lemma MarketBuyerMeetsItself()
    ensures var own := Ask("1", "ann", 100.0);
            var taker := Bid("2", "ann", 100.0, 1.0).(orderType := MarketOrder);
            MarketResult(Asks([LevelState(100.0, [own])]), taker).fills == [Fill(own, taker, 1.0)]
  {
    var own := Ask("1", "ann", 100.0);
    var taker := Bid("2", "ann", 100.0, 1.0).(orderType := MarketOrder);
    var level := LevelState(100.0, [own]);
    assert [own][1..] == [] && [level][1..] == [];
    assert SweepLevel([own], taker).fills == [Fill(own, taker, 1.0)];
    assert SweepSide([level], taker).fills == [Fill(own, taker, 1.0)];
  }

  /** Ann sells one, Bob behind her own bid would buy it: nothing trades and nothing is published. */
  lemma SellerStopsAtOwnBid()
    ensures var own, other := Bid("1", "ann", 100.0, 1.0), Bid("2", "bob", 100.0, 1.0);
            var taker := Ask("3", "ann", 100.0).(orderType := MarketOrder);
            var book := BookState([LevelState(100.0, [own, other])], []);
            MarketResult(book, taker) == MatchResult(NoError, book, taker, [], [], [])
  {
    var own, other := Bid("1", "ann", 100.0, 1.0), Bid("2", "bob", 100.0, 1.0);
    var taker := Ask("3", "ann", 100.0).(orderType := MarketOrder);
    var level := LevelState(100.0, [own, other]);
    assert SweepLevel([own, other], taker) == LevelSweep([own, other], taker, [], false);
    assert [level][1..] == [] && [level] + [] == [level];
    assert SweepSide([level], taker) == SideSweep([level], taker, [], false, false);
    assert DropEmpty([level]) == [level];
  }

  /** Dave buys one, Carol behind a spent ask would sell it: nothing trades. */
  lemma BuyerStopsAtSpentAsk()
    ensures var spent, live := Ask("1", "bob", 100.0).(filled := 1.0), Ask("2", "carol", 100.0);
            var taker := Bid("3", "dave", 100.0, 1.0).(orderType := MarketOrder);
            var book := Asks([LevelState(100.0, [spent, live])]);
            MarketResult(book, taker) == MatchResult(NoError, book, taker, [], [], [])
  {
    var spent, live := Ask("1", "bob", 100.0).(filled := 1.0), Ask("2", "carol", 100.0);
    var taker := Bid("3", "dave", 100.0, 1.0).(orderType := MarketOrder);
    var level := LevelState(100.0, [spent, live]);
    assert SweepLevel([spent, live], taker) == LevelSweep([spent, live], taker, [], false);
    assert [level][1..] == [] && [level] + [] == [level];
    assert SweepSide([level], taker) == SideSweep([level], taker, [], false, false);
    assert DropEmpty([level]) == [level];
  }

  /** Ann sells one to Carol at 99, though Bob behind her own bid offers 100. */
  lemma SellerPassesOverBetterBid()
    ensures var own, other := Bid("1", "ann", 100.0, 1.0), Bid("2", "bob", 100.0, 1.0);
            var worse := Bid("3", "carol", 99.0, 1.0);
            var taker := Ask("4", "ann", 99.0).(orderType := MarketOrder);
            var book := BookState([LevelState(100.0, [own, other]), LevelState(99.0, [worse])], []);
            MarketResult(book, taker).fills == [Fill(worse, taker, 1.0)]
  {
    var own, other := Bid("1", "ann", 100.0, 1.0), Bid("2", "bob", 100.0, 1.0);
    var worse := Bid("3", "carol", 99.0, 1.0);
    var taker := Ask("4", "ann", 99.0).(orderType := MarketOrder);
    var best, next := LevelState(100.0, [own, other]), LevelState(99.0, [worse]);
    assert SweepLevel([own, other], taker) == LevelSweep([own, other], taker, [], false);
    assert SweepLevel([worse], taker).fills == [Fill(worse, taker, 1.0)];
    assert [best, next][1..] == [next];
    assert SweepSide([next], taker).fills == [Fill(worse, taker, 1.0)];
    assert SweepSide([best, next], taker).fills == [] + SweepSide([next], taker).fills;
  }
}
