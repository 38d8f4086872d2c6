/** The reaper's tick over the expiry heap (internal/engine/engine.go:421-458). */
module Expiry {
  import opened ExpiryHeap
  import opened Orders
  import opened Events
  import opened Books
  import opened MarketLaws
  import opened Removal

  predicate IsExpired(e: ExpiryEntry, now: int) {
    e.expiresAt < now
  }

  predicate NonDecreasing(entries: seq<ExpiryEntry>) {
    forall i, j :: 0 <= i < j < |entries| ==> entries[i].expiresAt <= entries[j].expiresAt
  }

  type BookTable = map<string, BookState>

  /** The reaper looks an entry's order up and, if the scan finds it, removes it at the entry's price. */
  function ReapOne(books: BookTable, e: ExpiryEntry): BookTable
    requires e.pair in books
  {
    if OrderExists(books[e.pair], e.side, e.orderID) then
      books[e.pair := Removed(books[e.pair], e.side, e.orderID, e.price)]
    else books
  }

  function ReapAll(books: BookTable, entries: seq<ExpiryEntry>): (r: BookTable)
    requires forall e :: e in entries ==> e.pair in books
    ensures r.Keys == books.Keys
    decreases |entries|
  {
    if entries == [] then books
    else
      var last := |entries| - 1;
      assert entries[last] in entries;
      ReapOne(ReapAll(books, entries[..last]), entries[last])
  }

  /** The event that is meant to report an expiry; the entry knows neither the user nor the quantities. */
  function ExpiryEvent(e: ExpiryEntry): OrderEvent {
    OrderEvent(OrderExpired, Expired, e.orderID, "", e.pair, LimitOrder, e.side, e.price, 0.0, 0.0, 0.0)
  }

  class BookReaper {
    var entries: seq<ExpiryEntry>
    var books: BookTable
    const log: EventLog

    constructor (books: BookTable, log: EventLog)
      ensures Valid() && entries == [] && this.books == books && this.log == log
    {
      entries := [];
      this.books := books;
      this.log := log;
    }

    /** Heap order, and no more than that; every entry names a book. */
    ghost predicate Valid()
      reads this
    {
      HeapOrder(entries) && forall e :: e in entries ==> e.pair in books
    }

    method Push(e: ExpiryEntry)
      requires Valid() && e.pair in books
      modifies this`entries
      ensures Valid() && entries == Pushed(old(entries), e)
      ensures multiset(entries) == old(multiset(entries)) + multiset{e}
    {
      PushKeeps(entries, e);
      SameEntries(Pushed(entries, e), entries + [e]);
      entries := Pushed(entries, e);
    }

    method Pop() returns (least: ExpiryEntry)
      requires Valid() && entries != []
      modifies this`entries
      ensures Valid() && least == old(entries)[0] && entries == Popped(old(entries))
      ensures forall e :: e in old(entries) ==> least.expiresAt <= e.expiresAt
      ensures multiset(entries) + multiset{least} == old(multiset(entries))
    {
      PopKeeps(entries);
      LeastOfAll(entries);
      least := entries[0];
      SameEntries(Popped(entries) + [least], entries);
      entries := Popped(entries);
    }

    /** `RemoveOrderByOrderID` on the entry's book, which never raises its flag. */
    method RemoveExpired(e: ExpiryEntry) returns (removed: bool)
      requires e.pair in books
      modifies this`books
      ensures books == old(books)[e.pair := Removed(old(books)[e.pair], e.side, e.orderID, e.price)]
      ensures !removed
    {
      removed := false;
      books := books[e.pair := Removed(books[e.pair], e.side, e.orderID, e.price)];
    }

    /** The order expires if it is found, and is reported if its removal is. */
    method ReapNext() returns (item: ExpiryEntry)
      requires Valid() && entries != []
      modifies this, log
      ensures Valid() && item == old(entries)[0] && entries == Popped(old(entries))
      ensures forall e :: e in old(entries) ==> item.expiresAt <= e.expiresAt
      ensures item.pair in old(books) && books == ReapOne(old(books), item)
      ensures log.orderEvents == old(log.orderEvents) && log.tradeEvents == old(log.tradeEvents)
    {
      item := Pop();
      if OrderExists(books[item.pair], item.side, item.orderID) {
        var removed := RemoveExpired(item);
        log.PublishOrderEvents(if removed then [ExpiryEvent(item)] else []);
      }
    }

    /** A tick that has popped these entries so far. */
    ghost predicate Ticking(before: multiset<ExpiryEntry>, books0: BookTable, popped: seq<ExpiryEntry>, now: int)
      reads this
    {
      && Valid() && books.Keys == books0.Keys && before == multiset(popped) + multiset(entries)
      && NonDecreasing(popped) && (forall p, e :: p in popped && e in entries ==> p.expiresAt <= e.expiresAt)
      && (forall e :: e in popped ==> IsExpired(e, now) && e.pair in books0)
      && books == ReapAll(books0, popped)
    }

    /** The body of the tick's loop. */
    method ReapTop(popped: seq<ExpiryEntry>, ghost before: multiset<ExpiryEntry>, ghost books0: BookTable, now: int)
        returns (popped': seq<ExpiryEntry>)
      requires Ticking(before, books0, popped, now) && entries != [] && IsExpired(entries[0], now)
      modifies this, log
      ensures Ticking(before, books0, popped', now) && |entries| < old(|entries|)
      ensures log.orderEvents == old(log.orderEvents) && log.tradeEvents == old(log.tradeEvents)
    {
      ghost var was := entries;
      var item := ReapNext();
      ReapLast(books0, popped, item);
      popped' := popped + [item];
      assert item in was;
      FewerEntries(was);
      OneMorePopped(was, popped, item);
    }

    /** One tick: everything expired is popped, in order of expiry, and reaped. The removal flag is never
        raised, so nothing is published, however many orders expire. */
    method Tick(now: int) returns (popped: seq<ExpiryEntry>)
      requires Valid()
      modifies this, log
      ensures Valid()
      ensures old(multiset(entries)) == multiset(popped) + multiset(entries)
      ensures NonDecreasing(popped)
      ensures forall e :: e in popped ==> e.expiresAt < now
      ensures forall e :: e in entries ==> now <= e.expiresAt
      ensures (forall e :: e in popped ==> e.pair in old(books)) && books == ReapAll(old(books), popped)
      ensures log.orderEvents == old(log.orderEvents) && log.tradeEvents == old(log.tradeEvents)
    {
      ghost var before, books0 := multiset(entries), books;
      popped := [];
      while |entries| > 0
        invariant Ticking(before, books0, popped, now)
        invariant log.orderEvents == old(log.orderEvents) && log.tradeEvents == old(log.tradeEvents)
        decreases |entries|
      {
        if !IsExpired(entries[0], now) {
          break;
        }
        popped := ReapTop(popped, before, books0, now);
      }
      if entries != [] {
        LeastOfAll(entries);
      }
    }
  }

  lemma SameEntries(a: seq<ExpiryEntry>, b: seq<ExpiryEntry>)
    requires multiset(a) == multiset(b)
    ensures forall e :: e in a <==> e in b
  {
    assert forall e :: e in a <==> e in multiset(a);
    assert forall e :: e in b <==> e in multiset(b);
  }

  /** In heap order the root speaks for everything below it. */
  lemma LeastOfAll(s: seq<ExpiryEntry>)
    requires HeapOrder(s) && s != []
    ensures forall e :: e in s ==> s[0].expiresAt <= e.expiresAt
  {
    forall e | e in s ensures s[0].expiresAt <= e.expiresAt {
      var i :| 0 <= i < |s| && s[i] == e;
      RootIsLeast(s, i);
    }
  }

  lemma FewerEntries(s: seq<ExpiryEntry>)
    requires s != []
    ensures |Popped(s)| == |s| - 1
  {
    var r := Popped(s);
    assert |multiset(r)| == |r| && |multiset(s)| == |s|;
    assert |multiset(r) + multiset{s[0]}| == |r| + 1;
  }

  /** What is popped next is not sooner than what was popped before, nor later than what stays. */
  lemma OneMorePopped(s: seq<ExpiryEntry>, popped: seq<ExpiryEntry>, item: ExpiryEntry)
    requires HeapOrder(s) && s != [] && item == s[0] && NonDecreasing(popped)
    requires forall p, e :: p in popped && e in s ==> p.expiresAt <= e.expiresAt
    ensures NonDecreasing(popped + [item])
    ensures forall p, e :: p in popped + [item] && e in Popped(s) ==> p.expiresAt <= e.expiresAt
    ensures multiset(popped) + multiset(s) == multiset(popped + [item]) + multiset(Popped(s))
  {
    LeastOfAll(s);
    SameEntries(Popped(s) + [item], s);
    assert s[0] in s;
    forall i | 0 <= i < |popped| ensures popped[i].expiresAt <= item.expiresAt {
      assert popped[i] in popped;
    }
  }

  lemma {:induction false} ReapLast(books: BookTable, entries: seq<ExpiryEntry>, e: ExpiryEntry)
    requires (forall x :: x in entries ==> x.pair in books) && e.pair in books
    ensures forall x :: x in entries + [e] ==> x.pair in books
    ensures ReapAll(books, entries + [e]) == ReapOne(ReapAll(books, entries), e)
  {
    assert (entries + [e])[..|entries|] == entries;
  }

  // ---------- what a tick does to the books ----------

  /** Some entry names this resting order: its pair, side, ID and price. */
  predicate Named(entries: seq<ExpiryEntry>, pair: string, side: OrderSide, o: OrderState) {
    exists e :: e in entries && e.pair == pair && e.side == side && e.orderID == o.id && e.price == o.price
  }

  ghost predicate AllWellFormed(books: BookTable) {
    forall p :: p in books ==> WellFormed(books[p])
  }

  lemma ReapOneKeeps(books: BookTable, e: ExpiryEntry)
    requires e.pair in books && AllWellFormed(books)
    ensures AllWellFormed(ReapOne(books, e))
  {
    RemovalKeeps(books[e.pair], e.side, e.orderID, e.price);
  }

  /** An entry takes its own order out of the book and no other. */
  lemma ReapOneExact(books: BookTable, e: ExpiryEntry, pair: string, side: OrderSide, o: OrderState)
    requires e.pair in books && AllWellFormed(books) && pair in books
    ensures o in AllOrders(ReapOne(books, e)[pair].Own(side))
       <==> o in AllOrders(books[pair].Own(side)) && !Named([e], pair, side, o)
  {
    NamedOne(e, pair, side, o);
    if e.pair == pair {
      OwnSides(books[pair], e.side, side);
      ReapBook(books[pair], e, side, o);
    }
  }

  lemma NamedOne(e: ExpiryEntry, pair: string, side: OrderSide, o: OrderState)
    ensures Named([e], pair, side, o)
       <==> e.pair == pair && e.side == side && e.orderID == o.id && e.price == o.price
  {
    assert e in [e];
  }

  lemma OwnSides(book: BookState, a: OrderSide, b: OrderSide)
    ensures a != b ==> book.Own(b) == book.Opposite(a)
  {
  }

  lemma ReapBook(book: BookState, e: ExpiryEntry, side: OrderSide, o: OrderState)
    requires WellFormed(book)
    ensures var after :=
        if OrderExists(book, e.side, e.orderID) then Removed(book, e.side, e.orderID, e.price) else book;
      o in AllOrders(after.Own(side))
      <==> o in AllOrders(book.Own(side)) && !(e.side == side && e.orderID == o.id && e.price == o.price)
  {
    var levels := book.Own(e.side);
    if x :| x in AllOrders(levels) && x.id == e.orderID && x.price == e.price {
      RemovalIsExact(book, e.side, x);
      if side == e.side {
        WithoutExactly(levels, book, e.side, x, o);
      }
    } else {
      forall l | l in levels && l.price == e.price ensures !HasID(l.orders, e.orderID) {
        assert GoodLevel(e.side, l);
        forall y | y in l.orders ensures y.id != e.orderID {
          AllOrdersMember(levels, y);
        }
      }
      RemovalNeedsPrice(book, e.side, e.orderID, e.price);
    }
  }

  lemma {:induction false} WithoutExactly(levels: seq<LevelState>, book: BookState, side: OrderSide, x: OrderState,
                                          o: OrderState)
    requires WellFormed(book) && levels == book.Own(side) && x in AllOrders(levels)
    ensures o in Without(AllOrders(levels), x.id) <==> o in AllOrders(levels) && !(x.id == o.id && x.price == o.price)
  {
    BookIDsOf(book, side);
    SubsetUnique(SideIDs(levels), BookIDs(book));
    AllOrdersIDs(levels);
    WithoutUnique(AllOrders(levels), x, o);
  }

  lemma {:induction false} WithoutUnique(orders: seq<OrderState>, x: OrderState, o: OrderState)
    requires Unique(IDs(orders)) && x in orders
    ensures o in Without(orders, x.id) <==> o in orders && !(x.id == o.id && x.price == o.price)
  {
    var tail := orders[1..];
    SubsetUnique(IDs(tail), IDs(orders));
    assert IDs(orders)[orders[0].id] == 1 + IDs(tail)[orders[0].id];
    forall y | y in tail ensures y.id != orders[0].id {
      assert HasID(tail, y.id);
      IDsMember(tail, y.id);
    }
    assert orders == [orders[0]] + tail;
    if orders[0].id != x.id {
      WithoutUnique(tail, x, o);
    }
  }

  /** After a tick an order is still in its book if and only if it was there and no popped entry names it. */
  lemma {:induction false} ReapIsExact(books: BookTable, entries: seq<ExpiryEntry>, pair: string, side: OrderSide,
                                       o: OrderState)
    requires (forall e :: e in entries ==> e.pair in books) && AllWellFormed(books) && pair in books
    ensures AllWellFormed(ReapAll(books, entries))
    ensures o in AllOrders(ReapAll(books, entries)[pair].Own(side))
       <==> o in AllOrders(books[pair].Own(side)) && !Named(entries, pair, side, o)
    decreases |entries|
  {
    if entries != [] {
      var last := |entries| - 1;
      var earlier, e := entries[..last], entries[last];
      assert entries == earlier + [e];
      assert e in entries && forall x :: x in earlier ==> x in entries;
      ReapIsExact(books, earlier, pair, side, o);
      ReapOneKeeps(ReapAll(books, earlier), e);
      ReapOneExact(ReapAll(books, earlier), e, pair, side, o);
      NamedLast(earlier, e, pair, side, o);
    }
  }

  lemma NamedLast(earlier: seq<ExpiryEntry>, e: ExpiryEntry, pair: string, side: OrderSide, o: OrderState)
    ensures Named(earlier + [e], pair, side, o) <==> Named(earlier, pair, side, o) || Named([e], pair, side, o)
  {
    assert e in earlier + [e] && e in [e];
    forall x | x in earlier ensures x in earlier + [e] {}
  }
}
