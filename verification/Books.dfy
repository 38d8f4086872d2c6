/** The order book as a value: two sides of price levels, best price first
    (internal/engine/orderbook.go:15-24, internal/engine/side.go). */
module Books {
  import opened Orders

  datatype LevelState = LevelState(price: Decimal, orders: seq<OrderState>)

  datatype BookState = BookState(bids: seq<LevelState>, asks: seq<LevelState>) {
    /** The side an order of `side` trades against. */
    function Opposite(side: OrderSide): seq<LevelState> {
      if side == Buy then asks else bids
    }

    /** The side an order of `side` rests on. */
    function Own(side: OrderSide): seq<LevelState> {
      if side == Buy then bids else asks
    }
  }

  function Other(side: OrderSide): OrderSide {
    if side == Buy then Sell else Buy
  }

  /** The book whose sides, seen from an order of `side`, are `own` and `opposite`. */
  function MakeBook(side: OrderSide, own: seq<LevelState>, opposite: seq<LevelState>): BookState {
    if side == Buy then BookState(own, opposite) else BookState(opposite, own)
  }

  /** The comparator of a side: asks ascend, bids descend. */
  predicate Better(side: OrderSide, a: Decimal, b: Decimal) {
    if side == Sell then a < b else a > b
  }

  /** No level of the side is out of place or repeated: what the B-tree guarantees. */
  predicate Sorted(side: OrderSide, levels: seq<LevelState>) {
    forall i, j :: 0 <= i < j < |levels| ==> Better(side, levels[i].price, levels[j].price)
  }

  predicate GoodLevel(side: OrderSide, level: LevelState) {
    && level.orders != []
    && forall o :: o in level.orders ==> o.price == level.price && o.side == side && o.InRange()
  }

  predicate GoodSide(side: OrderSide, levels: seq<LevelState>) {
    && Sorted(side, levels)
    && forall l :: l in levels ==> GoodLevel(side, l)
  }

  /** How often each order ID occurs in a queue of orders. */
  ghost function IDs(orders: seq<OrderState>): multiset<ID> {
    if orders == [] then multiset{} else multiset{orders[0].id} + IDs(orders[1..])
  }

  ghost function SideIDs(levels: seq<LevelState>): multiset<ID> {
    if levels == [] then multiset{} else IDs(levels[0].orders) + SideIDs(levels[1..])
  }

  ghost function BookIDs(book: BookState): multiset<ID> {
    SideIDs(book.bids) + SideIDs(book.asks)
  }

  ghost predicate Unique(ids: multiset<ID>) {
    forall x :: ids[x] <= 1
  }

  /** Both sides strictly sorted, no empty level, every order at its level's price with
      0 <= filled <= quantity, and no ID twice. */
  ghost predicate WellFormed(book: BookState) {
    && GoodSide(Buy, book.bids)
    && GoodSide(Sell, book.asks)
    && Unique(BookIDs(book))
  }

  /** Every order still has something left to trade. */
  predicate AllLive(orders: seq<OrderState>) {
    forall o :: o in orders ==> o.Remaining() > 0.0
  }

  predicate LiveSide(levels: seq<LevelState>) {
    forall l :: l in levels ==> AllLive(l.orders)
  }

  /** Total remaining quantity of a queue, and of a side. */
  function Depth(orders: seq<OrderState>): Decimal {
    if orders == [] then 0.0 else orders[0].Remaining() + Depth(orders[1..])
  }

  function SideDepth(levels: seq<LevelState>): Decimal {
    if levels == [] then 0.0 else Depth(levels[0].orders) + SideDepth(levels[1..])
  }

  predicate Uncrossed(book: BookState) {
    forall b, a :: b in book.bids && a in book.asks ==> b.price < a.price
  }

  /** The price is acceptable to the taker: asks up to a buyer's limit, bids down to a seller's. */
  predicate Crosses(taker: OrderState, price: Decimal) {
    if taker.side == Buy then price <= taker.price else price >= taker.price
  }

  /** `RemoveEmptyLevel`. */
  function DropEmpty(levels: seq<LevelState>): seq<LevelState> {
    if levels == [] then []
    else if levels[0].orders == [] then DropEmpty(levels[1..])
    else [levels[0]] + DropEmpty(levels[1..])
  }

  /** `Side.Add`: append to the level of that price, or insert a new level in order. */
  function Place(side: OrderSide, levels: seq<LevelState>, o: OrderState): seq<LevelState> {
    if levels == [] || Better(side, o.price, levels[0].price) then [LevelState(o.price, [o])] + levels
    else if levels[0].price == o.price then [LevelState(o.price, levels[0].orders + [o])] + levels[1..]
    else [levels[0]] + Place(side, levels[1..], o)
  }

  /** The queue without its first order of that ID. */
  function Without(orders: seq<OrderState>, id: ID): seq<OrderState> {
    if orders == [] then []
    else if orders[0].id == id then orders[1..]
    else [orders[0]] + Without(orders[1..], id)
  }

  /** The side after `Without` at the level of that price, empty levels still in place. */
  function WithoutAt(levels: seq<LevelState>, price: Decimal, id: ID): seq<LevelState> {
    if levels == [] then []
    else if levels[0].price == price then [LevelState(price, Without(levels[0].orders, id))] + levels[1..]
    else [levels[0]] + WithoutAt(levels[1..], price, id)
  }

  /** `RemoveOrderByOrderID`'s effect on the book. */
  function Removed(book: BookState, side: OrderSide, id: ID, price: Decimal): BookState {
    MakeBook(side, DropEmpty(WithoutAt(book.Own(side), price, id)), book.Opposite(side))
  }

  function AllOrders(levels: seq<LevelState>): seq<OrderState> {
    if levels == [] then [] else levels[0].orders + AllOrders(levels[1..])
  }

  predicate HasID(orders: seq<OrderState>, id: ID) {
    exists o :: o in orders && o.id == id
  }

  /** `OrderExist`: the full scan of one side. */
  predicate OrderExists(book: BookState, side: OrderSide, id: ID) {
    exists l :: l in book.Own(side) && HasID(l.orders, id)
  }

  // ---------- laws of the helpers ----------

  lemma {:induction false} IDsConcat(a: seq<OrderState>, b: seq<OrderState>)
    ensures IDs(a + b) == IDs(a) + IDs(b)
  {
    if a == [] {
      assert a + b == b;
    } else {
      assert (a + b)[0] == a[0] && (a + b)[1..] == a[1..] + b;
      IDsConcat(a[1..], b);
    }
  }

  lemma {:induction false} DepthConcat(a: seq<OrderState>, b: seq<OrderState>)
    ensures Depth(a + b) == Depth(a) + Depth(b)
  {
    if a == [] {
      assert a + b == b;
    } else {
      assert (a + b)[0] == a[0] && (a + b)[1..] == a[1..] + b;
      DepthConcat(a[1..], b);
    }
  }

  lemma {:induction false} IDsMember(orders: seq<OrderState>, id: ID)
    ensures id in IDs(orders) <==> HasID(orders, id)
  {
    if orders != [] {
      IDsMember(orders[1..], id);
      assert orders == [orders[0]] + orders[1..];
      if HasID(orders, id) && orders[0].id != id {
        var o :| o in orders && o.id == id;
        assert o in orders[1..];
      }
    }
  }

  lemma {:induction false} SideIDsMember(levels: seq<LevelState>, id: ID)
    ensures id in SideIDs(levels) <==> exists l :: l in levels && HasID(l.orders, id)
  {
    if levels != [] {
      IDsMember(levels[0].orders, id);
      SideIDsMember(levels[1..], id);
      assert levels == [levels[0]] + levels[1..];
      if l :| l in levels && HasID(l.orders, id) && l != levels[0] {
        assert l in levels[1..];
      }
    }
  }

  lemma {:induction false} DepthNonNegative(orders: seq<OrderState>)
    requires forall o :: o in orders ==> o.Remaining() >= 0.0
    ensures Depth(orders) >= 0.0
  {
    if orders != [] {
      DepthNonNegative(orders[1..]);
    }
  }

  /** Dropping empty levels loses no order and no quantity. */
  lemma {:induction false} DropEmptyKeeps(levels: seq<LevelState>)
    ensures SideIDs(DropEmpty(levels)) == SideIDs(levels)
    ensures SideDepth(DropEmpty(levels)) == SideDepth(levels)
    ensures AllOrders(DropEmpty(levels)) == AllOrders(levels)
  {
    if levels != [] {
      DropEmptyKeeps(levels[1..]);
      if levels[0].orders != [] {
        assert DropEmpty(levels)[1..] == DropEmpty(levels[1..]);
      }
    }
  }

  /** What is left is exactly the levels with orders. */
  lemma {:induction false} DropEmptyMembers(levels: seq<LevelState>, l: LevelState)
    ensures l in DropEmpty(levels) <==> l in levels && l.orders != []
  {
    if levels != [] {
      DropEmptyMembers(levels[1..], l);
      assert l in levels <==> l == levels[0] || l in levels[1..];
    }
  }

  lemma {:induction false} DropEmptySorted(side: OrderSide, levels: seq<LevelState>)
    requires Sorted(side, levels)
    ensures Sorted(side, DropEmpty(levels))
  {
    if levels != [] {
      DropEmptySorted(side, levels[1..]);
      var rest := DropEmpty(levels[1..]);
      forall j | 0 <= j < |rest| ensures Better(side, levels[0].price, rest[j].price) {
        DropEmptyMembers(levels[1..], rest[j]);
      }
    }
  }

  lemma SortedTail(side: OrderSide, l: LevelState, rest: seq<LevelState>)
    requires Sorted(side, rest)
    requires forall r :: r in rest ==> Better(side, l.price, r.price)
    ensures Sorted(side, [l] + rest)
  {
  }

  /** Resting an order adds exactly that order. */
  lemma {:induction false} PlaceIDs(side: OrderSide, levels: seq<LevelState>, o: OrderState)
    ensures SideIDs(Place(side, levels, o)) == SideIDs(levels) + multiset{o.id}
  {
    assert IDs([o]) == multiset{o.id};
    if levels == [] || Better(side, o.price, levels[0].price) {
      assert Place(side, levels, o)[1..] == levels;
    } else if levels[0].price == o.price {
      IDsConcat(levels[0].orders, [o]);
      assert Place(side, levels, o)[1..] == levels[1..];
    } else {
      PlaceIDs(side, levels[1..], o);
      assert Place(side, levels, o)[1..] == Place(side, levels[1..], o);
    }
  }

  /** Every level after resting `o` is an old one, or the one of `o`'s price with `o` last. */
  lemma {:induction false} PlaceMembers(side: OrderSide, levels: seq<LevelState>, o: OrderState, l: LevelState)
    requires l in Place(side, levels, o)
    ensures l in levels || l == LevelState(o.price, [o])
         || (l.orders != [] && l.orders[|l.orders| - 1] == o && l.price == o.price
             && LevelState(o.price, l.orders[..|l.orders| - 1]) in levels)
  {
    if levels == [] || Better(side, o.price, levels[0].price) {
    } else if levels[0].price == o.price {
      if l !in levels[1..] {
        assert l.orders == levels[0].orders + [o];
        assert l.orders[..|l.orders| - 1] == levels[0].orders;
        assert levels[0] == LevelState(o.price, levels[0].orders);
      }
    } else if l != levels[0] {
      PlaceMembers(side, levels[1..], o, l);
    }
  }

  /** Resting an order keeps the side good. */
  lemma {:induction false} PlaceSorted(side: OrderSide, levels: seq<LevelState>, o: OrderState)
    requires Sorted(side, levels)
    ensures Sorted(side, Place(side, levels, o))
  {
    if levels == [] || Better(side, o.price, levels[0].price) {
    } else if levels[0].price == o.price {
    } else {
      PlaceSorted(side, levels[1..], o);
      var rest := Place(side, levels[1..], o);
      forall r | r in rest ensures Better(side, levels[0].price, r.price) {
        PlaceMembers(side, levels[1..], o, r);
      }
      SortedTail(side, levels[0], rest);
    }
  }

  lemma {:induction false} PlaceKeeps(side: OrderSide, levels: seq<LevelState>, o: OrderState)
    requires GoodSide(side, levels) && o.side == side && o.InRange()
    ensures GoodSide(side, Place(side, levels, o))
  {
    PlaceSorted(side, levels, o);
    forall l | l in Place(side, levels, o) ensures GoodLevel(side, l) {
      PlaceMembers(side, levels, o, l);
      if l !in levels && l != LevelState(o.price, [o]) {
        assert GoodLevel(side, LevelState(o.price, l.orders[..|l.orders| - 1]));
        assert l.orders == l.orders[..|l.orders| - 1] + [o];
      }
    }
  }

  lemma SumSwap(a: multiset<ID>, b: multiset<ID>, c: multiset<ID>)
    ensures a + b + c == c + a + b
    ensures a + b + c == a + c + b
  {
  }

  lemma SumShuffle(a: multiset<ID>, b: multiset<ID>, c: multiset<ID>, d: multiset<ID>)
    ensures a + (b + c) + d == (a + d) + b + c
  {
  }

  lemma BookIDsOf(book: BookState, side: OrderSide)
    ensures BookIDs(book) == SideIDs(book.Opposite(side)) + SideIDs(book.Own(side))
  {
  }
}
