/** Taking an order out by ID and price: cancel and expiry (internal/engine/orderbook.go:486-556). */
module Removal {
  import opened Orders
  import opened Books
  import Market
  import opened MarketLaws

  lemma {:induction false} WithoutConcat(a: seq<OrderState>, b: seq<OrderState>, id: ID)
    ensures Without(a + b, id) == if HasID(a, id) then Without(a, id) + b else a + Without(b, id)
  {
    if a == [] {
      assert a + b == b;
    } else {
      assert (a + b)[1..] == a[1..] + b;
      WithoutConcat(a[1..], b, id);
      assert HasID(a, id) <==> a[0].id == id || HasID(a[1..], id) by {
        assert a == [a[0]] + a[1..];
      }
    }
  }

  lemma {:induction false} WithoutAbsent(orders: seq<OrderState>, id: ID)
    requires !HasID(orders, id)
    ensures Without(orders, id) == orders
  {
    if orders != [] {
      assert orders[0] in orders;
      forall o | o in orders[1..] ensures o.id != id {}
      WithoutAbsent(orders[1..], id);
      assert [orders[0]] + orders[1..] == orders;
    }
  }

  lemma {:induction false} WithoutIDs(orders: seq<OrderState>, id: ID)
    ensures IDs(Without(orders, id)) == IDs(orders) - multiset{id}
  {
    if orders != [] {
      WithoutIDs(orders[1..], id);
      if orders[0].id != id {
        assert Without(orders, id)[1..] == Without(orders[1..], id);
      }
    }
  }

  lemma {:induction false} AllOrdersIDs(levels: seq<LevelState>)
    ensures IDs(AllOrders(levels)) == SideIDs(levels)
  {
    if levels != [] {
      IDsConcat(levels[0].orders, AllOrders(levels[1..]));
      AllOrdersIDs(levels[1..]);
    }
  }

  lemma {:induction false} AllOrdersMember(levels: seq<LevelState>, o: OrderState)
    ensures o in AllOrders(levels) <==> exists l :: l in levels && o in l.orders
  {
    if levels != [] {
      AllOrdersMember(levels[1..], o);
      assert levels == [levels[0]] + levels[1..];
      if l :| l in levels && o in l.orders && l != levels[0] {
        assert l in levels[1..];
      }
    }
  }

  /** Every order sits at its own price, so the ID is found at one level only. */
  lemma {:induction false} WithoutAtOrders(side: OrderSide, levels: seq<LevelState>, o: OrderState)
    requires GoodSide(side, levels) && o in AllOrders(levels) && Unique(SideIDs(levels))
    ensures AllOrders(WithoutAt(levels, o.price, o.id)) == Without(AllOrders(levels), o.id)
  {
    var head, rest := levels[0].orders, AllOrders(levels[1..]);
    assert GoodLevel(side, levels[0]);
    WithoutConcat(head, rest, o.id);
    if levels[0].price == o.price {
      TailPrices(side, levels, o);
      assert HasID(head, o.id);
      assert WithoutAt(levels, o.price, o.id)[1..] == levels[1..];
    } else {
      assert o in rest;
      SubsetUnique(SideIDs(levels[1..]), SideIDs(levels));
      WithoutAtOrders(side, levels[1..], o);
      assert WithoutAt(levels, o.price, o.id)[1..] == WithoutAt(levels[1..], o.price, o.id);
      NotInHead(levels, o);
    }
  }

  lemma TailPrices(side: OrderSide, levels: seq<LevelState>, o: OrderState)
    requires GoodSide(side, levels) && levels != []
    ensures o in AllOrders(levels[1..]) ==> o.price != levels[0].price
  {
    AllOrdersMember(levels[1..], o);
    if l :| l in levels[1..] && o in l.orders {
      assert GoodLevel(side, l);
      var i :| 0 <= i < |levels[1..]| && levels[1..][i] == l;
      assert Better(side, levels[0].price, levels[i + 1].price);
    }
  }

  lemma {:induction false} NotInHead(levels: seq<LevelState>, o: OrderState)
    requires levels != [] && o in AllOrders(levels[1..]) && Unique(SideIDs(levels))
    ensures !HasID(levels[0].orders, o.id)
  {
    var rest := AllOrders(levels[1..]);
    IDsMember(levels[0].orders, o.id);
    AllOrdersIDs(levels[1..]);
    assert HasID(rest, o.id);
    IDsMember(rest, o.id);
    assert SideIDs(levels)[o.id] == IDs(levels[0].orders)[o.id] + SideIDs(levels[1..])[o.id];
  }

  /** Removal at the order's price takes out exactly that order, keeps every other in sequence, leaves the
      other side alone, and the full scan no longer finds it. */
  lemma RemovalIsExact(book: BookState, side: OrderSide, o: OrderState)
    requires WellFormed(book) && o in AllOrders(book.Own(side))
    ensures var after := Removed(book, side, o.id, o.price);
      && AllOrders(after.Own(side)) == Without(AllOrders(book.Own(side)), o.id)
      && after.Opposite(side) == book.Opposite(side)
      && OrderExists(book, side, o.id)
      && !OrderExists(after, side, o.id)
  {
    var levels := book.Own(side);
    BookIDsOf(book, side);
    SubsetUnique(SideIDs(levels), BookIDs(book));
    WithoutAtOrders(side, levels, o);
    var cut := WithoutAt(levels, o.price, o.id);
    DropEmptyKeeps(cut);
    AllOrdersMember(levels, o);
    var l :| l in levels && o in l.orders;
    assert HasID(l.orders, o.id);
    WithoutIDs(AllOrders(levels), o.id);
    AllOrdersIDs(levels);
    AllOrdersIDs(DropEmpty(cut));
    SideIDsMember(DropEmpty(cut), o.id);
    assert SideIDs(levels)[o.id] <= 1;
  }

  /** The price is trusted: if no order of that ID rests at it, nothing happens, wherever the order is. */
  lemma RemovalNeedsPrice(book: BookState, side: OrderSide, id: ID, price: Decimal)
    requires WellFormed(book)
    requires forall l :: l in book.Own(side) && l.price == price ==> !HasID(l.orders, id)
    ensures Removed(book, side, id, price) == book
  {
    WithoutAtAbsent(book.Own(side), price, id);
    NoEmptyDrop(side, book.Own(side));
  }

  lemma {:induction false} WithoutAtAbsent(levels: seq<LevelState>, price: Decimal, id: ID)
    requires forall l :: l in levels && l.price == price ==> !HasID(l.orders, id)
    ensures WithoutAt(levels, price, id) == levels
  {
    if levels != [] {
      if levels[0].price == price {
        assert levels[0] in levels;
        WithoutAbsent(levels[0].orders, id);
        assert LevelState(price, levels[0].orders) == levels[0];
      } else {
        forall l | l in levels[1..] && l.price == price ensures !HasID(l.orders, id) {
          assert l in levels;
        }
        WithoutAtAbsent(levels[1..], price, id);
      }
      assert [levels[0]] + levels[1..] == levels;
    }
  }

  lemma {:induction false} NoEmptyDrop(side: OrderSide, levels: seq<LevelState>)
    requires forall l :: l in levels ==> GoodLevel(side, l)
    ensures DropEmpty(levels) == levels
  {
    if levels != [] {
      assert GoodLevel(side, levels[0]);
      forall l | l in levels[1..] ensures GoodLevel(side, l) {
        assert l in levels;
      }
      NoEmptyDrop(side, levels[1..]);
      assert [levels[0]] + levels[1..] == levels;
    }
  }

  lemma {:induction false} WithoutMember(orders: seq<OrderState>, id: ID, o: OrderState)
    requires o in Without(orders, id)
    ensures o in orders
  {
    if orders[0].id != id && o != orders[0] {
      WithoutMember(orders[1..], id, o);
    }
  }

  lemma {:induction false} WithoutAtLevels(side: OrderSide, levels: seq<LevelState>, price: Decimal, id: ID)
    requires forall l :: l in levels ==> GoodLevel(side, l)
    ensures var cut := WithoutAt(levels, price, id);
      && |cut| == |levels|
      && forall i :: 0 <= i < |cut| ==>
           && cut[i].price == levels[i].price
           && (forall o :: o in cut[i].orders ==> o in levels[i].orders)
  {
    if levels != [] {
      forall l | l in levels[1..] ensures GoodLevel(side, l) {
        assert l in levels;
      }
      WithoutAtLevels(side, levels[1..], price, id);
      forall o | o in Without(levels[0].orders, id) ensures o in levels[0].orders {
        WithoutMember(levels[0].orders, id, o);
      }
    }
  }

  lemma {:induction false} WithoutAtIDs(levels: seq<LevelState>, price: Decimal, id: ID)
    ensures SideIDs(WithoutAt(levels, price, id)) <= SideIDs(levels)
  {
    if levels != [] {
      WithoutIDs(levels[0].orders, id);
      if levels[0].price != price {
        WithoutAtIDs(levels[1..], price, id);
        assert WithoutAt(levels, price, id)[1..] == WithoutAt(levels[1..], price, id);
      } else {
        assert WithoutAt(levels, price, id)[1..] == levels[1..];
      }
    }
  }

  lemma {:induction false} CutGood(side: OrderSide, levels: seq<LevelState>, cut: seq<LevelState>)
    requires GoodSide(side, levels) && |cut| == |levels|
    requires forall i :: 0 <= i < |cut| ==>
      && cut[i].price == levels[i].price
      && (forall o :: o in cut[i].orders ==> o in levels[i].orders)
    ensures GoodSide(side, DropEmpty(cut))
  {
    forall l | l in cut ensures Market.RoughLevel(side, l) {
      var i :| 0 <= i < |cut| && cut[i] == l;
      assert GoodLevel(side, levels[i]);
    }
    DropEmptyGood(side, cut);
  }

  /** Removal keeps the book well-formed, adds nothing, and cannot cross it. */
  lemma RemovalKeeps(book: BookState, side: OrderSide, id: ID, price: Decimal)
    requires WellFormed(book)
    ensures var after := Removed(book, side, id, price);
      && WellFormed(after)
      && BookIDs(after) <= BookIDs(book)
      && (Uncrossed(book) ==> Uncrossed(after))
      && (forall l :: l in after.Own(side) ==> forall o :: o in l.orders ==> o in AllOrders(book.Own(side)))
  {
    var levels := book.Own(side);
    var cut := WithoutAt(levels, price, id);
    var after := Removed(book, side, id, price);
    WithoutAtLevels(side, levels, price, id);
    CutGood(side, levels, cut);
    WithoutAtIDs(levels, price, id);
    DropEmptyKeeps(cut);
    BookIDsOf(book, side);
    BookIDsOf(after, side);
    SubsetUnique(BookIDs(after), BookIDs(book));
    forall l | l in after.Own(side)
      ensures exists k :: k in levels && k.price == l.price
      ensures forall o :: o in l.orders ==> o in AllOrders(levels)
    {
      DropEmptyMembers(cut, l);
      var i :| 0 <= i < |cut| && cut[i] == l;
      forall o | o in l.orders ensures o in AllOrders(levels) {
        AllOrdersMember(levels, o);
        assert levels[i] in levels && o in levels[i].orders;
      }
    }
  }
}
