/** Price levels and sides in memory (internal/engine/price_level.go, internal/engine/side.go).
    The B-tree of a side is the sequence of its levels in comparator order. */
module Sides {
  import opened Orders
  import opened Books

  class PriceLevel {
    const price: Decimal
    var orders: seq<Order>

    constructor (price: Decimal)
      ensures this.price == price && orders == []
    {
      this.price := price;
      orders := [];
    }

    constructor Of(order: Order)
      ensures price == order.price && orders == [order] && State() == LevelState(price, [order.State()])
    {
      price := order.price;
      orders := [order];
      new;
      assert States(orders) == [order.State()];
    }

    /** No order is queued twice. */
    ghost predicate Valid()
      reads this
    {
      forall i, j :: 0 <= i < j < |orders| ==> orders[i] != orders[j]
    }

    ghost function State(): LevelState
      reads this, orders
    {
      LevelState(price, States(orders))
    }

    method Append(order: Order)
      requires Valid() && order !in orders
      modifies this
      ensures Valid() && orders == old(orders) + [order]
      ensures State() == LevelState(price, old(State().orders) + [order.State()])
    {
      orders := orders + [order];
    }

    /** `RemoveFilledOrderInPriceLevel`. */
    method RemoveAt(idx: nat)
      requires idx < |orders| && Valid()
      modifies this
      ensures orders == old(orders)[..idx] + old(orders)[idx + 1..] && Valid()
      ensures States(orders) == old(States(orders))[..idx] + old(States(orders))[idx + 1..]
      ensures forall o :: o in orders ==> o in old(orders)
    {
      orders := orders[..idx] + orders[idx + 1..];
    }

    /** `RemoveOrderInPriceLevelBasedOnOrderID`: the first order of that ID, if there is one. */
    method RemoveByID(id: ID) returns (found: bool)
      requires Valid()
      modifies this
      ensures Valid() && State().orders == Without(old(State().orders), id)
      ensures found <==> HasID(old(State().orders), id)
      ensures forall o :: o in orders ==> o in old(orders)
    {
      ghost var before := State().orders;
      for i := 0 to |orders|
        invariant orders == old(orders) && States(orders) == before
        invariant forall k :: 0 <= k < i ==> orders[k].id != id
      {
        if orders[i].id == id {
          WithoutFirst(before, i, id);
          assert before[i] in before;
          RemoveAt(i);
          return true;
        }
      }
      WithoutNone(before, id);
      return false;
    }

    method OrderExistByOrderID(id: ID) returns (b: bool)
      ensures b <==> HasID(State().orders, id)
    {
      for i := 0 to |orders|
        invariant forall k :: 0 <= k < i ==> orders[k].id != id
      {
        if orders[i].id == id {
          assert States(orders)[i] in States(orders);
          return true;
        }
      }
      return false;
    }
  }

  lemma {:induction false} WithoutFirst(orders: seq<OrderState>, i: nat, id: ID)
    requires i < |orders| && orders[i].id == id && forall k :: 0 <= k < i ==> orders[k].id != id
    ensures Without(orders, id) == orders[..i] + orders[i + 1..]
  {
    if i > 0 {
      WithoutFirst(orders[1..], i - 1, id);
    }
  }

  lemma {:induction false} WithoutNone(orders: seq<OrderState>, id: ID)
    requires forall k :: 0 <= k < |orders| ==> orders[k].id != id
    ensures Without(orders, id) == orders
  {
    if orders != [] {
      WithoutNone(orders[1..], id);
    }
  }

  ghost predicate Apart(a: PriceLevel, b: PriceLevel)
    reads a, b
  {
    forall o :: o in a.orders ==> o !in b.orders
  }

  ghost function OrdersOf(levels: seq<PriceLevel>): set<Order>
    reads levels
  {
    set l, o | l in levels && o in l.orders :: o
  }

  lemma NotQueued(levels: seq<PriceLevel>, order: Order)
    requires order !in OrdersOf(levels)
    ensures forall k :: 0 <= k < |levels| ==> order !in levels[k].orders
  {
    forall k | 0 <= k < |levels| ensures order !in levels[k].orders {
      assert levels[k] in levels;
    }
  }

  ghost function LevelStates(levels: seq<PriceLevel>): (s: seq<LevelState>)
    reads levels, OrdersOf(levels)
    ensures |s| == |levels|
    ensures forall i :: 0 <= i < |levels| ==> s[i] == levels[i].State()
  {
    seq(|levels|, i requires 0 <= i < |levels| reads levels, OrdersOf(levels) =>
      assert levels[i] in levels;
      assert forall o :: o in levels[i].orders ==> o in OrdersOf(levels);
      levels[i].State())
  }

  lemma LevelStatesConcat(a: seq<PriceLevel>, b: seq<PriceLevel>)
    ensures LevelStates(a + b) == LevelStates(a) + LevelStates(b)
  {
  }

  lemma LevelStatesInsert(levels: seq<PriceLevel>, i: nat, level: PriceLevel)
    requires i <= |levels|
    ensures LevelStates(levels[..i] + [level] + levels[i..])
      == LevelStates(levels)[..i] + [level.State()] + LevelStates(levels)[i..]
  {
    assert levels[..i] + levels[i..] == levels;
    LevelStatesConcat(levels[..i], levels[i..]);
    LevelStatesConcat(levels[..i] + [level], levels[i..]);
    LevelStatesConcat(levels[..i], [level]);
  }

  lemma OrdersOfInsert(levels: seq<PriceLevel>, i: nat, level: PriceLevel, order: Order)
    requires i <= |levels| && level.orders == [order]
    ensures OrdersOf(levels[..i] + [level] + levels[i..]) <= OrdersOf(levels) + {order}
  {
    var all := levels[..i] + [level] + levels[i..];
    assert levels == levels[..i] + levels[i..];
    assert forall l :: l in all <==> l in levels || l == level;
    assert order in level.orders;
  }

  /** Levels in comparator order, no order in two of them. */
  ghost predicate Ordered(side: OrderSide, levels: seq<PriceLevel>)
    reads levels
  {
    && (forall i :: 0 <= i < |levels| ==> levels[i].Valid())
    && (forall i, j :: 0 <= i < j < |levels| ==> Better(side, levels[i].price, levels[j].price))
    && (forall i, j :: 0 <= i < j < |levels| ==> Apart(levels[i], levels[j]))
  }

  lemma OrderedInsert(side: OrderSide, levels: seq<PriceLevel>, i: nat, level: PriceLevel)
    requires Ordered(side, levels) && i <= |levels| && level.Valid()
    requires forall k :: 0 <= k < i ==> Better(side, levels[k].price, level.price)
    requires i < |levels| ==> Better(side, level.price, levels[i].price)
    requires forall k :: 0 <= k < |levels| ==> Apart(levels[k], level) && Apart(level, levels[k])
    ensures Ordered(side, levels[..i] + [level] + levels[i..])
  {
    var all := levels[..i] + [level] + levels[i..];
    forall a, b | 0 <= a < b < |all|
      ensures Better(side, all[a].price, all[b].price) && Apart(all[a], all[b])
    {
      assert all[a] == if a < i then levels[a] else if a == i then level else levels[a - 1];
      assert all[b] == if b < i then levels[b] else if b == i then level else levels[b - 1];
    }
  }

  /** Levels kept from a longer run stay ordered when its next level is kept. */
  lemma OrderedAppend(side: OrderSide, levels: seq<PriceLevel>, i: nat, kept: seq<PriceLevel>)
    requires Ordered(side, levels) && i < |levels| && Ordered(side, kept)
    requires forall l :: l in kept ==> l in levels[..i]
    ensures Ordered(side, kept + [levels[i]])
  {
    forall k | 0 <= k < |kept| ensures Better(side, kept[k].price, levels[i].price) && Apart(kept[k], levels[i]) {
      assert kept[k] in levels[..i];
    }
  }

  ghost function Queues(levels: seq<PriceLevel>): (q: seq<seq<Order>>)
    reads levels
    ensures |q| == |levels| && forall k :: 0 <= k < |levels| ==> q[k] == levels[k].orders
  {
    seq(|levels|, k requires 0 <= k < |levels| reads levels => levels[k].orders)
  }

  ghost predicate QueuesApart(queues: seq<seq<Order>>) {
    forall a, b, o :: 0 <= a < b < |queues| && o in queues[a] ==> o !in queues[b]
  }

  lemma QueuesAreApart(side: OrderSide, levels: seq<PriceLevel>)
    requires Ordered(side, levels)
    ensures QueuesApart(Queues(levels))
  {
    forall a, b, o | 0 <= a < b < |levels| && o in Queues(levels)[a] ensures o !in Queues(levels)[b] {
      assert Apart(levels[a], levels[b]);
    }
  }

  /** A side whose queues only lose orders stays ordered. */
  lemma OrderedAfter(side: OrderSide, levels: seq<PriceLevel>, queues: seq<seq<Order>>)
    requires |queues| == |levels| && QueuesApart(queues)
    requires forall k :: 0 <= k < |levels| ==> levels[k].Valid()
    requires forall i, j :: 0 <= i < j < |levels| ==> Better(side, levels[i].price, levels[j].price)
    requires forall k, o :: 0 <= k < |levels| && o in levels[k].orders ==> o in queues[k]
    ensures Ordered(side, levels)
  {
    forall i, j | 0 <= i < j < |levels| ensures Apart(levels[i], levels[j]) {}
  }

  lemma QueuesWithin(levels: seq<PriceLevel>)
    ensures forall k, o :: 0 <= k < |levels| && o in levels[k].orders ==> o in OrdersOf(levels)
  {
    forall k, o | 0 <= k < |levels| && o in levels[k].orders ensures o in OrdersOf(levels) {
      assert levels[k] in levels;
    }
  }

  lemma OrdersWithin(levels: seq<PriceLevel>, all: set<Order>)
    requires forall k, o :: 0 <= k < |levels| && o in levels[k].orders ==> o in all
    ensures OrdersOf(levels) <= all
  {
  }

  class Side {
    const side: OrderSide // what rests here: asks ascend, bids descend
    var levels: seq<PriceLevel>

    constructor (side: OrderSide)
      ensures this.side == side && levels == [] && Valid()
    {
      this.side := side;
      levels := [];
    }

    ghost predicate Valid()
      reads this, levels
    {
      Ordered(side, levels)
    }

    ghost function State(): seq<LevelState>
      reads this, levels, OrdersOf(levels)
    {
      LevelStates(levels)
    }

    /** `PopFront`: drop the head of the best level, and the level once it is empty. */
    method PopFront()
      requires Valid()
      modifies this, if |levels| > 0 then {levels[0]} else {}
      ensures Valid()
      ensures old(levels) == [] ==> levels == []
      ensures old(levels) != [] ==>
                var best := old(levels)[0];
                && best.orders == (if old(best.orders) == [] then [] else old(best.orders)[1..])
                && levels == (if best.orders == [] then old(levels)[1..] else old(levels))
    {
      if |levels| == 0 {
        return;
      }
      var first := levels[0];
      if |first.orders| > 0 {
        first.orders := first.orders[1..];
      }
      if |first.orders| == 0 {
        levels := levels[1..];
      }
    }

    /** `Add`: at the tail of the level of its price, which is made if it is not there. */
    method Add(order: Order)
      requires Valid() && order !in OrdersOf(levels)
      modifies this, levels
      ensures Valid() && State() == Place(side, old(State()), order.State())
      ensures forall l :: l in levels ==> l in old(levels) || fresh(l)
      ensures OrdersOf(levels) <= old(OrdersOf(levels)) + {order}
    {
      var i := 0;
      while i < |levels| && Better(side, levels[i].price, order.price)
        invariant i <= |levels|
        invariant forall k :: 0 <= k < i ==> Better(side, levels[k].price, order.price)
      {
        i := i + 1;
      }
      PlaceAt(side, State(), order.State(), i);
      if i < |levels| && levels[i].price == order.price {
        AppendAt(i, order);
      } else {
        AddLevel(i, order);
      }
    }

    method AppendAt(i: nat, order: Order)
      requires Valid() && i < |levels| && order !in OrdersOf(levels)
      modifies levels[i]
      ensures Valid() && levels == old(levels)
      ensures State() == old(State())[..i]
        + [LevelState(levels[i].price, old(State())[i].orders + [order.State()])] + old(State())[i + 1..]
      ensures OrdersOf(levels) <= old(OrdersOf(levels)) + {order}
    {
      ghost var before, all, queues := State(), OrdersOf(levels), Queues(levels);
      NotQueued(levels, order);
      QueuesAreApart(side, levels);
      QueuesWithin(levels);
      LevelApart(i);
      levels[i].Append(order);
      OrderedAfter(side, levels, queues[i := queues[i] + [order]]);
      OrdersWithin(levels, all + {order});
      assert forall k :: 0 <= k < |levels| && k != i ==> levels[k].State() == before[k];
    }

    lemma LevelApart(i: nat)
      requires Valid() && i < |levels|
      ensures forall k :: 0 <= k < |levels| && k != i ==> levels[k] != levels[i]
    {
    }

    method AddLevel(i: nat, order: Order)
      requires Valid() && i <= |levels| && order !in OrdersOf(levels)
      requires forall k :: 0 <= k < i ==> Better(side, levels[k].price, order.price)
      requires i < |levels| ==> Better(side, order.price, levels[i].price)
      modifies this
      ensures Valid()
      ensures State() == old(State())[..i] + [LevelState(order.price, [order.State()])] + old(State())[i..]
      ensures forall l :: l in levels ==> l in old(levels) || fresh(l)
      ensures OrdersOf(levels) <= old(OrdersOf(levels)) + {order}
    {
      NotQueued(levels, order);
      var level := new PriceLevel.Of(order);
      OrdersOfInsert(levels, i, level, order);
      InsertLevel(i, level);
    }

    /** `ReplaceOrInsert` of a level whose price is new. */
    method InsertLevel(i: nat, level: PriceLevel)
      requires Valid() && i <= |levels| && level.Valid()
      requires forall k :: 0 <= k < i ==> Better(side, levels[k].price, level.price)
      requires i < |levels| ==> Better(side, level.price, levels[i].price)
      requires forall k :: 0 <= k < |levels| ==> Apart(levels[k], level) && Apart(level, levels[k])
      modifies this
      ensures Valid()
      ensures levels == old(levels)[..i] + [level] + old(levels)[i..]
      ensures State() == old(State())[..i] + [level.State()] + old(State())[i..]
      ensures forall l :: l in levels ==> l in old(levels) || l == level
    {
      OrderedInsert(side, levels, i, level);
      LevelStatesInsert(levels, i, level);
      levels := levels[..i] + [level] + levels[i..];
    }

    /** `RemoveEmptyLevel`: the empty levels are collected and deleted. */
    method RemoveEmptyLevel()
      requires Valid()
      modifies this
      ensures Valid() && State() == DropEmpty(old(State()))
      ensures forall l :: l in levels ==> l in old(levels)
    {
      ghost var before := State();
      var kept: seq<PriceLevel> := [];
      for i := 0 to |levels|
        invariant levels == old(levels) && State() == before
        invariant Keeps(kept, i, before)
      {
        KeptNext(kept, i, before);
        if |levels[i].orders| > 0 {
          kept := kept + [levels[i]];
        }
      }
      assert before[..|levels|] == before;
      levels := kept;
    }

    /** Of the first `i` levels those that have orders are kept. */
    ghost predicate Keeps(kept: seq<PriceLevel>, i: nat, before: seq<LevelState>)
      reads this, kept, OrdersOf(kept)
    {
      && i <= |levels| && i <= |before| && Ordered(side, kept)
      && (forall l :: l in kept ==> l in levels[..i])
      && LevelStates(kept) == DropEmpty(before[..i])
    }

    /** The levels kept so far, and the next one if it has orders. */
    lemma KeptNext(kept: seq<PriceLevel>, i: nat, before: seq<LevelState>)
      requires Valid() && State() == before && i < |levels| && Keeps(kept, i, before)
      ensures Keeps(if |levels[i].orders| > 0 then kept + [levels[i]] else kept, i + 1, before)
    {
      DropEmptyLast(before, i);
      assert levels[..i + 1] == levels[..i] + [levels[i]];
      if |levels[i].orders| > 0 {
        OrderedAppend(side, levels, i, kept);
        LevelStatesConcat(kept, [levels[i]]);
      }
    }

    /** `GetLevel`: the level of exactly that price. */
    method GetLevel(price: Decimal) returns (idx: nat, exist: bool)
      requires Valid()
      ensures exist ==> idx < |levels| && levels[idx].price == price
      ensures !exist ==> forall l :: l in levels ==> l.price != price
    {
      for i := 0 to |levels|
        invariant forall k :: 0 <= k < i ==> levels[k].price != price
      {
        if levels[i].price == price {
          return i, true;
        }
      }
      return 0, false;
    }
  }

  /** Where `Place` puts the order, once the better levels are behind it. */
  lemma {:induction false} PlaceAt(side: OrderSide, levels: seq<LevelState>, o: OrderState, i: nat)
    requires i <= |levels| && forall k :: 0 <= k < i ==> Better(side, levels[k].price, o.price)
    requires i < |levels| ==> !Better(side, levels[i].price, o.price)
    ensures Place(side, levels, o) ==
      if i < |levels| && levels[i].price == o.price
        then levels[..i] + [LevelState(o.price, levels[i].orders + [o])] + levels[i + 1..]
        else levels[..i] + [LevelState(o.price, [o])] + levels[i..]
  {
    if i > 0 {
      PlaceAt(side, levels[1..], o, i - 1);
    }
  }

  lemma DropEmptyLast(levels: seq<LevelState>, i: nat)
    requires i < |levels|
    ensures DropEmpty(levels[..i + 1]) == DropEmpty(levels[..i]) + if levels[i].orders == [] then [] else [levels[i]]
  {
    if i == 0 {
      assert levels[..1][1..] == [] && levels[..0] == [];
    } else {
      DropEmptyLast(levels[1..], i - 1);
      assert levels[..i + 1][1..] == levels[1..][..i] && levels[..i][1..] == levels[1..][..i - 1];
    }
  }
}
