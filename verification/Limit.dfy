/** What `MatchLimit` does to the book, as functions on values
    (internal/engine/orderbook.go:41-229). It visits only the best opposite level. */
module Limit {
  import opened Orders
  import opened Events
  import opened Books
  import opened Market

  /** The level's orders with every fill applied, none taken out yet; `pops` counts the makers that
      were filled, each of which makes the engine take one order off the FRONT of the level. */
  datatype LevelFill = LevelFill(orders: seq<OrderState>, pops: nat, taker: OrderState, fills: seq<Fill>, done: bool)

  /** The pass over the best level, oldest order first, skipping the taker's own orders. */
  function FillLevel(orders: seq<OrderState>, taker: OrderState): (r: LevelFill)
    ensures |r.orders| == |orders| && r.pops <= |r.fills| <= |orders|
  {
    if orders == [] then
      LevelFill([], 0, taker, [], false)
    else
      var maker := orders[0];
      var qty := Min(maker.Remaining(), taker.Remaining());
      if maker.userID == taker.userID || qty == 0.0 then
        var rest := FillLevel(orders[1..], taker);
        rest.(orders := [maker] + rest.orders)
      else
        var fill := Fill(maker, taker, qty);
        var popped := if fill.MakerFilled() then 1 else 0;
        if fill.TakerFilled() then
          LevelFill([fill.MakerAfter()] + orders[1..], popped, fill.TakerAfter(), [fill], true)
        else
          var rest := FillLevel(orders[1..], fill.TakerAfter());
          LevelFill([fill.MakerAfter()] + rest.orders, popped + rest.pops, rest.taker, [fill] + rest.fills, rest.done)
  }

  /** The side once its best level has lost `pops` orders; an emptied level goes with them. */
  function AfterPops(levels: seq<LevelState>, orders: seq<OrderState>, pops: nat): seq<LevelState>
    requires levels != [] && pops <= |orders|
  {
    if 0 < pops == |orders| then levels[1..]
    else [levels[0].(orders := orders[pops..])] + levels[1..]
  }

  function LimitResult(book: BookState, taker: OrderState): MatchResult {
    var opposite := book.Opposite(taker.side);
    var own := book.Own(taker.side);
    if opposite == [] then
      MatchResult(OrderbookEmpty, book, taker, [], [], [])
    else if Crosses(taker, opposite[0].price) then
      var s := FillLevel(opposite[0].orders, taker);
      var own' := if !s.done && s.taker.status == Partial then Place(taker.side, own, s.taker) else own;
      MatchResult(NoError, MakeBook(taker.side, own', AfterPops(opposite, s.orders, s.pops)), s.taker, s.fills,
                  PairedEvents(s.fills), LimitTrades(s.fills))
    else // a buyer's order is dropped silently, a seller's is reported as cancelled
      MatchResult(NoError, book, taker, [],
                  if taker.side == Buy then [] else [EventOf(taker, OrderCanceled, Cancelled)], [])
  }
}
