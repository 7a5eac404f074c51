/** The order book and the matching loop as they run: fields updated in place. */
module MatchingEngine {
  import opened Orders
  import opened FlatBook
  import opened PriceLevels

  class OrderBook {
    var buyOrders: Levels
    var sellOrders: Levels
    var orderMap: map<int, OrderLocation>

    constructor ()
      ensures Value() == Book(map[], map[], map[])
    {
      buyOrders, sellOrders, orderMap := map[], map[], map[];
    }

    ghost function Value(): Book
      reads this
    {
      Book(buyOrders, sellOrders, orderMap)
    }

    /** Removes the order at `index` of a level and refreshes the positions of those behind it. */
    method EraseAt(isBuy: bool, price: real, index: nat)
      requires price in Value().Of(isBuy)
      modifies this
      ensures Value() == PriceLevels.EraseAt(old(Value()), isBuy, price, index)
    {
      var level := if isBuy then buyOrders[price] else sellOrders[price];
      if index >= |level| { return; }
      level := level[..index] + level[index + 1..];
      if isBuy {
        buyOrders := buyOrders[price := level];
      } else {
        sellOrders := sellOrders[price := level];
      }
      var i := index;
      while i < |level|
        invariant index <= i <= |level|
        invariant Value().With(isBuy, old(Value()).Of(isBuy)) == old(Value()).(index := orderMap)
        invariant Value().Of(isBuy) == old(Value()).Of(isBuy)[price := level]
        invariant Refresh(orderMap, level, i) == Refresh(old(orderMap), level, index)
      {
        if level[i].id in orderMap {
          orderMap := orderMap[level[i].id := orderMap[level[i].id].(vectorIndex := i)];
        }
        i := i + 1;
      }
    }
  }

  /** How many of the first `n` events the offloader refused. */
  function Refusals(accepts: nat -> bool, n: nat): nat {
    if n == 0 then 0 else Refusals(accepts, n - 1) + (if accepts(n) then 0 else 1)
  }

  class MatchingEngine {
    const book: OrderBook
    var nextMatchId: nat
    var tradesExecuted: nat
    var tradeEventsDropped: nat

    const clock: nat -> int        // the system clock as read for trade k
    const accepts: nat -> bool     // whether the offloader took event k
    ghost var flat: Flat           // the flat lists the book stands for
    ghost var trades: seq<TradeEvent>  // every event handed to the offloader so far

    ghost predicate Valid()
      reads this, book
    {
      && Consistent(book.Value(), flat) && NoEmptyLevels(book.Value())
      && nextMatchId == tradesExecuted == |trades|
      && tradeEventsDropped == Refusals(accepts, nextMatchId)
    }

    constructor (clock: nat -> int, accepts: nat -> bool)
      ensures Valid() && fresh(book) && this.clock == clock && this.accepts == accepts
      ensures flat == Flat([], []) && trades == []
    {
      book := new OrderBook();
      nextMatchId, tradesExecuted, tradeEventsDropped := 0, 0, 0;
      flat, trades := Flat([], []), [];
      this.clock, this.accepts := clock, accepts;
    }

    method AddOrder(order: Order)
      requires Valid() && order.id !in book.orderMap
      requires Newest(flat, order)
      modifies this, book
      ensures Valid()
      ensures flat == Submit(old(flat), order, old(nextMatchId), clock).book
      ensures trades == old(trades) + Submit(old(flat), order, old(nextMatchId), clock).trades
    {
      PushBackInserts(book.Value(), flat, order);
      if order.isBuy {
        var vec := (if order.price in book.buyOrders then book.buyOrders[order.price] else []) + [order];
        book.buyOrders := book.buyOrders[order.price := vec];
        book.orderMap := book.orderMap[order.id := OrderLocation(true, order.price, |vec| - 1)];
      } else {
        var vec := (if order.price in book.sellOrders then book.sellOrders[order.price] else []) + [order];
        book.sellOrders := book.sellOrders[order.price := vec];
        book.orderMap := book.orderMap[order.id := OrderLocation(false, order.price, |vec| - 1)];
      }
      assert book.Value() == PushBack(old(book.Value()), order);
      flat := flat.With(order.isBuy, Insert(flat.Of(order.isBuy), order));
      Matching();
    }

    method Matching()
      requires Valid()
      modifies this, book
      ensures Valid()
      ensures flat == Cross(old(flat), old(nextMatchId), clock).book
      ensures trades == old(trades) + Cross(old(flat), old(nextMatchId), clock).trades
    {
      while book.buyOrders != map[] && book.sellOrders != map[]
        invariant Valid()
        invariant Cross(flat, nextMatchId, clock).book == Cross(old(flat), old(nextMatchId), clock).book
        invariant trades + Cross(flat, nextMatchId, clock).trades
               == old(trades) + Cross(old(flat), old(nextMatchId), clock).trades
        decreases |flat.bids| + |flat.asks|
      {
        ghost var bk := BestPriceExists(book.buyOrders.Keys, true);
        ghost var sk := BestPriceExists(book.sellOrders.Keys, false);
        assert IsBestPrice(bk, book.buyOrders, true) && IsBestPrice(sk, book.sellOrders, false);
        var bestBuy :| bestBuy in book.buyOrders && forall k :: k in book.buyOrders ==> k <= bestBuy;
        var bestSell :| bestSell in book.sellOrders && forall k :: k in book.sellOrders ==> k >= bestSell;
        BestLevelsMeet(book.Value(), flat, bestBuy, bestSell);
        if bestBuy < bestSell {
          break;
        }
        var buyVec, sellVec := book.buyOrders[bestBuy], book.sellOrders[bestSell];
        if buyVec == [] || sellVec == [] {
          assert false;
        }
        CrossOnce(flat, nextMatchId, clock, trades);
        Trade(bestBuy, bestSell);
      }
      if book.buyOrders == map[] || book.sellOrders == map[] {
        EmptySideMeetsNothing(book.Value(), flat);
      }
    }

    /** One pass of the loop of Matching, below its guards. */
    method Trade(bestBuy: real, bestSell: real)
      requires Valid() && Meets(flat)
      requires IsBestPrice(bestBuy, book.buyOrders, true) && IsBestPrice(bestSell, book.sellOrders, false)
      modifies this, book
      ensures Valid()
      ensures flat == TradeHeads(old(flat)) && nextMatchId == old(nextMatchId) + 1
      ensures trades == old(trades) + [TradeOf(nextMatchId, old(flat).bids[0], old(flat).asks[0], clock(nextMatchId))]
    {
      BestLevelsMeet(book.Value(), flat, bestBuy, bestSell);
      TradePassTradesHeads(book.Value(), flat, bestBuy, bestSell);
      var buy, sell := book.buyOrders[bestBuy][0], book.sellOrders[bestSell][0];
      nextMatchId := nextMatchId + 1;
      Publish(TradeOf(nextMatchId, buy, sell, clock(nextMatchId)));
      flat := TradeHeads(flat);
      ConsumeFronts(bestBuy, bestSell, Min(buy.quantity, sell.quantity));
    }

    method Publish(event: TradeEvent)
      requires nextMatchId > 0
      modifies this`trades, this`tradesExecuted, this`tradeEventsDropped
      ensures trades == old(trades) + [event] && tradesExecuted == old(tradesExecuted) + 1
      ensures tradeEventsDropped == old(tradeEventsDropped) + if accepts(nextMatchId) then 0 else 1
    {
      trades := trades + [event];
      if !accepts(nextMatchId) {
        tradeEventsDropped := tradeEventsDropped + 1;
      }
      tradesExecuted := tradesExecuted + 1;
    }

    /** Both fronts lose the traded quantity; what is used up leaves its level, and an empty level leaves its side. */
    method ConsumeFronts(bestBuy: real, bestSell: real, tradedQty: int)
      requires bestBuy in book.buyOrders && book.buyOrders[bestBuy] != []
      requires bestSell in book.sellOrders && book.sellOrders[bestSell] != []
      requires tradedQty == Min(book.buyOrders[bestBuy][0].quantity, book.sellOrders[bestSell][0].quantity)
      modifies book
      ensures book.Value() == TradePass(old(book.Value()), bestBuy, bestSell)
    {
      var buyUsedUp := book.buyOrders[bestBuy][0].quantity == tradedQty;
      var sellUsedUp := book.sellOrders[bestSell][0].quantity == tradedQty;
      ReduceBoth(bestBuy, bestSell, tradedQty);
      if buyUsedUp { DropFront(true, bestBuy); }
      if sellUsedUp { DropFront(false, bestSell); }
      if book.buyOrders[bestBuy] == [] { book.buyOrders := book.buyOrders - {bestBuy}; }
      if book.sellOrders[bestSell] == [] { book.sellOrders := book.sellOrders - {bestSell}; }
    }

    method ReduceBoth(bestBuy: real, bestSell: real, tradedQty: int)
      requires bestBuy in book.buyOrders && book.buyOrders[bestBuy] != []
      requires bestSell in book.sellOrders && book.sellOrders[bestSell] != []
      modifies book
      ensures book.Value() == ReduceFronts(old(book.Value()), bestBuy, bestSell, tradedQty)
    {
      var buy, sell := book.buyOrders[bestBuy][0], book.sellOrders[bestSell][0];
      buy, sell := buy.(quantity := buy.quantity - tradedQty), sell.(quantity := sell.quantity - tradedQty);
      book.buyOrders := book.buyOrders[bestBuy := book.buyOrders[bestBuy][0 := buy]];
      book.sellOrders := book.sellOrders[bestSell := book.sellOrders[bestSell][0 := sell]];
    }

    /** The front order of a level leaves the index and the level. */
    method DropFront(isBuy: bool, price: real)
      requires price in book.Value().Of(isBuy) && book.Value().Of(isBuy)[price] != []
      modifies book
      ensures book.Value() == Drop(old(book.Value()), isBuy, price, 0)
    {
      var front := if isBuy then book.buyOrders[price][0] else book.sellOrders[price][0];
      book.orderMap := book.orderMap - {front.id};
      book.EraseAt(isBuy, price, 0);
    }

    method CancelOrder(orderId: int)
      requires Valid()
      modifies this, book
      ensures Valid() && trades == old(trades)
      ensures flat == Withdraw(old(flat), orderId)
      ensures book.orderMap.Keys == old(book.orderMap.Keys) - {orderId}
    {
      if orderId !in book.orderMap {
        UntrackedIsAbsent(book.Value(), flat, orderId);
        return;
      }
      var loc := book.orderMap[orderId];
      assert Addresses(book.Value(), orderId, loc);
      DropRemoves(book.Value(), flat, loc.isBuy, loc.price, loc.vectorIndex);
      WithdrawIsOneSided(book.Value(), flat, orderId);
      ghost var dropped := Drop(book.Value(), loc.isBuy, loc.price, loc.vectorIndex);
      flat := Withdraw(flat, orderId);
      PruneKeeps(dropped, flat, loc.isBuy, loc.price);
      book.orderMap := book.orderMap - {orderId};
      if loc.isBuy {
        if loc.price !in book.buyOrders { assert false; }
        book.EraseAt(true, loc.price, loc.vectorIndex);
        assert book.Value() == dropped;
        if book.buyOrders[loc.price] == [] { book.buyOrders := book.buyOrders - {loc.price}; }
      } else {
        if loc.price !in book.sellOrders { assert false; }
        book.EraseAt(false, loc.price, loc.vectorIndex);
        assert book.Value() == dropped;
        if book.sellOrders[loc.price] == [] { book.sellOrders := book.sellOrders - {loc.price}; }
      }
    }
  }
}
