/** Orders, trade events and price-time priority (Order.h, MarketEvents.h). */
module Orders {

  /** A limit order. `seqNo` is the arrival stamp given by the constructor of Order. */
  datatype Order = Order(id: int, quantity: int, isBuy: bool, price: real, t0: int, t1: int, seqNo: int)

  /** The 60-byte record handed to the offloader, one per trade. */
  datatype TradeEvent = TradeEvent(
    matchId: nat, buyId: nat, sellId: nat, t0: nat, t1: nat, t2: nat, price: real, qty: nat)

  const TWO_TO_THE_31: int := 0x8000_0000
  const TWO_TO_THE_32: int := 0x1_0000_0000
  const TWO_TO_THE_64: int := 0x1_0000_0000_0000_0000

  /** static_cast<uint64_t>. */
  function AsUint64(x: int): (r: nat)
    ensures r < TWO_TO_THE_64
    ensures 0 <= x < TWO_TO_THE_64 ==> r == x
  {
    x % TWO_TO_THE_64
  }

  /** static_cast<uint32_t>. */
  function AsUint32(x: int): (r: nat)
    ensures r < TWO_TO_THE_32
    ensures 0 <= x < TWO_TO_THE_32 ==> r == x
  {
    x % TWO_TO_THE_32
  }

  function Min(a: int, b: int): int {
    if a < b then a else b
  }

  /** Price-time priority on one side of the book: a better price, or the same price and an earlier arrival. */
  predicate Before(a: Order, b: Order, isBuy: bool) {
    || (if isBuy then a.price > b.price else a.price < b.price)
    || (a.price == b.price && a.seqNo < b.seqNo)
  }

  /** The limits of two orders on opposite sides meet. */
  predicate Crosses(o: Order, m: Order) {
    if o.isBuy then o.price >= m.price else m.price >= o.price
  }

  /** The event the engine builds when `buy` meets `sell`. */
  function TradeOf(matchId: nat, buy: Order, sell: Order, t2: int): TradeEvent {
    var taker := if buy.seqNo > sell.seqNo then buy else sell;
    TradeEvent(
      matchId,
      AsUint64(buy.id),
      AsUint64(sell.id),
      AsUint64(taker.t0),
      AsUint64(taker.t1),
      AsUint64(t2),
      if buy.seqNo < sell.seqNo then buy.price else sell.price,
      AsUint32(Min(buy.quantity, sell.quantity)))
  }

  /** Strict price-time order, best first. */
  ghost predicate Sorted(s: seq<Order>, isBuy: bool) {
    forall i, j :: 0 <= i < j < |s| ==> Before(s[i], s[j], isBuy)
  }
}
