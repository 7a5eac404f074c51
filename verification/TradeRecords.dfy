/** The 60-byte trade record (MarketEvents.h) as the offloader writes batches of it and the scorer reads them. */
module TradeRecords {
  import opened Orders
  import opened Sequences
  import opened Wire

  const EVENT_SIZE: nat := 60

  /** A trade record; the price stays its eight bytes. */
  datatype WireTrade = WireTrade(
    matchId: nat, buyId: nat, sellId: nat, t0: nat, t1: nat, t2: nat, price: seq<Byte>, qty: nat)

  /** Every field fits its width. */
  predicate Fits(e: WireTrade) {
    && e.matchId < Pow256(8) && e.buyId < Pow256(8) && e.sellId < Pow256(8)
    && e.t0 < Pow256(8) && e.t1 < Pow256(8) && e.t2 < Pow256(8) && |e.price| == 8 && e.qty < Pow256(4)
  }

  predicate AllFit(events: seq<WireTrade>) {
    forall e :: e in events ==> Fits(e)
  }

  /** The record in memory, which is what a batch hands over. */
  function PackEvent(e: WireTrade): (m: seq<Byte>)
    requires |e.price| == 8
    ensures |m| == EVENT_SIZE
  {
    ToLittle(e.matchId, 8) + ToLittle(e.buyId, 8) + ToLittle(e.sellId, 8)
    + ToLittle(e.t0, 8) + ToLittle(e.t1, 8) + ToLittle(e.t2, 8) + e.price + ToLittle(e.qty, 4)
  }

  function UnpackEvent(m: seq<Byte>): WireTrade
    requires |m| == EVENT_SIZE
  {
    WireTrade(FromLittle(m[..8]), FromLittle(m[8..16]), FromLittle(m[16..24]), FromLittle(m[24..32]),
              FromLittle(m[32..40]), FromLittle(m[40..48]), m[48..56], FromLittle(m[56..60]))
  }

  lemma FieldsOf(m: seq<Byte>, e: WireTrade)
    requires |e.price| == 8 && m == PackEvent(e)
    ensures m[..8] == ToLittle(e.matchId, 8) && m[8..16] == ToLittle(e.buyId, 8)
    ensures m[16..24] == ToLittle(e.sellId, 8) && m[24..32] == ToLittle(e.t0, 8)
    ensures m[32..40] == ToLittle(e.t1, 8) && m[40..48] == ToLittle(e.t2, 8)
    ensures m[48..56] == e.price && m[56..60] == ToLittle(e.qty, 4)
  {
  }

  lemma EventRoundTrip(e: WireTrade)
    requires Fits(e)
    ensures UnpackEvent(PackEvent(e)) == e
  {
    FieldsOf(PackEvent(e), e);
    LittleRoundTrip(e.matchId, 8);
    LittleRoundTrip(e.buyId, 8);
    LittleRoundTrip(e.sellId, 8);
    LittleRoundTrip(e.t0, 8);
    LittleRoundTrip(e.t1, 8);
    LittleRoundTrip(e.t2, 8);
    LittleRoundTrip(e.qty, 4);
  }

  datatype Unpacked = Events(events: seq<WireTrade>) | NotAMultiple(size: nat)

  /** One message of the topic: a batch of records back to back. */
  function PackBatch(events: seq<WireTrade>): (m: seq<Byte>)
    requires AllFit(events)
    ensures |m| == EVENT_SIZE * |events|
  {
    if events == [] then [] else assert Fits(events[0]); PackEvent(events[0]) + PackBatch(events[1..])
  }

  /** The record at each multiple of 60. */
  function Records(payload: seq<Byte>): (s: seq<WireTrade>)
    requires |payload| % EVENT_SIZE == 0
    ensures |s| * EVENT_SIZE == |payload|
  {
    if payload == [] then [] else [UnpackEvent(payload[..EVENT_SIZE])] + Records(payload[EVENT_SIZE..])
  }

  /** All the records are `events` followed by those from `offset` on. */
  ghost predicate Continues(payload: seq<Byte>, offset: nat, events: seq<WireTrade>) {
    && offset <= |payload| && |payload| % EVENT_SIZE == 0 && |payload[offset..]| % EVENT_SIZE == 0
    && Records(payload) == events + Records(payload[offset..])
  }

  lemma NextRecord(payload: seq<Byte>, offset: nat, events: seq<WireTrade>)
    requires Continues(payload, offset, events) && offset < |payload|
    ensures offset + EVENT_SIZE <= |payload|
    ensures Continues(payload, offset + EVENT_SIZE, events + [UnpackEvent(payload[offset..offset + EVENT_SIZE])])
  {
    var record, later := payload[offset..offset + EVENT_SIZE], payload[offset + EVENT_SIZE..];
    assert payload[offset..] == record + later;
    RecordsStep(record, later);
    assert events + ([UnpackEvent(record)] + Records(later)) == (events + [UnpackEvent(record)]) + Records(later);
  }

  lemma RecordsStep(first: seq<Byte>, rest: seq<Byte>)
    requires |first| == EVENT_SIZE && |rest| % EVENT_SIZE == 0
    ensures |first + rest| % EVENT_SIZE == 0
    ensures Records(first + rest) == [UnpackEvent(first)] + Records(rest)
  {
    assert (first + rest)[..EVENT_SIZE] == first;
    assert (first + rest)[EVENT_SIZE..] == rest;
  }

  /** unpack_trade_events: a payload of the wrong size is refused before any record is read. */
  method UnpackTradeEvents(payload: seq<Byte>) returns (r: Unpacked)
    ensures |payload| % EVENT_SIZE != 0 ==> r == NotAMultiple(|payload|)
    ensures |payload| % EVENT_SIZE == 0 ==> r == Events(Records(payload))
  {
    if |payload| % EVENT_SIZE != 0 {
      return NotAMultiple(|payload|);
    }
    var events: seq<WireTrade> := [];
    var offset := 0;
    while offset < |payload|
      invariant Continues(payload, offset, events)
      decreases |payload| - offset
    {
      NextRecord(payload, offset, events);
      events := events + [UnpackEvent(payload[offset..offset + EVENT_SIZE])];
      offset := offset + EVENT_SIZE;
    }
    r := Events(events);
  }

  /** A batch is read back as the very events it was made of. */
  lemma {:induction false} BatchRoundTrip(events: seq<WireTrade>)
    requires AllFit(events)
    ensures |PackBatch(events)| % EVENT_SIZE == 0 && Records(PackBatch(events)) == events
  {
    if events != [] {
      assert Fits(events[0]);
      EventRoundTrip(events[0]);
      BatchRoundTrip(events[1..]);
      RecordsStep(PackEvent(events[0]), PackBatch(events[1..]));
      assert events == [events[0]] + events[1..];
    }
  }

  function ReadAll(messages: seq<seq<Byte>>): seq<WireTrade>
    requires forall i :: 0 <= i < |messages| ==> |messages[i]| % EVENT_SIZE == 0
  {
    if messages == [] then [] else Records(messages[0]) + ReadAll(messages[1..])
  }

  function PackAll(batches: seq<seq<WireTrade>>): (m: seq<seq<Byte>>)
    requires forall b :: b in batches ==> AllFit(b)
    ensures forall i :: 0 <= i < |m| ==> |m[i]| % EVENT_SIZE == 0
  {
    if batches == [] then [] else assert AllFit(batches[0]); [PackBatch(batches[0])] + PackAll(batches[1..])
  }

  /** However the worker cuts the events into batches, the scorer reads the same events in the same order. */
  lemma {:induction false} BatchingIsInvisible(batches: seq<seq<WireTrade>>)
    requires forall b :: b in batches ==> AllFit(b)
    ensures ReadAll(PackAll(batches)) == Concat(batches)
  {
    if batches != [] {
      assert AllFit(batches[0]);
      ConcatFront(batches);
      BatchRoundTrip(batches[0]);
      assert PackAll(batches)[1..] == PackAll(batches[1..]);
      BatchingIsInvisible(batches[1..]);
    }
  }

  // ---- Trade events as records ----

  /** `bytesOf` are the eight bytes of a double as the engine stores it, `priceOf` is how the scorer reads them. */
  predicate Faithful(price: real, bytesOf: real -> seq<Byte>, priceOf: seq<Byte> -> real) {
    |bytesOf(price)| == 8 && priceOf(bytesOf(price)) == price
  }

  function ToRecord(e: TradeEvent, bytesOf: real -> seq<Byte>): WireTrade {
    WireTrade(e.matchId, e.buyId, e.sellId, e.t0, e.t1, e.t2, bytesOf(e.price), e.qty)
  }

  function ToEvent(w: WireTrade, priceOf: seq<Byte> -> real): TradeEvent {
    TradeEvent(w.matchId, w.buyId, w.sellId, w.t0, w.t1, w.t2, priceOf(w.price), w.qty)
  }

  /** The event fits its record and its price survives. */
  predicate Carried(e: TradeEvent, bytesOf: real -> seq<Byte>, priceOf: seq<Byte> -> real) {
    Faithful(e.price, bytesOf, priceOf) && Fits(ToRecord(e, bytesOf))
  }

  predicate AllCarried(events: seq<TradeEvent>, bytesOf: real -> seq<Byte>, priceOf: seq<Byte> -> real) {
    forall e :: e in events ==> Carried(e, bytesOf, priceOf)
  }

  function ToRecords(events: seq<TradeEvent>, bytesOf: real -> seq<Byte>): (r: seq<WireTrade>)
    ensures |r| == |events| && forall i :: 0 <= i < |r| ==> r[i] == ToRecord(events[i], bytesOf)
  {
    seq(|events|, i requires 0 <= i < |events| => ToRecord(events[i], bytesOf))
  }

  function ToEvents(records: seq<WireTrade>, priceOf: seq<Byte> -> real): (r: seq<TradeEvent>)
    ensures |r| == |records| && forall i :: 0 <= i < |r| ==> r[i] == ToEvent(records[i], priceOf)
  {
    seq(|records|, i requires 0 <= i < |records| => ToEvent(records[i], priceOf))
  }

  predicate WholeRecords(payload: seq<Byte>) {
    |payload| % EVENT_SIZE == 0
  }

  /** What the scorer makes of a payload. */
  function Decode(payload: seq<Byte>, priceOf: seq<Byte> -> real): seq<TradeEvent>
    requires WholeRecords(payload)
  {
    ToEvents(Records(payload), priceOf)
  }

  /** publishBatch: the events back to back, as they lie in memory. */
  function Message(events: seq<TradeEvent>, bytesOf: real -> seq<Byte>): seq<Byte>
    requires AllFit(ToRecords(events, bytesOf))
  {
    PackBatch(ToRecords(events, bytesOf))
  }

  lemma CarriedFit(events: seq<TradeEvent>, bytesOf: real -> seq<Byte>, priceOf: seq<Byte> -> real)
    requires AllCarried(events, bytesOf, priceOf)
    ensures AllFit(ToRecords(events, bytesOf))
  {
    forall w | w in ToRecords(events, bytesOf) ensures Fits(w) {
      var i :| 0 <= i < |events| && ToRecords(events, bytesOf)[i] == w;
      assert events[i] in events;
    }
  }

  /** A message of the offloader is decoded to the very events of its batch. */
  lemma MessageRoundTrip(events: seq<TradeEvent>, bytesOf: real -> seq<Byte>, priceOf: seq<Byte> -> real)
    requires AllCarried(events, bytesOf, priceOf)
    ensures AllFit(ToRecords(events, bytesOf)) && WholeRecords(Message(events, bytesOf))
    ensures Decode(Message(events, bytesOf), priceOf) == events
  {
    CarriedFit(events, bytesOf, priceOf);
    BatchRoundTrip(ToRecords(events, bytesOf));
    var decoded := ToEvents(ToRecords(events, bytesOf), priceOf);
    forall i | 0 <= i < |events| ensures decoded[i] == events[i] {
      assert events[i] in events;
    }
  }
}
