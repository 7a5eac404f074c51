/** The sending side (bot-fleet/main.py), and what the gateway makes of it. */
module BotFleet {
  import opened Sequences
  import opened Wire
  import opened Gateway

  const IDS_PER_BOT: nat := 1000000

  // ---- Order ids ----

  /** The k-th id of a bot, counting from 1. */
  function IdOf(bot: nat, k: nat): nat {
    bot * IDS_PER_BOT + k
  }

  /** The ids of a bot's first n orders. */
  ghost function Ids(bot: nat, n: nat): set<nat> {
    set k: nat | 1 <= k <= n :: IdOf(bot, k)
  }

  /** Two bots never use the same id exactly when the lower one stops before it reaches the other's range. */
  lemma IdsDisjoint(a: nat, b: nat, m: nat, n: nat)
    requires a < b && n >= 1
    ensures Ids(a, m) !! Ids(b, n) <==> m <= (b - a) * IDS_PER_BOT
  {
    var k := (b - a) * IDS_PER_BOT + 1;
    assert IdOf(a, k) == IdOf(b, 1);
    assert IdOf(b, 1) in Ids(b, n);
    assert k <= m ==> IdOf(a, k) in Ids(a, m);
  }

  /** The gateway narrows ids to 32 bits: an id survives exactly when it is below 2^31. */
  lemma IdSurvives(id: nat)
    ensures AsInt32(id) == id <==> id < 0x8000_0000
  {
  }

  // ---- The bot ----

  datatype Packed = Message(bytes: seq<Byte>) | PackError

  class Bot {
    var orderIdCounter: nat
    const botId: nat

    constructor (bot: nat)
      ensures botId == bot && orderIdCounter == IdOf(bot, 0)
    {
      botId, orderIdCounter := bot, bot * IDS_PER_BOT;
    }

    method GenerateOrderId() returns (id: nat)
      modifies this`orderIdCounter
      ensures id == orderIdCounter == old(orderIdCounter) + 1
    {
      orderIdCounter := orderIdCounter + 1;
      id := orderIdCounter;
    }

    /** An order with the next id. Values that do not fit their fields are refused; the id is used up all the same. */
    method FormatOrder(buy: bool, qty: int, price: seq<Byte>, now: int) returns (r: Packed)
      requires |price| == 8
      modifies this`orderIdCounter
      ensures orderIdCounter == old(orderIdCounter) + 1
      ensures r == if orderIdCounter < Pow256(8) && 0 <= now < Pow256(8) && 0 <= qty < Pow256(4)
                   then Message(PackOrder(orderIdCounter, now, price, qty, buy)) else PackError
    {
      var sideCode: Byte := if buy then 1 else 2;
      var id := GenerateOrderId();
      if id >= Pow256(8) || now < 0 || now >= Pow256(8) || qty < 0 || qty >= Pow256(4) {
        return PackError;
      }
      r := Message(ToLittle(id, 8) + ToLittle(now, 8) + price + ToLittle(qty, 4) + [sideCode] + [0, 0, 0]);
    }

    /** A final binary frame under a fresh mask, built up field by field. */
    static method WebsocketBinaryFrame(payload: seq<Byte>, mask: seq<Byte>) returns (header: seq<Byte>)
      requires |mask| == 4 && |payload| < Pow256(8)
      ensures header == EncodeFrame(payload, mask)
    {
      header := [0x82];
      if |payload| < 126 {
        header := header + [0x80 + |payload|];
      } else if |payload| <= 0xFFFF {
        header := header + [0x80 + 126];
        header := header + ToBig(|payload|, 2);
      } else {
        header := header + [0x80 + 127];
        header := header + ToBig(|payload|, 8);
      }
      header := header + mask;
      ghost var front := header;
      for i := 0 to |payload|
        invariant header == front + Mask(mask, payload[..i])
      {
        assert Mask(mask, payload[..i + 1]) == Mask(mask, payload[..i]) + [XorByte(payload[i], mask[i % 4])];
        header := header + [XorByte(payload[i], mask[i % 4])];
      }
      assert payload[..|payload|] == payload;
    }
  }

  // ---- From the bot to the engine ----

  datatype BotOrder = BotOrder(id: nat, time: nat, price: seq<Byte>, qty: nat, buy: bool)

  /** Ids and quantities that survive the gateway's conversion to int, and a time that fits a signed one. */
  predicate InRange(o: BotOrder) {
    o.id < 0x8000_0000 && o.qty < 0x8000_0000 && o.time < 0x8000_0000_0000_0000 && |o.price| == 8
  }

  predicate AllInRange(sent: seq<BotOrder>) {
    forall o :: o in sent ==> InRange(o)
  }

  function Messages(sent: seq<BotOrder>): seq<Byte>
    requires AllInRange(sent)
  {
    if sent == [] then []
    else
      assert InRange(sent[0]);
      PackOrder(sent[0].id, sent[0].time, sent[0].price, sent[0].qty, sent[0].buy) + Messages(sent[1..])
  }

  function Received(sent: seq<BotOrder>): (orders: seq<WireOrder>)
    ensures |orders| == |sent|
  {
    if sent == [] then []
    else [WireOrder(sent[0].id, sent[0].qty, sent[0].buy, sent[0].price, sent[0].time)] + Received(sent[1..])
  }

  lemma {:induction false} MessagesAreTaken(sent: seq<BotOrder>)
    requires AllInRange(sent)
    ensures TakeOrders(Messages(sent)) == Taken(Received(sent), [])
  {
    if sent != [] {
      var o, bytes := sent[0], Messages(sent);
      assert InRange(o);
      var m := PackOrder(o.id, o.time, o.price, o.qty, o.buy);
      assert bytes[..MSG_SIZE] == m;
      assert bytes[MSG_SIZE..] == Messages(sent[1..]);
      OrderRoundTrip(o.id, o.time, o.price, o.qty, o.buy);
      MessagesAreTaken(sent[1..]);
    }
  }

  /** A complete request that carries a key, with nothing after its blank line. */
  predicate GoodRequest(request: seq<Byte>, hasKey: seq<Byte> -> bool) {
    FindHeaderEnd(request).At? && FindHeaderEnd(request).index + 4 == |request| && hasKey(request)
  }

  /**
   From the bots' orders to the engine's: however the order messages are grouped into frames, whatever the
   masks, and however the connection cuts request and frames into reads, the gateway hands over exactly the
   orders sent, in order and with every field intact, keeps the connection open and is left with nothing unread.
   */
  lemma OrdersArrive(sent: seq<BotOrder>, payloads: seq<seq<Byte>>, masks: seq<seq<Byte>>,
                     request: seq<Byte>, chunks: seq<seq<Byte>>, hasKey: seq<Byte> -> bool)
    requires AllInRange(sent)
    requires |masks| == |payloads| && forall i :: 0 <= i < |masks| ==> |masks[i]| == 4
    requires forall i :: 0 <= i < |payloads| ==> |payloads[i]| <= MAX_PAYLOAD < Pow256(8)
    requires Concat(payloads) == Messages(sent) && GoodRequest(request, hasKey)
    requires Concat(chunks) == request + EncodeAll(payloads, masks)
    ensures FeedAll(Open(false, [], []), chunks, hasKey) == Fed(Open(true, [], []), Received(sent))
  {
    assert Settled(Open(false, [], []));
    ChunkingIsInvisible(Open(false, [], []), chunks, hasKey);
    FramesFollowRequest(request, EncodeAll(payloads, masks), hasKey);
    FramesArrive(sent, payloads, masks);
  }

  lemma FramesFollowRequest(request: seq<Byte>, bytes: seq<Byte>, hasKey: seq<Byte> -> bool)
    requires GoodRequest(request, hasKey)
    ensures Feed(Open(false, [], []), request + bytes, hasKey) == Frames(bytes, [])
  {
    assert [] + (request + bytes) == request + bytes;
    HandshakeIsStable(request, bytes, [], hasKey);
    assert request[..|request|] == request;
    assert request[|request|..] + bytes == bytes;
  }

  lemma FramesArrive(sent: seq<BotOrder>, payloads: seq<seq<Byte>>, masks: seq<seq<Byte>>)
    requires AllInRange(sent)
    requires |masks| == |payloads| && forall i :: 0 <= i < |masks| ==> |masks[i]| == 4
    requires forall i :: 0 <= i < |payloads| ==> |payloads[i]| <= MAX_PAYLOAD < Pow256(8)
    requires Concat(payloads) == Messages(sent)
    ensures Frames(EncodeAll(payloads, masks), []) == Fed(Open(true, [], []), Received(sent))
  {
    FramingIsInvisible(payloads, masks, []);
    assert [] + Messages(sent) == Messages(sent);
    MessagesAreTaken(sent);
  }
}
