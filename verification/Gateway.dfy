/**
 The WebSocket gateway from the point where bytes have been read (TCPServer.cpp): handshake, frame loop,
 reassembly of order messages across frames, and the two buffers that are compacted now and then.
 */
module Gateway {
  import opened Sequences
  import opened Wire

  const COMPACT_AT: nat := 16384

  // ---- The gateway as a function of the byte stream ----

  /** A connection: what has arrived and not been used, before and after the upgrade. */
  datatype Session = Closed | Open(ready: bool, data: seq<Byte>, payload: seq<Byte>)

  datatype Fed = Fed(session: Session, orders: seq<WireOrder>)

  const CRLF2: seq<Byte> := [13, 10, 13, 10]

  datatype Position = Missing | At(index: nat)

  /** The first blank line. */
  function FindHeaderEnd(s: seq<Byte>): (p: Position)
    ensures p.At? ==> p.index + 4 <= |s|
  {
    if |s| < 4 then Missing
    else if s[..4] == CRLF2 then At(0)
    else match FindHeaderEnd(s[1..])
         case Missing => Missing
         case At(k) => At(k + 1)
  }

  datatype Taken = Taken(orders: seq<WireOrder>, rest: seq<Byte>)

  /** Complete 32-byte messages come off the front. */
  function TakeOrders(payload: seq<Byte>): (t: Taken)
    ensures |t.rest| < MSG_SIZE && |t.rest| <= |payload|
  {
    if |payload| < MSG_SIZE then Taken([], payload)
    else
      var t := TakeOrders(payload[MSG_SIZE..]);
      Taken([UnpackOrder(payload[..MSG_SIZE])] + t.orders, t.rest)
  }

  /** The frame loop on the unread bytes, with the unread payload. */
  function Frames(data: seq<Byte>, payload: seq<Byte>): Fed
    decreases |data|
  {
    match ParseFrame(data)
    case NeedMore => Fed(Open(true, data, payload), [])
    case Refused => Fed(Closed, [])
    case Frame(opcode, body, size) =>
      if opcode == 8 then Fed(Closed, [])
      else if opcode == 2 || opcode == 0 then
        var t := TakeOrders(payload + body);
        var next := Frames(data[size..], t.rest);
        Fed(next.session, t.orders + next.orders)
      else
        Frames(data[size..], payload)
  }

  /** One read. `hasKey` says whether a request carries a WebSocket key. */
  function Feed(s: Session, chunk: seq<Byte>, hasKey: seq<Byte> -> bool): Fed {
    match s
    case Closed => Fed(Closed, [])
    case Open(true, data, payload) => Frames(data + chunk, payload)
    case Open(false, data, payload) => Handshake(data + chunk, payload, hasKey)
  }

  /** Before the upgrade: nothing happens until a whole request has arrived, and the frame loop follows it. */
  function Handshake(all: seq<Byte>, payload: seq<Byte>, hasKey: seq<Byte> -> bool): Fed {
    match FindHeaderEnd(all)
    case Missing => Fed(Open(false, all, payload), [])
    case At(k) =>
      if hasKey(all[..k + 4]) then Frames(all[k + 4..], payload) else Fed(Closed, [])
  }

  /** A sequence of reads. */
  function FeedAll(s: Session, chunks: seq<seq<Byte>>, hasKey: seq<Byte> -> bool): Fed
    decreases |chunks|
  {
    if chunks == [] then Fed(s, [])
    else
      var first := Feed(s, chunks[0], hasKey);
      var rest := FeedAll(first.session, chunks[1..], hasKey);
      Fed(rest.session, first.orders + rest.orders)
  }

  // ---- Chunking independence ----

  lemma {:induction false} HeaderEndIsStable(s: seq<Byte>, more: seq<Byte>)
    requires FindHeaderEnd(s).At?
    ensures FindHeaderEnd(s + more) == FindHeaderEnd(s)
  {
    assert (s + more)[..4] == s[..4];
    if s[..4] != CRLF2 {
      assert (s + more)[1..] == s[1..] + more;
      HeaderEndIsStable(s[1..], more);
    }
  }

  /** Feeding the frame loop in two parts is feeding it at once. */
  lemma {:induction false} FramesSplit(data: seq<Byte>, more: seq<Byte>, payload: seq<Byte>)
    ensures var first := Frames(data, payload);
            Frames(data + more, payload)
            == if first.session.Closed? then first
               else var second := Frames(first.session.data + more, first.session.payload);
                    Fed(second.session, first.orders + second.orders)
    ensures Frames(data, payload).session.Open? ==> Frames(data, payload).session.ready
    decreases |data|
  {
    match ParseFrame(data) {
      case NeedMore =>
        assert [] + Frames(data + more, payload).orders == Frames(data + more, payload).orders;
      case Refused => ParseIsStable(data, more);
      case Frame(opcode, body, size) =>
        ParseIsStable(data, more);
        assert (data + more)[size..] == data[size..] + more;
        if opcode == 8 {
        } else if opcode == 2 || opcode == 0 {
          var t := TakeOrders(payload + body);
          FramesSplit(data[size..], more, t.rest);
          var first := Frames(data[size..], t.rest);
          if first.session.Open? {
            Associate(t.orders, first.orders, Frames(first.session.data + more, first.session.payload).orders);
          }
        } else {
          FramesSplit(data[size..], more, payload);
        }
    }
  }

  /** The frame loop, and then a further read. */
  lemma FramesThenFeed(data: seq<Byte>, b: seq<Byte>, payload: seq<Byte>, hasKey: seq<Byte> -> bool)
    ensures var first := Frames(data, payload);
            var second := Feed(first.session, b, hasKey);
            Frames(data + b, payload) == Fed(second.session, first.orders + second.orders)
  {
    FramesSplit(data, b, payload);
    var first := Frames(data, payload);
    if first.session.Closed? {
      assert first.orders + [] == first.orders;
    }
  }

  /** A request that is complete is answered the same way when more follows it. */
  lemma HandshakeIsStable(all: seq<Byte>, b: seq<Byte>, payload: seq<Byte>, hasKey: seq<Byte> -> bool)
    requires FindHeaderEnd(all).At?
    ensures var k := FindHeaderEnd(all).index;
            Handshake(all + b, payload, hasKey)
            == if hasKey(all[..k + 4]) then Frames(all[k + 4..] + b, payload) else Fed(Closed, [])
  {
    HeaderEndIsStable(all, b);
    var k := FindHeaderEnd(all).index;
    assert (all + b)[..k + 4] == all[..k + 4];
    assert (all + b)[k + 4..] == all[k + 4..] + b;
  }

  /** The handshake, and then a further read. */
  lemma HandshakeThenFeed(all: seq<Byte>, b: seq<Byte>, payload: seq<Byte>, hasKey: seq<Byte> -> bool)
    ensures var first := Handshake(all, payload, hasKey);
            var second := Feed(first.session, b, hasKey);
            Handshake(all + b, payload, hasKey) == Fed(second.session, first.orders + second.orders)
  {
    match FindHeaderEnd(all)
    case Missing =>
      var second := Handshake(all + b, payload, hasKey);
      assert [] + second.orders == second.orders;
    case At(k) =>
      HandshakeIsStable(all, b, payload, hasKey);
      FramesThenFeed(all[k + 4..], b, payload, hasKey);
  }

  /** Two reads are one read of both. */
  lemma FeedSplit(s: Session, a: seq<Byte>, b: seq<Byte>, hasKey: seq<Byte> -> bool)
    ensures var first := Feed(s, a, hasKey);
            var second := Feed(first.session, b, hasKey);
            Feed(s, a + b, hasKey) == Fed(second.session, first.orders + second.orders)
  {
    match s
    case Closed =>
    case Open(true, data, payload) =>
      assert data + (a + b) == (data + a) + b;
      FramesThenFeed(data + a, b, payload, hasKey);
    case Open(false, data, payload) =>
      assert data + (a + b) == (data + a) + b;
      HandshakeThenFeed(data + a, b, payload, hasKey);
  }

  /** A session that has nothing to do until more arrives. */
  predicate Settled(s: Session) {
    match s
    case Closed => true
    case Open(true, data, payload) => ParseFrame(data) == NeedMore && |payload| < MSG_SIZE
    case Open(false, data, payload) => FindHeaderEnd(data) == Missing && payload == []
  }

  lemma {:induction false} FramesSettle(data: seq<Byte>, payload: seq<Byte>)
    requires |payload| < MSG_SIZE
    ensures Settled(Frames(data, payload).session)
    decreases |data|
  {
    match ParseFrame(data)
    case NeedMore =>
    case Refused =>
    case Frame(opcode, body, size) =>
      if opcode == 2 || opcode == 0 {
        FramesSettle(data[size..], TakeOrders(payload + body).rest);
      } else if opcode != 8 {
        FramesSettle(data[size..], payload);
      }
  }

  lemma FeedSettles(s: Session, chunk: seq<Byte>, hasKey: seq<Byte> -> bool)
    requires Settled(s)
    ensures Settled(Feed(s, chunk, hasKey).session)
  {
    match s
    case Closed =>
    case Open(true, data, payload) => FramesSettle(data + chunk, payload);
    case Open(false, data, payload) =>
      match FindHeaderEnd(data + chunk) {
        case Missing =>
        case At(k) => FramesSettle((data + chunk)[k + 4..], payload);
      }
  }

  lemma FeedNothing(s: Session, hasKey: seq<Byte> -> bool)
    requires Settled(s)
    ensures Feed(s, [], hasKey) == Fed(s, [])
  {
    if s.Open? {
      assert s.data + [] == s.data;
    }
  }

  /**
   However the client's bytes are split into reads, the gateway emits the same orders, makes the same close
   decision and keeps the same unread bytes, across the handshake and every frame.
   */
  lemma {:induction false} ChunkingIsInvisible(s: Session, chunks: seq<seq<Byte>>, hasKey: seq<Byte> -> bool)
    requires Settled(s)
    ensures FeedAll(s, chunks, hasKey) == Feed(s, Concat(chunks), hasKey)
    decreases |chunks|
  {
    if chunks == [] {
      FeedNothing(s, hasKey);
    } else {
      ConcatFront(chunks);
      FeedSettles(s, chunks[0], hasKey);
      ChunkingIsInvisible(Feed(s, chunks[0], hasKey).session, chunks[1..], hasKey);
      FeedSplit(s, chunks[0], Concat(chunks[1..]), hasKey);
    }
  }

  // ---- The bot's frames through the gateway ----

  /** The frames of a series of payloads, each under its own mask. */
  function EncodeAll(payloads: seq<seq<Byte>>, masks: seq<seq<Byte>>): seq<Byte>
    requires |masks| == |payloads| && forall i :: 0 <= i < |masks| ==> |masks[i]| == 4
    requires forall i :: 0 <= i < |payloads| ==> |payloads[i]| < Pow256(8)
  {
    if payloads == [] then [] else EncodeFrame(payloads[0], masks[0]) + EncodeAll(payloads[1..], masks[1..])
  }

  lemma {:induction false} TakeOrdersSplit(a: seq<Byte>, b: seq<Byte>)
    ensures var first := TakeOrders(a);
            var second := TakeOrders(first.rest + b);
            TakeOrders(a + b) == Taken(first.orders + second.orders, second.rest)
    decreases |a|
  {
    if |a| < MSG_SIZE {
      assert [] + TakeOrders(a + b).orders == TakeOrders(a + b).orders;
    } else {
      assert (a + b)[..MSG_SIZE] == a[..MSG_SIZE];
      assert (a + b)[MSG_SIZE..] == a[MSG_SIZE..] + b;
      TakeOrdersSplit(a[MSG_SIZE..], b);
      var tail := TakeOrders(a[MSG_SIZE..]);
      Associate([UnpackOrder(a[..MSG_SIZE])], tail.orders, TakeOrders(tail.rest + b).orders);
    }
  }

  lemma Associate<T>(x: seq<T>, y: seq<T>, z: seq<T>)
    ensures x + (y + z) == (x + y) + z
  {
  }

  /** The frame loop takes one frame of the bot and goes on with what follows it. */
  lemma OneFrame(body: seq<Byte>, mask: seq<Byte>, later: seq<Byte>, rest: seq<Byte>)
    requires |mask| == 4 && |body| <= MAX_PAYLOAD < Pow256(8)
    ensures var t := TakeOrders(rest + body);
            var next := Frames(later, t.rest);
            Frames(EncodeFrame(body, mask) + later, rest) == Fed(next.session, t.orders + next.orders)
  {
    FrameRoundTrip(body, mask, later);
    var frame := EncodeFrame(body, mask);
    assert (frame + later)[|frame|..] == later;
  }

  /**
   However the bot groups its message bytes into frames, and whatever the masks, the gateway yields the
   32-byte messages of their concatenation and keeps the incomplete rest.
   */
  lemma {:induction false} FramingIsInvisible(payloads: seq<seq<Byte>>, masks: seq<seq<Byte>>, rest: seq<Byte>)
    requires |masks| == |payloads| && forall i :: 0 <= i < |masks| ==> |masks[i]| == 4
    requires forall i :: 0 <= i < |payloads| ==> |payloads[i]| <= MAX_PAYLOAD < Pow256(8)
    requires |rest| < MSG_SIZE
    ensures var t := TakeOrders(rest + Concat(payloads));
            Frames(EncodeAll(payloads, masks), rest) == Fed(Open(true, [], t.rest), t.orders)
    decreases |payloads|
  {
    if payloads == [] {
      assert rest + [] == rest;
    } else {
      var t := TakeOrders(rest + payloads[0]);
      ConcatFront(payloads);
      OneFrame(payloads[0], masks[0], EncodeAll(payloads[1..], masks[1..]), rest);
      FramingIsInvisible(payloads[1..], masks[1..], t.rest);
      TakeOrdersSplit(rest + payloads[0], Concat(payloads[1..]));
      Associate(rest, payloads[0], Concat(payloads[1..]));
    }
  }

  // ---- The buffers in memory ----

  /** The header at the front of the unread bytes, read in place. */
  datatype Header = Incomplete | Bad | Header(opcode: nat, size: nat, length: nat)

  class ClientBuffer {
    var data: seq<Byte>
    var readPtr: nat
    var payload: seq<Byte>
    var payloadReadPtr: nat
    var websocketReady: bool

    ghost predicate Bounded()
      reads this
    {
      readPtr <= |data| && payloadReadPtr <= |payload|
    }

    ghost function View(): Session
      requires Bounded()
      reads this
    {
      Open(websocketReady, data[readPtr..], payload[payloadReadPtr..])
    }

    /** Between reads: the read positions are small, and what is unread needs more bytes to go on. */
    ghost predicate Valid()
      reads this
    {
      && Bounded() && Settled(View())
      && readPtr <= COMPACT_AT && payloadReadPtr <= COMPACT_AT && (!websocketReady ==> readPtr == 0)
    }

    constructor ()
      ensures Valid() && View() == Open(false, [], [])
    {
      data, readPtr, payload, payloadReadPtr, websocketReady := [], 0, [], 0, false;
    }

    /**
     One read of the client's bytes: the orders it completes and whether the connection is closed. The state
     follows the stream function, whatever the compactions; after the upgrade both buffers are bounded.
     */
    method Handle(chunk: seq<Byte>, hasKey: seq<Byte> -> bool) returns (close: bool, orders: seq<WireOrder>)
      requires Valid()
      modifies this
      ensures var fed := Feed(old(View()), chunk, hasKey);
              && orders == fed.orders && (close <==> fed.session.Closed?)
              && (!close ==> Bounded() && View() == fed.session)
      ensures !close ==> Valid()
      ensures !close && websocketReady ==> |data| <= COMPACT_AT + 13 + MAX_PAYLOAD && |payload| <= COMPACT_AT + 31
    {
      ghost var fed := Feed(View(), chunk, hasKey);
      FeedSettles(View(), chunk, hasKey);
      assert (data + chunk)[readPtr..] == data[readPtr..] + chunk;
      data := data + chunk;
      if !websocketReady {
        var end := FindHeaderEnd(data);
        if end.Missing? {
          return false, [];
        }
        var headerSize := end.index + 4;
        if !hasKey(data[..headerSize]) {
          return true, [];
        }
        data, readPtr, websocketReady := data[headerSize..], 0, true;
      }
      StartsLoop(fed, data[readPtr..], payload[payloadReadPtr..]);
      close, orders := FrameLoop(fed);
      if readPtr > COMPACT_AT {
        data := data[readPtr..];
        readPtr := 0;
      }
    }

    /** The frame loop: frame after frame until one is incomplete or the connection is to be closed. */
    method FrameLoop(ghost all: Fed) returns (close: bool, orders: seq<WireOrder>)
      requires Bounded() && websocketReady && payloadReadPtr <= COMPACT_AT
      requires Continues(all, [], data[readPtr..], payload[payloadReadPtr..])
      modifies this`readPtr, this`payload, this`payloadReadPtr
      ensures Bounded() && payloadReadPtr <= COMPACT_AT
      ensures all == Fed(if close then Closed else View(), orders)
    {
      close, orders := false, [];
      while |data| - readPtr >= 2
        invariant Bounded() && !close && payloadReadPtr <= COMPACT_AT
        invariant Continues(all, orders, data[readPtr..], payload[payloadReadPtr..])
        decreases |data| - readPtr
      {
        var base := data[readPtr..];
        var h := ReadHeader(base);
        if h.Incomplete? {
          break;
        }
        if h.Bad? || h.opcode == 8 {
          Closes(all, orders, base, payload[payloadReadPtr..]);
          close := true;
          readPtr := if h.Bad? then readPtr else readPtr + h.size + h.length;
          return;
        }
        var more := TakeFrame(base, h, all, orders);
        orders := orders + more;
        readPtr := readPtr + h.size + h.length;
        assert data[readPtr..] == base[h.size + h.length..];
      }
      Stops(all, orders, data[readPtr..], payload[payloadReadPtr..]);
    }

    /**
     A complete frame: the payload of a data frame is unmasked behind what is unread and its complete messages
     are taken; any other frame is passed over.
     */
    method TakeFrame(base: seq<Byte>, h: Header, ghost all: Fed, ghost orders: seq<WireOrder>)
      returns (more: seq<WireOrder>)
      requires Bounded() && payloadReadPtr <= COMPACT_AT
      requires h == HeaderOf(base) && h.Header? && h.opcode != 8
      requires Continues(all, orders, base, payload[payloadReadPtr..])
      modifies this`payload, this`payloadReadPtr
      ensures Bounded() && payloadReadPtr <= COMPACT_AT
      ensures 6 <= h.size + h.length <= |base|
      ensures Continues(all, orders + more, base[h.size + h.length..], payload[payloadReadPtr..])
    {
      more := [];
      BodyAt(base, h);
      if h.opcode == 2 || h.opcode == 0 {
        ghost var t := DataFrameStep(all, orders, base, payload[payloadReadPtr..], h);
        AppendPayload(base, h.size, h.length);
        more := ProcessPayloadOrders(t);
      } else {
        assert orders + [] == orders;
      }
    }

    /** process_payload_orders: messages off the front, then the compaction. */
    method ProcessPayloadOrders(ghost all: Taken) returns (orders: seq<WireOrder>)
      requires Bounded() && all == TakeOrders(payload[payloadReadPtr..])
      modifies this`payload, this`payloadReadPtr
      ensures Bounded() && payloadReadPtr <= COMPACT_AT
      ensures orders == all.orders && payload[payloadReadPtr..] == all.rest
    {
      orders := [];
      assert [] + all.orders == all.orders;
      while |payload| - payloadReadPtr >= MSG_SIZE
        invariant payloadReadPtr <= |payload|
        invariant Drains(all, orders, payload[payloadReadPtr..])
        decreases |payload| - payloadReadPtr
      {
        var msg := UnpackOrder(payload[payloadReadPtr..payloadReadPtr + MSG_SIZE]);
        TakeOneOrder(all, orders, payload, payloadReadPtr, msg);
        orders := orders + [msg];
        payloadReadPtr := payloadReadPtr + MSG_SIZE;
      }
      assert orders + [] == orders;
      if payloadReadPtr > COMPACT_AT {
        payload := payload[payloadReadPtr..];
        payloadReadPtr := 0;
      }
    }

    /** The header at the front of the unread bytes, field by field. */
    static method ReadHeader(base: seq<Byte>) returns (h: Header)
      requires |base| >= 2
      ensures h == HeaderOf(base)
    {
      var opcode := base[0] % 16;
      var masked := base[1] >= 128;
      var length: nat := base[1] % 128;
      var size := 2;
      if length == 126 {
        if |base| < 4 { return Incomplete; }
        var high: nat, low: nat := base[2], base[3];
        length := 256 * high + low;
        size := 4;
      } else if length == 127 {
        if |base| < 10 { return Incomplete; }
        length := 0;
        var i := 0;
        while i < 8
          invariant 0 <= i <= 8 && length == FromBig(base[2..2 + i])
        {
          assert base[2..2 + (i + 1)][..i] == base[2..2 + i];
          length := 256 * length + base[2 + i];
          i := i + 1;
        }
        size := 10;
      }
      if !masked || length > MAX_PAYLOAD {
        return Bad;
      }
      size := size + 4;
      if |base| < size + length {
        return Incomplete;
      }
      h := Header(opcode, size, length);
    }

    /** Appends the unmasked payload of the frame at the front of the unread bytes. */
    method AppendPayload(base: seq<Byte>, size: nat, length: nat)
      requires Bounded() && 4 <= size && size + length <= |base|
      modifies this`payload
      ensures Bounded()
      ensures payload[payloadReadPtr..]
           == old(payload[payloadReadPtr..]) + Mask(base[size - 4..size], base[size..size + length])
    {
      var mask := base[size - 4..size];
      var i := 0;
      while i < length
        invariant 0 <= i <= length
        invariant payload == old(payload) + Mask(mask, base[size..size + i])
      {
        var next := XorByte(base[size + i], mask[i % 4]);
        assert Mask(mask, base[size..size + (i + 1)]) == Mask(mask, base[size..size + i]) + [next];
        payload := payload + [next];
        i := i + 1;
      }
    }
  }

  /** The whole run is `orders` followed by what the rest of the stream yields. */
  ghost predicate Continues(all: Fed, orders: seq<WireOrder>, data: seq<Byte>, payload: seq<Byte>) {
    all.session == Frames(data, payload).session && all.orders == orders + Frames(data, payload).orders
  }

  lemma StartsLoop(all: Fed, unread: seq<Byte>, payload: seq<Byte>)
    requires all == Frames(unread, payload)
    ensures Continues(all, [], unread, payload)
  {
    assert [] + all.orders == all.orders;
  }

  /** An incomplete frame ends the loop with what is unread. */
  lemma Stops(all: Fed, orders: seq<WireOrder>, unread: seq<Byte>, payload: seq<Byte>)
    requires Continues(all, orders, unread, payload) && HeaderOf(unread).Incomplete?
    ensures all == Fed(Open(true, unread, payload), orders)
  {
    assert orders + [] == orders;
  }

  /** A refused frame or a close frame ends the connection. */
  lemma Closes(all: Fed, orders: seq<WireOrder>, unread: seq<Byte>, payload: seq<Byte>)
    requires Continues(all, orders, unread, payload)
    requires HeaderOf(unread).Bad? || (HeaderOf(unread).Header? && HeaderOf(unread).opcode == 8)
    ensures all == Fed(Closed, orders)
  {
    assert orders + [] == orders;
  }

  /** One data frame of the loop: its payload joins the unread payload and complete messages come off. */
  lemma DataFrameStep(all: Fed, orders: seq<WireOrder>, unread: seq<Byte>, payload: seq<Byte>, h: Header)
    returns (t: Taken)
    requires h == HeaderOf(unread) && h.Header? && (h.opcode == 2 || h.opcode == 0)
    requires Continues(all, orders, unread, payload)
    ensures 4 <= h.size && h.size + h.length <= |unread|
    ensures t == TakeOrders(payload + Mask(unread[h.size - 4..h.size], unread[h.size..h.size + h.length]))
    ensures Continues(all, orders + t.orders, unread[h.size + h.length..], t.rest)
  {
    BodyAt(unread, h);
    t := TakeOrders(payload + ParseFrame(unread).payload);
    Associate(orders, t.orders, Frames(unread[h.size + h.length..], t.rest).orders);
  }

  /** The body of a frame, by position. */
  lemma BodyAt(unread: seq<Byte>, h: Header)
    requires h == HeaderOf(unread) && h.Header?
    ensures 4 <= h.size && 6 <= h.size + h.length <= |unread|
    ensures ParseFrame(unread).payload == Mask(unread[h.size - 4..h.size], unread[h.size..h.size + h.length])
  {
  }

  /** All the messages are `orders` followed by what the rest of the payload yields. */
  ghost predicate Drains(all: Taken, orders: seq<WireOrder>, unread: seq<Byte>) {
    all == Taken(orders + TakeOrders(unread).orders, TakeOrders(unread).rest)
  }

  lemma TakeOneOrder(all: Taken, orders: seq<WireOrder>, payload: seq<Byte>, ptr: nat, msg: WireOrder)
    requires ptr + MSG_SIZE <= |payload| && msg == UnpackOrder(payload[ptr..ptr + MSG_SIZE])
    requires Drains(all, orders, payload[ptr..])
    ensures Drains(all, orders + [msg], payload[ptr + MSG_SIZE..])
  {
    assert payload[ptr..][..MSG_SIZE] == payload[ptr..ptr + MSG_SIZE];
    assert payload[ptr..][MSG_SIZE..] == payload[ptr + MSG_SIZE..];
    Associate(orders, [msg], TakeOrders(payload[ptr + MSG_SIZE..]).orders);
  }

  /** ParseFrame without taking the payload. */
  function HeaderOf(s: seq<Byte>): Header {
    match ParseFrame(s)
    case NeedMore => Incomplete
    case Refused => Bad
    case Frame(opcode, body, size) => Header(opcode, size - |body|, |body|)
  }
}
