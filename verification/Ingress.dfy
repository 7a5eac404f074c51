/**
 From the connections to the matching loop: one gateway thread serves every connection (TCPServer.cpp), stamps
 each order it reads and offers it to the ingress ring, and the worker adds what it dequeues to the book.
 */
module Ingress {
  import opened Orders
  import opened Sequences
  import opened Wire
  import opened Gateway
  import opened BotFleet
  import opened TakerView
  import opened EngineRuns
  import Q = MpscQueue

  // ---- One thread, many connections ----

  /** One read of one connection. */
  datatype Read = Read(client: nat, chunk: seq<Byte>)

  function SessionOf(sessions: map<nat, Session>, client: nat): Session {
    if client in sessions then sessions[client] else Open(false, [], [])
  }

  function Tag(client: nat, orders: seq<WireOrder>): seq<(nat, WireOrder)> {
    if orders == [] then [] else [(client, orders[0])] + Tag(client, orders[1..])
  }

  /** The orders of all connections, in the order the thread comes to them. */
  function Serve(sessions: map<nat, Session>, arrivals: seq<Read>, hasKey: seq<Byte> -> bool): seq<(nat, WireOrder)>
    decreases |arrivals|
  {
    if arrivals == [] then []
    else
      var Read(client, chunk) := arrivals[0];
      var fed := Feed(SessionOf(sessions, client), chunk, hasKey);
      Tag(client, fed.orders) + Serve(sessions[client := fed.session], arrivals[1..], hasKey)
  }

  function ChunksOf(arrivals: seq<Read>, client: nat): seq<seq<Byte>> {
    if arrivals == [] then []
    else (if arrivals[0].client == client then [arrivals[0].chunk] else []) + ChunksOf(arrivals[1..], client)
  }

  function From(orders: seq<(nat, WireOrder)>, client: nat): seq<WireOrder> {
    if orders == [] then []
    else (if orders[0].0 == client then [orders[0].1] else []) + From(orders[1..], client)
  }

  lemma FromFront(x: (nat, WireOrder), rest: seq<(nat, WireOrder)>, c: nat)
    ensures From([x] + rest, c) == (if x.0 == c then [x.1] else []) + From(rest, c)
  {
    assert ([x] + rest)[1..] == rest;
  }

  lemma {:induction false} FromTagged(client: nat, orders: seq<WireOrder>, more: seq<(nat, WireOrder)>, c: nat)
    ensures From(Tag(client, orders) + more, c) == (if c == client then orders else []) + From(more, c)
  {
    if orders == [] {
      assert Tag(client, orders) + more == more;
    } else {
      var rest := Tag(client, orders[1..]) + more;
      assert Tag(client, orders) + more == [(client, orders[0])] + rest;
      FromFront((client, orders[0]), rest, c);
      FromTagged(client, orders[1..], more, c);
      if c == client {
        Associate([orders[0]], orders[1..], From(more, c));
        assert orders == [orders[0]] + orders[1..];
      }
    }
  }

  lemma FeedAllFront(s: Session, chunk: seq<Byte>, later: seq<seq<Byte>>, hasKey: seq<Byte> -> bool)
    ensures FeedAll(s, [chunk] + later, hasKey).orders
         == Feed(s, chunk, hasKey).orders + FeedAll(Feed(s, chunk, hasKey).session, later, hasKey).orders
  {
    assert ([chunk] + later)[1..] == later;
  }

  lemma ServeFront(sessions: map<nat, Session>, arrivals: seq<Read>, hasKey: seq<Byte> -> bool, client: nat)
    requires arrivals != []
    ensures var Read(c, chunk) := arrivals[0];
            var fed := Feed(SessionOf(sessions, c), chunk, hasKey);
            From(Serve(sessions, arrivals, hasKey), client)
            == (if c == client then fed.orders else [])
               + From(Serve(sessions[c := fed.session], arrivals[1..], hasKey), client)
  {
    var Read(c, chunk) := arrivals[0];
    var fed := Feed(SessionOf(sessions, c), chunk, hasKey);
    FromTagged(c, fed.orders, Serve(sessions[c := fed.session], arrivals[1..], hasKey), client);
  }

  ghost predicate Unmixed(sessions: map<nat, Session>, arrivals: seq<Read>, hasKey: seq<Byte> -> bool, client: nat) {
    From(Serve(sessions, arrivals, hasKey), client)
    == FeedAll(SessionOf(sessions, client), ChunksOf(arrivals, client), hasKey).orders
  }

  /** A read of this connection, and a read of another one. */
  lemma ReadFirst(sessions: map<nat, Session>, arrivals: seq<Read>, hasKey: seq<Byte> -> bool, client: nat,
                  later: map<nat, Session>)
    requires arrivals != [] && Unmixed(later, arrivals[1..], hasKey, client)
    requires var fed := Feed(SessionOf(sessions, arrivals[0].client), arrivals[0].chunk, hasKey);
             later == sessions[arrivals[0].client := fed.session]
    ensures Unmixed(sessions, arrivals, hasKey, client)
  {
    var Read(c, chunk) := arrivals[0];
    var rest := ChunksOf(arrivals[1..], client);
    ServeFront(sessions, arrivals, hasKey, client);
    if c == client {
      assert ChunksOf(arrivals, client) == [chunk] + rest;
      FeedAllFront(SessionOf(sessions, c), chunk, rest, hasKey);
    } else {
      assert ChunksOf(arrivals, client) == rest;
      assert SessionOf(later, client) == SessionOf(sessions, client);
    }
  }

  /** However the reads of the connections are interleaved, each yields what its own bytes say. */
  lemma {:induction false} ClientsDoNotMix(sessions: map<nat, Session>, arrivals: seq<Read>, hasKey: seq<Byte> -> bool,
                                           client: nat)
    ensures From(Serve(sessions, arrivals, hasKey), client)
         == FeedAll(SessionOf(sessions, client), ChunksOf(arrivals, client), hasKey).orders
    decreases |arrivals|
  {
    if arrivals != [] {
      var fed := Feed(SessionOf(sessions, arrivals[0].client), arrivals[0].chunk, hasKey);
      var later := sessions[arrivals[0].client := fed.session];
      ClientsDoNotMix(later, arrivals[1..], hasKey, client);
      ReadFirst(sessions, arrivals, hasKey, client, later);
    }
  }

  // ---- What a bot's connection yields, at any moment ----

  /** So far the connection has brought some beginning of a request and of the frames of these orders. */
  ghost predicate Brings(chunks: seq<seq<Byte>>, sent: seq<BotOrder>, hasKey: seq<Byte> -> bool) {
    exists payloads: seq<seq<Byte>>, masks: seq<seq<Byte>>, request: seq<Byte> ::
      BringsFramed(chunks, sent, hasKey, payloads, masks, request)
  }

  ghost predicate BringsFramed(chunks: seq<seq<Byte>>, sent: seq<BotOrder>, hasKey: seq<Byte> -> bool,
                               payloads: seq<seq<Byte>>, masks: seq<seq<Byte>>, request: seq<Byte>)
  {
    && AllInRange(sent) && |masks| == |payloads| && (forall i :: 0 <= i < |masks| ==> |masks[i]| == 4)
    && (forall i :: 0 <= i < |payloads| ==> |payloads[i]| <= MAX_PAYLOAD < Pow256(8))
    && Concat(payloads) == Messages(sent) && GoodRequest(request, hasKey)
    && Concat(chunks) <= request + EncodeAll(payloads, masks)
  }

  /** What has come out of a connection is a beginning of what its bot sent. */
  lemma OrdersArriveSoFar(chunks: seq<seq<Byte>>, sent: seq<BotOrder>, hasKey: seq<Byte> -> bool)
    requires Brings(chunks, sent, hasKey)
    ensures FeedAll(Open(false, [], []), chunks, hasKey).orders <= Received(sent)
  {
    var payloads, masks, request :| BringsFramed(chunks, sent, hasKey, payloads, masks, request);
    var whole, seen := request + EncodeAll(payloads, masks), Concat(chunks);
    var rest := whole[|seen|..];
    assert whole == seen + rest;
    ConcatAppend([], whole);
    assert [] + [whole] == [whole] && Concat([whole]) == whole;
    OrdersArrive(sent, payloads, masks, request, [whole], hasKey);
    ChunkingIsInvisible(Open(false, [], []), [whole], hasKey);
    ChunkingIsInvisible(Open(false, [], []), chunks, hasKey);
    FeedSplit(Open(false, [], []), seen, rest, hasKey);
  }

  // ---- Ids of all the bots together ----

  /** A bot counts its ids from its own million on, never past it, and asks for at least one. */
  ghost predicate CountsItsIds(bot: nat, sent: seq<BotOrder>) {
    && |sent| <= IDS_PER_BOT
    && forall k :: 0 <= k < |sent| ==> sent[k].id == IdOf(bot, k + 1) && sent[k].qty > 0
  }

  /** Growing ids within the bot's million, and sizes and ids that fit. */
  ghost predicate OwnOrders(bot: nat, orders: seq<WireOrder>) {
    && (forall k :: 0 <= k < |orders| ==>
          && IdOf(bot, 0) < orders[k].id <= IdOf(bot, IDS_PER_BOT)
          && 0 < orders[k].id < TWO_TO_THE_31 && 0 < orders[k].qty < TWO_TO_THE_31)
    && (forall i, j :: 0 <= i < j < |orders| ==> orders[i].id < orders[j].id)
  }

  lemma {:induction false} ReceivedAt(sent: seq<BotOrder>, k: nat)
    requires k < |sent|
    ensures Received(sent)[k] == WireOrder(sent[k].id, sent[k].qty, sent[k].buy, sent[k].price, sent[k].time)
  {
    if k > 0 {
      ReceivedAt(sent[1..], k - 1);
    }
  }

  lemma BotsOwnTheirOrders(bot: nat, sent: seq<BotOrder>, orders: seq<WireOrder>)
    requires AllInRange(sent) && CountsItsIds(bot, sent) && orders <= Received(sent)
    ensures OwnOrders(bot, orders)
  {
    forall k | 0 <= k < |orders| ensures k < |sent| && orders[k].id == IdOf(bot, k + 1)
                                       && orders[k].qty == sent[k].qty && InRange(sent[k])
    {
      ReceivedAt(sent, k);
      assert sent[k] in sent;
    }
  }

  /** No two orders of the whole stream share an id. */
  ghost predicate AllDistinct(orders: seq<(nat, WireOrder)>) {
    && (forall i :: 0 <= i < |orders| ==> 0 < orders[i].1.id < TWO_TO_THE_31 && 0 < orders[i].1.qty < TWO_TO_THE_31)
    && (forall i, j :: 0 <= i < j < |orders| ==> orders[i].1.id != orders[j].1.id)
  }

  lemma {:induction false} InFrom(orders: seq<(nat, WireOrder)>, i: nat) returns (k: nat)
    requires i < |orders|
    ensures k < |From(orders, orders[i].0)| && From(orders, orders[i].0)[k] == orders[i].1
  {
    if i == 0 {
      k := 0;
    } else {
      k := InFrom(orders[1..], i - 1);
      if orders[0].0 == orders[i].0 { k := k + 1; }
    }
  }

  lemma {:induction false} BotsDoNotCollide(orders: seq<(nat, WireOrder)>)
    requires forall c: nat :: OwnOrders(c, From(orders, c))
    ensures AllDistinct(orders)
  {
    if orders != [] {
      var rest, c := orders[1..], orders[0].0;
      forall d: nat ensures OwnOrders(d, From(rest, d)) { OwnRest(orders, d); }
      BotsDoNotCollide(rest);
      assert OwnOrders(c, From(orders, c)) && From(orders, c)[0] == orders[0].1;
      forall j | 0 <= j < |rest| ensures orders[0].1.id != rest[j].1.id {
        FirstIsAlone(orders, j);
      }
    }
  }

  lemma OwnRest(orders: seq<(nat, WireOrder)>, d: nat)
    requires orders != [] && OwnOrders(d, From(orders, d))
    ensures OwnOrders(d, From(orders[1..], d))
  {
    var all, rest := From(orders, d), From(orders[1..], d);
    var n := |all| - |rest|;
    forall k | 0 <= k < |rest| ensures rest[k] == all[n + k] {}
  }

  lemma FirstIsAlone(orders: seq<(nat, WireOrder)>, j: nat)
    requires j + 1 < |orders| && forall c: nat :: OwnOrders(c, From(orders, c))
    ensures orders[0].1.id != orders[j + 1].1.id
  {
    var c, d := orders[0].0, orders[j + 1].0;
    var k := InFrom(orders[1..], j);
    assert OwnOrders(c, From(orders, c)) && From(orders, c)[0] == orders[0].1;
    assert OwnOrders(d, From(orders, d));
    if c == d {
      assert From(orders, c)[k + 1] == orders[j + 1].1;
    } else {
      assert From(orders, d)[k] == orders[j + 1].1;
      MillionsApart(c, d, orders[0].1.id, orders[j + 1].1.id);
    }
  }

  lemma MillionsApart(c: nat, d: nat, x: int, y: int)
    requires c != d && IdOf(c, 0) < x <= IdOf(c, IDS_PER_BOT) && IdOf(d, 0) < y <= IdOf(d, IDS_PER_BOT)
    ensures x != y
  {
  }

  // ---- Stamps ----

  /** The i-th order the gateway builds: its own reading of the clock, and the next arrival stamp. */
  function Build(orders: seq<(nat, WireOrder)>, priceOf: seq<Byte> -> real, t1: nat -> int): (r: seq<Order>)
    ensures |r| == |orders|
  {
    seq(|orders|, i requires 0 <= i < |orders| =>
      var w := orders[i].1; Order(w.id, w.qty, w.isBuy, priceOf(w.price), w.t0, t1(i), i + 1))
  }

  /** Orders fit for the engine, one after the other. */
  ghost predicate Orderly(orders: seq<Order>) {
    && (forall i :: 0 <= i < |orders| ==> Sane(orders[i]))
    && (forall i, j :: 0 <= i < j < |orders| ==>
          orders[i].seqNo < orders[j].seqNo && orders[i].id != orders[j].id)
  }

  // ---- Through the ring ----

  /** `xs` is `ys` with some elements left out. */
  ghost predicate LeavesOut<T(!new)>(xs: seq<T>, ys: seq<T>) {
    if ys == [] then xs == []
    else
      var x, y := |xs| - 1, |ys| - 1;
      (xs != [] && xs[x] == ys[y] && LeavesOut(xs[..x], ys[..y])) || LeavesOut(xs, ys[..y])
  }

  lemma LeavesOutAppend<T(!new)>(xs: seq<T>, ys: seq<T>, z: T)
    requires LeavesOut(xs, ys)
    ensures LeavesOut(xs + [z], ys + [z])
  {
    assert (xs + [z])[..|xs|] == xs && (ys + [z])[..|ys|] == ys;
  }

  lemma {:induction false} LeavesOutLast<T(!new)>(xs: seq<T>, ys: seq<T>)
    requires xs != [] && LeavesOut(xs, ys)
    ensures LeavesOut(xs[..|xs| - 1], ys)
  {
    if ys != [] && LeavesOut(xs, ys[..|ys| - 1]) {
      LeavesOutLast(xs, ys[..|ys| - 1]);
    }
  }

  lemma {:induction false} LeavesOutPrefix<T(!new)>(xs: seq<T>, ys: seq<T>, n: nat)
    requires LeavesOut(xs, ys) && n <= |xs|
    ensures LeavesOut(xs[..n], ys)
    decreases |xs|
  {
    if n < |xs| {
      LeavesOutLast(xs, ys);
      LeavesOutPrefix(xs[..|xs| - 1], ys, n);
      assert xs[..|xs| - 1][..n] == xs[..n];
    } else {
      assert xs[..n] == xs;
    }
  }

  lemma {:induction false} LeavesOutMembers<T(!new)>(xs: seq<T>, ys: seq<T>)
    requires LeavesOut(xs, ys)
    ensures forall x :: x in xs ==> x in ys
    decreases |ys|
  {
    if ys != [] {
      var front := ys[..|ys| - 1];
      if LeavesOut(xs, front) {
        LeavesOutMembers(xs, front);
      } else {
        LeavesOutMembers(xs[..|xs| - 1], front);
        assert xs == xs[..|xs| - 1] + [ys[|ys| - 1]];
      }
    }
  }

  lemma {:induction false} LeavesOutOrderly(xs: seq<Order>, ys: seq<Order>)
    requires LeavesOut(xs, ys) && Orderly(ys)
    ensures Orderly(xs)
    decreases |ys|
  {
    if ys != [] {
      var front := ys[..|ys| - 1];
      if LeavesOut(xs, front) {
        LeavesOutOrderly(xs, front);
      } else {
        var before := xs[..|xs| - 1];
        LeavesOutOrderly(before, front);
        LeavesOutMembers(before, front);
        LastInOrder(before, ys);
        assert xs == before + [ys[|ys| - 1]];
      }
    }
  }

  lemma LastInOrder(before: seq<Order>, ys: seq<Order>)
    requires ys != [] && Orderly(ys) && Orderly(before) && forall x :: x in before ==> x in ys[..|ys| - 1]
    ensures Orderly(before + [ys[|ys| - 1]])
  {
    forall i | 0 <= i < |before| ensures before[i].seqNo < ys[|ys| - 1].seqNo && before[i].id != ys[|ys| - 1].id {
      assert before[i] in before;
      var j :| 0 <= j < |ys| - 1 && ys[j] == before[i];
    }
  }

  /** The orders for which enqueue was called, in the order of the calls. */
  function Offered<T>(actions: seq<Q.Action<T>>): seq<T> {
    if actions == [] then []
    else (if actions[0].Begin? then [actions[0].item] else []) + Offered(actions[1..])
  }

  /** Only one thread calls enqueue. */
  predicate OneProducer<T>(actions: seq<Q.Action<T>>, p: Q.Pid) {
    forall i :: 0 <= i < |actions| && actions[i].Begin? ==> actions[i].p == p
  }

  /** What the producer is about to claim a ticket for. */
  function Pending<T>(r: Q.Ring<T>, p: Q.Pid): seq<T> {
    match r.At(p)
    case LoadSequence(item, _) => [item]
    case Reload(item, _) => [item]
    case Claim(item, _) => [item]
    case _ => []
  }

  /** The other producers rest, and this one's claims are what it offered less what was refused. */
  ghost predicate ClaimsWhatIsOffered<T(!new)>(r: Q.Ring<T>, p: Q.Pid, offered: seq<T>) {
    && (forall q: Q.Pid :: q != p ==> r.At(q).Idle?)
    && LeavesOut(Q.Values(r.claims) + Pending(r, p), offered)
  }

  /** A producer that rests is left alone by everything but its own call. */
  lemma OthersRest<T>(r: Q.Ring<T>, a: Q.Action<T>, p: Q.Pid)
    requires r.Sized() && Q.Enabled(r, a) && (a.Begin? ==> a.p == p)
    requires forall q: Q.Pid :: q != p ==> r.At(q).Idle?
    ensures forall q: Q.Pid :: q != p ==> Q.Next(r, a).At(q).Idle?
  {
    forall q: Q.Pid | q != p ensures Q.Next(r, a).At(q) == r.At(q) {
      assert r.At(q).Idle?;
    }
  }

  lemma CallIsOffered<T(!new)>(r: Q.Ring<T>, a: Q.Action<T>, p: Q.Pid, offered: seq<T>)
    requires r.Sized() && Q.Enabled(r, a) && a.Begin? && a.p == p && ClaimsWhatIsOffered(r, p, offered)
    ensures LeavesOut(Q.Values(Q.Next(r, a).claims) + Pending(Q.Next(r, a), p), offered + [a.item])
  {
    var claimed := Q.Values(r.claims);
    assert claimed + [] == claimed;
    LeavesOutAppend(claimed, offered, a.item);
  }

  lemma ClaimWasOffered<T(!new)>(r: Q.Ring<T>, a: Q.Action<T>, p: Q.Pid, offered: seq<T>)
    requires r.Sized() && Q.Enabled(r, a) && a.CompareExchange? && ClaimsWhatIsOffered(r, p, offered)
    requires Q.Next(r, a).claims != r.claims
    ensures LeavesOut(Q.Values(Q.Next(r, a).claims) + Pending(Q.Next(r, a), p), offered)
  {
    Q.ValuesAppend(r.claims, (p, r.At(p).item));
    assert Q.Values(Q.Next(r, a).claims) + [] == Q.Values(r.claims) + [r.At(p).item];
  }

  /** A refusal forgets the pending order, any other step that claims nothing keeps it. */
  lemma PendingStays<T>(r: Q.Ring<T>, a: Q.Action<T>, p: Q.Pid)
    requires r.Sized() && Q.Enabled(r, a) && !a.Begin? && Q.Next(r, a).claims == r.claims
    ensures Pending(Q.Next(r, a), p) == Pending(r, p) || (Pending(Q.Next(r, a), p) == [] && |Pending(r, p)| == 1)
  {
  }

  lemma RestWasOffered<T(!new)>(claimed: seq<T>, pending: seq<T>, pending': seq<T>, offered: seq<T>)
    requires LeavesOut(claimed + pending, offered)
    requires pending' == pending || (pending' == [] && |pending| == 1)
    ensures LeavesOut(claimed + pending', offered)
  {
    if pending' != pending {
      LeavesOutLast(claimed + pending, offered);
      assert (claimed + pending)[..|claimed|] == claimed + [];
    }
  }

  lemma OfferStep<T(!new)>(r: Q.Ring<T>, a: Q.Action<T>, p: Q.Pid, offered: seq<T>)
    requires r.Sized() && Q.Enabled(r, a) && (a.Begin? ==> a.p == p) && ClaimsWhatIsOffered(r, p, offered)
    ensures ClaimsWhatIsOffered(Q.Next(r, a), p, offered + if a.Begin? then [a.item] else [])
  {
    OthersRest(r, a, p);
    assert offered + [] == offered;
    if a.Begin? {
      CallIsOffered(r, a, p, offered);
    } else if Q.Next(r, a).claims != r.claims {
      ClaimWasOffered(r, a, p, offered);
    } else {
      PendingStays(r, a, p);
      RestWasOffered(Q.Values(r.claims), Pending(r, p), Pending(Q.Next(r, a), p), offered);
    }
  }

  lemma FrontProducer<T>(actions: seq<Q.Action<T>>, p: Q.Pid)
    requires actions != [] && OneProducer(actions, p)
    ensures (actions[0].Begin? ==> actions[0].p == p) && OneProducer(actions[1..], p)
  {
  }

  lemma {:induction false} OfferSteps<T(!new)>(r0: Q.Ring<T>, actions: seq<Q.Action<T>>, r: Q.Ring<T>, p: Q.Pid,
                                              offered: seq<T>, all: seq<T>)
    requires r0.Sized() && Q.Execution(r0, actions, r) && OneProducer(actions, p)
    requires ClaimsWhatIsOffered(r0, p, offered) && all == offered + Offered(actions)
    ensures ClaimsWhatIsOffered(r, p, all)
    decreases |actions|
  {
    if actions == [] {
      assert all == offered;
    } else {
      var first := if actions[0].Begin? then [actions[0].item] else [];
      FrontProducer(actions, p);
      OfferStep(r0, actions[0], p, offered);
      assert all == (offered + first) + Offered(actions[1..]);
      OfferSteps(Q.Next(r0, actions[0]), actions[1..], r, p, offered + first, all);
    }
  }

  lemma ClaimedAsOffered<T(!new)>(r0: Q.Ring<T>, actions: seq<Q.Action<T>>, r: Q.Ring<T>, p: Q.Pid)
    requires Q.Initial(r0) && Q.Execution(r0, actions, r) && OneProducer(actions, p)
    ensures LeavesOut(Q.Values(r.claims) + Pending(r, p), Offered(actions))
  {
    assert Q.Values(r0.claims) + Pending(r0, p) == [];
    assert [] + Offered(actions) == Offered(actions);
    OfferSteps(r0, actions, r, p, [], Offered(actions));
  }

  /** With one producer, the worker takes the orders in the order they were offered, less those refused. */
  lemma TakenAsOffered<T(!new)>(r0: Q.Ring<T>, actions: seq<Q.Action<T>>, r: Q.Ring<T>, p: Q.Pid)
    requires Q.Initial(r0) && Q.Execution(r0, actions, r) && OneProducer(actions, p)
    ensures LeavesOut(r.received, Offered(actions))
  {
    ClaimedAsOffered(r0, actions, r, p);
    Q.DequeuedInTicketOrder(r0, actions, r);
    var claimed := Q.Values(r.claims) + Pending(r, p);
    LeavesOutPrefix(claimed, Offered(actions), |r.received|);
    assert claimed[..|r.received|] == r.received;
  }

  // ---- From the bytes to the book ----

  /** The worker adds every order it dequeues. */
  function Ops(received: seq<Order>): (ops: seq<Op>)
    ensures |ops| == |received| && forall i :: 0 <= i < |ops| ==> ops[i] == Add(received[i])
  {
    seq(|received|, i requires 0 <= i < |received| => Add(received[i]))
  }

  /** Every bot counts its own ids, and every connection has brought a beginning of what its bot sends. */
  ghost predicate Traffic(arrivals: seq<Read>, sent: nat -> seq<BotOrder>, hasKey: seq<Byte> -> bool) {
    forall c: nat :: CountsItsIds(c, sent(c))
      && (ChunksOf(arrivals, c) == [] || Brings(ChunksOf(arrivals, c), sent(c), hasKey))
  }

  /** `o` is an order some bot sent, with the gateway's stamps. */
  ghost predicate SentBySome(o: Order, sent: nat -> seq<BotOrder>, priceOf: seq<Byte> -> real) {
    exists c: nat, k: nat :: SentBy(o, sent, priceOf, c, k)
  }

  predicate SentBy(o: Order, sent: nat -> seq<BotOrder>, priceOf: seq<Byte> -> real, c: nat, k: nat) {
    k < |sent(c)| && var b := sent(c)[k];
    && o.id == b.id && o.quantity == b.qty && o.isBuy == b.buy && o.t0 == b.time
    && |b.price| == 8 && o.price == priceOf(b.price)
  }

  lemma ServedIsSent(arrivals: seq<Read>, sent: nat -> seq<BotOrder>, hasKey: seq<Byte> -> bool, c: nat)
    requires Traffic(arrivals, sent, hasKey)
    ensures var orders := From(Serve(map[], arrivals, hasKey), c);
            && OwnOrders(c, orders) && |orders| <= |sent(c)|
            && (orders == [] || (AllInRange(sent(c)) && orders <= Received(sent(c))))
  {
    ClientsDoNotMix(map[], arrivals, hasKey, c);
    assert CountsItsIds(c, sent(c));
    if ChunksOf(arrivals, c) != [] {
      var payloads, masks, request :| BringsFramed(ChunksOf(arrivals, c), sent(c), hasKey, payloads, masks, request);
      OrdersArriveSoFar(ChunksOf(arrivals, c), sent(c), hasKey);
      BotsOwnTheirOrders(c, sent(c), From(Serve(map[], arrivals, hasKey), c));
    }
  }

  /** Whatever the interleaving of connections, the gateway builds orders fit for the engine, all sent by bots. */
  lemma GatewayIsOrderly(arrivals: seq<Read>, sent: nat -> seq<BotOrder>, hasKey: seq<Byte> -> bool,
                         priceOf: seq<Byte> -> real, t1: nat -> int)
    requires Traffic(arrivals, sent, hasKey)
    ensures var built := Build(Serve(map[], arrivals, hasKey), priceOf, t1);
            Orderly(built) && forall o :: o in built ==> SentBySome(o, sent, priceOf)
  {
    var served := Serve(map[], arrivals, hasKey);
    var built := Build(served, priceOf, t1);
    forall c: nat ensures OwnOrders(c, From(served, c)) { ServedIsSent(arrivals, sent, hasKey, c); }
    BotsDoNotCollide(served);
    forall i | 0 <= i < |built| ensures SentBySome(built[i], sent, priceOf) {
      BuiltIsSent(arrivals, sent, hasKey, priceOf, t1, i);
    }
  }

  lemma BuiltIsSent(arrivals: seq<Read>, sent: nat -> seq<BotOrder>, hasKey: seq<Byte> -> bool,
                    priceOf: seq<Byte> -> real, t1: nat -> int, i: nat)
    requires Traffic(arrivals, sent, hasKey) && i < |Serve(map[], arrivals, hasKey)|
    ensures SentBySome(Build(Serve(map[], arrivals, hasKey), priceOf, t1)[i], sent, priceOf)
  {
    var served := Serve(map[], arrivals, hasKey);
    var c := served[i].0;
    var k := InFrom(served, i);
    ServedIsSent(arrivals, sent, hasKey, c);
    SentAt(sent(c), From(served, c), k);
    assert SentBy(Build(served, priceOf, t1)[i], sent, priceOf, c, k);
  }

  lemma SentAt(sent: seq<BotOrder>, orders: seq<WireOrder>, k: nat)
    requires AllInRange(sent) && orders <= Received(sent) && k < |orders|
    ensures k < |sent| && |sent[k].price| == 8
    ensures orders[k] == WireOrder(sent[k].id, sent[k].qty, sent[k].buy, sent[k].price, sent[k].time)
  {
    ReceivedAt(sent, k);
    assert sent[k] in sent;
  }

  /** The bots' traffic, and some interleaving in which the gateway thread has offered a beginning of its orders. */
  ghost predicate Ingested(arrivals: seq<Read>, sent: nat -> seq<BotOrder>, hasKey: seq<Byte> -> bool,
                           priceOf: seq<Byte> -> real, t1: nat -> int, gateway: Q.Pid,
                           r0: Q.Ring<Order>, actions: seq<Q.Action<Order>>, r: Q.Ring<Order>)
  {
    && Traffic(arrivals, sent, hasKey)
    && Q.Initial(r0) && Q.Execution(r0, actions, r) && OneProducer(actions, gateway)
    && Offered(actions) <= Build(Serve(map[], arrivals, hasKey), priceOf, t1)
  }

  /**
   From the bytes to the book: any number of bots, each counting its own ids; any framing, masking and chunking;
   any interleaving of their reads in the gateway thread; any interleaving of that thread with the worker on the
   ring. At every moment what the worker has added to the book is an admissible run of orders that bots sent,
   in the order the gateway offered them, and so the book and the trades are as every such run leaves them.
   */
  lemma BytesToBook(arrivals: seq<Read>, sent: nat -> seq<BotOrder>, hasKey: seq<Byte> -> bool,
                    priceOf: seq<Byte> -> real, t1: nat -> int, gateway: Q.Pid,
                    r0: Q.Ring<Order>, actions: seq<Q.Action<Order>>, r: Q.Ring<Order>, clock: nat -> int)
    requires Ingested(arrivals, sent, hasKey, priceOf, t1, gateway, r0, actions, r)
    ensures LeavesOut(r.received, Offered(actions)) && forall o :: o in r.received ==> SentBySome(o, sent, priceOf)
    ensures Admissible(Ops(r.received)) && Reachable(Run(Ops(r.received), clock), Ops(r.received), clock)
  {
    var built := Build(Serve(map[], arrivals, hasKey), priceOf, t1);
    GatewayIsOrderly(arrivals, sent, hasKey, priceOf, t1);
    TakenAsOffered(r0, actions, r, gateway);
    TakenIsOrderly(r.received, Offered(actions), built);
    EveryRunIsGood(Ops(r.received), clock);
  }

  lemma TakenIsOrderly(taken: seq<Order>, offered: seq<Order>, built: seq<Order>)
    requires LeavesOut(taken, offered) && offered <= built && Orderly(built)
    ensures Admissible(Ops(taken)) && forall o :: o in taken ==> o in built
  {
    LeavesOutMembers(taken, offered);
    LeavesOutOrderly(taken, offered);
    forall o | o in taken ensures o in built {
      var i :| 0 <= i < |offered| && offered[i] == o;
      assert built[i] == o;
    }
  }
}
