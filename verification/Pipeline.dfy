/** From the matching engine through the offloader to the judge. */
module Pipeline {
  import opened Orders
  import opened Sequences
  import opened EngineRuns
  import opened Scoring
  import opened NoFalseAlarm
  import opened Wire
  import BotFleet
  import D = DropRuns
  import I = Ingress
  import K = KafkaOffloader
  import Q = MpscQueue
  import W = TradeRecords

  /** Whether the k-th event published was accepted. */
  function Answers(attempts: seq<(TradeEvent, bool)>): nat -> bool {
    k => 0 < k <= |attempts| && attempts[k - 1].1
  }

  /** The publisher offered the offloader the engine's trades, in order. */
  ghost predicate Offers(attempts: seq<(TradeEvent, bool)>, trades: seq<TradeEvent>) {
    |attempts| == |trades| && forall i :: 0 <= i < |trades| ==> attempts[i].0 == trades[i]
  }

  lemma {:induction false} AcceptedIsPublished(attempts: seq<(TradeEvent, bool)>, trades: seq<TradeEvent>, n: nat)
    requires Offers(attempts, trades) && n <= |trades|
    ensures K.Accepted(attempts[..n]) == Published(trades, Answers(attempts), n)
  {
    if n > 0 {
      AcceptedIsPublished(attempts, trades, n - 1);
      assert attempts[..n] == attempts[..n - 1] + [attempts[n - 1]];
      K.AcceptedAppend(attempts[..n - 1], attempts[n - 1]);
    }
  }

  /** The offloader was offered these trades, its publisher finished, stop was called, and the worker has returned. */
  ghost predicate CleanStop(s0: K.Offloader<TradeEvent>, actions: seq<K.Action<TradeEvent>>, s: K.Offloader<TradeEvent>,
                            trades: seq<TradeEvent>)
  {
    && K.Initial(s0) && K.Execution(s0, actions, s)
    && s.worker.Done? && s.orderly && Offers(s.attempts, trades)
  }

  /**
   End to end: a well-fed engine publishes its trades, the matching thread finishes, stop is called and the
   worker returns. Then the batches handed over are the accepted trades in order, they are legal exactly when
   no trade was dropped between two accepted ones, and a run of at most 65536 trades drops none.
   */
  lemma VerdictOnDelivered(ops: seq<Op>, clock: nat -> int,
                           s0: K.Offloader<TradeEvent>, actions: seq<K.Action<TradeEvent>>, s: K.Offloader<TradeEvent>)
    requires Admissible(ops) && SteadyClock(clock) && Timely(ops, clock)
    ensures var trades := Run(ops, clock).trades;
            CleanStop(s0, actions, s, trades) ==>
              && Concat(s.batches) == Published(trades, Answers(s.attempts), |trades|)
              && (Legal(Concat(s.batches)) <==> NoInnerDrop(Answers(s.attempts), |trades|))
              && (s.dropped == 0 ==> Concat(s.batches) == trades && Legal(Concat(s.batches)))
              && (|trades| <= K.QUEUE_CAPACITY ==> s.dropped == 0)
  {
    var trades := Run(ops, clock).trades;
    if CleanStop(s0, actions, s, trades) {
      DeliveredIsPublished(s0, actions, s, trades);
      if |trades| <= K.QUEUE_CAPACITY {
        K.SmallRunsDropNothing(s0, actions, s);
      }
    }
    EveryRunIsGood(ops, clock);
    NoFalseDisqualification(ops, clock);
    PassesExactlyWithoutInnerDrop(trades, Answers(s.attempts), |trades|);
  }

  /**
   Which well-fed engines drops can disqualify: in some interleaving of publisher and worker what is delivered
   after an orderly stop is not legal, exactly when there are more than 65537 trades. From 65538 trades on one can
   be refused by a full ring and a later one accepted; before that no two accepted ones enclose a refused one.
   */
  lemma DropsDisqualifyLongRuns(ops: seq<Op>, clock: nat -> int, s0: K.Offloader<TradeEvent>)
    requires Admissible(ops) && SteadyClock(clock) && Timely(ops, clock) && K.Initial(s0)
    ensures (exists actions, s :: Disqualified(s0, actions, s, Run(ops, clock).trades))
            <==> |Run(ops, clock).trades| > K.QUEUE_CAPACITY + 1
  {
    if |Run(ops, clock).trades| > K.QUEUE_CAPACITY + 1 {
      var actions, s := LongRunLoses(ops, clock, s0);
    } else {
      forall actions, s ensures !Disqualified(s0, actions, s, Run(ops, clock).trades) {
        ShortRunPasses(ops, clock, s0, actions, s);
      }
    }
  }

  lemma LongRunLoses(ops: seq<Op>, clock: nat -> int, s0: K.Offloader<TradeEvent>)
    returns (actions: seq<K.Action<TradeEvent>>, s: K.Offloader<TradeEvent>)
    requires Admissible(ops) && SteadyClock(clock) && Timely(ops, clock) && K.Initial(s0)
    requires |Run(ops, clock).trades| > K.QUEUE_CAPACITY + 1
    ensures Disqualified(s0, actions, s, Run(ops, clock).trades)
  {
    var trades := Run(ops, clock).trades;
    actions, s := D.LosesInside(s0, trades);
    VerdictOnDelivered(ops, clock, s0, actions, s);
    LosesBetween(s.attempts, |trades|);
  }

  lemma LosesBetween(attempts: seq<(TradeEvent, bool)>, n: nat)
    requires |attempts| == n > K.QUEUE_CAPACITY + 1
    requires attempts[0].1 && !attempts[K.QUEUE_CAPACITY].1 && attempts[K.QUEUE_CAPACITY + 1].1
    ensures !NoInnerDrop(Answers(attempts), n)
  {
    var taken := Answers(attempts);
    assert taken(1) && !taken(K.QUEUE_CAPACITY + 1) && taken(K.QUEUE_CAPACITY + 2);
  }

  lemma ShortRunPasses(ops: seq<Op>, clock: nat -> int, s0: K.Offloader<TradeEvent>,
                       actions: seq<K.Action<TradeEvent>>, s: K.Offloader<TradeEvent>)
    requires Admissible(ops) && SteadyClock(clock) && Timely(ops, clock)
    requires |Run(ops, clock).trades| <= K.QUEUE_CAPACITY + 1
    ensures !Disqualified(s0, actions, s, Run(ops, clock).trades)
  {
    if CleanStop(s0, actions, s, Run(ops, clock).trades) {
      VerdictOnDelivered(ops, clock, s0, actions, s);
      K.EarlyEventsAreAccepted(s0, actions, s);
      NothingBetween(s.attempts);
    }
  }

  lemma NothingBetween(attempts: seq<(TradeEvent, bool)>)
    requires |attempts| <= K.QUEUE_CAPACITY + 1
    requires forall i :: 0 <= i < |attempts| && i < K.QUEUE_CAPACITY ==> attempts[i].1
    ensures NoInnerDrop(Answers(attempts), |attempts|)
  {
  }

  /** The threads can stop in order with a stream delivered that the judge does not pass. */
  ghost predicate Disqualified(s0: K.Offloader<TradeEvent>, actions: seq<K.Action<TradeEvent>>,
                               s: K.Offloader<TradeEvent>, trades: seq<TradeEvent>)
  {
    CleanStop(s0, actions, s, trades) && !Legal(Concat(s.batches))
  }

  /** There are such engines: one buyer and `n` sellers, for every n from 65538 on that ids leave room for. */
  lemma CorrectEngineDisqualified(n: nat, s0: K.Offloader<TradeEvent>)
    returns (ops: seq<Op>, actions: seq<K.Action<TradeEvent>>, s: K.Offloader<TradeEvent>)
    requires K.QUEUE_CAPACITY + 1 < n < TWO_TO_THE_31 - 1 && K.Initial(s0)
    ensures Admissible(ops) && SteadyClock(ALWAYS_ONE) && Timely(ops, ALWAYS_ONE)
    ensures |Run(ops, ALWAYS_ONE).trades| == n && Legal(Run(ops, ALWAYS_ONE).trades)
    ensures Disqualified(s0, actions, s, Run(ops, ALWAYS_ONE).trades)
  {
    ops := Entries(n + 1, n);
    RunsOfEveryLength(n);
    NoFalseDisqualification(ops, ALWAYS_ONE);
    DropsDisqualifyLongRuns(ops, ALWAYS_ONE, s0);
    actions, s :| Disqualified(s0, actions, s, Run(ops, ALWAYS_ONE).trades);
  }

  // ---- The topic ----

  /** The messages on the topic are the batches, record after record as they lie in memory. */
  ghost predicate OnTopic(payloads: seq<seq<Byte>>, batches: seq<seq<TradeEvent>>, bytesOf: real -> seq<Byte>) {
    |payloads| == |batches| && forall i :: 0 <= i < |batches| ==> IsMessage(payloads[i], batches[i], bytesOf)
  }

  predicate IsMessage(payload: seq<Byte>, batch: seq<TradeEvent>, bytesOf: real -> seq<Byte>) {
    W.AllFit(W.ToRecords(batch, bytesOf)) && payload == W.Message(batch, bytesOf)
  }

  /** The judge decodes the batches from the topic. */
  lemma TopicIsDecoded(payloads: seq<seq<Byte>>, batches: seq<seq<TradeEvent>>,
                       bytesOf: real -> seq<Byte>, priceOf: seq<Byte> -> real)
    requires OnTopic(payloads, batches, bytesOf) && W.AllCarried(Concat(batches), bytesOf, priceOf)
    ensures Decoded(payloads, priceOf) == batches
  {
    var messages := Decoded(payloads, priceOf);
    DecodedAre(payloads, priceOf);
    forall i | 0 <= i < |batches|
      ensures W.WholeRecords(payloads[i]) && W.Decode(payloads[i], priceOf) == batches[i]
    {
      assert IsMessage(payloads[i], batches[i], bytesOf);
      forall e | e in batches[i] ensures W.Carried(e, bytesOf, priceOf) { ConcatMember(batches, i, e); }
      W.MessageRoundTrip(batches[i], bytesOf, priceOf);
    }
    assert |messages| == |batches|;
  }

  lemma {:induction false} PublishedMembers(trades: seq<TradeEvent>, accepts: nat -> bool, n: nat)
    requires n <= |trades|
    ensures forall e :: e in Published(trades, accepts, n) ==> e in trades
  {
    if n > 0 {
      PublishedMembers(trades, accepts, n - 1);
    }
  }

  /** Every price submitted survives the eight bytes of its record. */
  ghost predicate FaithfulPrices(ops: seq<Op>, bytesOf: real -> seq<Byte>, priceOf: seq<Byte> -> real) {
    forall o :: Add(o) in ops ==> W.Faithful(o.price, bytesOf, priceOf)
  }

  /** Then every trade fits its record: ids and stamps are 64 bits wide, and match ids stay below 2^31. */
  lemma TradesAreCarried(ops: seq<Op>, clock: nat -> int, bytesOf: real -> seq<Byte>, priceOf: seq<Byte> -> real)
    requires Admissible(ops) && FaithfulPrices(ops, bytesOf, priceOf)
    ensures W.AllCarried(Run(ops, clock).trades, bytesOf, priceOf)
  {
    var trades := Run(ops, clock).trades;
    EveryRunIsGood(ops, clock);
    TradesAtMostAdds(ops, clock);
    AddsAreFew(ops);
    Wire.Pow256Values();
    forall e | e in trades ensures W.Carried(e, bytesOf, priceOf) {
      var k :| 0 <= k < |trades| && trades[k] == e;
      assert GoodTrade(trades[k], k + 1, ops, clock);
      JustifiedIsCarried(e, ops, bytesOf, priceOf);
    }
  }

  lemma JustifiedIsCarried(e: TradeEvent, ops: seq<Op>, bytesOf: real -> seq<Byte>, priceOf: seq<Byte> -> real)
    requires Admissible(ops) && Justified(e, ops) && FaithfulPrices(ops, bytesOf, priceOf)
    requires e.matchId < TWO_TO_THE_31 && e.t2 < TWO_TO_THE_64
    ensures W.Carried(e, bytesOf, priceOf)
  {
    var b, a :| Add(b) in ops && Add(a) in ops && Between(e, b, a);
    OrderIsSane(ops, b);
    OrderIsSane(ops, a);
    Wire.Pow256Values();
  }

  // ---- The verdict ----

  /**
   The scoring worker consumes the topic: over every interleaving of matching thread and offloader it unpacks
   every message, and disqualifies exactly when a trade was dropped between two accepted ones. It never does
   in a run of at most 65537 trades, and counts every trade when there were at most 65536.
   */
  method JudgeDelivered(ghost ops: seq<Op>, ghost clock: nat -> int, ghost s0: K.Offloader<TradeEvent>,
                        ghost actions: seq<K.Action<TradeEvent>>, ghost s: K.Offloader<TradeEvent>,
                        ghost bytesOf: real -> seq<Byte>, payloads: seq<seq<Byte>>, priceOf: seq<Byte> -> real,
                        windowSeconds: real, now: nat -> real, interval: real)
    returns (ended: Ended, total: nat)
    requires Admissible(ops) && SteadyClock(clock) && Timely(ops, clock)
    requires CleanStop(s0, actions, s, Run(ops, clock).trades)
    requires OnTopic(payloads, s.batches, bytesOf) && FaithfulPrices(ops, bytesOf, priceOf)
    requires NeverBack(now)
    ensures ended == Consumed <==> NoInnerDrop(Answers(s.attempts), |Run(ops, clock).trades|)
    ensures ended == Consumed || ended.Disqualification?
    ensures ended == Consumed ==> total == |Concat(s.batches)|
    ensures |Run(ops, clock).trades| <= K.QUEUE_CAPACITY + 1 ==> ended == Consumed
    ensures |Run(ops, clock).trades| <= K.QUEUE_CAPACITY ==> total == |Run(ops, clock).trades|
  {
    DeliveredIsDecoded(ops, clock, s0, actions, s, bytesOf, payloads, priceOf);
    var state := new ContestantState(windowSeconds, now(0));
    var published;
    ended, published := state.ScoreStream(payloads, priceOf, now, interval);
    total := state.totalEvents;
  }

  lemma DeliveredIsDecoded(ops: seq<Op>, clock: nat -> int, s0: K.Offloader<TradeEvent>,
                           actions: seq<K.Action<TradeEvent>>, s: K.Offloader<TradeEvent>,
                           bytesOf: real -> seq<Byte>, payloads: seq<seq<Byte>>, priceOf: seq<Byte> -> real)
    requires Admissible(ops) && SteadyClock(clock) && Timely(ops, clock)
    requires CleanStop(s0, actions, s, Run(ops, clock).trades)
    requires OnTopic(payloads, s.batches, bytesOf) && FaithfulPrices(ops, bytesOf, priceOf)
    ensures Decoded(payloads, priceOf) == s.batches && |payloads| == |s.batches|
    ensures Legal(Concat(s.batches)) <==> NoInnerDrop(Answers(s.attempts), |Run(ops, clock).trades|)
    ensures |Run(ops, clock).trades| <= K.QUEUE_CAPACITY + 1 ==> Legal(Concat(s.batches))
    ensures |Run(ops, clock).trades| <= K.QUEUE_CAPACITY ==> Concat(s.batches) == Run(ops, clock).trades
  {
    var trades := Run(ops, clock).trades;
    VerdictOnDelivered(ops, clock, s0, actions, s);
    TradesAreCarried(ops, clock, bytesOf, priceOf);
    PublishedMembers(trades, Answers(s.attempts), |trades|);
    TopicIsDecoded(payloads, s.batches, bytesOf, priceOf);
    if !Legal(Concat(s.batches)) {
      assert Disqualified(s0, actions, s, trades);
      DropsDisqualifyLongRuns(ops, clock, s0);
    }
  }

  /** A price that came in eight bytes is written to a record and read back as the same price. */
  ghost predicate PricesSurvive(bytesOf: real -> seq<Byte>, priceOf: seq<Byte> -> real) {
    forall b: seq<Byte> :: |b| == 8 ==> W.Faithful(priceOf(b), bytesOf, priceOf)
  }

  lemma SentPricesSurvive(received: seq<Order>, sent: nat -> seq<BotFleet.BotOrder>,
                          bytesOf: real -> seq<Byte>, priceOf: seq<Byte> -> real)
    requires PricesSurvive(bytesOf, priceOf)
    requires forall o :: o in received ==> I.SentBySome(o, sent, priceOf)
    ensures FaithfulPrices(I.Ops(received), bytesOf, priceOf)
  {
    forall o | Add(o) in I.Ops(received) ensures W.Faithful(o.price, bytesOf, priceOf) {
      var i :| 0 <= i < |received| && I.Ops(received)[i] == Add(o);
      assert received[i] in received && I.SentBySome(o, sent, priceOf);
    }
  }

  /**
   From the bytes the bots send to the verdict on the bytes of the topic: gateway thread, ingress ring, engine,
   offloader and scoring worker, with every interleaving of the threads at either ring. The contestant is
   disqualified exactly when a trade was dropped between two accepted ones; never when the engine has taken at
   most 65537 orders, and then all its trades are counted when it has taken at most 65536.
   */
  method BytesToVerdict(ghost arrivals: seq<I.Read>, ghost sent: nat -> seq<BotFleet.BotOrder>,
                        ghost hasKey: seq<Byte> -> bool, ghost t1: nat -> int, ghost gateway: Q.Pid,
                        ghost r0: Q.Ring<Order>, ghost steps: seq<Q.Action<Order>>, ghost r: Q.Ring<Order>,
                        ghost clock: nat -> int, ghost s0: K.Offloader<TradeEvent>,
                        ghost actions: seq<K.Action<TradeEvent>>, ghost s: K.Offloader<TradeEvent>,
                        ghost bytesOf: real -> seq<Byte>, payloads: seq<seq<Byte>>, priceOf: seq<Byte> -> real,
                        windowSeconds: real, now: nat -> real, interval: real)
    returns (ended: Ended, total: nat)
    requires I.Ingested(arrivals, sent, hasKey, priceOf, t1, gateway, r0, steps, r)
    requires SteadyClock(clock) && Timely(I.Ops(r.received), clock)
    requires CleanStop(s0, actions, s, Run(I.Ops(r.received), clock).trades)
    requires OnTopic(payloads, s.batches, bytesOf) && PricesSurvive(bytesOf, priceOf)
    requires NeverBack(now)
    ensures ended == Consumed || ended.Disqualification?
    ensures ended == Consumed <==> NoInnerDrop(Answers(s.attempts), |Run(I.Ops(r.received), clock).trades|)
    ensures |r.received| <= K.QUEUE_CAPACITY + 1 ==> ended == Consumed
    ensures |r.received| <= K.QUEUE_CAPACITY ==> total == |Run(I.Ops(r.received), clock).trades|
  {
    ghost var ops := I.Ops(r.received);
    I.BytesToBook(arrivals, sent, hasKey, priceOf, t1, gateway, r0, steps, r, clock);
    SentPricesSurvive(r.received, sent, bytesOf, priceOf);
    TradesAtMostAdds(ops, clock);
    AddsAtMost(ops);
    ended, total := JudgeDelivered(ops, clock, s0, actions, s, bytesOf, payloads, priceOf,
                                   windowSeconds, now, interval);
  }

  lemma DeliveredIsPublished(s0: K.Offloader<TradeEvent>, actions: seq<K.Action<TradeEvent>>,
                             s: K.Offloader<TradeEvent>, trades: seq<TradeEvent>)
    requires CleanStop(s0, actions, s, trades)
    ensures Concat(s.batches) == Published(trades, Answers(s.attempts), |trades|)
    ensures s.dropped == 0 ==> Concat(s.batches) == trades
  {
    K.StopDrains(s0, actions, s);
    AcceptedIsPublished(s.attempts, trades, |trades|);
    assert s.attempts[..|trades|] == s.attempts && trades[..|trades|] == trades;
    if s.dropped == 0 {
      NoneRefused(s.attempts, trades, |trades|);
    }
  }

  lemma {:induction false} NoneRefused(attempts: seq<(TradeEvent, bool)>, trades: seq<TradeEvent>, n: nat)
    requires Offers(attempts, trades) && n <= |trades| && K.Refused(attempts[..n]) == 0
    ensures K.Accepted(attempts[..n]) == trades[..n]
  {
    if n > 0 {
      assert attempts[..n] == attempts[..n - 1] + [attempts[n - 1]];
      K.AcceptedAppend(attempts[..n - 1], attempts[n - 1]);
      NoneRefused(attempts, trades, n - 1);
      assert trades[..n] == trades[..n - 1] + [trades[n - 1]];
    }
  }
}
