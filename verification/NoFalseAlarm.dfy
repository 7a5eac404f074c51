/**
 The engine against its judge: which runs of the exchange the scoring worker accepts. The engine keeps every
 structural and priority rule by itself, so only timestamps, prices and dropped events can disqualify it.
 */
module NoFalseAlarm {
  import opened Orders
  import opened FlatBook
  import opened TakerView
  import opened EngineRuns
  import opened Scoring

  /** The system clock never runs backwards and fits its 64-bit field. */
  ghost predicate SteadyClock(clock: nat -> int) {
    && (forall i: nat, j: nat :: i <= j ==> clock(i) <= clock(j))
    && (forall i: nat :: 0 <= clock(i) < TWO_TO_THE_64)
  }

  lemma PairIsPlausible(e: TradeEvent, ops: seq<Op>)
    requires Admissible(ops) && Justified(e, ops)
    ensures Plausible(e) <==> Stamped(e)
  {
    var b, a :| Add(b) in ops && Add(a) in ops && Between(e, b, a);
    OrderIsSane(ops, b);
    OrderIsSane(ops, a);
    if b.id == a.id {
      SameIdSameOrder(ops, b, a);
    }
  }

  lemma OrderIsSane(ops: seq<Op>, o: Order)
    requires Admissible(ops) && Add(o) in ops
    ensures Sane(o)
  {
    var i :| 0 <= i < |ops| && ops[i] == Add(o);
    assert ops[i].Add?;
  }

  /** No trade is stamped earlier than the one before it. */
  predicate Forward(trades: seq<TradeEvent>) {
    forall k :: 0 < k < |trades| ==> trades[k - 1].t2 <= trades[k].t2
  }

  /**
   Of everything the validator checks, only the stamps, the price and a clock that steps back can fail on a
   complete engine stream, whatever the clock does.
   */
  lemma LegalExactlyWhenStamped(ops: seq<Op>, clock: nat -> int)
    requires Admissible(ops)
    ensures var trades := Run(ops, clock).trades;
            Legal(trades) <==> (forall k :: 0 <= k < |trades| ==> Stamped(trades[k])) && Forward(trades)
  {
    EveryRunIsGood(ops, clock);
    var trades := Run(ops, clock).trades;
    forall k | 0 <= k < |trades| ensures Plausible(trades[k]) <==> Stamped(trades[k]) {
      PairIsPlausible(trades[k], ops);
    }
    forall k | 0 < k < |trades| ensures MayFollow(trades[k - 1], trades[k]) <==> trades[k - 1].t2 <= trades[k].t2 {
      assert Follows(trades[k - 1], trades[k]);
      assert GoodTrade(trades[k - 1], k, ops, clock) && GoodTrade(trades[k], k + 1, ops, clock);
    }
  }

  /** A steady clock stamps the trades in order. */
  lemma SteadyIsForward(ops: seq<Op>, clock: nat -> int)
    requires Admissible(ops) && SteadyClock(clock)
    ensures Forward(Run(ops, clock).trades)
  {
    EveryRunIsGood(ops, clock);
    var trades := Run(ops, clock).trades;
    forall k | 0 < k < |trades| ensures trades[k - 1].t2 <= trades[k].t2 {
      assert GoodTrade(trades[k - 1], k, ops, clock) && GoodTrade(trades[k], k + 1, ops, clock);
      assert clock(k) <= clock(k + 1);
    }
  }

  // ---- When the submissions are in order, so are the stamps ----

  /** Positive, ordered stamps and a positive price; the gateway's stamp is no later than the next clock reading. */
  ghost predicate Timely(ops: seq<Op>, clock: nat -> int) {
    forall i :: 0 <= i < |ops| && ops[i].Add? ==>
      && WellStamped(ops[i].order)
      && ops[i].order.t1 <= clock(|Run(ops[..i], clock).trades| + 1)
  }

  predicate WellStamped(o: Order) {
    0 < o.t0 <= o.t1 < TWO_TO_THE_64 && o.price > 0.0
  }

  lemma TimelyPrefix(ops: seq<Op>, clock: nat -> int)
    requires ops != [] && Timely(ops, clock)
    ensures Timely(ops[..|ops| - 1], clock)
  {
    var before := ops[..|ops| - 1];
    forall i | 0 <= i < |before| ensures before[i] == ops[i] && before[..i] == ops[..i] {}
  }

  lemma {:induction false} TradesFollowIngest(ops: seq<Op>, clock: nat -> int)
    requires Admissible(ops) && SteadyClock(clock) && Timely(ops, clock)
    ensures forall e :: e in Run(ops, clock).trades ==> e.t1 <= e.t2
  {
    if ops != [] {
      var before, op := ops[..|ops| - 1], ops[|ops| - 1];
      assert ops == before + [op];
      PrefixAdmissible(before, op);
      TimelyPrefix(ops, clock);
      TradesFollowIngest(before, clock);
      match op {
        case Add(o) =>
          assert ops[|ops| - 1].Add?;
          NewTradesFollowIngest(Run(before, clock), before, o, clock);
        case Cancel(_) =>
      }
    }
  }

  lemma NewTradesFollowIngest(x: Exchange, before: seq<Op>, o: Order, clock: nat -> int)
    requires x == Run(before, clock) && Admissible(before + [Add(o)]) && SteadyClock(clock)
    requires WellStamped(o) && o.t1 <= clock(|x.trades| + 1)
    ensures forall e :: e in FlatBook.Submit(x.book, o, |x.trades|, clock).trades ==> e.t1 <= e.t2
  {
    var n, opp := |x.trades|, x.book.Of(!o.isBuy);
    PrefixAdmissible(before, Add(o));
    EveryRunIsGood(before, clock);
    var sw := NewcomerSweeps(x, before, o, clock);
    forall k | 0 <= k < |sw.trades| ensures sw.trades[k].t1 <= sw.trades[k].t2 {
      assert MakerAt(o, opp, sw, n, clock, k);
      assert clock(n + 1) <= clock(n + 1 + k);
    }
  }

  lemma TradeIsStamped(e: TradeEvent, ops: seq<Op>, clock: nat -> int)
    requires Justified(e, ops) && Timely(ops, clock) && e.t1 <= e.t2
    ensures Stamped(e)
  {
    var b, a :| Add(b) in ops && Add(a) in ops && Between(e, b, a);
    var i :| 0 <= i < |ops| && ops[i] == Add(b);
    var j :| 0 <= j < |ops| && ops[j] == Add(a);
    assert ops[i].Add? && ops[j].Add?;
    assert WellStamped(b) && WellStamped(a);
  }

  /** No false disqualification: over every run, the complete stream of a well-fed engine is legal. */
  lemma NoFalseDisqualification(ops: seq<Op>, clock: nat -> int)
    requires Admissible(ops) && SteadyClock(clock) && Timely(ops, clock)
    ensures Legal(Run(ops, clock).trades)
  {
    EveryRunIsGood(ops, clock);
    LegalExactlyWhenStamped(ops, clock);
    SteadyIsForward(ops, clock);
    TradesFollowIngest(ops, clock);
    var trades := Run(ops, clock).trades;
    forall k | 0 <= k < |trades| ensures Stamped(trades[k]) {
      assert trades[k] in trades;
      TradeIsStamped(trades[k], ops, clock);
    }
  }

  // ---- Dropped events ----

  /** The first `n` trades the offloader took. */
  function Published(trades: seq<TradeEvent>, accepts: nat -> bool, n: nat): seq<TradeEvent>
    requires n <= |trades|
  {
    if n == 0 then []
    else if accepts(n) then Published(trades, accepts, n - 1) + [trades[n - 1]]
    else Published(trades, accepts, n - 1)
  }

  /** No event is dropped between two that are taken. */
  ghost predicate NoInnerDrop(accepts: nat -> bool, n: nat) {
    forall i, j, k :: 0 < i < j < k <= n && accepts(i) && accepts(k) ==> accepts(j)
  }

  lemma {:induction false} LastPublished(trades: seq<TradeEvent>, accepts: nat -> bool, n: nat) returns (m: nat)
    requires n <= |trades| && (forall k :: 0 <= k < |trades| ==> trades[k].matchId == k + 1)
    ensures m <= n && forall i :: m < i <= n ==> !accepts(i)
    ensures Published(trades, accepts, n) == [] <==> m == 0
    ensures m > 0 ==> accepts(m) && var p := Published(trades, accepts, n); p[|p| - 1] == trades[m - 1]
  {
    if n == 0 {
      m := 0;
    } else if accepts(n) {
      m := n;
    } else {
      m := LastPublished(trades, accepts, n - 1);
    }
  }

  /**
   What the judge sees of a legal run when the offloader drops events: it still passes exactly when the drops
   leave one contiguous stretch, because the match ids skip exactly where an event was dropped.
   */
  lemma {:induction false} PassesExactlyWithoutInnerDrop(trades: seq<TradeEvent>, accepts: nat -> bool, n: nat)
    requires Legal(trades) && n <= |trades| && (forall k :: 0 <= k < |trades| ==> trades[k].matchId == k + 1)
    ensures Legal(Published(trades, accepts, n)) <==> NoInnerDrop(accepts, n)
  {
    if n > 0 {
      PassesExactlyWithoutInnerDrop(trades, accepts, n - 1);
      if accepts(n) {
        var m := LastPublished(trades, accepts, n - 1);
        LegalExtendsEither(Published(trades, accepts, n - 1), trades[n - 1]);
        InnerDropStep(accepts, n, m);
        assert m == n - 1 && m > 0 ==> MayFollow(trades[m - 1], trades[n - 1]);
      } else {
        assert NoInnerDrop(accepts, n) <==> NoInnerDrop(accepts, n - 1);
      }
    }
  }

  lemma LegalExtendsEither(stream: seq<TradeEvent>, e: TradeEvent)
    ensures Legal(stream + [e]) <==>
            Legal(stream) && Plausible(e) && (stream != [] ==> MayFollow(stream[|stream| - 1], e))
  {
    var longer := stream + [e];
    if Legal(longer) {
      LegalPrefix(longer, |stream|);
      assert longer[..|stream|] == stream;
    }
    if Legal(stream) {
      LegalExtends(stream, e);
    }
  }

  lemma InnerDropStep(accepts: nat -> bool, n: nat, m: nat)
    requires m < n && accepts(n) && (m > 0 ==> accepts(m)) && forall i :: m < i < n ==> !accepts(i)
    ensures NoInnerDrop(accepts, n) <==> NoInnerDrop(accepts, n - 1) && (m == 0 || m == n - 1)
  {
    assert m + 1 < n ==> !accepts(m + 1);
  }

  /** Every event but one is taken. */
  function AllBut(lost: nat): nat -> bool {
    k => k != lost
  }

  /** A single event lost between two that arrive disqualifies a well-fed engine. */
  lemma OneInnerDropDisqualifies(ops: seq<Op>, clock: nat -> int, lost: nat)
    requires Admissible(ops) && SteadyClock(clock) && Timely(ops, clock)
    requires 1 < lost < |Run(ops, clock).trades|
    ensures var trades := Run(ops, clock).trades; !Legal(Published(trades, AllBut(lost), |trades|))
  {
    var trades := Run(ops, clock).trades;
    EveryRunIsGood(ops, clock);
    NoFalseDisqualification(ops, clock);
    PassesExactlyWithoutInnerDrop(trades, AllBut(lost), |trades|);
    assert AllBut(lost)(1) && !AllBut(lost)(lost) && AllBut(lost)(|trades|);
  }

  // ---- Well-fed runs of any length: sellers, one after the other, meet one buyer ----

  const ALWAYS_ONE: nat -> int := _ => 1

  function Buyer(quantity: int): Order {
    Order(1, quantity, true, 1.0, 1, 1, 1)
  }

  function Seller(id: int): Order {
    Order(id, 1, false, 1.0, 1, 1, id)
  }

  lemma SellerMeetsBuyer(quantity: int, id: int, n: nat)
    requires quantity > 1 && id > 1
    ensures var out := Submit(Flat([Buyer(quantity)], []), Seller(id), n, ALWAYS_ONE);
            out.book == Flat([Buyer(quantity - 1)], []) && |out.trades| == 1
  {
    var after := Flat([Buyer(quantity - 1)], []);
    assert Insert([], Seller(id)) == [Seller(id)];
    assert TradeHeads(Flat([Buyer(quantity)], [Seller(id)])) == after;
    assert Cross(after, n + 1, ALWAYS_ONE) == Outcome(after, []);
  }

  /** A buyer of `size` units and the first `n` sellers. */
  function Entries(size: int, n: nat): seq<Op> {
    if n == 0 then [Add(Buyer(size))] else Entries(size, n - 1) + [Add(Seller(n + 1))]
  }

  lemma {:induction false} EntriesAre(size: int, n: nat)
    ensures |Entries(size, n)| == n + 1 && Entries(size, n)[0] == Add(Buyer(size))
    ensures forall i :: 0 < i <= n ==> Entries(size, n)[i] == Add(Seller(i + 1))
  {
    if n > 0 {
      EntriesAre(size, n - 1);
    }
  }

  lemma {:induction false} SellersRun(size: int, n: nat)
    requires n < size
    ensures Run(Entries(size, n), ALWAYS_ONE).book == Flat([Buyer(size - n)], [])
    ensures |Run(Entries(size, n), ALWAYS_ONE).trades| == n
  {
    if n == 0 {
      assert Entries(size, 0)[..0] == [];
      assert Run([], ALWAYS_ONE) == Exchange(Flat([], []), []);
      assert Insert([], Buyer(size)) == [Buyer(size)];
    } else {
      SellersRun(size, n - 1);
      EntriesAre(size, n);
      assert Entries(size, n)[..n] == Entries(size, n - 1);
      SellerMeetsBuyer(size - (n - 1), n + 1, n - 1);
    }
  }

  predicate WellFed(o: Order, index: nat) {
    Sane(o) && WellStamped(o) && o.t1 == 1 && o.id == o.seqNo == index + 1
  }

  /** For every length below 2^31 - 1 there is a well-fed run with that many trades. */
  lemma RunsOfEveryLength(n: nat)
    requires n + 1 < TWO_TO_THE_31
    ensures var ops := Entries(n + 1, n);
            && Admissible(ops) && SteadyClock(ALWAYS_ONE) && Timely(ops, ALWAYS_ONE)
            && |Run(ops, ALWAYS_ONE).trades| == n
  {
    SellersRun(n + 1, n);
    EntriesAreWellFed(n);
    WellFedIsFair(Entries(n + 1, n));
  }

  lemma EntriesAreWellFed(n: nat)
    requires n + 1 < TWO_TO_THE_31
    ensures var ops := Entries(n + 1, n);
            forall i :: 0 <= i < |ops| ==> ops[i].Add? && WellFed(ops[i].order, i)
  {
    var ops := Entries(n + 1, n);
    EntriesAre(n + 1, n);
    forall i | 0 <= i < |ops| ensures ops[i].Add? && WellFed(ops[i].order, i) {
      assert i > 0 ==> ops[i] == Add(Seller(i + 1));
    }
  }

  lemma WellFedIsFair(ops: seq<Op>)
    requires forall i :: 0 <= i < |ops| ==> ops[i].Add? && WellFed(ops[i].order, i)
    ensures Admissible(ops) && SteadyClock(ALWAYS_ONE) && Timely(ops, ALWAYS_ONE)
  {
  }
}
