/**
 Whole runs of the exchange: any interleaving of submissions and cancellations. What every reachable book
 satisfies, where every unit of quantity goes, and what consecutive trades look like.
 */
module EngineRuns {
  import opened Orders
  import opened FlatBook
  import opened TakerView

  datatype Op = Add(order: Order) | Cancel(id: int)

  /** The book and every trade so far; the match id in use is the number of trades. */
  datatype Exchange = Exchange(book: Flat, trades: seq<TradeEvent>)

  ghost function Step(x: Exchange, op: Op, clock: nat -> int): Exchange {
    match op
    case Add(o) =>
      var out := Submit(x.book, o, |x.trades|, clock);
      Exchange(out.book, x.trades + out.trades)
    case Cancel(id) => Exchange(Withdraw(x.book, id), x.trades)
  }

  ghost function Run(ops: seq<Op>, clock: nat -> int): Exchange {
    if ops == [] then Exchange(Flat([], []), [])
    else Step(Run(ops[..|ops| - 1], clock), ops[|ops| - 1], clock)
  }

  /** Orders fit the engine's fields, and ids and arrival stamps are not reused. */
  ghost predicate Admissible(ops: seq<Op>) {
    && (forall i :: 0 <= i < |ops| && ops[i].Add? ==> Sane(ops[i].order))
    && (forall i, j :: 0 <= i < j < |ops| && ops[i].Add? && ops[j].Add? ==>
          ops[i].order.seqNo < ops[j].order.seqNo && ops[i].order.id != ops[j].order.id)
  }

  // ---- One side of a reachable book ----

  ghost predicate GoodSide(s: seq<Order>, isBuy: bool) {
    Sorted(s, isBuy) && OneSided(s, isBuy) && DistinctIds(s) && AllSane(s)
  }

  /** `x` is `y` after some of it has traded. */
  predicate PartOf(x: Order, y: Order) {
    x == y.(quantity := x.quantity) && 0 < x.quantity <= y.quantity
  }

  ghost predicate Parts(s: seq<Order>, whole: seq<Order>) {
    forall x :: x in s ==> exists y :: y in whole && PartOf(x, y)
  }

  /** What is left of `s` behind the first `k`, after `q` units of the next order: each is part of an order of `s`. */
  lemma CutAt(s: seq<Order>, k: nat, q: int) returns (d: nat)
    requires k < |s| && AllSane(s) && 0 < q <= s[k].quantity
    ensures |Cut(s[k..], q)| == |s| - k - d
    ensures forall i :: 0 <= i < |s| - k - d ==>
              PartOf(Cut(s[k..], q)[i], s[k + d + i]) && Sane(Cut(s[k..], q)[i])
  {
    var t, r := s[k..], Cut(s[k..], q);
    d := if t[0].quantity == q then 1 else 0;
    forall i | 0 <= i < |r| ensures PartOf(r[i], s[k + d + i]) && Sane(r[i]) {
      assert s[k + d + i] in s;
    }
  }

  lemma CutKeeps(s: seq<Order>, k: nat, q: int, isBuy: bool)
    requires k < |s| && GoodSide(s, isBuy) && 0 < q <= s[k].quantity
    ensures GoodSide(Cut(s[k..], q), isBuy) && Parts(Cut(s[k..], q), s)
  {
    var r := Cut(s[k..], q);
    var d := CutAt(s, k, q);
    forall i, j | 0 <= i < j < |r| ensures Before(r[i], r[j], isBuy) && r[i].id != r[j].id {
      assert Before(s[k + d + i], s[k + d + j], isBuy) && s[k + d + i].id != s[k + d + j].id;
    }
    forall x | x in r ensures x.isBuy == isBuy && Sane(x) && exists y :: y in s && PartOf(x, y) {
      var i :| 0 <= i < |r| && r[i] == x;
      assert s[k + d + i] in s && PartOf(x, s[k + d + i]);
    }
  }

  lemma InsertKeeps(s: seq<Order>, o: Order)
    requires GoodSide(s, o.isBuy) && Sane(o)
    requires forall x :: x in s ==> x.seqNo < o.seqNo && x.id != o.id
    ensures GoodSide(Insert(s, o), o.isBuy)
  {
    var k := InsertAt(s, o);
    InsertMembers(s, o);
    var r := Insert(s, o);
    forall i | 0 <= i < |r| ensures r[i] == if i < k then s[i] else if i == k then o else s[i - 1] {}
    forall i, j | 0 <= i < j < |r| ensures r[i].id != r[j].id {
      assert i != k ==> r[i] in s;
      assert j != k ==> r[j] in s;
    }
  }

  ghost predicate GoodBook(f: Flat) {
    && GoodSide(f.bids, true) && GoodSide(f.asks, false)
    && (forall b, a :: b in f.bids && a in f.asks ==> b.id != a.id && b.price < a.price)
  }

  /** A submission leaves a good book good: uncrossed, sorted, sided, with every id resting once. */
  lemma SubmitKeepsBook(f: Flat, o: Order, n: nat, clock: nat -> int)
    requires GoodBook(f) && Newest(f, o) && Sane(o)
    ensures var g := Submit(f, o, n, clock).book;
            && GoodBook(g)
            && Parts(g.Of(!o.isBuy), f.Of(!o.isBuy))
            && Parts(g.Of(o.isBuy), f.Of(o.isBuy) + [o])
  {
    var own, opp := f.Of(o.isBuy), f.Of(!o.isBuy);
    var sw := Sweep(o, opp, n, clock);
    SubmitIsSweep(f, o, n, clock);
    SweepFillsSupply(o, opp, n, clock);
    SweepInPriority(o, opp, n, clock);
    OppositeAfter(o, opp, sw, n, clock);
    OwnAfter(own, o, sw);
    SidesStayApart(f, o, sw);
  }

  lemma SidesStayApart(f: Flat, o: Order, sw: Sweeping)
    requires GoodBook(f) && Newest(f, o)
    requires Parts(sw.opposite, f.Of(!o.isBuy)) && Sorted(sw.opposite, !o.isBuy)
    requires sw.rest != [] ==> PartOf(sw.rest[0], o) && (sw.opposite == [] || !Crosses(o, sw.opposite[0]))
    ensures forall x, y :: (x in f.Of(o.isBuy) || (sw.rest != [] && x == sw.rest[0])) && y in sw.opposite ==>
              x.id != y.id && if o.isBuy then x.price < y.price else y.price < x.price
  {
    forall x, y | (x in f.Of(o.isBuy) || (sw.rest != [] && x == sw.rest[0])) && y in sw.opposite
      ensures x.id != y.id && if o.isBuy then x.price < y.price else y.price < x.price
    {
      var y0 :| y0 in f.Of(!o.isBuy) && PartOf(y, y0);
      if x !in f.Of(o.isBuy) {
        StaysUncrossed(o, sw, y);
      }
    }
  }

  lemma OppositeAfter(o: Order, opp: seq<Order>, sw: Sweeping, n: nat, clock: nat -> int)
    requires GoodSide(opp, !o.isBuy) && InPriority(o, opp, sw, n, clock)
    ensures GoodSide(sw.opposite, !o.isBuy) && Parts(sw.opposite, opp)
  {
    var k := |sw.trades|;
    if k > 0 {
      assert MakerAt(o, opp, sw, n, clock, k - 1);
      CutKeeps(opp, k - 1, sw.trades[k - 1].qty, !o.isBuy);
    } else {
      forall x | x in opp ensures exists y :: y in opp && PartOf(x, y) { assert PartOf(x, x); }
    }
  }

  lemma OwnAfter(own: seq<Order>, o: Order, sw: Sweeping)
    requires GoodSide(own, o.isBuy) && Sane(o)
    requires forall x :: x in own ==> x.seqNo < o.seqNo && x.id != o.id
    requires sw.rest != [] ==> PartOf(sw.rest[0], o)
    ensures var own' := if sw.rest == [] then own else Insert(own, sw.rest[0]);
            GoodSide(own', o.isBuy) && Parts(own', own + [o])
            && forall x :: x in own' ==> x in own || (sw.rest != [] && x == sw.rest[0])
  {
    var own' := if sw.rest == [] then own else Insert(own, sw.rest[0]);
    if sw.rest != [] {
      InsertKeeps(own, sw.rest[0]);
      InsertMembers(own, sw.rest[0]);
    }
    forall x | x in own' ensures exists y :: y in own + [o] && PartOf(x, y) {
      var y := if x in own then x else o;
      assert y in own + [o] && PartOf(x, y);
    }
  }

  lemma StaysUncrossed(o: Order, sw: Sweeping, y: Order)
    requires sw.rest != [] && y in sw.opposite && Sorted(sw.opposite, !o.isBuy)
    requires sw.opposite == [] || !Crosses(o, sw.opposite[0])
    ensures !Crosses(o, y)
  {
    NoSupply(o, sw.opposite);
  }

  // ---- Where every unit of quantity goes ----

  /** What rests under an id. */
  function Held(s: seq<Order>, id: int): int {
    if s == [] then 0 else (if s[0].id == id then s[0].quantity else 0) + Held(s[1..], id)
  }

  function HeldIn(f: Flat, id: int): int {
    Held(f.bids, id) + Held(f.asks, id)
  }

  /** What has traded under an id, on either side. */
  function Moved(trades: seq<TradeEvent>, id: int): nat {
    if trades == [] then 0 else
      (if trades[0].buyId == id then trades[0].qty else 0)
      + (if trades[0].sellId == id then trades[0].qty else 0)
      + Moved(trades[1..], id)
  }

  function SubmittedUnder(ops: seq<Op>, id: int): int {
    if ops == [] then 0 else
      SubmittedUnder(ops[..|ops| - 1], id)
      + match ops[|ops| - 1]
        case Add(o) => if o.id == id then o.quantity else 0
        case Cancel(_) => 0
  }

  /** What cancellations took off the book under an id. */
  ghost function CancelledUnder(ops: seq<Op>, clock: nat -> int, id: int): int {
    if ops == [] then 0 else
      var before := ops[..|ops| - 1];
      CancelledUnder(before, clock, id)
      + if ops[|ops| - 1] == Cancel(id) then HeldIn(Run(before, clock).book, id) else 0
  }

  lemma {:induction false} HeldInsert(s: seq<Order>, o: Order, id: int)
    ensures Held(Insert(s, o), id) == Held(s, id) + if o.id == id then o.quantity else 0
  {
    if s != [] && !Before(o, s[0], o.isBuy) {
      HeldInsert(s[1..], o, id);
    }
  }

  lemma {:induction false} HeldWithout(s: seq<Order>, gone: int, id: int)
    ensures Held(Without(s, gone), id) == if id == gone then 0 else Held(s, id)
  {
    if s != [] {
      HeldWithout(s[1..], gone, id);
    }
  }

  lemma {:induction false} MovedAppend(xs: seq<TradeEvent>, ys: seq<TradeEvent>, id: int)
    ensures Moved(xs + ys, id) == Moved(xs, id) + Moved(ys, id)
  {
    if xs == [] {
      assert xs + ys == ys;
    } else {
      assert (xs + ys)[1..] == xs[1..] + ys;
      MovedAppend(xs[1..], ys, id);
    }
  }

  lemma CutIsSane(s: seq<Order>, q: int)
    requires s != [] && AllSane(s) && 0 < q <= s[0].quantity
    ensures AllSane(Cut(s, q))
    ensures forall id :: Held(Cut(s, q), id) == Held(s, id) - if s[0].id == id then q else 0
  {
    assert s[0] in s;
  }

  /** Crossing moves quantity from the book to the trades, under every id, and creates none. */
  lemma {:induction false} CrossConserves(f: Flat, n: nat, clock: nat -> int, id: int)
    requires AllSane(f.bids) && AllSane(f.asks)
    ensures HeldIn(f, id) == HeldIn(Cross(f, n, clock).book, id) + Moved(Cross(f, n, clock).trades, id)
    ensures AllSane(Cross(f, n, clock).book.bids) && AllSane(Cross(f, n, clock).book.asks)
    decreases |f.bids| + |f.asks|
  {
    if Meets(f) {
      assert f.bids[0] in f.bids && f.asks[0] in f.asks;
      var q := Min(f.bids[0].quantity, f.asks[0].quantity);
      CutIsSane(f.bids, q);
      CutIsSane(f.asks, q);
      CrossConserves(TradeHeads(f), n + 1, clock, id);
      assert Cross(f, n, clock).trades[1..] == Cross(TradeHeads(f), n + 1, clock).trades;
    }
  }

  lemma {:induction false} RunIsSane(ops: seq<Op>, clock: nat -> int)
    requires Admissible(ops)
    ensures AllSane(Run(ops, clock).book.bids) && AllSane(Run(ops, clock).book.asks)
  {
    if ops != [] {
      var before := ops[..|ops| - 1];
      var x := Run(before, clock);
      RunIsSane(before, clock);
      match ops[|ops| - 1] {
        case Add(o) =>
          InsertMembers(x.book.Of(o.isBuy), o);
          CrossConserves(x.book.With(o.isBuy, Insert(x.book.Of(o.isBuy), o)), |x.trades|, clock, 0);
        case Cancel(id) =>
          WithoutMembers(x.book.bids, id);
          WithoutMembers(x.book.asks, id);
      }
    }
  }

  /** Submitted == traded + resting + cancelled, under every id, after every run. */
  lemma {:induction false} QuantityIsConserved(ops: seq<Op>, clock: nat -> int, id: int)
    requires Admissible(ops)
    ensures var x := Run(ops, clock);
            SubmittedUnder(ops, id) == Moved(x.trades, id) + HeldIn(x.book, id) + CancelledUnder(ops, clock, id)
  {
    if ops != [] {
      var before := ops[..|ops| - 1];
      var x := Run(before, clock);
      QuantityIsConserved(before, clock, id);
      RunIsSane(before, clock);
      match ops[|ops| - 1] {
        case Add(o) =>
          var g := x.book.With(o.isBuy, Insert(x.book.Of(o.isBuy), o));
          InsertMembers(x.book.Of(o.isBuy), o);
          HeldInsert(x.book.Of(o.isBuy), o, id);
          CrossConserves(g, |x.trades|, clock, id);
          MovedAppend(x.trades, Cross(g, |x.trades|, clock).trades, id);
        case Cancel(gone) =>
          HeldWithout(x.book.bids, gone, id);
          HeldWithout(x.book.asks, gone, id);
      }
    }
  }

  // ---- No order trades more than it asked for ----

  lemma {:induction false} HeldIsNotNegative(s: seq<Order>, id: int)
    requires AllSane(s)
    ensures Held(s, id) >= 0
  {
    if s != [] {
      assert s[0] in s;
      HeldIsNotNegative(s[1..], id);
    }
  }

  lemma {:induction false} CancelledIsNotNegative(ops: seq<Op>, clock: nat -> int, id: int)
    requires Admissible(ops)
    ensures CancelledUnder(ops, clock, id) >= 0
  {
    if ops != [] {
      var before := ops[..|ops| - 1];
      CancelledIsNotNegative(before, clock, id);
      RunIsSane(before, clock);
      HeldIsNotNegative(Run(before, clock).book.bids, id);
      HeldIsNotNegative(Run(before, clock).book.asks, id);
    }
  }

  /** What was submitted under an id is the one order of that id. */
  lemma {:induction false} SubmittedOnce(ops: seq<Op>, o: Order)
    requires Admissible(ops)
    ensures Add(o) in ops ==> SubmittedUnder(ops, o.id) == o.quantity
    ensures (forall x :: Add(x) in ops ==> x.id != o.id) ==> SubmittedUnder(ops, o.id) == 0
  {
    if ops != [] {
      var before, op := ops[..|ops| - 1], ops[|ops| - 1];
      assert ops == before + [op];
      PrefixAdmissible(before, op);
      SubmittedOnce(before, o);
      assert forall x :: Add(x) in before ==> Add(x) in ops;
      if op.Add? && op.order.id == o.id && Add(o) in ops {
        SameIdSameOrder(ops, op.order, o);
        forall x | Add(x) in before ensures x.id != o.id { LastIsNew(before, op.order, x); }
      }
    }
  }

  /** No overfill: no more trades under an id than was submitted under it, and no order trades more than its size. */
  lemma NoOverfill(ops: seq<Op>, clock: nat -> int, id: int)
    requires Admissible(ops)
    ensures Moved(Run(ops, clock).trades, id) <= SubmittedUnder(ops, id)
    ensures forall o :: Add(o) in ops ==> Moved(Run(ops, clock).trades, o.id) <= o.quantity
  {
    TradedIsSubmitted(ops, clock, id);
    forall o | Add(o) in ops ensures Moved(Run(ops, clock).trades, o.id) <= o.quantity {
      TradedIsSubmitted(ops, clock, o.id);
      SubmittedOnce(ops, o);
    }
  }

  lemma TradedIsSubmitted(ops: seq<Op>, clock: nat -> int, id: int)
    requires Admissible(ops)
    ensures Moved(Run(ops, clock).trades, id) <= SubmittedUnder(ops, id)
  {
    var f := Run(ops, clock).book;
    QuantityIsConserved(ops, clock, id);
    CancelledIsNotNegative(ops, clock, id);
    RunIsSane(ops, clock);
    HeldIsNotNegative(f.bids, id);
    HeldIsNotNegative(f.asks, id);
  }

  // ---- How many trades there can be ----

  function Adds(ops: seq<Op>): nat {
    if ops == [] then 0 else Adds(ops[..|ops| - 1]) + if ops[|ops| - 1].Add? then 1 else 0
  }

  function Resting(f: Flat): nat {
    |f.bids| + |f.asks|
  }

  /** How many orders cancellations took off the book. */
  ghost function Cancellations(ops: seq<Op>, clock: nat -> int): int {
    if ops == [] then 0 else
      var before := ops[..|ops| - 1];
      Cancellations(before, clock)
      + match ops[|ops| - 1]
        case Add(_) => 0
        case Cancel(id) =>
          var f := Run(before, clock).book;
          Resting(f) - Resting(Withdraw(f, id))
  }

  /** Every pass of the loop uses up an order: crossing makes at most as many trades as orders it removes. */
  lemma {:induction false} TradesUseUpOrders(f: Flat, n: nat, clock: nat -> int)
    ensures |Cross(f, n, clock).trades| + Resting(Cross(f, n, clock).book) <= Resting(f)
    decreases Resting(f)
  {
    if Meets(f) {
      TradesUseUpOrders(TradeHeads(f), n + 1, clock);
    }
  }

  /** trades + resting + cancelled <= orders added, for any orders whatever. */
  lemma {:induction false} TradesAreBounded(ops: seq<Op>, clock: nat -> int)
    ensures var x := Run(ops, clock);
            |x.trades| + Resting(x.book) + Cancellations(ops, clock) <= Adds(ops)
  {
    if ops != [] {
      var before := ops[..|ops| - 1];
      TradesAreBounded(before, clock);
      match ops[|ops| - 1] {
        case Add(o) =>
          var x := Run(before, clock);
          TradesUseUpOrders(x.book.With(o.isBuy, Insert(x.book.Of(o.isBuy), o)), |x.trades|, clock);
        case Cancel(_) =>
      }
    }
  }

  lemma {:induction false} CancellationsAreNotNegative(ops: seq<Op>, clock: nat -> int)
    ensures Cancellations(ops, clock) >= 0
  {
    if ops != [] {
      var before := ops[..|ops| - 1];
      CancellationsAreNotNegative(before, clock);
      if ops[|ops| - 1].Cancel? {
        WithoutIsShorter(Run(before, clock).book.bids, ops[|ops| - 1].id);
        WithoutIsShorter(Run(before, clock).book.asks, ops[|ops| - 1].id);
      }
    }
  }

  lemma {:induction false} WithoutIsShorter(s: seq<Order>, id: int)
    ensures |Without(s, id)| <= |s|
  {
    if s != [] { WithoutIsShorter(s[1..], id); }
  }

  lemma {:induction false} AddsAtMost(ops: seq<Op>)
    ensures Adds(ops) <= |ops|
  {
    if ops != [] {
      AddsAtMost(ops[..|ops| - 1]);
    }
  }

  lemma TradesAtMostAdds(ops: seq<Op>, clock: nat -> int)
    ensures |Run(ops, clock).trades| <= Adds(ops)
  {
    TradesAreBounded(ops, clock);
    CancellationsAreNotNegative(ops, clock);
  }

  function IdsAdded(ops: seq<Op>): set<int> {
    if ops == [] then {}
    else IdsAdded(ops[..|ops| - 1]) + if ops[|ops| - 1].Add? then {ops[|ops| - 1].order.id} else {}
  }

  lemma {:induction false} IdAdded(ops: seq<Op>, id: int) returns (o: Order)
    requires id in IdsAdded(ops)
    ensures Add(o) in ops && o.id == id
  {
    var before, op := ops[..|ops| - 1], ops[|ops| - 1];
    if id in IdsAdded(before) {
      o := IdAdded(before, id);
    } else {
      o := op.order;
    }
  }

  lemma IdIsFresh(before: seq<Op>, o: Order)
    requires Admissible(before + [Add(o)])
    ensures o.id !in IdsAdded(before)
  {
    if o.id in IdsAdded(before) {
      var x := IdAdded(before, o.id);
      LastIsNew(before, o, x);
    }
  }

  lemma {:induction false} IdsAddedAre(ops: seq<Op>)
    requires Admissible(ops)
    ensures |IdsAdded(ops)| == Adds(ops) && forall id :: id in IdsAdded(ops) ==> 0 < id < TWO_TO_THE_31
  {
    if ops != [] {
      var before, op := ops[..|ops| - 1], ops[|ops| - 1];
      assert ops == before + [op];
      PrefixAdmissible(before, op);
      IdsAddedAre(before);
      if op.Add? {
        IdIsFresh(before, op.order);
      }
    }
  }

  lemma {:induction false} FewBetween(ids: set<int>, n: nat)
    requires forall id :: id in ids ==> 0 < id <= n
    ensures |ids| <= n
  {
    if n == 0 {
      assert forall id :: id !in ids;
    } else {
      FewBetween(ids - {n}, n - 1);
    }
  }

  /** Ids are 31 bits wide and not reused, so fewer than 2^31 orders can be added. */
  lemma AddsAreFew(ops: seq<Op>)
    requires Admissible(ops)
    ensures Adds(ops) < TWO_TO_THE_31
  {
    IdsAddedAre(ops);
    FewBetween(IdsAdded(ops), TWO_TO_THE_31 - 1);
  }

  // ---- What the trades look like ----

  /** A trade of bid `b` with ask `a` at the earlier one's limit, stamped with the later one's times. */
  predicate Between(e: TradeEvent, b: Order, a: Order) {
    && b.isBuy && !a.isBuy && e.buyId == b.id && e.sellId == a.id
    && b.seqNo != a.seqNo && a.price <= e.price <= b.price
    && e.price == (if b.seqNo < a.seqNo then b.price else a.price)
    && e.t0 == AsUint64((if b.seqNo > a.seqNo then b else a).t0)
    && e.t1 == AsUint64((if b.seqNo > a.seqNo then b else a).t1)
    && 0 < e.qty <= b.quantity && e.qty <= a.quantity
  }

  ghost predicate Justified(e: TradeEvent, ops: seq<Op>) {
    exists b, a :: Add(b) in ops && Add(a) in ops && Between(e, b, a)
  }

  /** The next trade names a different pair, and a shared buyer pays no less, a shared seller gets no more. */
  predicate Follows(e: TradeEvent, e': TradeEvent) {
    && !(e'.buyId == e.buyId && e'.sellId == e.sellId)
    && (e'.buyId == e.buyId ==> e'.price >= e.price)
    && (e'.sellId == e.sellId ==> e'.price <= e.price)
  }

  /** Trade number `id`: stamped with the clock reading taken for it, between two submitted orders. */
  ghost predicate GoodTrade(e: TradeEvent, id: nat, ops: seq<Op>, clock: nat -> int) {
    e.matchId == id && e.t2 == AsUint64(clock(id)) && Justified(e, ops)
  }

  ghost predicate GoodTrades(trades: seq<TradeEvent>, ops: seq<Op>, clock: nat -> int) {
    && (forall k :: 0 <= k < |trades| ==> GoodTrade(trades[k], k + 1, ops, clock))
    && (forall k :: 0 < k < |trades| ==> Follows(trades[k - 1], trades[k]))
  }

  /** The same for trades that follow `n` earlier ones. */
  ghost predicate GoodFrom(trades: seq<TradeEvent>, n: nat, ops: seq<Op>, clock: nat -> int) {
    && (forall k :: 0 <= k < |trades| ==> GoodTrade(trades[k], n + 1 + k, ops, clock))
    && (forall k :: 0 < k < |trades| ==> Follows(trades[k - 1], trades[k]))
  }

  ghost predicate FromOps(s: seq<Order>, ops: seq<Op>) {
    forall x :: x in s ==> exists y :: Add(y) in ops && PartOf(x, y)
  }

  ghost predicate Reachable(x: Exchange, ops: seq<Op>, clock: nat -> int) {
    GoodBook(x.book) && FromOps(x.book.bids, ops) && FromOps(x.book.asks, ops) && GoodTrades(x.trades, ops, clock)
  }

  // ---- Every run is reachable ----

  /** In an admissible run an id names one order. */
  lemma SameIdSameOrder(ops: seq<Op>, x: Order, y: Order)
    requires Admissible(ops) && Add(x) in ops && Add(y) in ops && x.id == y.id
    ensures x == y
  {
    var i :| 0 <= i < |ops| && ops[i] == Add(x);
    var j :| 0 <= j < |ops| && ops[j] == Add(y);
    assert ops[i].Add? && ops[j].Add?;
  }

  lemma LastIsNew(ops: seq<Op>, o: Order, x: Order)
    requires Admissible(ops + [Add(o)]) && Add(x) in ops
    ensures x.seqNo < o.seqNo && x.id != o.id && Sane(o) && Sane(x) && Admissible(ops)
  {
    var all := ops + [Add(o)];
    var i :| 0 <= i < |ops| && ops[i] == Add(x);
    assert all[i] == Add(x) && all[|ops|] == Add(o);
    PrefixAdmissible(ops, Add(o));
  }

  lemma PrefixAdmissible(ops: seq<Op>, op: Op)
    requires Admissible(ops + [op])
    ensures Admissible(ops) && (op.Add? ==> Sane(op.order))
  {
    var all := ops + [op];
    assert forall i :: 0 <= i < |ops| ==> all[i] == ops[i];
    assert all[|ops|] == op;
  }

  lemma FromMoreOps(s: seq<Order>, ops: seq<Op>, op: Op)
    requires FromOps(s, ops)
    ensures FromOps(s, ops + [op])
  {
    forall x | x in s ensures exists y :: Add(y) in ops + [op] && PartOf(x, y) {
      var y :| Add(y) in ops && PartOf(x, y);
      assert Add(y) in ops + [op];
    }
  }

  lemma JustifiedByMoreOps(e: TradeEvent, ops: seq<Op>, op: Op)
    requires Justified(e, ops)
    ensures Justified(e, ops + [op])
  {
    var b, a :| Add(b) in ops && Add(a) in ops && Between(e, b, a);
    assert Add(b) in ops + [op] && Add(a) in ops + [op];
  }

  lemma TradesStayJustified(trades: seq<TradeEvent>, ops: seq<Op>, op: Op, clock: nat -> int)
    requires GoodTrades(trades, ops, clock)
    ensures GoodTrades(trades, ops + [op], clock)
  {
    forall k | 0 <= k < |trades| ensures GoodTrade(trades[k], k + 1, ops + [op], clock) {
      assert GoodTrade(trades[k], k + 1, ops, clock);
      JustifiedByMoreOps(trades[k], ops, op);
    }
  }

  lemma CancelStaysReachable(x: Exchange, ops: seq<Op>, id: int, clock: nat -> int)
    requires Reachable(x, ops, clock)
    ensures Reachable(Step(x, Cancel(id), clock), ops + [Cancel(id)], clock)
  {
    var f := x.book;
    WithoutKeeps(f.bids, id, true);
    WithoutKeeps(f.asks, id, false);
    FromMoreOps(f.bids, ops, Cancel(id));
    FromMoreOps(f.asks, ops, Cancel(id));
    TradesStayJustified(x.trades, ops, Cancel(id), clock);
  }

  lemma WithoutKeeps(s: seq<Order>, id: int, isBuy: bool)
    requires GoodSide(s, isBuy)
    ensures GoodSide(Without(s, id), isBuy) && forall x :: x in Without(s, id) ==> x in s
  {
    WithoutMembers(s, id);
    WithoutIsSorted(s, id, isBuy);
    WithoutDistinct(s, id);
  }

  lemma {:induction false} WithoutDistinct(s: seq<Order>, id: int)
    requires DistinctIds(s)
    ensures DistinctIds(Without(s, id))
  {
    if s != [] {
      var t := Without(s[1..], id);
      WithoutDistinct(s[1..], id);
      WithoutMembers(s[1..], id);
      forall j | 0 <= j < |t| ensures t[j].id != s[0].id {
        assert t[j] in s[1..];
      }
    }
  }

  lemma NewcomerIsNewest(x: Exchange, ops: seq<Op>, o: Order, clock: nat -> int)
    requires Reachable(x, ops, clock) && Admissible(ops + [Add(o)])
    ensures Newest(x.book, o)
  {
    forall r | r in x.book.bids || r in x.book.asks ensures r.seqNo < o.seqNo && r.id != o.id {
      var y :| Add(y) in ops && PartOf(r, y);
      LastIsNew(ops, o, y);
    }
  }

  /** One trade of the newcomer with a resting order is justified by the two submissions. */
  lemma SweepTradeJustified(e: TradeEvent, o: Order, m: Order, y: Order, ops: seq<Op>, id: nat, t2: int)
    requires TradeWith(e, o, m, id, t2) && Crosses(o, m) && m.isBuy != o.isBuy
    requires Add(y) in ops && PartOf(m, y) && y.seqNo < o.seqNo
    ensures Justified(e, ops + [Add(o)])
  {
    var b, a := if o.isBuy then o else y, if o.isBuy then y else o;
    assert Add(b) in ops + [Add(o)] && Add(a) in ops + [Add(o)];
    assert Between(e, b, a);
  }

  /** The first trade of a submission after the last trade of an earlier one. */
  lemma AcrossSubmissions(last: TradeEvent, e: TradeEvent, o: Order, m: Order, y: Order, ops: seq<Op>, id: nat, t2: int)
    requires Justified(last, ops) && Admissible(ops + [Add(o)])
    requires TradeWith(e, o, m, id, t2) && m.isBuy != o.isBuy
    requires Add(y) in ops && PartOf(m, y)
    ensures Follows(last, e)
  {
    var b, a :| Add(b) in ops && Add(a) in ops && Between(last, b, a);
    LastIsNew(ops, o, b);
    LastIsNew(ops, o, a);
    if y.id == b.id { SameIdSameOrder(ops, y, b); }
    if y.id == a.id { SameIdSameOrder(ops, y, a); }
  }

  /** Two trades of the same sweep. */
  lemma WithinSubmission(e: TradeEvent, e': TradeEvent, o: Order, m: Order, m': Order, id: nat, t2: int, t2': int)
    requires TradeWith(e, o, m, id, t2) && TradeWith(e', o, m', id + 1, t2')
    requires m.id != m'.id && m.id != o.id && m'.id != o.id && m.isBuy != o.isBuy
    requires Before(m, m', !o.isBuy)
    ensures Follows(e, e')
  {
  }

  /** The submission of a newcomer to a reachable book is a sweep in priority. */
  lemma NewcomerSweeps(x: Exchange, ops: seq<Op>, o: Order, clock: nat -> int) returns (sw: Sweeping)
    requires Reachable(x, ops, clock) && Admissible(ops + [Add(o)])
    ensures Submit(x.book, o, |x.trades|, clock).trades == sw.trades
    ensures InPriority(o, x.book.Of(!o.isBuy), sw, |x.trades|, clock)
    ensures forall r :: r in x.book.Of(!o.isBuy) ==> r.id != o.id
    ensures FromOps(x.book.Of(!o.isBuy), ops) && GoodSide(x.book.Of(!o.isBuy), !o.isBuy)
  {
    NewcomerIsNewest(x, ops, o, clock);
    PrefixAdmissible(ops, Add(o));
    SubmitIsSweep(x.book, o, |x.trades|, clock);
    sw := Sweep(o, x.book.Of(!o.isBuy), |x.trades|, clock);
    SweepInPriority(o, x.book.Of(!o.isBuy), |x.trades|, clock);
  }

  lemma SweepTradeGood(opp: seq<Order>, ops: seq<Op>, o: Order, sw: Sweeping, n: nat, clock: nat -> int, k: nat)
    requires FromOps(opp, ops) && OneSided(opp, !o.isBuy) && Admissible(ops + [Add(o)])
    requires InPriority(o, opp, sw, n, clock) && k < |sw.trades|
    ensures GoodTrade(sw.trades[k], n + 1 + k, ops + [Add(o)], clock)
  {
    var y := MakerOrigin(opp, ops, o, sw, n, clock, k);
    LastIsNew(ops, o, y);
    SweepTradeJustified(sw.trades[k], o, opp[k], y, ops, n + 1 + k, clock(n + 1 + k));
  }

  lemma FirstOfSweep(last: TradeEvent, opp: seq<Order>, ops: seq<Op>, o: Order, sw: Sweeping, n: nat, clock: nat -> int)
    requires Justified(last, ops) && Admissible(ops + [Add(o)])
    requires FromOps(opp, ops) && OneSided(opp, !o.isBuy)
    requires InPriority(o, opp, sw, n, clock) && sw.trades != []
    ensures Follows(last, sw.trades[0])
  {
    var y := MakerOrigin(opp, ops, o, sw, n, clock, 0);
    AcrossSubmissions(last, sw.trades[0], o, opp[0], y, ops, n + 1, clock(n + 1));
  }

  /** The k-th maker of a sweep comes from an earlier submission. */
  lemma MakerOrigin(opp: seq<Order>, ops: seq<Op>, o: Order, sw: Sweeping, n: nat, clock: nat -> int, k: nat)
    returns (y: Order)
    requires FromOps(opp, ops) && OneSided(opp, !o.isBuy)
    requires InPriority(o, opp, sw, n, clock) && k < |sw.trades|
    ensures TradeWith(sw.trades[k], o, opp[k], n + 1 + k, clock(n + 1 + k)) && Crosses(o, opp[k])
    ensures opp[k].isBuy != o.isBuy && Add(y) in ops && PartOf(opp[k], y)
  {
    assert MakerAt(o, opp, sw, n, clock, k);
    assert opp[k] in opp;
    y :| Add(y) in ops && PartOf(opp[k], y);
  }

  lemma NextOfSweep(o: Order, opp: seq<Order>, sw: Sweeping, n: nat, clock: nat -> int, k: nat)
    requires InPriority(o, opp, sw, n, clock) && 0 < k < |sw.trades|
    requires GoodSide(opp, !o.isBuy) && forall x :: x in opp ==> x.id != o.id
    ensures Follows(sw.trades[k - 1], sw.trades[k])
  {
    assert MakerAt(o, opp, sw, n, clock, k - 1) && MakerAt(o, opp, sw, n, clock, k);
    assert opp[k - 1] in opp && opp[k] in opp;
    WithinSubmission(sw.trades[k - 1], sw.trades[k], o, opp[k - 1], opp[k], n + k, clock(n + k), clock(n + 1 + k));
  }

  lemma AddStaysReachable(x: Exchange, ops: seq<Op>, o: Order, clock: nat -> int)
    requires Reachable(x, ops, clock) && Admissible(ops + [Add(o)])
    ensures Reachable(Step(x, Add(o), clock), ops + [Add(o)], clock)
  {
    NewcomerIsNewest(x, ops, o, clock);
    PrefixAdmissible(ops, Add(o));
    SubmitKeepsBook(x.book, o, |x.trades|, clock);
    var out := Submit(x.book, o, |x.trades|, clock);
    RestingFromOps(out.book.Of(o.isBuy), x.book.Of(o.isBuy), ops, o);
    RestingFromOps(out.book.Of(!o.isBuy), x.book.Of(!o.isBuy), ops, o);
    var sw := NewcomerSweeps(x, ops, o, clock);
    TradesStayGood(x.trades, x.book.Of(!o.isBuy), ops, o, sw, clock);
  }

  lemma RestingFromOps(s: seq<Order>, prior: seq<Order>, ops: seq<Op>, o: Order)
    requires FromOps(prior, ops) && (Parts(s, prior) || Parts(s, prior + [o]))
    ensures FromOps(s, ops + [Add(o)])
  {
    forall x | x in s ensures exists y :: Add(y) in ops + [Add(o)] && PartOf(x, y) {
      var z :| z in prior + [o] && PartOf(x, z);
      if z in prior {
        var y :| Add(y) in ops && PartOf(z, y);
        assert Add(y) in ops + [Add(o)] && PartOf(x, y);
      } else {
        assert Add(z) in ops + [Add(o)];
      }
    }
  }

  lemma TradesStayGood(trades: seq<TradeEvent>, opp: seq<Order>, ops: seq<Op>, o: Order, sw: Sweeping,
                       clock: nat -> int)
    requires GoodTrades(trades, ops, clock)
    requires FromOps(opp, ops) && GoodSide(opp, !o.isBuy) && Admissible(ops + [Add(o)])
    requires InPriority(o, opp, sw, |trades|, clock) && forall r :: r in opp ==> r.id != o.id
    ensures GoodTrades(trades + sw.trades, ops + [Add(o)], clock)
  {
    TradesStayJustified(trades, ops, Add(o), clock);
    SweepAllGood(opp, ops, o, sw, |trades|, clock);
    SweepGoesOn(trades, opp, ops, o, sw, clock);
    AppendGood(trades, sw.trades, ops + [Add(o)], clock);
  }

  lemma SweepAllGood(opp: seq<Order>, ops: seq<Op>, o: Order, sw: Sweeping, n: nat, clock: nat -> int)
    requires FromOps(opp, ops) && GoodSide(opp, !o.isBuy) && Admissible(ops + [Add(o)])
    requires InPriority(o, opp, sw, n, clock) && forall r :: r in opp ==> r.id != o.id
    ensures GoodFrom(sw.trades, n, ops + [Add(o)], clock)
  {
    forall k | 0 <= k < |sw.trades| ensures GoodTrade(sw.trades[k], n + 1 + k, ops + [Add(o)], clock) {
      SweepTradeGood(opp, ops, o, sw, n, clock, k);
    }
    forall k | 0 < k < |sw.trades| ensures Follows(sw.trades[k - 1], sw.trades[k]) {
      NextOfSweep(o, opp, sw, n, clock, k);
    }
  }

  lemma SweepGoesOn(trades: seq<TradeEvent>, opp: seq<Order>, ops: seq<Op>, o: Order, sw: Sweeping, clock: nat -> int)
    requires GoodTrades(trades, ops, clock)
    requires FromOps(opp, ops) && GoodSide(opp, !o.isBuy) && Admissible(ops + [Add(o)])
    requires InPriority(o, opp, sw, |trades|, clock)
    ensures trades != [] && sw.trades != [] ==> Follows(trades[|trades| - 1], sw.trades[0])
  {
    var n := |trades|;
    if n > 0 && sw.trades != [] {
      assert GoodTrade(trades[n - 1], n, ops, clock);
      FirstOfSweep(trades[n - 1], opp, ops, o, sw, n, clock);
    }
  }

  lemma AppendGood(xs: seq<TradeEvent>, ys: seq<TradeEvent>, ops: seq<Op>, clock: nat -> int)
    requires GoodTrades(xs, ops, clock)
    requires GoodFrom(ys, |xs|, ops, clock)
    requires xs != [] && ys != [] ==> Follows(xs[|xs| - 1], ys[0])
    ensures GoodTrades(xs + ys, ops, clock)
  {
    var trades := xs + ys;
    forall k | 0 <= k < |trades| ensures GoodTrade(trades[k], k + 1, ops, clock) {
      if k >= |xs| { assert GoodTrade(ys[k - |xs|], |xs| + 1 + (k - |xs|), ops, clock); }
    }
    forall k | 0 < k < |trades| ensures Follows(trades[k - 1], trades[k]) {
      if k > |xs| { assert Follows(ys[k - |xs| - 1], ys[k - |xs|]); }
    }
  }

  /**
   After every run of submissions and cancellations: the book is uncrossed and in price-time order with each
   id resting once, every trade joins two submitted orders at the earlier one's limit, match ids count up
   from one, and consecutive trades respect price priority even across submissions.
   */
  lemma {:induction false} EveryRunIsGood(ops: seq<Op>, clock: nat -> int)
    requires Admissible(ops)
    ensures Reachable(Run(ops, clock), ops, clock)
  {
    if ops != [] {
      var before, op := ops[..|ops| - 1], ops[|ops| - 1];
      assert ops == before + [op];
      PrefixAdmissible(before, op);
      EveryRunIsGood(before, clock);
      match op {
        case Add(o) => AddStaysReachable(Run(before, clock), before, o, clock);
        case Cancel(id) => CancelStaysReachable(Run(before, clock), before, id, clock);
      }
    }
  }
}
