/**
 What a submission does, seen from the incoming order: crossing the whole book is the same as one greedy
 sweep of the opposite side, and the sweep fills exactly what the book can supply, in price-time order.
 */
module TakerView {
  import opened Orders
  import opened FlatBook

  /** What is left of the newcomer (at most one order), what is left opposite, and the trades. */
  datatype Sweeping = Sweeping(rest: seq<Order>, opposite: seq<Order>, trades: seq<TradeEvent>)

  /** The incoming order against one resting order, whichever side is which. */
  function Fill(n: nat, o: Order, m: Order, t2: int): TradeEvent {
    if o.isBuy then TradeOf(n, o, m, t2) else TradeOf(n, m, o, t2)
  }

  /** The incoming order takes the opposite head while it crosses it and has quantity left. */
  ghost function Sweep(o: Order, opposite: seq<Order>, n: nat, clock: nat -> int): Sweeping
    decreases |opposite|
  {
    if opposite == [] || !Crosses(o, opposite[0]) then
      Sweeping([o], opposite, [])
    else
      var q := Min(o.quantity, opposite[0].quantity);
      var e := Fill(n + 1, o, opposite[0], clock(n + 1));
      if o.quantity == q then
        Sweeping([], Cut(opposite, q), [e])
      else
        var next := Sweep(o.(quantity := o.quantity - q), opposite[1..], n + 1, clock);
        Sweeping(next.rest, next.opposite, [e] + next.trades)
  }

  // ---- Crossing an uncrossed book with one newcomer is a sweep ----

  /** The newcomer's remainder takes its price-time place; the opposite side is what the sweep left. */
  function AfterSweep(f: Flat, o: Order, sw: Sweeping): Outcome {
    var own := if sw.rest == [] then f.Of(o.isBuy) else Insert(f.Of(o.isBuy), sw.rest[0]);
    Outcome(f.With(o.isBuy, own).With(!o.isBuy, sw.opposite), sw.trades)
  }

  ghost predicate CrossingIsSweep(f: Flat, o: Order, n: nat, clock: nat -> int) {
    Submit(f, o, n, clock) == AfterSweep(f, o, Sweep(o, f.Of(!o.isBuy), n, clock))
  }

  lemma SubmitIsSweep(f: Flat, o: Order, n: nat, clock: nat -> int)
    requires Uncrossed(f) && Newest(f, o)
    ensures Submit(f, o, n, clock) == AfterSweep(f, o, Sweep(o, f.Of(!o.isBuy), n, clock))
  {
    CrossingSweeps(f, o, n, clock);
  }

  lemma {:induction false} CrossingSweeps(f: Flat, o: Order, n: nat, clock: nat -> int)
    requires Uncrossed(f) && Newest(f, o)
    ensures CrossingIsSweep(f, o, n, clock)
    decreases |f.Of(!o.isBuy)|
  {
    var opp := f.Of(!o.isBuy);
    if opp == [] || !Crosses(o, opp[0]) {
      NothingToSweep(f, o, n, clock);
    } else if o.quantity <= opp[0].quantity {
      OneMakerOnly(f, o, n, clock);
    } else {
      var f', o' := f.With(!o.isBuy, opp[1..]), o.(quantity := o.quantity - opp[0].quantity);
      FewerStillApart(f, o, f', o');
      CrossingSweeps(f', o', n + 1, clock);
      OneMakerMore(f, o, n, clock, f', o');
    }
  }

  lemma NothingToSweep(f: Flat, o: Order, n: nat, clock: nat -> int)
    requires Uncrossed(f) && (f.Of(!o.isBuy) == [] || !Crosses(o, f.Of(!o.isBuy)[0]))
    ensures CrossingIsSweep(f, o, n, clock)
  {
    NewcomerRests(f, o);
  }

  lemma OneMakerOnly(f: Flat, o: Order, n: nat, clock: nat -> int)
    requires Uncrossed(f) && Newest(f, o) && f.Of(!o.isBuy) != [] && Crosses(o, f.Of(!o.isBuy)[0])
    requires o.quantity <= f.Of(!o.isBuy)[0].quantity
    ensures CrossingIsSweep(f, o, n, clock)
  {
    NewcomerUsedUp(f, o, n, clock);
  }

  /** Without the first opposite order the newcomer is still new to an uncrossed book. */
  lemma FewerStillApart(f: Flat, o: Order, f': Flat, o': Order)
    requires Uncrossed(f) && Newest(f, o) && f.Of(!o.isBuy) != []
    requires f' == f.With(!o.isBuy, f.Of(!o.isBuy)[1..]) && o' == o.(quantity := o'.quantity)
    ensures Uncrossed(f') && Newest(f', o')
  {
  }

  /** One more maker at the front: if crossing is a sweep from there on, it is one from here. */
  lemma OneMakerMore(f: Flat, o: Order, n: nat, clock: nat -> int, f': Flat, o': Order)
    requires Uncrossed(f) && Newest(f, o) && f.Of(!o.isBuy) != [] && Crosses(o, f.Of(!o.isBuy)[0])
    requires f.Of(!o.isBuy)[0].quantity < o.quantity
    requires f' == f.With(!o.isBuy, f.Of(!o.isBuy)[1..])
    requires o' == o.(quantity := o.quantity - f.Of(!o.isBuy)[0].quantity)
    requires Submit(f', o', n + 1, clock) == AfterSweep(f', o', Sweep(o', f'.Of(!o'.isBuy), n + 1, clock))
    ensures CrossingIsSweep(f, o, n, clock)
  {
    var opp := f.Of(!o.isBuy);
    var next := Sweep(o', opp[1..], n + 1, clock);
    NewcomerGoesOn(f, o, n, clock);
    SweptOnce(f, o, next, Fill(n + 1, o, opp[0], clock(n + 1)));
  }

  /** The first maker is gone from the opposite side either way. */
  lemma SweptOnce(f: Flat, o: Order, next: Sweeping, e: TradeEvent)
    requires f.Of(!o.isBuy) != []
    ensures var opp := f.Of(!o.isBuy);
            var later := AfterSweep(f.With(!o.isBuy, opp[1..]), o.(quantity := o.quantity - opp[0].quantity), next);
            AfterSweep(f, o, Sweeping(next.rest, next.opposite, [e] + next.trades))
            == Outcome(later.book, [e] + later.trades)
  {
  }

  lemma NewcomerUsedUp(f: Flat, o: Order, n: nat, clock: nat -> int)
    requires Uncrossed(f) && Newest(f, o) && f.Of(!o.isBuy) != [] && Crosses(o, f.Of(!o.isBuy)[0])
    requires o.quantity <= f.Of(!o.isBuy)[0].quantity
    ensures var opp := f.Of(!o.isBuy);
            Submit(f, o, n, clock)
            == Outcome(f.With(!o.isBuy, Cut(opp, o.quantity)), [Fill(n + 1, o, opp[0], clock(n + 1))])
  {
    var opp := f.Of(!o.isBuy);
    var h := MeetHead(f, o);
    CutPrices(opp, o.quantity);
    assert !Meets(h);
    CrossOnce(f.With(o.isBuy, Insert(f.Of(o.isBuy), o)), n, clock, []);
    assert Cross(h, n + 1, clock) == Outcome(h, []);
  }

  lemma NewcomerGoesOn(f: Flat, o: Order, n: nat, clock: nat -> int)
    requires Uncrossed(f) && Newest(f, o) && f.Of(!o.isBuy) != [] && Crosses(o, f.Of(!o.isBuy)[0])
    requires f.Of(!o.isBuy)[0].quantity < o.quantity
    ensures var opp := f.Of(!o.isBuy);
            var next := Submit(f.With(!o.isBuy, opp[1..]), o.(quantity := o.quantity - opp[0].quantity), n + 1, clock);
            Submit(f, o, n, clock) == Outcome(next.book, [Fill(n + 1, o, opp[0], clock(n + 1))] + next.trades)
  {
    var h := MeetHead(f, o);
  }

  lemma NewcomerRests(f: Flat, o: Order)
    requires Uncrossed(f) && (f.Of(!o.isBuy) == [] || !Crosses(o, f.Of(!o.isBuy)[0]))
    ensures !Meets(f.With(o.isBuy, Insert(f.Of(o.isBuy), o)))
  {
    var own := f.Of(o.isBuy);
    assert Insert(own, o)[0] == o || (own != [] && Insert(own, o)[0] == own[0]);
  }

  /** The first trade of a newcomer that reaches the opposite head. */
  lemma MeetHead(f: Flat, o: Order) returns (h: Flat)
    requires Uncrossed(f) && f.Of(!o.isBuy) != [] && Crosses(o, f.Of(!o.isBuy)[0])
    ensures var g := f.With(o.isBuy, Insert(f.Of(o.isBuy), o));
            var opp := f.Of(!o.isBuy);
            var q := Min(o.quantity, opp[0].quantity);
            && g.Of(o.isBuy)[0] == o && Meets(g) && h == TradeHeads(g)
            && h == if o.quantity == q then f.With(!o.isBuy, Cut(opp, q))
                    else var f' := f.With(!o.isBuy, opp[1..]);
                         f'.With(o.isBuy, Insert(f.Of(o.isBuy), o.(quantity := o.quantity - q)))
  {
    var own, opp := f.Of(o.isBuy), f.Of(!o.isBuy);
    var q := Min(o.quantity, opp[0].quantity);
    InsertsInFront(f, o);
    InsertsInFront(f, o.(quantity := o.quantity - q));
    assert ([o] + own)[1..] == own;
    h := TradeHeads(f.With(o.isBuy, Insert(own, o)));
  }

  /** A newcomer that reaches the other side has a better price than everyone on its own. */
  lemma InsertsInFront(f: Flat, o: Order)
    requires Uncrossed(f) && f.Of(!o.isBuy) != [] && Crosses(o, f.Of(!o.isBuy)[0])
    ensures Insert(f.Of(o.isBuy), o) == [o] + f.Of(o.isBuy)
  {
    var own := f.Of(o.isBuy);
    if own != [] {
      assert own[0] in own;
    }
  }

  lemma CutPrices(s: seq<Order>, q: int)
    requires s != []
    ensures forall x :: x in Cut(s, q) ==> exists y :: y in s && x == y.(quantity := x.quantity)
  {
    forall x | x in Cut(s, q) ensures exists y :: y in s && x == y.(quantity := x.quantity) {
      var y := if x in s then x else s[0];
      assert y in s && x == y.(quantity := x.quantity);
    }
  }

  // ---- How much is filled ----

  /** Sizes and ids fit the engine's `int` fields and are positive. */
  predicate Sane(o: Order) {
    0 < o.quantity < TWO_TO_THE_31 && 0 < o.id < TWO_TO_THE_31
  }

  ghost predicate AllSane(s: seq<Order>) {
    forall o :: o in s ==> Sane(o)
  }

  function Filled(trades: seq<TradeEvent>): nat {
    if trades == [] then 0 else trades[0].qty + Filled(trades[1..])
  }

  /** The resting quantity an incoming order could trade with at its limit, wherever it rests. */
  function Supply(o: Order, opposite: seq<Order>): int {
    if opposite == [] then 0
    else (if Crosses(o, opposite[0]) then opposite[0].quantity else 0) + Supply(o, opposite[1..])
  }

  lemma {:induction false} SupplyBounds(o: Order, opposite: seq<Order>, o': Order)
    requires AllSane(opposite) && o.isBuy == o'.isBuy && o.price == o'.price
    ensures Supply(o, opposite) == Supply(o', opposite) >= 0
  {
    if opposite != [] {
      assert opposite[0] in opposite;
      SupplyBounds(o, opposite[1..], o');
    }
  }

  lemma {:induction false} NoSupply(o: Order, opposite: seq<Order>)
    requires Sorted(opposite, !o.isBuy)
    requires opposite == [] || !Crosses(o, opposite[0])
    ensures Supply(o, opposite) == 0
    ensures forall x :: x in opposite ==> !Crosses(o, x)
  {
    if opposite != [] {
      forall i | 0 <= i < |opposite| ensures !Crosses(o, opposite[i]) {
        assert i > 0 ==> Before(opposite[0], opposite[i], !o.isBuy);
      }
      NoSupply(o, opposite[1..]);
    }
  }

  /** The newcomer fills as much as the book can supply at its limit, never more than it asked for. */
  lemma {:induction false} SweepFillsSupply(o: Order, opposite: seq<Order>, n: nat, clock: nat -> int)
    requires Sane(o) && AllSane(opposite) && Sorted(opposite, !o.isBuy)
    ensures var sw := Sweep(o, opposite, n, clock);
            var filled := Filled(sw.trades);
            && filled == Min(o.quantity, Supply(o, opposite))
            && sw.rest == if filled == o.quantity then [] else [o.(quantity := o.quantity - filled)]
    decreases |opposite|
  {
    var sw := Sweep(o, opposite, n, clock);
    if opposite == [] || !Crosses(o, opposite[0]) {
      NoSupply(o, opposite);
    } else {
      assert opposite[0] in opposite;
      var q := Min(o.quantity, opposite[0].quantity);
      SupplyBounds(o, opposite[1..], o.(quantity := o.quantity - q));
      if o.quantity == q {
        assert sw.trades[1..] == [];
      } else {
        var o' := o.(quantity := o.quantity - q);
        SweepFillsSupply(o', opposite[1..], n + 1, clock);
        assert sw.trades[1..] == Sweep(o', opposite[1..], n + 1, clock).trades;
      }
    }
  }

  // ---- Price-time priority ----

  /** The trade of newcomer `o` with maker `m`: at the maker's limit, under both ids, with the newcomer's times. */
  predicate TradeWith(e: TradeEvent, o: Order, m: Order, id: nat, t2: int) {
    && e.matchId == id
    && e.price == m.price
    && e.buyId == (if o.isBuy then o else m).id
    && e.sellId == (if o.isBuy then m else o).id
    && e.t0 == AsUint64(o.t0) && e.t1 == AsUint64(o.t1) && e.t2 == AsUint64(t2)
    && 0 < e.qty <= m.quantity && e.qty <= o.quantity
  }

  /** Trade `i` is with the `i`-th opposite order, which is consumed completely if the sweep goes on. */
  predicate MakerAt(o: Order, opposite: seq<Order>, sw: Sweeping, n: nat, clock: nat -> int, i: nat)
    requires i < |sw.trades| && |sw.trades| <= |opposite|
  {
    && Crosses(o, opposite[i])
    && TradeWith(sw.trades[i], o, opposite[i], n + 1 + i, clock(n + 1 + i))
    && (i + 1 < |sw.trades| || sw.rest != [] ==> sw.trades[i].qty == opposite[i].quantity)
  }

  /**
   The makers are the first orders of the opposite side, in order. All but the last are consumed
   completely; so is the last, unless the newcomer ran out first.
   */
  ghost predicate InPriority(o: Order, opposite: seq<Order>, sw: Sweeping, n: nat, clock: nat -> int) {
    var k := |sw.trades|;
    && k <= |opposite|
    && (forall i :: 0 <= i < k ==> MakerAt(o, opposite, sw, n, clock, i))
    && sw.opposite == (if k == 0 then opposite else Cut(opposite[k - 1..], sw.trades[k - 1].qty))
    && (sw.rest != [] ==> sw.opposite == [] || !Crosses(o, sw.opposite[0]))
  }

  lemma FillIsTradeWith(o: Order, m: Order, id: nat, t2: int)
    requires Sane(o) && Sane(m) && m.isBuy != o.isBuy && m.seqNo < o.seqNo
    ensures TradeWith(Fill(id, o, m, t2), o, m, id, t2)
    ensures Fill(id, o, m, t2).qty == Min(o.quantity, m.quantity)
  {
  }

  lemma {:induction false} SweepInPriority(o: Order, opposite: seq<Order>, n: nat, clock: nat -> int)
    requires Sane(o) && AllSane(opposite)
    requires forall x :: x in opposite ==> x.isBuy != o.isBuy && x.seqNo < o.seqNo
    ensures InPriority(o, opposite, Sweep(o, opposite, n, clock), n, clock)
    decreases |opposite|
  {
    var sw := Sweep(o, opposite, n, clock);
    if opposite == [] || !Crosses(o, opposite[0]) {
      assert sw == Sweeping([o], opposite, []);
    } else {
      assert opposite[0] in opposite;
      var m, e := opposite[0], Fill(n + 1, o, opposite[0], clock(n + 1));
      if o.quantity <= m.quantity {
        assert sw == Sweeping([], Cut(opposite, o.quantity), [e]);
        LastMaker(o, opposite, n, clock);
      } else {
        var o' := o.(quantity := o.quantity - m.quantity);
        var next := Sweep(o', opposite[1..], n + 1, clock);
        assert sw == Sweeping(next.rest, next.opposite, [e] + next.trades);
        SweepInPriority(o', opposite[1..], n + 1, clock);
        PrependMaker(o, opposite, next, n, clock);
      }
    }
  }

  /** Within one submission the newcomer is party to every trade, and its prices only get worse. */
  lemma PricesOnlyWorsen(o: Order, opposite: seq<Order>, n: nat, clock: nat -> int, i: nat, j: nat)
    requires Sane(o) && AllSane(opposite) && Sorted(opposite, !o.isBuy)
    requires forall x :: x in opposite ==> x.isBuy != o.isBuy && x.seqNo < o.seqNo
    requires i <= j < |Sweep(o, opposite, n, clock).trades|
    ensures var t := Sweep(o, opposite, n, clock).trades;
            && (if o.isBuy then t[i].price <= t[j].price <= o.price else t[i].price >= t[j].price >= o.price)
            && (if o.isBuy then t[j].buyId else t[j].sellId) == o.id
  {
    SweepInPriority(o, opposite, n, clock);
    var sw := Sweep(o, opposite, n, clock);
    assert MakerAt(o, opposite, sw, n, clock, i) && MakerAt(o, opposite, sw, n, clock, j);
    assert i < j ==> Before(opposite[i], opposite[j], !o.isBuy);
  }

  lemma LastMaker(o: Order, opposite: seq<Order>, n: nat, clock: nat -> int)
    requires opposite != [] && Crosses(o, opposite[0])
    requires Sane(o) && Sane(opposite[0]) && opposite[0].isBuy != o.isBuy && opposite[0].seqNo < o.seqNo
    requires o.quantity <= opposite[0].quantity
    ensures InPriority(o, opposite,
              Sweeping([], Cut(opposite, o.quantity), [Fill(n + 1, o, opposite[0], clock(n + 1))]), n, clock)
  {
    FillIsTradeWith(o, opposite[0], n + 1, clock(n + 1));
    assert opposite[0..] == opposite;
  }

  lemma PrependMaker(o: Order, opposite: seq<Order>, next: Sweeping, n: nat, clock: nat -> int)
    requires opposite != [] && Crosses(o, opposite[0])
    requires Sane(o) && Sane(opposite[0]) && opposite[0].isBuy != o.isBuy && opposite[0].seqNo < o.seqNo
    requires opposite[0].quantity < o.quantity
    requires InPriority(o.(quantity := o.quantity - opposite[0].quantity), opposite[1..], next, n + 1, clock)
    ensures InPriority(o, opposite,
              Sweeping(next.rest, next.opposite, [Fill(n + 1, o, opposite[0], clock(n + 1))] + next.trades), n, clock)
  {
    var sw := Sweeping(next.rest, next.opposite, [Fill(n + 1, o, opposite[0], clock(n + 1))] + next.trades);
    FillIsTradeWith(o, opposite[0], n + 1, clock(n + 1));
    forall i | 0 <= i < |sw.trades| ensures MakerAt(o, opposite, sw, n, clock, i) {
      if i > 0 { LaterMaker(o, opposite, next, sw, n, clock, i); }
    }
    var k := |next.trades|;
    if k > 0 {
      assert opposite[1..][k - 1..] == opposite[k..];
      assert sw.trades[k] == next.trades[k - 1];
    } else {
      assert Cut(opposite, opposite[0].quantity) == opposite[1..];
      assert opposite[0..] == opposite;
    }
  }

  lemma LaterMaker(o: Order, opposite: seq<Order>, next: Sweeping, sw: Sweeping, n: nat, clock: nat -> int, i: nat)
    requires 0 < i < |sw.trades| == |next.trades| + 1 <= |opposite|
    requires sw.rest == next.rest && sw.trades[i] == next.trades[i - 1]
    requires opposite[0].quantity > 0
    requires MakerAt(o.(quantity := o.quantity - opposite[0].quantity), opposite[1..], next, n + 1, clock, i - 1)
    ensures MakerAt(o, opposite, sw, n, clock, i)
  {
    assert n + 2 + (i - 1) == n + 1 + i;
  }
}
