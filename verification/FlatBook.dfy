/**
 The simplest description of what the exchange promises: each side is one list of resting orders in
 price-time order, and trades happen between the two heads. There are no price levels, vectors or
 indices here.
 */
module FlatBook {
  import opened Orders

  datatype Flat = Flat(bids: seq<Order>, asks: seq<Order>) {
    function Of(isBuy: bool): seq<Order> {
      if isBuy then bids else asks
    }

    function With(isBuy: bool, s: seq<Order>): Flat {
      if isBuy then Flat(s, asks) else Flat(bids, s)
    }
  }

  datatype Outcome = Outcome(book: Flat, trades: seq<TradeEvent>)

  // ---- The three operations ----

  /** `s` with `o` put in front of the first order it has priority over. */
  function Insert(s: seq<Order>, o: Order): (r: seq<Order>)
    ensures |r| == |s| + 1
  {
    if s == [] then [o]
    else if Before(o, s[0], o.isBuy) then [o] + s
    else [s[0]] + Insert(s[1..], o)
  }

  /** The head of `s` loses `q` units and leaves when none are left. */
  function Cut(s: seq<Order>, q: int): seq<Order>
    requires s != []
  {
    if s[0].quantity == q then s[1..] else [s[0].(quantity := s[0].quantity - q)] + s[1..]
  }

  predicate Meets(f: Flat) {
    f.bids != [] && f.asks != [] && f.bids[0].price >= f.asks[0].price
  }

  function TradeHeads(f: Flat): (r: Flat)
    requires Meets(f)
    ensures |r.bids| + |r.asks| < |f.bids| + |f.asks|
  {
    var q := Min(f.bids[0].quantity, f.asks[0].quantity);
    Flat(Cut(f.bids, q), Cut(f.asks, q))
  }

  /** Trade the heads until they no longer meet. `clock(k)` is the reading taken for trade k. */
  ghost function Cross(f: Flat, n: nat, clock: nat -> int): Outcome
    decreases |f.bids| + |f.asks|
  {
    if Meets(f) then
      var rest := Cross(TradeHeads(f), n + 1, clock);
      Outcome(rest.book, [TradeOf(n + 1, f.bids[0], f.asks[0], clock(n + 1))] + rest.trades)
    else
      Outcome(f, [])
  }

  /** One trade moves its event from what is still to come to what has happened. */
  lemma CrossOnce(f: Flat, n: nat, clock: nat -> int, prior: seq<TradeEvent>)
    requires Meets(f)
    ensures Cross(f, n, clock).book == Cross(TradeHeads(f), n + 1, clock).book
    ensures prior + Cross(f, n, clock).trades
         == (prior + [TradeOf(n + 1, f.bids[0], f.asks[0], clock(n + 1))]) + Cross(TradeHeads(f), n + 1, clock).trades
  {
  }

  /** Adding an order: it takes its price-time place and the sides are crossed. */
  ghost function Submit(f: Flat, o: Order, n: nat, clock: nat -> int): Outcome {
    Cross(f.With(o.isBuy, Insert(f.Of(o.isBuy), o)), n, clock)
  }

  /** The orders of `s` whose id is not `id`, in the same order. */
  function Without(s: seq<Order>, id: int): seq<Order> {
    if s == [] then []
    else if s[0].id == id then Without(s[1..], id)
    else [s[0]] + Without(s[1..], id)
  }

  function Withdraw(f: Flat, id: int): Flat {
    Flat(Without(f.bids, id), Without(f.asks, id))
  }

  // ---- Well-formed flat books ----

  ghost predicate OneSided(s: seq<Order>, isBuy: bool) {
    forall o :: o in s ==> o.isBuy == isBuy
  }

  /** Both sides are in price-time order and on the right side, and no id rests twice. */
  ghost predicate Proper(f: Flat) {
    && Sorted(f.bids, true) && Sorted(f.asks, false)
    && OneSided(f.bids, true) && OneSided(f.asks, false)
    && DistinctIds(f.bids) && DistinctIds(f.asks)
    && (forall b, a :: b in f.bids && a in f.asks ==> b.id != a.id)
  }

  ghost predicate DistinctIds(s: seq<Order>) {
    forall i, j :: 0 <= i < j < |s| ==> s[i].id != s[j].id
  }

  /** No bid reaches an ask. */
  ghost predicate Uncrossed(f: Flat) {
    forall b, a :: b in f.bids && a in f.asks ==> b.price < a.price
  }

  /** The newcomer's id is not resting and its stamp is later than every resting one. */
  ghost predicate Newest(f: Flat, o: Order) {
    && (forall x :: x in f.bids ==> x.seqNo < o.seqNo && x.id != o.id)
    && (forall x :: x in f.asks ==> x.seqNo < o.seqNo && x.id != o.id)
  }

  // ---- Insertion and removal keep the order and touch nothing else ----

  lemma {:induction false} InsertAt(s: seq<Order>, o: Order) returns (k: nat)
    requires Sorted(s, o.isBuy)
    requires forall x :: x in s ==> x.seqNo < o.seqNo
    ensures k <= |s| && Insert(s, o) == s[..k] + [o] + s[k..]
    ensures forall i :: 0 <= i < k ==> Before(s[i], o, o.isBuy)
    ensures forall i :: k <= i < |s| ==> Before(o, s[i], o.isBuy)
    ensures Sorted(Insert(s, o), o.isBuy)
  {
    if s == [] || Before(o, s[0], o.isBuy) {
      k := 0;
    } else {
      var j := InsertAt(s[1..], o);
      k := j + 1;
      assert s[..k] == [s[0]] + s[1..][..j] && s[k..] == s[1..][j..];
      assert s[0] in s;
      forall i | 0 <= i < |s| && i < k ensures Before(s[i], o, o.isBuy) {
        assert i > 0 ==> s[i] == s[1..][i - 1];
      }
      forall i | k <= i < |s| ensures Before(o, s[i], o.isBuy) {
        assert s[i] == s[1..][i - 1];
      }
    }
    SplicedSorted(s, o, k);
  }

  lemma SplicedSorted(s: seq<Order>, o: Order, k: nat)
    requires k <= |s| && Sorted(s, o.isBuy)
    requires forall i :: 0 <= i < k ==> Before(s[i], o, o.isBuy)
    requires forall i :: k <= i < |s| ==> Before(o, s[i], o.isBuy)
    ensures Sorted(s[..k] + [o] + s[k..], o.isBuy)
  {
    var r := s[..k] + [o] + s[k..];
    assert forall i :: 0 <= i < |r| ==> r[i] == if i < k then s[i] else if i == k then o else s[i - 1];
  }

  lemma {:induction false} InsertMembers(s: seq<Order>, o: Order)
    ensures forall x :: x in Insert(s, o) <==> x == o || x in s
    ensures multiset(Insert(s, o)) == multiset(s) + multiset{o}
  {
    if s != [] {
      assert s == [s[0]] + s[1..];
      InsertMembers(s[1..], o);
    }
  }

  lemma {:induction false} WithoutMembers(s: seq<Order>, id: int)
    ensures forall x :: x in Without(s, id) <==> x in s && x.id != id
  {
    if s != [] {
      WithoutMembers(s[1..], id);
    }
  }

  lemma {:induction false} WithoutIsSorted(s: seq<Order>, id: int, isBuy: bool)
    requires Sorted(s, isBuy)
    ensures Sorted(Without(s, id), isBuy)
  {
    if s != [] {
      var t := Without(s[1..], id);
      WithoutIsSorted(s[1..], id, isBuy);
      WithoutMembers(s[1..], id);
      forall j | 0 <= j < |t| ensures Before(s[0], t[j], isBuy) {
        assert t[j] in t;
      }
    }
  }

  /** When one order rests under `id`, withdrawing it closes exactly the gap it leaves. */
  lemma {:induction false} WithoutCutsOne(s: seq<Order>, k: nat)
    requires k < |s| && DistinctIds(s)
    ensures Without(s, s[k].id) == s[..k] + s[k + 1..]
  {
    if k > 0 {
      WithoutCutsOne(s[1..], k - 1);
      assert s[1..][..k - 1] == s[1..k];
      assert s[..k] == [s[0]] + s[1..k];
    } else {
      WithoutAbsent(s[1..], s[0].id);
    }
  }

  lemma {:induction false} WithoutAbsent(s: seq<Order>, id: int)
    requires forall x :: x in s ==> x.id != id
    ensures Without(s, id) == s
  {
    if s != [] {
      assert s[0] in s;
      WithoutAbsent(s[1..], id);
    }
  }

  // ---- A list in price-time order is determined by its members ----

  lemma {:induction false} SortedIsUnique(s: seq<Order>, t: seq<Order>, isBuy: bool)
    requires Sorted(s, isBuy) && Sorted(t, isBuy)
    requires forall x :: x in s <==> x in t
    ensures s == t
  {
    assert s == [] || s[0] in s;
    assert t == [] || t[0] in t;
    if s != [] && t != [] {
      assert s[0] in t && t[0] in s;
      assert s[0] == t[0];
      TailMembers(s, isBuy);
      TailMembers(t, isBuy);
      SortedIsUnique(s[1..], t[1..], isBuy);
    }
  }

  lemma TailMembers(s: seq<Order>, isBuy: bool)
    requires s != [] && Sorted(s, isBuy)
    ensures forall x :: x in s[1..] <==> x in s && x != s[0]
  {
    forall x | x in s && x != s[0] ensures x in s[1..] {
      var i :| 0 <= i < |s| && s[i] == x;
      assert s[1..][i - 1] == x;
    }
    forall x | x in s[1..] ensures x in s && x != s[0] {
      var i :| 0 <= i < |s[1..]| && s[1..][i] == x;
      assert Before(s[0], s[i + 1], isBuy);
    }
  }
}
