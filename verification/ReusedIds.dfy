/**
 What happens to the engine's book when an order comes in under an id that still rests. The book is compared with
 its twin, in which the newcomer has an id of its own: both trade alike, and their indices differ only at that id.
 */
module ReusedIds {
  import opened Orders
  import opened FlatBook
  import opened PriceLevels

  // ---- A whole call of addOrder: the push, then passes of the loop until the best prices no longer meet ----

  ghost predicate PassAt(b: Book, b': Book, p: real, q: real) {
    && IsBestPrice(p, b.buys, true) && IsBestPrice(q, b.sells, false) && p >= q
    && b.buys[p] != [] && b.sells[q] != [] && b' == TradePass(b, p, q)
  }

  ghost predicate LoopEnds(b: Book) {
    forall p, q :: IsBestPrice(p, b.buys, true) && IsBestPrice(q, b.sells, false) ==> p < q
  }

  /** The books after each pass of the loop that starts at `b`. */
  ghost predicate Loop(b: Book, passes: seq<Book>)
    decreases |passes|
  {
    if passes == [] then LoopEnds(b)
    else (exists p, q :: PassAt(b, passes[0], p, q)) && Loop(passes[0], passes[1..])
  }

  function After(b: Book, passes: seq<Book>): Book {
    if passes == [] then b else passes[|passes| - 1]
  }

  // ---- The twin ----

  function Renamed(o: Order, z: int, id: int): Order {
    if o.id == z then o.(id := id) else o
  }

  function RenamedLevel(level: Level, z: int, id: int): (r: Level)
    ensures |r| == |level| && forall i :: 0 <= i < |r| ==> r[i] == Renamed(level[i], z, id)
  {
    seq(|level|, i requires 0 <= i < |level| => Renamed(level[i], z, id))
  }

  function RenamedLevels(levels: Levels, z: int, id: int): (r: Levels)
    ensures r.Keys == levels.Keys && forall p :: p in r ==> r[p] == RenamedLevel(levels[p], z, id)
  {
    map p | p in levels :: RenamedLevel(levels[p], z, id)
  }

  /** The same entries under every other id. */
  ghost predicate Agree(x: map<int, OrderLocation>, y: map<int, OrderLocation>, z: int, id: int) {
    forall k :: k != z && k != id ==> (k in x <==> k in y) && (k in x ==> x[k] == y[k])
  }

  /** An entry under `id` is left only while both orders rest: using up either of them takes it away. */
  ghost predicate EntriesTwin(x: map<int, OrderLocation>, y: map<int, OrderLocation>, z: int, id: int) {
    Agree(x, y, z, id) && z !in x && (id in x ==> id in y && z in y)
  }

  /** `b` is the book with the id used twice, `t` the one in which the newcomer is `z`. */
  ghost predicate Twin(b: Book, t: Book, z: int, id: int) {
    && b.buys == RenamedLevels(t.buys, z, id) && b.sells == RenamedLevels(t.sells, z, id)
    && EntriesTwin(b.index, t.index, z, id)
  }

  lemma TwinSide(b: Book, t: Book, z: int, id: int, isBuy: bool)
    requires Twin(b, t, z, id)
    ensures b.Of(isBuy) == RenamedLevels(t.Of(isBuy), z, id)
  {
  }

  // ---- Both trade alike ----

  lemma RenamedUpdate(levels: Levels, p: real, level: Level, z: int, id: int)
    ensures RenamedLevels(levels[p := level], z, id) == RenamedLevels(levels, z, id)[p := RenamedLevel(level, z, id)]
  {
  }

  lemma {:induction false} RefreshKeys(index: map<int, OrderLocation>, level: Level, i: nat)
    ensures Refresh(index, level, i).Keys == index.Keys
    decreases |level| - i
  {
    if i < |level| {
      var next := if level[i].id in index then index[level[i].id := index[level[i].id].(vectorIndex := i)] else index;
      RefreshKeys(next, level, i + 1);
      assert next.Keys == index.Keys;
    }
  }

  lemma {:induction false} RefreshTwins(x: map<int, OrderLocation>, y: map<int, OrderLocation>,
                                        level: Level, i: nat, z: int, id: int)
    requires Agree(x, y, z, id)
    ensures Agree(Refresh(x, RenamedLevel(level, z, id), i), Refresh(y, level, i), z, id)
    decreases |level| - i
  {
    if i < |level| {
      var renamed := RenamedLevel(level, z, id);
      var k, l := renamed[i].id, level[i].id;
      var x' := if k in x then x[k := x[k].(vectorIndex := i)] else x;
      var y' := if l in y then y[l := y[l].(vectorIndex := i)] else y;
      assert k == if l == z then id else l;
      RefreshTwins(x', y', level, i + 1, z, id);
    }
  }

  lemma RefreshedEntries(x: map<int, OrderLocation>, y: map<int, OrderLocation>, level: Level, i: nat, z: int, id: int)
    requires EntriesTwin(x, y, z, id)
    ensures EntriesTwin(Refresh(x, RenamedLevel(level, z, id), i), Refresh(y, level, i), z, id)
  {
    RefreshTwins(x, y, level, i, z, id);
    RefreshKeys(x, RenamedLevel(level, z, id), i);
    RefreshKeys(y, level, i);
  }

  lemma TwinDrop(b: Book, t: Book, z: int, id: int, isBuy: bool, p: real)
    requires Twin(b, t, z, id) && z != id && p in t.Of(isBuy) && t.Of(isBuy)[p] != []
    ensures p in b.Of(isBuy) && b.Of(isBuy)[p] != [] && Twin(Drop(b, isBuy, p, 0), Drop(t, isBuy, p, 0), z, id)
  {
    TwinSide(b, t, z, id, isBuy);
    var level := t.Of(isBuy)[p];
    var shorter := RemoveAt(level, 0);
    assert RemoveAt(b.Of(isBuy)[p], 0) == RenamedLevel(shorter, z, id);
    RenamedUpdate(t.Of(isBuy), p, shorter, z, id);
    var x, y := b.index - {b.Of(isBuy)[p][0].id}, t.index - {level[0].id};
    assert EntriesTwin(x, y, z, id);
    RefreshedEntries(x, y, shorter, 0, z, id);
  }

  lemma TwinSetFront(b: Book, t: Book, z: int, id: int, isBuy: bool, p: real, o: Order)
    requires Twin(b, t, z, id) && p in t.Of(isBuy) && t.Of(isBuy)[p] != []
    ensures p in b.Of(isBuy) && b.Of(isBuy)[p] != []
    ensures Twin(SetFront(b, isBuy, p, Renamed(o, z, id)), SetFront(t, isBuy, p, o), z, id)
  {
    TwinSide(b, t, z, id, isBuy);
    var level := t.Of(isBuy)[p][0 := o];
    assert b.Of(isBuy)[p][0 := Renamed(o, z, id)] == RenamedLevel(level, z, id);
    RenamedUpdate(t.Of(isBuy), p, level, z, id);
  }

  lemma TwinPrune(b: Book, t: Book, z: int, id: int, isBuy: bool, p: real)
    requires Twin(b, t, z, id)
    ensures Twin(PruneLevel(b, isBuy, p), PruneLevel(t, isBuy, p), z, id)
  {
    TwinSide(b, t, z, id, isBuy);
    if p in t.Of(isBuy) && t.Of(isBuy)[p] == [] {
      assert b.Of(isBuy)[p] == [];
      assert b.Of(isBuy) - {p} == RenamedLevels(t.Of(isBuy) - {p}, z, id);
    }
  }

  lemma TwinReduce(b: Book, t: Book, z: int, id: int, p: real, q: real, n: int)
    requires Twin(b, t, z, id)
    requires p in t.buys && t.buys[p] != [] && q in t.sells && t.sells[q] != []
    ensures p in b.buys && b.buys[p] != [] && q in b.sells && b.sells[q] != []
    ensures Twin(ReduceFronts(b, p, q, n), ReduceFronts(t, p, q, n), z, id)
  {
    var buy, sell := t.buys[p][0], t.sells[q][0];
    TwinSetFront(b, t, z, id, true, p, buy.(quantity := buy.quantity - n));
    var b1 := SetFront(b, true, p, b.buys[p][0].(quantity := buy.quantity - n));
    TwinSetFront(b1, SetFront(t, true, p, buy.(quantity := buy.quantity - n)), z, id, false, q,
                 sell.(quantity := sell.quantity - n));
  }

  lemma TwinDropIf(b: Book, t: Book, z: int, id: int, isBuy: bool, p: real, exhausted: bool)
    requires Twin(b, t, z, id) && z != id && p in t.Of(isBuy) && t.Of(isBuy)[p] != []
    ensures p in b.Of(isBuy) && b.Of(isBuy)[p] != []
    ensures Twin(DropIf(b, isBuy, p, exhausted), DropIf(t, isBuy, p, exhausted), z, id)
  {
    TwinSide(b, t, z, id, isBuy);
    if exhausted { TwinDrop(b, t, z, id, isBuy, p); }
  }

  lemma TwinPass(b: Book, t: Book, z: int, id: int, p: real, q: real)
    requires Twin(b, t, z, id) && z != id
    requires p in t.buys && t.buys[p] != [] && q in t.sells && t.sells[q] != []
    ensures p in b.buys && b.buys[p] != [] && q in b.sells && b.sells[q] != []
    ensures Twin(TradePass(b, p, q), TradePass(t, p, q), z, id)
  {
    var buy, sell := t.buys[p][0], t.sells[q][0];
    var n := Min(buy.quantity, sell.quantity);
    TwinReduce(b, t, z, id, p, q, n);
    var b1, t1 := ReduceFronts(b, p, q, n), ReduceFronts(t, p, q, n);
    TwinDropIf(b1, t1, z, id, true, p, buy.quantity == n);
    var b2, t2 := DropIf(b1, true, p, buy.quantity == n), DropIf(t1, true, p, buy.quantity == n);
    TwinDropIf(b2, t2, z, id, false, q, sell.quantity == n);
    var b3, t3 := DropIf(b2, false, q, sell.quantity == n), DropIf(t2, false, q, sell.quantity == n);
    TwinPrune(b3, t3, z, id, true, p);
    TwinPrune(PruneLevel(b3, true, p), PruneLevel(t3, true, p), z, id, false, q);
  }

  /** A pass on a consistent book trades the heads of its lists. */
  lemma PassKeeps(b: Book, f: Flat, b': Book, p: real, q: real)
    requires Consistent(b, f) && NoEmptyLevels(b) && PassAt(b, b', p, q)
    ensures Meets(f) && Consistent(b', TradeHeads(f)) && NoEmptyLevels(b')
  {
    BestLevelsMeet(b, f, p, q);
    TradePassTradesHeads(b, f, p, q);
  }

  /** A pass on the book is a pass on its twin, and trades the heads of the twin's lists. */
  lemma PassOfTwin(b: Book, t: Book, f: Flat, z: int, id: int, b': Book, p: real, q: real)
    returns (t': Book, g: Flat)
    requires Twin(b, t, z, id) && z != id && Consistent(t, f) && NoEmptyLevels(t) && PassAt(b, b', p, q)
    ensures Twin(b', t', z, id) && Consistent(t', g) && NoEmptyLevels(t')
  {
    SamePass(b, t, z, id, b', p, q);
    t' := TradePass(t, p, q);
    PassKeeps(t, f, t', p, q);
    g := TradeHeads(f);
    TwinPass(b, t, z, id, p, q);
  }

  lemma SamePass(b: Book, t: Book, z: int, id: int, b': Book, p: real, q: real)
    requires Twin(b, t, z, id) && PassAt(b, b', p, q)
    ensures p in t.buys && t.buys[p] != [] && q in t.sells && t.sells[q] != []
    ensures PassAt(t, TradePass(t, p, q), p, q)
  {
    assert |t.buys[p]| == |b.buys[p]| && |t.sells[q]| == |b.sells[q]|;
  }

  lemma FirstPass(b: Book, passes: seq<Book>) returns (p: real, q: real)
    requires passes != [] && Loop(b, passes)
    ensures PassAt(b, passes[0], p, q) && Loop(passes[0], passes[1..])
    ensures After(b, passes) == After(passes[0], passes[1..])
  {
    p, q :| PassAt(b, passes[0], p, q);
  }

  /** The loop on the book and on its consistent twin, pass by pass. */
  lemma {:induction false} LoopTwins(b: Book, passes: seq<Book>, t: Book, f: Flat, z: int, id: int)
    returns (t': Book, g: Flat)
    requires Twin(b, t, z, id) && z != id && Consistent(t, f) && NoEmptyLevels(t) && Loop(b, passes)
    ensures Twin(After(b, passes), t', z, id) && Consistent(t', g)
    decreases |passes|
  {
    if passes == [] {
      t', g := t, f;
    } else {
      var p, q := FirstPass(b, passes);
      t', g := PassOfTwin(b, t, f, z, id, passes[0], p, q);
      t', g := LoopTwins(passes[0], passes[1..], t', g, z, id);
    }
  }

  lemma NextPass(t: Book, f: Flat) returns (p: real, q: real)
    requires Consistent(t, f) && NoEmptyLevels(t) && Meets(f)
    ensures p in t.buys && t.buys[p] != [] && q in t.sells && t.sells[q] != []
    ensures PassAt(t, TradePass(t, p, q), p, q)
  {
    NoOrdersNoLevels(t.buys, f.bids, true);
    NoOrdersNoLevels(t.sells, f.asks, false);
    p := BestPriceExists(t.buys.Keys, true);
    q := BestPriceExists(t.sells.Keys, false);
    BestLevelsMeet(t, f, p, q);
  }

  lemma NoPass(b: Book, t: Book, f: Flat, z: int, id: int)
    requires Twin(b, t, z, id) && Consistent(t, f) && NoEmptyLevels(t) && !Meets(f)
    ensures LoopEnds(b)
  {
    forall p, q | IsBestPrice(p, b.buys, true) && IsBestPrice(q, b.sells, false) ensures p < q {
      assert IsBestPrice(p, t.buys, true) && IsBestPrice(q, t.sells, false);
      BestLevelsMeet(t, f, p, q);
    }
  }

  /** And it ends. */
  lemma {:induction false} LoopRuns(b: Book, t: Book, f: Flat, z: int, id: int) returns (passes: seq<Book>)
    requires Twin(b, t, z, id) && z != id && Consistent(t, f) && NoEmptyLevels(t)
    ensures Loop(b, passes)
    decreases |f.bids| + |f.asks|
  {
    if Meets(f) {
      var p, q := NextPass(t, f);
      TwinPass(b, t, z, id, p, q);
      PassKeeps(t, f, TradePass(t, p, q), p, q);
      var later := LoopRuns(TradePass(b, p, q), TradePass(t, p, q), TradeHeads(f), z, id);
      passes := [TradePass(b, p, q)] + later;
      assert PassAt(b, passes[0], p, q) && passes[1..] == later;
    } else {
      passes := [];
      NoPass(b, t, f, z, id);
    }
  }

  // ---- The index afterwards ----

  /** No order rests under the id. */
  ghost predicate NothingUnder(b: Book, id: int) {
    forall isBuy, p, i :: p in b.Of(isBuy) && 0 <= i < |b.Of(isBuy)[p]| ==> b.Of(isBuy)[p][i].id != id
  }

  lemma NothingUnderIsTwin(b: Book, t: Book, g: Flat, z: int, id: int)
    requires Twin(b, t, z, id) && Consistent(t, g) && NothingUnder(b, id)
    ensures b == t
  {
    forall isBuy: bool ensures b.Of(isBuy) == t.Of(isBuy) {
      TwinSide(b, t, z, id, isBuy);
      forall p | p in t.Of(isBuy) ensures b.Of(isBuy)[p] == t.Of(isBuy)[p] {
        forall i | 0 <= i < |t.Of(isBuy)[p]| ensures t.Of(isBuy)[p][i].id != z {
          assert b.Of(isBuy)[p][i].id != id;
        }
      }
    }
    assert b.buys == b.Of(true) && t.buys == t.Of(true) && b.sells == b.Of(false) && t.sells == t.Of(false);
    forall k | k in t.index ensures k != id && k != z {
      var loc := t.index[k];
      assert Addresses(t, k, loc);
      TwinSide(b, t, z, id, loc.isBuy);
      assert b.Of(loc.isBuy)[loc.price][loc.vectorIndex].id == if k == z then id else k;
    }
    assert forall k :: k in b.index <==> k in t.index;
    assert b.index == t.index;
  }

  lemma TrackedAt(b: Book, f: Flat, isBuy: bool, p: real, i: nat)
    requires Consistent(b, f) && p in b.Of(isBuy) && i < |b.Of(isBuy)[p]|
    ensures var id := b.Of(isBuy)[p][i].id; id in b.index && b.index[id] == OrderLocation(isBuy, p, i)
  {
    ConsistentSide(b, f, isBuy);
  }

  /** One entry cannot lead to both orders. */
  lemma BothCannotBeTracked(b: Book, t: Book, f: Flat, g: Flat, z: int, id: int)
    requires Twin(b, t, z, id) && z != id && Consistent(t, g) && Consistent(b, f)
    ensures id !in b.index
  {
    if id in b.index {
      var l, m := t.index[id], t.index[z];
      assert Addresses(t, id, l) && Addresses(t, z, m);
      TwinSide(b, t, z, id, l.isBuy);
      TwinSide(b, t, z, id, m.isBuy);
      TrackedAt(b, f, l.isBuy, l.price, l.vectorIndex);
      TrackedAt(b, f, m.isBuy, m.price, m.vectorIndex);
    }
  }

  lemma TrueExactlyWhenUsedUp(b: Book, t: Book, g: Flat, z: int, id: int)
    requires Twin(b, t, z, id) && z != id && Consistent(t, g)
    ensures (exists f :: Consistent(b, f)) <==> NothingUnder(b, id)
  {
    if f :| Consistent(b, f) {
      BothCannotBeTracked(b, t, f, g, z, id);
      forall isBuy, p, i | p in b.Of(isBuy) && 0 <= i < |b.Of(isBuy)[p]| ensures b.Of(isBuy)[p][i].id != id {
        TrackedAt(b, f, isBuy, p, i);
      }
    }
    if NothingUnder(b, id) {
      NothingUnderIsTwin(b, t, g, z, id);
    }
  }

  // ---- The call ----

  lemma {:induction false} FreshId(ids: set<int>) returns (z: int)
    ensures forall id :: id in ids ==> id < z
  {
    if ids == {} {
      z := 0;
      assert forall id :: id !in ids;
    } else {
      var id := SomeMember(ids);
      var y := FreshId(ids - {id});
      z := if y > id then y else id + 1;
      assert forall x :: x in ids ==> x == id || x in ids - {id};
    }
  }

  lemma Unrenamed(levels: Levels, z: int, id: int)
    requires forall p, i :: p in levels && 0 <= i < |levels[p]| ==> levels[p][i].id != z
    ensures RenamedLevels(levels, z, id) == levels
  {
    forall p | p in levels ensures RenamedLevel(levels[p], z, id) == levels[p] {}
  }

  lemma RenamedPush(levels: Levels, o: Order, z: int)
    requires forall p, i :: p in levels && 0 <= i < |levels[p]| ==> levels[p][i].id != z
    ensures var level := if o.price in levels then levels[o.price] else [];
            RenamedLevels(levels[o.price := level + [o.(id := z)]], z, o.id) == levels[o.price := level + [o]]
  {
    var level := if o.price in levels then levels[o.price] else [];
    Unrenamed(levels, z, o.id);
    RenamedUpdate(levels, o.price, level + [o.(id := z)], z, o.id);
    assert RenamedLevel(level + [o.(id := z)], z, o.id) == level + [o];
  }

  lemma PushedTwin(b: Book, f: Flat, o: Order, z: int)
    requires Consistent(b, f) && o.id in b.index && z !in b.index
    ensures Twin(PushBack(b, o), PushBack(b, o.(id := z)), z, o.id)
  {
    ConsistentSide(b, f, o.isBuy);
    ConsistentSide(b, f, !o.isBuy);
    RenamedPush(b.Of(o.isBuy), o, z);
    Unrenamed(b.Of(!o.isBuy), z, o.id);
  }

  lemma {:induction false} FreshLoopKeeps(b: Book, passes: seq<Book>, f: Flat) returns (g: Flat)
    requires Consistent(b, f) && NoEmptyLevels(b) && Loop(b, passes)
    ensures Consistent(After(b, passes), g)
    decreases |passes|
  {
    if passes == [] {
      g := f;
    } else {
      var p, q := FirstPass(b, passes);
      PassKeeps(b, f, passes[0], p, q);
      g := FreshLoopKeeps(passes[0], passes[1..], TradeHeads(f));
    }
  }

  /**
   After a whole call with the latest order: the index is true exactly when the id was not resting before, or
   nothing rests under it afterwards, because the newcomer and the order it shares the id with are both used up.
   */
  lemma IndexAfterAdding(b: Book, f: Flat, o: Order, passes: seq<Book>)
    requires Consistent(b, f) && NoEmptyLevels(b) && (forall x :: x in f.Of(o.isBuy) ==> x.seqNo < o.seqNo)
    requires Loop(PushBack(b, o), passes)
    ensures var after := After(PushBack(b, o), passes);
            (exists g :: Consistent(after, g)) <==> o.id !in b.index || NothingUnder(after, o.id)
  {
    if o.id in b.index {
      var z := FreshId(b.index.Keys);
      PushedTwin(b, f, o, z);
      PushBackInserts(b, f, o.(id := z));
      var t, g := LoopTwins(PushBack(b, o), passes, PushBack(b, o.(id := z)),
                            f.With(o.isBuy, Insert(f.Of(o.isBuy), o.(id := z))), z, o.id);
      TrueExactlyWhenUsedUp(After(PushBack(b, o), passes), t, g, z, o.id);
    } else {
      PushBackInserts(b, f, o);
      var g := FreshLoopKeeps(PushBack(b, o), passes, f.With(o.isBuy, Insert(f.Of(o.isBuy), o)));
    }
  }

  /** The loop of such a call ends. */
  lemma AddingEnds(b: Book, f: Flat, o: Order) returns (passes: seq<Book>)
    requires Consistent(b, f) && NoEmptyLevels(b) && (forall x :: x in f.Of(o.isBuy) ==> x.seqNo < o.seqNo)
    requires o.id in b.index
    ensures Loop(PushBack(b, o), passes)
  {
    var z := FreshId(b.index.Keys);
    PushedTwin(b, f, o, z);
    PushBackInserts(b, f, o.(id := z));
    passes := LoopRuns(PushBack(b, o), PushBack(b, o.(id := z)),
                       f.With(o.isBuy, Insert(f.Of(o.isBuy), o.(id := z))), z, o.id);
  }
}
