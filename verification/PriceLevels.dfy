/**
 The engine's book as a value: price levels holding arrival-ordered vectors, and the side index from order
 id to position. The lemmas say what each elementary edit of OrderBook.h and MatchingEngine.cpp does to the
 flat price-time lists the levels stand for.
 */
module PriceLevels {
  import opened Orders
  import opened FlatBook

  type Level = seq<Order>
  type Levels = map<real, Level>

  datatype OrderLocation = OrderLocation(isBuy: bool, price: real, vectorIndex: nat)

  datatype Book = Book(buys: Levels, sells: Levels, index: map<int, OrderLocation>) {
    function Of(isBuy: bool): Levels {
      if isBuy then buys else sells
    }

    function With(isBuy: bool, levels: Levels): Book {
      if isBuy then Book(levels, sells, index) else Book(buys, levels, index)
    }
  }

  // ---- What a consistent book is ----

  /** One vector: a single price and side, in arrival order. */
  ghost predicate WfLevel(level: Level, price: real, isBuy: bool) {
    && (forall i :: 0 <= i < |level| ==> level[i].price == price && level[i].isBuy == isBuy)
    && (forall i, j :: 0 <= i < j < |level| ==> level[i].seqNo < level[j].seqNo)
  }

  ghost predicate WfLevels(levels: Levels, isBuy: bool) {
    forall p :: p in levels ==> WfLevel(levels[p], p, isBuy)
  }

  ghost predicate NoEmptyLevel(levels: Levels) {
    forall p :: p in levels ==> levels[p] != []
  }

  predicate InLevels(o: Order, levels: Levels) {
    o.price in levels && o in levels[o.price]
  }

  /** `s` is the price-time listing of the levels. */
  ghost predicate Lists(s: seq<Order>, levels: Levels, isBuy: bool) {
    Sorted(s, isBuy) && forall o :: o in s <==> InLevels(o, levels)
  }

  predicate Addresses(b: Book, id: int, loc: OrderLocation) {
    && loc.price in b.Of(loc.isBuy)
    && loc.vectorIndex < |b.Of(loc.isBuy)[loc.price]|
    && b.Of(loc.isBuy)[loc.price][loc.vectorIndex].id == id
  }

  /** Every order of one side is tracked under its own side, price and position. */
  ghost predicate Tracked(levels: Levels, isBuy: bool, index: map<int, OrderLocation>) {
    forall p, i :: p in levels && 0 <= i < |levels[p]| ==>
      levels[p][i].id in index && index[levels[p][i].id] == OrderLocation(isBuy, p, i)
  }

  ghost predicate SideOk(levels: Levels, s: seq<Order>, isBuy: bool, index: map<int, OrderLocation>) {
    WfLevels(levels, isBuy) && Lists(s, levels, isBuy) && Tracked(levels, isBuy, index)
  }

  /** Every tracked id addresses a resting order of that id. */
  ghost predicate Truthful(b: Book) {
    forall id :: id in b.index ==> Addresses(b, id, b.index[id])
  }

  /** The book stands for the flat lists `f`, and the index for exactly the resting orders. */
  ghost predicate Consistent(b: Book, f: Flat) {
    && SideOk(b.buys, f.bids, true, b.index)
    && SideOk(b.sells, f.asks, false, b.index)
    && Truthful(b)
  }

  ghost predicate NoEmptyLevels(b: Book) {
    NoEmptyLevel(b.buys) && NoEmptyLevel(b.sells)
  }

  // ---- The elementary edits ----

  /** operator[] followed by push_back, and the index entry. */
  function PushBack(b: Book, o: Order): Book {
    var levels := b.Of(o.isBuy);
    var level := (if o.price in levels then levels[o.price] else []) + [o];
    b.With(o.isBuy, levels[o.price := level])
    .(index := b.index[o.id := OrderLocation(o.isBuy, o.price, |level| - 1)])
  }

  function SetFront(b: Book, isBuy: bool, price: real, o: Order): Book
    requires price in b.Of(isBuy) && b.Of(isBuy)[price] != []
  {
    b.With(isBuy, b.Of(isBuy)[price := b.Of(isBuy)[price][0 := o]])
  }

  function RemoveAt(level: Level, k: nat): Level
    requires k < |level|
  {
    level[..k] + level[k + 1..]
  }

  /** The refresh loop of eraseAt: tracked orders from position `i` on are told where they are. */
  function Refresh(index: map<int, OrderLocation>, level: Level, i: nat): map<int, OrderLocation>
    decreases |level| - i
  {
    if i >= |level| then index
    else if level[i].id in index then
      Refresh(index[level[i].id := index[level[i].id].(vectorIndex := i)], level, i + 1)
    else
      Refresh(index, level, i + 1)
  }

  /** OrderBook::eraseAt. */
  function EraseAt(b: Book, isBuy: bool, price: real, k: nat): Book
    requires price in b.Of(isBuy)
  {
    var level := b.Of(isBuy)[price];
    if k >= |level| then b
    else
      var shorter := RemoveAt(level, k);
      b.With(isBuy, b.Of(isBuy)[price := shorter]).(index := Refresh(b.index, shorter, k))
  }

  /** Untrack the order at position `k`, then erase it. */
  function Drop(b: Book, isBuy: bool, price: real, k: nat): Book
    requires price in b.Of(isBuy) && k < |b.Of(isBuy)[price]|
  {
    EraseAt(b.(index := b.index - {b.Of(isBuy)[price][k].id}), isBuy, price, k)
  }

  function PruneLevel(b: Book, isBuy: bool, price: real): Book {
    if price in b.Of(isBuy) && b.Of(isBuy)[price] == [] then b.With(isBuy, b.Of(isBuy) - {price}) else b
  }

  // ---- Facts about consistent books ----

  lemma SomeMember<T>(s: set<T>) returns (x: T)
    requires s != {}
    ensures x in s
  {
    x :| x in s;
  }

  lemma ConsistentSide(b: Book, f: Flat, isBuy: bool)
    requires Consistent(b, f)
    ensures SideOk(b.Of(isBuy), f.Of(isBuy), isBuy, b.index)
  {
  }

  lemma ListedIsTracked(levels: Levels, s: seq<Order>, isBuy: bool, index: map<int, OrderLocation>, o: Order)
    requires SideOk(levels, s, isBuy, index) && o in s
    ensures o.isBuy == isBuy && o.price in levels && o.id in index
    ensures var loc := index[o.id];
            loc.isBuy == isBuy && loc.price == o.price && loc.vectorIndex < |levels[o.price]|
            && levels[o.price][loc.vectorIndex] == o
  {
    assert InLevels(o, levels);
    var i :| 0 <= i < |levels[o.price]| && levels[o.price][i] == o;
    assert WfLevel(levels[o.price], o.price, isBuy);
  }

  lemma LevelOrderIsListed(levels: Levels, s: seq<Order>, isBuy: bool, p: real, k: nat)
    requires WfLevels(levels, isBuy) && Lists(s, levels, isBuy) && p in levels && k < |levels[p]|
    ensures levels[p][k] in s && levels[p][k].price == p
  {
    assert WfLevel(levels[p], p, isBuy);
    assert InLevels(levels[p][k], levels);
  }

  lemma SideIsProper(levels: Levels, s: seq<Order>, isBuy: bool, index: map<int, OrderLocation>)
    requires SideOk(levels, s, isBuy, index)
    ensures OneSided(s, isBuy) && DistinctIds(s)
  {
    forall o | o in s ensures o.isBuy == isBuy {
      ListedIsTracked(levels, s, isBuy, index, o);
    }
    forall i, j | 0 <= i < j < |s| ensures s[i].id != s[j].id {
      ListedIsTracked(levels, s, isBuy, index, s[i]);
      ListedIsTracked(levels, s, isBuy, index, s[j]);
      assert Before(s[i], s[j], isBuy);
    }
  }

  /** A consistent book's flat lists are proper: sorted, sided and free of repeated ids. */
  lemma ConsistentIsProper(b: Book, f: Flat)
    requires Consistent(b, f)
    ensures Proper(f)
  {
    SideIsProper(b.buys, f.bids, true, b.index);
    SideIsProper(b.sells, f.asks, false, b.index);
    forall x, y | x in f.bids && y in f.asks ensures x.id != y.id {
      ListedIsTracked(b.buys, f.bids, true, b.index, x);
      ListedIsTracked(b.sells, f.asks, false, b.index, y);
    }
  }

  ghost predicate IsBestPrice(p: real, levels: Levels, isBuy: bool) {
    p in levels && forall k :: k in levels ==> if isBuy then k <= p else k >= p
  }

  lemma {:induction false} BestPriceExists(prices: set<real>, isBuy: bool) returns (p: real)
    requires prices != {}
    ensures p in prices && forall k :: k in prices ==> if isBuy then k <= p else k >= p
    decreases prices
  {
    var x := SomeMember(prices);
    var rest := prices - {x};
    assert forall k :: k in prices ==> k == x || k in rest;
    p := x;
    if rest != {} {
      var q := BestPriceExists(rest, isBuy);
      if isBuy == (q > x) { p := q; }
    }
  }

  /** The front of the best level is the head of the flat list. */
  lemma FrontIsHead(levels: Levels, s: seq<Order>, isBuy: bool, index: map<int, OrderLocation>, p: real)
    requires SideOk(levels, s, isBuy, index) && IsBestPrice(p, levels, isBuy) && levels[p] != []
    ensures s != [] && s[0] == levels[p][0] && s[0].price == p
  {
    LevelOrderIsListed(levels, s, isBuy, p, 0);
    var j :| 0 <= j < |s| && s[j] == levels[p][0];
    ListedIsTracked(levels, s, isBuy, index, s[0]);
    assert WfLevel(levels[p], p, isBuy);
  }

  lemma NoOrdersNoLevels(levels: Levels, s: seq<Order>, isBuy: bool)
    requires WfLevels(levels, isBuy) && Lists(s, levels, isBuy) && NoEmptyLevel(levels)
    ensures s == [] <==> levels == map[]
  {
    assert s == [] || InLevels(s[0], levels);
    if levels != map[] {
      assert levels.Keys != {};
      var p := SomeMember(levels.Keys);
      LevelOrderIsListed(levels, s, isBuy, p, 0);
    }
  }

  // ---- What the edits do, side by side ----

  /** A side is indifferent to index entries of ids it does not hold. */
  lemma SideFrame(levels: Levels, s: seq<Order>, isBuy: bool, index: map<int, OrderLocation>,
                  index': map<int, OrderLocation>)
    requires SideOk(levels, s, isBuy, index)
    requires forall id :: id in index && index[id].isBuy == isBuy ==> id in index' && index'[id] == index[id]
    ensures SideOk(levels, s, isBuy, index')
  {
  }

  lemma AppendLists(levels: Levels, s: seq<Order>, o: Order)
    requires WfLevels(levels, o.isBuy) && Lists(s, levels, o.isBuy)
    requires forall x :: x in s ==> x.seqNo < o.seqNo
    ensures var level := (if o.price in levels then levels[o.price] else []) + [o];
            WfLevels(levels[o.price := level], o.isBuy)
            && Lists(Insert(s, o), levels[o.price := level], o.isBuy)
  {
    var prior := if o.price in levels then levels[o.price] else [];
    forall i | 0 <= i < |prior| ensures prior[i].seqNo < o.seqNo {
      LevelOrderIsListed(levels, s, o.isBuy, o.price, i);
    }
    assert WfLevel(prior, o.price, o.isBuy);
    AppendToLevel(prior, o);
    var k := InsertAt(s, o);
    AppendMembers(levels, s, o);
  }

  lemma AppendMembers(levels: Levels, s: seq<Order>, o: Order)
    requires forall x :: x in s <==> InLevels(x, levels)
    ensures var level := (if o.price in levels then levels[o.price] else []) + [o];
            forall x :: x in Insert(s, o) <==> InLevels(x, levels[o.price := level])
  {
    var prior := if o.price in levels then levels[o.price] else [];
    InsertMembers(s, o);
    forall x ensures x in Insert(s, o) <==> InLevels(x, levels[o.price := prior + [o]]) {
      assert x in s <==> InLevels(x, levels);
    }
  }

  lemma AppendToLevel(level: Level, o: Order)
    requires WfLevel(level, o.price, o.isBuy)
    requires forall i :: 0 <= i < |level| ==> level[i].seqNo < o.seqNo
    ensures WfLevel(level + [o], o.price, o.isBuy)
    ensures forall x :: x in level + [o] <==> x in level || x == o
  {
  }

  lemma AppendTracked(levels: Levels, isBuy: bool, index: map<int, OrderLocation>, o: Order)
    requires Tracked(levels, isBuy, index) && o.id !in index && o.isBuy == isBuy
    ensures var level := (if o.price in levels then levels[o.price] else []) + [o];
            Tracked(levels[o.price := level], isBuy, index[o.id := OrderLocation(isBuy, o.price, |level| - 1)])
  {
    var prior := if o.price in levels then levels[o.price] else [];
    var levels': Levels := levels[o.price := prior + [o]];
    forall p, i | p in levels' && 0 <= i < |levels'[p]| && (p != o.price || i < |prior|)
      ensures levels'[p][i].id in index && index[levels'[p][i].id] == OrderLocation(isBuy, p, i)
    {
      assert p in levels && levels[p][i] == levels'[p][i];
    }
  }

  lemma PushBackInserts(b: Book, f: Flat, o: Order)
    requires Consistent(b, f) && o.id !in b.index
    requires forall x :: x in f.Of(o.isBuy) ==> x.seqNo < o.seqNo
    ensures Consistent(PushBack(b, o), f.With(o.isBuy, Insert(f.Of(o.isBuy), o)))
  {
    var c := PushBack(b, o);
    ConsistentSide(b, f, o.isBuy);
    ConsistentSide(b, f, !o.isBuy);
    AppendLists(b.Of(o.isBuy), f.Of(o.isBuy), o);
    AppendTracked(b.Of(o.isBuy), o.isBuy, b.index, o);
    SideFrame(b.Of(!o.isBuy), f.Of(!o.isBuy), !o.isBuy, b.index, c.index);
    forall id | id in c.index ensures Addresses(c, id, c.index[id]) {
      if id != o.id { assert Addresses(b, id, b.index[id]); }
    }
  }

  /** The entry of a resting order is overwritten when its id is used again, so nothing leads to that order any more. */
  lemma ReusedIdIsLost(b: Book, f: Flat, o: Order, g: Flat)
    requires Consistent(b, f) && o.id in b.index
    ensures !Consistent(PushBack(b, o), g)
  {
    var loc, c := b.index[o.id], PushBack(b, o);
    assert Addresses(b, o.id, loc);
    var x := b.Of(loc.isBuy)[loc.price][loc.vectorIndex];
    assert loc.price in c.Of(loc.isBuy) && loc.vectorIndex < |c.Of(loc.isBuy)[loc.price]|;
    assert c.Of(loc.isBuy)[loc.price][loc.vectorIndex] == x && x.id == o.id;
    assert c.index[o.id] != loc;
    if Consistent(c, g) {
      ConsistentSide(c, g, loc.isBuy);
      assert false;
    }
  }

  /** Adding the latest order keeps the index true exactly when its id is not resting already. */
  lemma AddingIsSafeExactlyForFreshIds(b: Book, f: Flat, o: Order)
    requires Consistent(b, f) && forall x :: x in f.Of(o.isBuy) ==> x.seqNo < o.seqNo
    ensures (exists g :: Consistent(PushBack(b, o), g)) <==> o.id !in b.index
  {
    if o.id in b.index {
      forall g ensures !Consistent(PushBack(b, o), g) { ReusedIdIsLost(b, f, o, g); }
    } else {
      PushBackInserts(b, f, o);
    }
  }

  lemma ReplacedMembers(s: seq<Order>, o: Order)
    requires s != [] && forall i, j :: 0 <= i < j < |s| ==> s[i] != s[j]
    ensures forall x :: x in s[0 := o] <==> x == o || (x in s && x != s[0])
  {
    var r := s[0 := o];
    forall x | x in s && x != s[0] ensures x in r {
      var i :| 0 <= i < |s| && s[i] == x;
      assert r[i] == x;
    }
    forall x | x in r ensures x == o || (x in s && x != s[0]) {
      var i :| 0 <= i < |r| && r[i] == x;
      assert i > 0 ==> s[0] != s[i] && r[i] == s[i];
    }
    assert r[0] == o;
  }

  lemma SetFrontLists(levels: Levels, s: seq<Order>, isBuy: bool, index: map<int, OrderLocation>, p: real, q: int)
    requires SideOk(levels, s, isBuy, index) && IsBestPrice(p, levels, isBuy) && levels[p] != []
    ensures var o := levels[p][0].(quantity := q);
            s != [] && SideOk(levels[p := levels[p][0 := o]], s[0 := o], isBuy, index)
  {
    var o := levels[p][0].(quantity := q);
    var levels': Levels := levels[p := levels[p][0 := o]];
    FrontIsHead(levels, s, isBuy, index, p);
    assert forall i, j :: 0 <= i < j < |s| ==> Before(s[i], s[j], isBuy);
    assert WfLevel(levels[p], p, isBuy);
    assert WfLevel(levels'[p], p, isBuy);
    assert Sorted(s[0 := o], isBuy);
    ReplacedMembers(s, o);
    ReplacedMembers(levels[p], o);
    forall x ensures x in s[0 := o] <==> InLevels(x, levels') {
      assert x in s <==> InLevels(x, levels);
    }
    forall r, i | r in levels' && 0 <= i < |levels'[r]|
      ensures levels'[r][i].id in index && index[levels'[r][i].id] == OrderLocation(isBuy, r, i)
    {
      assert levels'[r][i].id == levels[r][i].id;
    }
  }

  /** A fill changes the quantity of the head of the flat list and nothing else. */
  lemma SetFrontEdits(b: Book, f: Flat, isBuy: bool, p: real, q: int)
    requires Consistent(b, f) && IsBestPrice(p, b.Of(isBuy), isBuy) && b.Of(isBuy)[p] != []
    ensures var o := b.Of(isBuy)[p][0].(quantity := q);
            f.Of(isBuy) != [] && Consistent(SetFront(b, isBuy, p, o), f.With(isBuy, f.Of(isBuy)[0 := o]))
  {
    var o := b.Of(isBuy)[p][0].(quantity := q);
    var c := SetFront(b, isBuy, p, o);
    ConsistentSide(b, f, isBuy);
    ConsistentSide(b, f, !isBuy);
    SetFrontLists(b.Of(isBuy), f.Of(isBuy), isBuy, b.index, p, q);
    forall id | id in c.index ensures Addresses(c, id, c.index[id]) {
      assert Addresses(b, id, b.index[id]);
    }
  }

  /** After the refresh every tracked order of the level from `i` on has its position; nothing else moved. */
  lemma {:induction false} RefreshMeans(index: map<int, OrderLocation>, level: Level, i: nat)
    requires i <= |level|
    requires forall j, k :: 0 <= j < k < |level| ==> level[j].id != level[k].id
    ensures var r := Refresh(index, level, i);
            && r.Keys == index.Keys
            && (forall j :: i <= j < |level| && level[j].id in index ==>
                  r[level[j].id] == index[level[j].id].(vectorIndex := j))
            && (forall id :: id in index && (forall j :: i <= j < |level| ==> level[j].id != id) ==>
                  r[id] == index[id])
    decreases |level| - i
  {
    if i < |level| {
      var next := if level[i].id in index then index[level[i].id := index[level[i].id].(vectorIndex := i)] else index;
      RefreshMeans(next, level, i + 1);
      assert next.Keys == index.Keys;
    }
  }

  /** The index after one order has been untracked and erased: the later ones of its level move down by one. */
  ghost predicate ShiftedDown(index: map<int, OrderLocation>, index': map<int, OrderLocation>,
                              isBuy: bool, p: real, k: nat, gone: int)
  {
    && index'.Keys == index.Keys - {gone}
    && forall id :: id in index' ==>
         index'[id] == if index[id].isBuy == isBuy && index[id].price == p && index[id].vectorIndex > k
                       then index[id].(vectorIndex := index[id].vectorIndex - 1) else index[id]
  }

  lemma DropShifts(b: Book, isBuy: bool, p: real, k: nat)
    requires Truthful(b) && Tracked(b.Of(isBuy), isBuy, b.index) && p in b.Of(isBuy) && k < |b.Of(isBuy)[p]|
    ensures ShiftedDown(b.index, Drop(b, isBuy, p, k).index, isBuy, p, k, b.Of(isBuy)[p][k].id)
  {
    var level := b.Of(isBuy)[p];
    var gone, shorter := level[k].id, RemoveAt(level, k);
    var untracked := b.index - {gone};
    var index' := Refresh(untracked, shorter, k);
    assert forall i :: 0 <= i < |level| ==> b.index[level[i].id] == OrderLocation(isBuy, p, i);
    assert forall i :: 0 <= i < |shorter| ==> shorter[i] == level[if i < k then i else i + 1];
    RefreshMeans(untracked, shorter, k);
    forall id | id in index'
      ensures index'[id] == if b.index[id].isBuy == isBuy && b.index[id].price == p && b.index[id].vectorIndex > k
                            then b.index[id].(vectorIndex := b.index[id].vectorIndex - 1) else b.index[id]
    {
      var loc := b.index[id];
      assert Addresses(b, id, loc);
      if loc.isBuy == isBuy && loc.price == p && loc.vectorIndex > k {
        assert shorter[loc.vectorIndex - 1].id == id;
      } else {
        forall j | k <= j < |shorter| ensures shorter[j].id != id {
          assert shorter[j] == level[j + 1];
        }
      }
    }
  }

  lemma DropTracked(levels: Levels, isBuy: bool, index: map<int, OrderLocation>, index': map<int, OrderLocation>,
                    p: real, k: nat)
    requires Tracked(levels, isBuy, index) && p in levels && k < |levels[p]|
    requires ShiftedDown(index, index', isBuy, p, k, levels[p][k].id)
    ensures Tracked(levels[p := RemoveAt(levels[p], k)], isBuy, index')
  {
    var levels': Levels := levels[p := RemoveAt(levels[p], k)];
    forall q, i | q in levels' && 0 <= i < |levels'[q]|
      ensures levels'[q][i].id in index' && index'[levels'[q][i].id] == OrderLocation(isBuy, q, i)
    {
      var j := if q == p && i >= k then i + 1 else i;
      assert levels'[q][i] == levels[q][j];
      assert index[levels[q][j].id] == OrderLocation(isBuy, q, j);
      assert index[levels[p][k].id] == OrderLocation(isBuy, p, k);
    }
  }

  lemma DropLists(levels: Levels, s: seq<Order>, isBuy: bool, index: map<int, OrderLocation>, p: real, k: nat)
    requires SideOk(levels, s, isBuy, index) && p in levels && k < |levels[p]|
    ensures var levels' := levels[p := RemoveAt(levels[p], k)];
            WfLevels(levels', isBuy) && Lists(Without(s, levels[p][k].id), levels', isBuy)
  {
    var gone, level := levels[p][k].id, levels[p];
    var levels': Levels := levels[p := RemoveAt(level, k)];
    assert WfLevel(level, p, isBuy);
    assert WfLevel(RemoveAt(level, k), p, isBuy);
    WithoutMembers(s, gone);
    WithoutIsSorted(s, gone, isBuy);
    RemovedMembers(level, k);
    forall x ensures x in Without(s, gone) <==> InLevels(x, levels') {
      assert x in s <==> InLevels(x, levels);
      if x in s { ListedIsTracked(levels, s, isBuy, index, x); }
      assert index[gone] == OrderLocation(isBuy, p, k);
    }
  }

  lemma RemovedMembers(level: Level, k: nat)
    requires k < |level| && forall i, j :: 0 <= i < j < |level| ==> level[i].seqNo < level[j].seqNo
    ensures forall x :: x in RemoveAt(level, k) <==> x in level && x != level[k]
  {
    var r := RemoveAt(level, k);
    forall x | x in level && x != level[k] ensures x in r {
      var i :| 0 <= i < |level| && level[i] == x;
      assert r[if i < k then i else i - 1] == x;
    }
    forall x | x in r ensures x in level && x != level[k] {
      var i :| 0 <= i < |r| && r[i] == x;
      var j := if i < k then i else i + 1;
      assert level[j] == x;
      assert j < k ==> level[j].seqNo < level[k].seqNo;
      assert j > k ==> level[k].seqNo < level[j].seqNo;
    }
  }

  lemma DropTruthful(b: Book, isBuy: bool, p: real, k: nat)
    requires Truthful(b) && Tracked(b.Of(isBuy), isBuy, b.index) && p in b.Of(isBuy) && k < |b.Of(isBuy)[p]|
    ensures Truthful(Drop(b, isBuy, p, k))
  {
    var c, shorter := Drop(b, isBuy, p, k), RemoveAt(b.Of(isBuy)[p], k);
    DropShifts(b, isBuy, p, k);
    assert c.Of(isBuy) == b.Of(isBuy)[p := shorter] && c.Of(!isBuy) == b.Of(!isBuy);
    forall id | id in c.index ensures Addresses(c, id, c.index[id]) {
      var loc, loc' := b.index[id], c.index[id];
      assert Addresses(b, id, loc);
      if loc.isBuy == isBuy && loc.price == p {
        assert loc.vectorIndex != k;
        assert shorter[loc'.vectorIndex] == b.Of(isBuy)[p][loc.vectorIndex];
      } else {
        assert loc' == loc && c.Of(loc.isBuy)[loc.price] == b.Of(loc.isBuy)[loc.price];
      }
    }
  }

  lemma Assemble(b: Book, f: Flat, isBuy: bool)
    requires SideOk(b.Of(isBuy), f.Of(isBuy), isBuy, b.index)
    requires SideOk(b.Of(!isBuy), f.Of(!isBuy), !isBuy, b.index)
    requires Truthful(b)
    ensures Consistent(b, f)
  {
  }

  /** Dropping an order removes it, and only it, from the flat list, and leaves every position truthful. */
  lemma DropRemoves(b: Book, f: Flat, isBuy: bool, p: real, k: nat)
    requires Consistent(b, f) && p in b.Of(isBuy) && k < |b.Of(isBuy)[p]|
    ensures var id := b.Of(isBuy)[p][k].id;
            Consistent(Drop(b, isBuy, p, k), f.With(isBuy, Without(f.Of(isBuy), id)))
            && Drop(b, isBuy, p, k).index.Keys == b.index.Keys - {id}
  {
    var gone, c := b.Of(isBuy)[p][k].id, Drop(b, isBuy, p, k);
    ConsistentSide(b, f, isBuy);
    ConsistentSide(b, f, !isBuy);
    DropShifts(b, isBuy, p, k);
    DropTruthful(b, isBuy, p, k);
    DropTracked(b.Of(isBuy), isBuy, b.index, c.index, p, k);
    DropLists(b.Of(isBuy), f.Of(isBuy), isBuy, b.index, p, k);
    DropFrames(b, f.Of(!isBuy), isBuy, p, k);
    Assemble(c, f.With(isBuy, Without(f.Of(isBuy), gone)), isBuy);
  }

  lemma DropFrames(b: Book, s: seq<Order>, isBuy: bool, p: real, k: nat)
    requires Tracked(b.Of(isBuy), isBuy, b.index) && p in b.Of(isBuy) && k < |b.Of(isBuy)[p]|
    requires SideOk(b.Of(!isBuy), s, !isBuy, b.index)
    requires ShiftedDown(b.index, Drop(b, isBuy, p, k).index, isBuy, p, k, b.Of(isBuy)[p][k].id)
    ensures SideOk(b.Of(!isBuy), s, !isBuy, Drop(b, isBuy, p, k).index)
  {
    assert b.index[b.Of(isBuy)[p][k].id] == OrderLocation(isBuy, p, k);
    SideFrame(b.Of(!isBuy), s, !isBuy, b.index, Drop(b, isBuy, p, k).index);
  }

  /** A tracked id leaves the flat book by leaving its own side. */
  lemma WithdrawIsOneSided(b: Book, f: Flat, id: int)
    requires Consistent(b, f) && id in b.index
    ensures var isBuy := b.index[id].isBuy;
            Withdraw(f, id) == f.With(isBuy, Without(f.Of(isBuy), id))
  {
    var isBuy := b.index[id].isBuy;
    ConsistentSide(b, f, !isBuy);
    forall x | x in f.Of(!isBuy) ensures x.id != id {
      ListedIsTracked(b.Of(!isBuy), f.Of(!isBuy), !isBuy, b.index, x);
    }
    WithoutAbsent(f.Of(!isBuy), id);
  }

  lemma UntrackedIsAbsent(b: Book, f: Flat, id: int)
    requires Consistent(b, f) && id !in b.index
    ensures Withdraw(f, id) == f
  {
    forall x | x in f.bids ensures x.id != id { ListedIsTracked(b.buys, f.bids, true, b.index, x); }
    forall x | x in f.asks ensures x.id != id { ListedIsTracked(b.sells, f.asks, false, b.index, x); }
    WithoutAbsent(f.bids, id);
    WithoutAbsent(f.asks, id);
  }

  lemma PruneKeeps(b: Book, f: Flat, isBuy: bool, p: real)
    requires Consistent(b, f)
    requires forall q :: q in b.Of(isBuy) && q != p ==> b.Of(isBuy)[q] != []
    ensures Consistent(PruneLevel(b, isBuy, p), f)
    ensures NoEmptyLevel(PruneLevel(b, isBuy, p).Of(isBuy))
  {
    var c := PruneLevel(b, isBuy, p);
    ConsistentSide(b, f, isBuy);
    forall x ensures InLevels(x, c.Of(isBuy)) <==> InLevels(x, b.Of(isBuy)) {}
    assert WfLevels(c.Of(isBuy), isBuy);
    forall id | id in c.index ensures Addresses(c, id, c.index[id]) {
      assert Addresses(b, id, b.index[id]);
    }
  }

  /** The levels are determined by the flat lists: a book has one representation. */
  lemma LevelsAreDetermined(levels: Levels, levels': Levels, s: seq<Order>, isBuy: bool)
    requires WfLevels(levels, isBuy) && Lists(s, levels, isBuy) && NoEmptyLevel(levels)
    requires WfLevels(levels', isBuy) && Lists(s, levels', isBuy) && NoEmptyLevel(levels')
    ensures levels == levels'
  {
    forall p ensures p in levels <==> p in levels' {
      if p in levels { LevelIsIn(levels, levels', s, isBuy, p); }
      if p in levels' { LevelIsIn(levels', levels, s, isBuy, p); }
    }
    forall p | p in levels ensures levels[p] == levels'[p] {
      LevelIsIn(levels, levels', s, isBuy, p);
      LevelIsIn(levels', levels, s, isBuy, p);
      LevelIsSorted(levels[p], p, isBuy);
      LevelIsSorted(levels'[p], p, isBuy);
      SortedIsUnique(levels[p], levels'[p], isBuy);
    }
  }

  lemma LevelIsSorted(level: Level, p: real, isBuy: bool)
    requires WfLevel(level, p, isBuy)
    ensures Sorted(level, isBuy)
  {
  }

  lemma LevelIsIn(levels: Levels, levels': Levels, s: seq<Order>, isBuy: bool, p: real)
    requires WfLevels(levels, isBuy) && Lists(s, levels, isBuy) && NoEmptyLevel(levels) && p in levels
    requires Lists(s, levels', isBuy)
    ensures p in levels' && forall x :: x in levels[p] ==> x in levels'[p]
  {
    forall i | 0 <= i < |levels[p]| ensures p in levels' && levels[p][i] in levels'[p] {
      LevelOrderIsListed(levels, s, isBuy, p, i);
      assert InLevels(levels[p][i], levels');
    }
    assert levels[p][0] in levels[p];
  }

  // ---- One pass of the matching loop ----

  /** Both fronts lose `q` units. */
  function ReduceFronts(b: Book, buyPrice: real, sellPrice: real, q: int): Book
    requires buyPrice in b.buys && b.buys[buyPrice] != []
    requires sellPrice in b.sells && b.sells[sellPrice] != []
  {
    var buy, sell := b.buys[buyPrice][0], b.sells[sellPrice][0];
    SetFront(SetFront(b, true, buyPrice, buy.(quantity := buy.quantity - q)),
             false, sellPrice, sell.(quantity := sell.quantity - q))
  }

  function DropIf(b: Book, isBuy: bool, p: real, exhausted: bool): Book
    requires p in b.Of(isBuy) && b.Of(isBuy)[p] != []
  {
    if exhausted then Drop(b, isBuy, p, 0) else b
  }

  /** The edits of one pass, in the order the loop makes them. */
  function TradePass(b: Book, buyPrice: real, sellPrice: real): Book
    requires buyPrice in b.buys && b.buys[buyPrice] != []
    requires sellPrice in b.sells && b.sells[sellPrice] != []
  {
    var buy, sell := b.buys[buyPrice][0], b.sells[sellPrice][0];
    var q := Min(buy.quantity, sell.quantity);
    var b1 := ReduceFronts(b, buyPrice, sellPrice, q);
    var b2 := DropIf(b1, true, buyPrice, buy.quantity == q);
    var b3 := DropIf(b2, false, sellPrice, sell.quantity == q);
    PruneLevel(PruneLevel(b3, true, buyPrice), false, sellPrice)
  }

  lemma DropHead(b: Book, f: Flat, isBuy: bool, p: real)
    requires Consistent(b, f) && IsBestPrice(p, b.Of(isBuy), isBuy) && b.Of(isBuy)[p] != []
    ensures f.Of(isBuy) != [] && Consistent(Drop(b, isBuy, p, 0), f.With(isBuy, f.Of(isBuy)[1..]))
  {
    ConsistentSide(b, f, isBuy);
    SideIsProper(b.Of(isBuy), f.Of(isBuy), isBuy, b.index);
    FrontIsHead(b.Of(isBuy), f.Of(isBuy), isBuy, b.index, p);
    WithoutCutsOne(f.Of(isBuy), 0);
    DropRemoves(b, f, isBuy, p, 0);
  }

  lemma DropIfKeeps(b: Book, f: Flat, isBuy: bool, p: real, exhausted: bool)
    requires Consistent(b, f) && IsBestPrice(p, b.Of(isBuy), isBuy) && b.Of(isBuy)[p] != []
    ensures var c := DropIf(b, isBuy, p, exhausted);
            && f.Of(isBuy) != []
            && Consistent(c, f.With(isBuy, if exhausted then f.Of(isBuy)[1..] else f.Of(isBuy)))
            && c.Of(!isBuy) == b.Of(!isBuy)
            && c.Of(isBuy).Keys == b.Of(isBuy).Keys
            && forall r :: r in c.Of(isBuy) && r != p ==> c.Of(isBuy)[r] == b.Of(isBuy)[r]
  {
    DropHead(b, f, isBuy, p);
  }

  /** The head of one side loses `q` units. */
  lemma ReduceHead(b: Book, f: Flat, isBuy: bool, p: real, q: int)
    requires Consistent(b, f) && IsBestPrice(p, b.Of(isBuy), isBuy) && b.Of(isBuy)[p] != []
    ensures var m := b.Of(isBuy)[p][0];
            var o := m.(quantity := m.quantity - q);
            && f.Of(isBuy) != [] && f.Of(isBuy)[0] == m
            && Consistent(SetFront(b, isBuy, p, o), f.With(isBuy, [o] + f.Of(isBuy)[1..]))
            && SetFront(b, isBuy, p, o).Of(!isBuy) == b.Of(!isBuy)
  {
    ConsistentSide(b, f, isBuy);
    FrontIsHead(b.Of(isBuy), f.Of(isBuy), isBuy, b.index, p);
    var o := b.Of(isBuy)[p][0].(quantity := b.Of(isBuy)[p][0].quantity - q);
    SetFrontEdits(b, f, isBuy, p, o.quantity);
    assert f.Of(isBuy)[0 := o] == [o] + f.Of(isBuy)[1..];
  }

  /** Both heads, exhausted or not, as the flat lists see them. */
  function Reduced(f: Flat, q: int): Flat
    requires f.bids != [] && f.asks != []
  {
    Flat([f.bids[0].(quantity := f.bids[0].quantity - q)] + f.bids[1..],
         [f.asks[0].(quantity := f.asks[0].quantity - q)] + f.asks[1..])
  }

  lemma ReduceHeads(b: Book, f: Flat, buyPrice: real, sellPrice: real, q: int)
    requires Consistent(b, f)
    requires IsBestPrice(buyPrice, b.buys, true) && IsBestPrice(sellPrice, b.sells, false)
    requires b.buys[buyPrice] != [] && b.sells[sellPrice] != []
    ensures f.bids != [] && f.asks != []
    ensures Consistent(ReduceFronts(b, buyPrice, sellPrice, q), Reduced(f, q))
  {
    assert b.Of(true) == b.buys && b.Of(false) == b.sells;
    assert f.Of(true) == f.bids && f.Of(false) == f.asks;
    ReduceHead(b, f, true, buyPrice, q);
    var buy := b.buys[buyPrice][0].(quantity := b.buys[buyPrice][0].quantity - q);
    var b1, f1 := SetFront(b, true, buyPrice, buy), f.With(true, [buy] + f.bids[1..]);
    assert b1.Of(false) == b.sells && f1.Of(false) == f.asks;
    ReduceHead(b1, f1, false, sellPrice, q);
    var sell := b.sells[sellPrice][0].(quantity := b.sells[sellPrice][0].quantity - q);
    assert ReduceFronts(b, buyPrice, sellPrice, q) == SetFront(b1, false, sellPrice, sell);
    assert Reduced(f, q) == f1.With(false, [sell] + f.asks[1..]);
  }

  lemma ReduceKeepsLevels(b: Book, buyPrice: real, sellPrice: real, q: int)
    requires NoEmptyLevels(b) && buyPrice in b.buys && sellPrice in b.sells
    ensures var c := ReduceFronts(b, buyPrice, sellPrice, q);
            NoEmptyLevels(c) && c.buys.Keys == b.buys.Keys && c.sells.Keys == b.sells.Keys
  {
  }

  /** The guards of the loop say exactly whether the heads of the flat lists meet. */
  lemma BestLevelsMeet(b: Book, f: Flat, buyPrice: real, sellPrice: real)
    requires Consistent(b, f) && NoEmptyLevels(b)
    requires IsBestPrice(buyPrice, b.buys, true) && IsBestPrice(sellPrice, b.sells, false)
    ensures f.bids != [] && f.asks != []
    ensures f.bids[0] == b.buys[buyPrice][0] && f.asks[0] == b.sells[sellPrice][0]
    ensures buyPrice >= sellPrice <==> Meets(f)
  {
    FrontIsHead(b.buys, f.bids, true, b.index, buyPrice);
    FrontIsHead(b.sells, f.asks, false, b.index, sellPrice);
  }

  lemma EmptySideMeetsNothing(b: Book, f: Flat)
    requires Consistent(b, f) && NoEmptyLevels(b) && (b.buys == map[] || b.sells == map[])
    ensures !Meets(f)
  {
    NoOrdersNoLevels(b.buys, f.bids, true);
    NoOrdersNoLevels(b.sells, f.asks, false);
  }

  /** Dropping what was exhausted and pruning what became empty. */
  lemma ClearHeads(b: Book, f: Flat, buyPrice: real, sellPrice: real, buyGone: bool, sellGone: bool)
    requires Consistent(b, f)
    requires IsBestPrice(buyPrice, b.buys, true) && IsBestPrice(sellPrice, b.sells, false)
    requires NoEmptyLevels(b) && f.bids != [] && f.asks != []
    ensures var c := DropIf(DropIf(b, true, buyPrice, buyGone), false, sellPrice, sellGone);
            var d := PruneLevel(PruneLevel(c, true, buyPrice), false, sellPrice);
            && NoEmptyLevels(d)
            && Consistent(d, Flat(if buyGone then f.bids[1..] else f.bids, if sellGone then f.asks[1..] else f.asks))
  {
    var b1 := DropIf(b, true, buyPrice, buyGone);
    var f1 := f.With(true, if buyGone then f.bids[1..] else f.bids);
    DropIfKeeps(b, f, true, buyPrice, buyGone);
    var b2 := DropIf(b1, false, sellPrice, sellGone);
    var f2 := f1.With(false, if sellGone then f.asks[1..] else f.asks);
    assert b1.Of(false) == b.sells && b.Of(true) == b.buys && b.Of(false) == b.sells;
    DropIfKeeps(b1, f1, false, sellPrice, sellGone);
    assert b2.Of(true) == b1.Of(true);
    PruneKeeps(b2, f2, true, buyPrice);
    PruneKeeps(PruneLevel(b2, true, buyPrice), f2, false, sellPrice);
  }

  /** One pass trades the two heads of the flat lists and leaves no empty level behind. */
  lemma TradePassTradesHeads(b: Book, f: Flat, buyPrice: real, sellPrice: real)
    requires Consistent(b, f) && NoEmptyLevels(b)
    requires IsBestPrice(buyPrice, b.buys, true) && IsBestPrice(sellPrice, b.sells, false)
    requires Meets(f)
    ensures Consistent(TradePass(b, buyPrice, sellPrice), TradeHeads(f))
    ensures NoEmptyLevels(TradePass(b, buyPrice, sellPrice))
  {
    var q := Min(b.buys[buyPrice][0].quantity, b.sells[sellPrice][0].quantity);
    BestLevelsMeet(b, f, buyPrice, sellPrice);
    ReduceHeads(b, f, buyPrice, sellPrice, q);
    ReduceKeepsLevels(b, buyPrice, sellPrice, q);
    var b1, f1 := ReduceFronts(b, buyPrice, sellPrice, q), Reduced(f, q);
    var buyGone, sellGone := b.buys[buyPrice][0].quantity == q, b.sells[sellPrice][0].quantity == q;
    ClearHeads(b1, f1, buyPrice, sellPrice, buyGone, sellGone);
    assert f1.bids[1..] == f.bids[1..] && f1.asks[1..] == f.asks[1..];
    assert TradeHeads(f) == Flat(if buyGone then f1.bids[1..] else f1.bids, if sellGone then f1.asks[1..] else f1.asks);
  }
}
