/**
 The free-list pool of MemoryPool.h: slots are taken from the head of a linked list, go back to its head, and
 come in blocks when the list is empty.
 */
module MemoryPool {

  // ---- The pool as a value ----

  /** The free list in order, the slots in use, and all slots of all blocks. */
  datatype Pool<S> = Pool(free: seq<S>, live: set<S>, all: set<S>)

  predicate Distinct<S(==)>(s: seq<S>) {
    forall i, j :: 0 <= i < j < |s| ==> s[i] != s[j]
  }

  function Members<S(==)>(s: seq<S>): set<S> {
    set x | x in s
  }

  /** The free list has no slot twice, none of its slots is in use, and the two together are all slots. */
  predicate Sound<S(==)>(p: Pool<S>) {
    Distinct(p.free) && Members(p.free) !! p.live && Members(p.free) + p.live == p.all
  }

  /** A new block goes in front of the free list. */
  function Grow<S(==)>(p: Pool<S>, block: seq<S>): Pool<S> {
    Pool(block + p.free, p.live, p.all + Members(block))
  }

  function Take<S(==)>(p: Pool<S>): Pool<S>
    requires p.free != []
  {
    Pool(p.free[1..], p.live + {p.free[0]}, p.all)
  }

  function Give<S(==)>(p: Pool<S>, s: S): Pool<S> {
    Pool([s] + p.free, p.live - {s}, p.all)
  }

  lemma GrowIsSound<S>(p: Pool<S>, block: seq<S>)
    requires Sound(p) && Distinct(block) && Members(block) !! p.all
    ensures Sound(Grow(p, block))
  {
    var free := block + p.free;
    forall i, j | 0 <= i < j < |free| ensures free[i] != free[j] {
      if i < |block| <= j {
        assert free[i] in Members(block) && free[j] in Members(p.free);
      }
    }
    assert Members(free) == Members(block) + Members(p.free);
  }

  /** What is handed out was not in use. */
  lemma TakeIsSound<S>(p: Pool<S>)
    requires Sound(p) && p.free != []
    ensures Sound(Take(p)) && p.free[0] !in p.live && p.free[0] in p.all
  {
    assert p.free[0] in Members(p.free);
    assert Members(p.free) == {p.free[0]} + Members(p.free[1..]);
    assert p.free[0] !in Members(p.free[1..]);
  }

  lemma GiveIsSound<S>(p: Pool<S>, s: S)
    requires Sound(p) && s in p.live
    ensures Sound(Give(p, s))
    ensures Take(Give(p, s)) == p
  {
    assert Members([s] + p.free) == {s} + Members(p.free);
    assert s !in Members(p.free);
    assert ([s] + p.free)[1..] == p.free;
    assert p.live - {s} + {s} == p.live;
    assert s !in p.free;
  }

  // ---- Runs ----

  datatype Op<S> = Grown(block: seq<S>) | Taken(slot: S) | Given(slot: S)

  /** A block is new storage, a slot is taken from the head, and only a slot in use is given back. */
  predicate Enabled<S(==)>(p: Pool<S>, op: Op<S>) {
    match op
    case Grown(block) => Distinct(block) && Members(block) !! p.all
    case Taken(slot) => p.free != [] && slot == p.free[0]
    case Given(slot) => slot in p.live
  }

  function Next<S(==)>(p: Pool<S>, op: Op<S>): Pool<S>
    requires Enabled(p, op)
  {
    match op
    case Grown(block) => Grow(p, block)
    case Taken(_) => Take(p)
    case Given(slot) => Give(p, slot)
  }

  predicate Runs<S(==)>(p: Pool<S>, ops: seq<Op<S>>)
    decreases |ops|
  {
    ops == [] || (Enabled(p, ops[0]) && Runs(Next(p, ops[0]), ops[1..]))
  }

  function After<S(==)>(p: Pool<S>, ops: seq<Op<S>>): Pool<S>
    requires Runs(p, ops)
    decreases |ops|
  {
    if ops == [] then p else After(Next(p, ops[0]), ops[1..])
  }

  lemma NextIsSound<S>(p: Pool<S>, op: Op<S>)
    requires Sound(p) && Enabled(p, op)
    ensures Sound(Next(p, op))
  {
    match op
    case Grown(block) => GrowIsSound(p, block);
    case Taken(slot) => TakeIsSound(p);
    case Given(slot) => GiveIsSound(p, slot);
  }

  lemma {:induction false} RunIsSound<S>(p: Pool<S>, ops: seq<Op<S>>)
    requires Sound(p) && Runs(p, ops)
    ensures Sound(After(p, ops))
    decreases |ops|
  {
    if ops != [] {
      NextIsSound(p, ops[0]);
      RunIsSound(Next(p, ops[0]), ops[1..]);
    }
  }

  /** A slot in use stays in use until it is given back. */
  lemma {:induction false} LiveUntilGiven<S>(p: Pool<S>, ops: seq<Op<S>>, s: S)
    requires Sound(p) && Runs(p, ops) && s in p.live
    requires forall i :: 0 <= i < |ops| ==> ops[i] != Given(s)
    ensures s in After(p, ops).live
    decreases |ops|
  {
    if ops != [] {
      NextIsSound(p, ops[0]);
      LiveUntilGiven(Next(p, ops[0]), ops[1..], s);
    }
  }

  /**
   Over any run that gives back only slots in use: between two hand-outs of one slot it has been given back.
   */
  lemma NeverHandedOutTwice<S>(p: Pool<S>, before: seq<Op<S>>, s: S)
    requires Sound(p) && Runs(p, [Taken(s)] + before + [Taken(s)])
    ensures Given(s) in before
  {
    var ops := [Taken(s)] + before + [Taken(s)];
    var q := Next(p, ops[0]);
    assert ops[1..] == before + [Taken(s)];
    NextIsSound(p, ops[0]);
    RunSplits(q, before, [Taken(s)]);
    RunIsSound(q, before);
    TakeIsSound(After(q, before));
    if Given(s) !in before {
      LiveUntilGiven(q, before, s);
    }
  }

  lemma {:induction false} RunSplits<S>(p: Pool<S>, a: seq<Op<S>>, b: seq<Op<S>>)
    requires Runs(p, a + b)
    ensures Runs(p, a) && Runs(After(p, a), b)
    decreases |a|
  {
    if a == [] {
      assert a + b == b;
    } else {
      assert (a + b)[1..] == a[1..] + b;
      RunSplits(Next(p, a[0]), a[1..], b);
    }
  }

  // ---- The pool in memory ----

  datatype Storage<T> = Raw | Object(value: T)

  class Slot<T> {
    var memory: Storage<T>
    var next: Slot?<T>

    constructor ()
      ensures memory == Raw && next == null
    {
      memory, next := Raw, null;
    }
  }

  /** What comes after position `i` of a list that ends in `tail`. */
  ghost function Following<T>(list: seq<Slot<T>>, i: nat, tail: Slot?<T>): Slot?<T> {
    if i + 1 < |list| then list[i + 1] else tail
  }

  /** Following `next` from `head` passes through `list` and arrives at `tail`. */
  ghost predicate Linked<T>(head: Slot?<T>, list: seq<Slot<T>>, tail: Slot?<T>)
    reads list
  {
    && head == (if list == [] then tail else list[0])
    && forall i: nat | i < |list| :: list[i].next == Following(list, i, tail)
  }

  lemma LinkedJoin<T>(head: Slot?<T>, a: seq<Slot<T>>, middle: Slot?<T>, b: seq<Slot<T>>, tail: Slot?<T>)
    requires Linked(head, a, middle) && Linked(middle, b, tail)
    ensures Linked(head, a + b, tail)
  {
    var list := a + b;
    forall i: nat | i < |list| ensures list[i].next == Following(list, i, tail) {
      if i < |a| {
        assert a[i].next == Following(a, i, middle);
      } else {
        assert b[i - |a|].next == Following(b, i - |a|, tail);
      }
    }
  }

  lemma LinkedRest<T>(head: Slot<T>, list: seq<Slot<T>>, tail: Slot?<T>)
    requires list != [] && Linked(head, list, tail)
    ensures Linked(head.next, list[1..], tail)
  {
    assert list[0].next == Following(list, 0, tail);
    forall i: nat | i < |list[1..]| ensures list[1..][i].next == Following(list[1..], i, tail) {
      assert list[i + 1].next == Following(list, i + 1, tail);
    }
  }

  class MemoryPool<T> {
    var freeHead: Slot?<T>
    var blocks: seq<seq<Slot<T>>>
    var blockSize: nat
    ghost var pool: Pool<Slot<T>>

    ghost predicate Valid()
      reads this, pool.free
    {
      && blockSize > 0 && Sound(pool) && Linked(freeHead, pool.free, null)
      && pool.all == (set b, s | b in blocks && s in b :: s)
    }

    constructor (initialCapacity: nat, size: nat)
      ensures Valid() && blockSize == (if size == 0 then 1024 else size)
      ensures pool.live == {} && |pool.free| == initialCapacity && fresh(pool.all)
    {
      freeHead, blocks, blockSize := null, [], if size == 0 then 1024 else size;
      pool := Pool([], {}, {});
      new;
      if initialCapacity > 0 {
        var original := blockSize;
        blockSize := initialCapacity;
        AllocateBlock();
        blockSize := original;
      }
    }

    /** A block of new slots, linked in order, with the old free list behind its last slot. */
    method AllocateBlock()
      requires Valid()
      modifies this`freeHead, this`blocks, this`pool
      ensures Valid()
      ensures exists block: seq<Slot<T>> :: |block| == blockSize && fresh(block) && Distinct(block)
                && pool == Grow(old(pool), block) && blocks == old(blocks) + [block]
    {
      var block := NewSlots(blockSize);
      Chain(block, freeHead);
      LinkedJoin(block[0], block, freeHead, pool.free, null);
      freeHead := block[0];
      blocks := blocks + [block];
      GrowIsSound(pool, block);
      pool := Grow(pool, block);
    }

    static method Chain(block: seq<Slot<T>>, tail: Slot?<T>)
      requires block != [] && Distinct(block)
      modifies block
      ensures Linked(block[0], block, tail)
    {
      var i := 0;
      while i < |block| - 1
        invariant 0 <= i <= |block| - 1
        invariant forall j :: 0 <= j < i ==> block[j].next == block[j + 1]
      {
        block[i].next := block[i + 1];
        i := i + 1;
      }
      block[|block| - 1].next := tail;
    }

    static method NewSlots(n: nat) returns (block: seq<Slot<T>>)
      ensures |block| == n && Distinct(block) && fresh(block)
    {
      block := [];
      while |block| < n
        invariant |block| <= n && Distinct(block) && fresh(block)
      {
        var s := new Slot();
        block := block + [s];
      }
    }

    /** An object in a slot that was not in use; the other objects keep their slots and their values. */
    method Allocate(value: T) returns (slot: Slot<T>)
      requires Valid()
      modifies this`freeHead, this`blocks, this`pool, Members(pool.free)
      ensures Valid() && slot.memory == Object(value)
      ensures slot !in old(pool.live) && pool.live == old(pool.live) + {slot}
      ensures old(pool.free) != [] ==> pool == Take(old(pool)) && slot == old(pool.free[0])
      ensures old(pool.free) == [] ==>
                exists block: seq<Slot<T>> :: |block| == blockSize && fresh(block) && blocks == old(blocks) + [block]
                  && pool == Take(Grow(old(pool), block)) && slot == block[0]
    {
      if freeHead == null {
        AllocateBlock();
      }
      slot := freeHead;
      LinkedRest(slot, pool.free, null);
      TakeIsSound(pool);
      assert slot !in Members(pool.free[1..]);
      freeHead := freeHead.next;
      pool := Take(pool);
      slot.memory := Object(value);
    }

    /** The object is destroyed and its slot goes to the head of the list; null is ignored. */
    method Deallocate(slot: Slot?<T>)
      requires Valid() && (slot != null ==> slot in pool.live)
      modifies this`freeHead, this`pool, slot
      ensures Valid()
      ensures slot == null ==> pool == old(pool)
      ensures slot != null ==> pool == Give(old(pool), slot) && slot.memory == Raw
    {
      if slot == null {
        return;
      }
      GiveIsSound(pool, slot);
      assert slot !in pool.free by { assert slot !in Members(pool.free); }
      slot.memory := Raw;
      slot.next := freeHead;
      LinkedJoin(slot, [slot], freeHead, pool.free, null);
      freeHead := slot;
      pool := Give(pool, slot);
    }
  }
}
