/**
 The single-producer single-consumer ring (SPSCQueue.h) with its real 64-bit arithmetic: `head_` and `tail_`
 wrap around, and the slot is a mask of the wrapped counter. Two threads interleave step by step.
 */
module SpscQueue {
  import opened Bits

  /** The number of values of size_t. */
  const WRAP: nat := 0x1_0000_0000_0000_0000

  /** Where the producer stands inside tryPush. */
  datatype Pusher<T> =
    | Resting
    | Checking(value: T)     // about to read tail_ and compare
    | Writing(value: T)      // there is room, about to write the slot
    | Publishing(value: T)   // wrote the slot, about to store head_

  /** Where the consumer stands inside tryPop. */
  datatype Popper<T> =
    | Waiting
    | Reading                // saw head_ differ from tail_, about to read the slot
    | Advancing(value: T)    // about to store tail_

  /** The machine's memory, both threads' positions, and everything pushed and popped so far. */
  datatype Ring<T> = Ring(
    buffer: seq<T>, head: nat, tail: nat, pusher: Pusher<T>, popper: Popper<T>, pushed: seq<T>, popped: seq<T>)
  {
    function Capacity(): nat {
      |buffer|
    }

    /** The constructor's requirement, on a machine whose size_t has 64 bits. */
    ghost predicate Sized() {
      2 <= Capacity() < WRAP && IsPowerOfTwo(Capacity())
    }
  }

  function Plus(a: nat, b: nat): (c: nat)
    ensures c < WRAP
  {
    (a + b) % WRAP
  }

  function Minus(a: nat, b: nat): (c: nat)
    ensures c < WRAP
  {
    (a - b) % WRAP
  }

  datatype Action<T> = Push(value: T) | CheckRoom | WriteSlot | StoreHead | CheckItem | ReadSlot | StoreTail

  datatype Reply = Pending | Returned(ok: bool)

  predicate Enabled<T>(r: Ring<T>, a: Action<T>) {
    match a
    case Push(_) => r.pusher.Resting?
    case CheckRoom => r.pusher.Checking?
    case WriteSlot => r.pusher.Writing?
    case StoreHead => r.pusher.Publishing?
    case CheckItem => r.popper.Waiting?
    case ReadSlot => r.popper.Reading?
    case StoreTail => r.popper.Advancing?
  }

  function Slot<T>(r: Ring<T>, counter: nat): (i: nat)
    requires r.Sized()
    ensures i == counter % r.Capacity() && i < r.Capacity()
  {
    MaskIsRemainder(counter, r.Capacity());
    And(counter, r.Capacity() - 1)
  }

  function Next<T>(r: Ring<T>, a: Action<T>): (r': Ring<T>)
    requires r.Sized() && Enabled(r, a)
    ensures r'.Capacity() == r.Capacity() && r'.Sized()
  {
    match a
    case Push(value) => r.(pusher := Checking(value))
    case CheckRoom =>
      if Minus(Plus(r.head, 1), r.tail) > r.Capacity() then r.(pusher := Resting)
      else r.(pusher := Writing(r.pusher.value))
    case WriteSlot =>
      r.(buffer := r.buffer[Slot(r, r.head) := r.pusher.value], pusher := Publishing(r.pusher.value))
    case StoreHead =>
      r.(head := Plus(r.head, 1), pusher := Resting, pushed := r.pushed + [r.pusher.value])
    case CheckItem => if r.tail == r.head then r else r.(popper := Reading)
    case ReadSlot => r.(popper := Advancing(r.buffer[Slot(r, r.tail)]))
    case StoreTail =>
      r.(tail := Plus(r.tail, 1), popper := Waiting, popped := r.popped + [r.popper.value])
  }

  function Answer<T>(r: Ring<T>, a: Action<T>): Reply
    requires r.Sized() && Enabled(r, a)
  {
    match a
    case CheckRoom => if Minus(Plus(r.head, 1), r.tail) > r.Capacity() then Returned(false) else Pending
    case StoreHead => Returned(true)
    case CheckItem => if r.tail == r.head then Returned(false) else Pending
    case StoreTail => Returned(true)
    case _ => Pending
  }

  ghost predicate Initial<T>(r: Ring<T>) {
    r.Sized() && r.head == r.tail == 0 && r.pusher == Resting && r.popper == Waiting && r.pushed == r.popped == []
  }

  // ---- The wrapped counters stand for unbounded ones ----

  /** Every slot between the two counters holds what was pushed there; there is room for a write under way. */
  ghost predicate Invariant<T>(r: Ring<T>) {
    var h, t := |r.pushed|, |r.popped|;
    && r.Sized()
    && r.head == h % WRAP && r.tail == t % WRAP
    && t <= h <= t + r.Capacity()
    && r.popped == r.pushed[..t]
    && (forall k :: t <= k < h ==> r.buffer[k % r.Capacity()] == r.pushed[k])
    && (r.pusher.Writing? || r.pusher.Publishing? ==> h < t + r.Capacity())
    && (r.pusher.Publishing? ==> r.buffer[h % r.Capacity()] == r.pusher.value)
    && (!r.popper.Waiting? ==> t < h)
    && (r.popper.Advancing? ==> r.popper.value == r.pushed[t])
  }

  /** The items pushed and not yet popped. */
  function Queued<T>(r: Ring<T>): seq<T>
    requires |r.popped| <= |r.pushed|
  {
    r.pushed[|r.popped|..]
  }

  lemma {:induction false} PowersDivide(j: nat, k: nat)
    requires j <= k
    ensures Pow2(k) == Pow2(j) * Pow2(k - j)
    decreases k - j
  {
    if j < k {
      PowersDivide(j, k - 1);
    }
  }

  lemma WrapIsPow2()
    ensures Pow2(64) == WRAP
  {
    assert Pow2(8) == 256;
    PowersDivide(8, 16);
    PowersDivide(16, 32);
    PowersDivide(32, 64);
  }

  lemma {:induction false} PowersGrow(j: nat, k: nat)
    requires j <= k
    ensures Pow2(j) <= Pow2(k)
    decreases k - j
  {
    if j < k { PowersGrow(j, k - 1); }
  }

  /** A power of two below the wrap divides it, so masking the wrapped counter is masking the true one. */
  lemma MaskOfWrapped(x: nat, n: nat)
    requires IsPowerOfTwo(n) && n < WRAP
    ensures (x % WRAP) % n == x % n
  {
    var j: nat :| n == Pow2(j);
    WrapIsPow2();
    if j > 64 { PowersGrow(64, j); }
    PowersDivide(j, 64);
    var m := Pow2(64 - j);
    var q := x / WRAP;
    assert x == x % WRAP + q * WRAP;
    Regroup(q, n, m);
    ShiftMod(x % WRAP, q * m, n);
  }

  lemma Regroup(a: nat, b: nat, c: nat)
    ensures a * (b * c) == (a * c) * b
  {
  }

  /** Wrapped difference of counters less than a wrap apart. */
  lemma WrappedDifference(h: nat, t: nat)
    requires t <= h < t + WRAP
    ensures Minus(h % WRAP, t % WRAP) == h - t
  {
    var qh, qt := h / WRAP, t / WRAP;
    assert h % WRAP - t % WRAP == (h - t) + (qt - qh) * WRAP;
    IntMod(h - t, qt - qh);
  }

  lemma IntMod(d: nat, q: int)
    requires d < WRAP
    ensures (d + q * WRAP) % WRAP == d
  {
  }

  lemma WrappedSuccessor(h: nat)
    ensures Plus(h % WRAP, 1) == (h + 1) % WRAP
  {
  }

  // ---- What the machine's tests mean ----

  /** `next - tail > capacity` in wrapped arithmetic holds exactly when the ring is full. */
  lemma FullTest<T>(r: Ring<T>)
    requires Invariant(r)
    ensures Minus(Plus(r.head, 1), r.tail) > r.Capacity() <==> |Queued(r)| == r.Capacity()
  {
    WrappedSuccessor(|r.pushed|);
    if r.Capacity() + 1 < WRAP {
      WrappedDifference(|r.pushed| + 1, |r.popped|);
    } else {
      HalfIsLargest(r.Capacity());
    }
  }

  /** A power of two below the wrap is at most half of it. */
  lemma HalfIsLargest(n: nat)
    requires IsPowerOfTwo(n) && n < WRAP
    ensures 2 * n <= WRAP
  {
    var j: nat :| n == Pow2(j);
    WrapIsPow2();
    if j >= 64 {
      PowersGrow(64, j);
    } else {
      PowersGrow(j + 1, 64);
    }
  }

  /** `tail == head` in wrapped arithmetic holds exactly when nothing is queued. */
  lemma EmptyTest<T>(r: Ring<T>)
    requires Invariant(r)
    ensures r.tail == r.head <==> Queued(r) == []
  {
    WrappedDifference(|r.pushed|, |r.popped|);
  }

  // ---- Every step keeps the invariant ----

  lemma WriteSlotKeeps<T>(r: Ring<T>)
    requires Invariant(r) && r.pusher.Writing?
    ensures Invariant(Next(r, WriteSlot))
  {
    var r', n := Next(r, WriteSlot), r.Capacity();
    var h, t := |r.pushed|, |r.popped|;
    MaskOfWrapped(h, n);
    forall k | t <= k < h ensures r'.buffer[k % n] == r'.pushed[k] {
      SlotsDiffer(k, h, n);
    }
  }

  lemma StoreHeadKeeps<T>(r: Ring<T>)
    requires Invariant(r) && r.pusher.Publishing?
    ensures Invariant(Next(r, StoreHead))
  {
    WrappedSuccessor(|r.pushed|);
    var r' := Next(r, StoreHead);
    assert r'.pushed[..|r.popped|] == r.pushed[..|r.popped|];
  }

  lemma StoreTailKeeps<T>(r: Ring<T>)
    requires Invariant(r) && r.popper.Advancing?
    ensures Invariant(Next(r, StoreTail))
    ensures Queued(r) == [r.popper.value] + Queued(Next(r, StoreTail))
  {
    WrappedSuccessor(|r.popped|);
  }

  lemma StepKeeps<T>(r: Ring<T>, a: Action<T>)
    requires Invariant(r) && Enabled(r, a)
    ensures Invariant(Next(r, a))
  {
    match a
    case Push(_) =>
    case CheckRoom => FullTest(r);
    case WriteSlot => WriteSlotKeeps(r);
    case StoreHead => StoreHeadKeeps(r);
    case CheckItem => EmptyTest(r);
    case ReadSlot => MaskOfWrapped(|r.popped|, r.Capacity());
    case StoreTail => StoreTailKeeps(r);
  }

  ghost predicate Execution<T>(r0: Ring<T>, actions: seq<Action<T>>, r: Ring<T>)
    requires r0.Sized()
    decreases |actions|
  {
    if actions == [] then r == r0
    else Enabled(r0, actions[0]) && Execution(Next(r0, actions[0]), actions[1..], r)
  }

  lemma {:induction false} ExecutionKeeps<T>(r0: Ring<T>, actions: seq<Action<T>>, r: Ring<T>)
    requires Invariant(r0) && Execution(r0, actions, r)
    ensures Invariant(r) && r.Capacity() == r0.Capacity()
    decreases |actions|
  {
    if actions != [] {
      StepKeeps(r0, actions[0]);
      ExecutionKeeps(Next(r0, actions[0]), actions[1..], r);
    }
  }

  /**
   For runs of any length, however often the counters wrap: what comes out is a prefix of what went in, the
   queue never holds more than its capacity, and its slots hold exactly the unread items.
   */
  lemma BoundedFifo<T>(r0: Ring<T>, actions: seq<Action<T>>, r: Ring<T>)
    requires Initial(r0) && Execution(r0, actions, r)
    ensures r.popped <= r.pushed && |Queued(r)| <= r0.Capacity() && r.Sized() && r.Capacity() == r0.Capacity()
    ensures forall i :: 0 <= i < |Queued(r)| ==> r.buffer[Slot(r, (|r.popped| + i) % WRAP)] == Queued(r)[i]
  {
    ExecutionKeeps(r0, actions, r);
    forall i | 0 <= i < |Queued(r)| ensures r.buffer[Slot(r, (|r.popped| + i) % WRAP)] == Queued(r)[i] {
      UnreadSlot(r, i);
    }
  }

  lemma UnreadSlot<T>(r: Ring<T>, i: nat)
    requires Invariant(r) && i < |Queued(r)|
    ensures r.buffer[Slot(r, (|r.popped| + i) % WRAP)] == Queued(r)[i]
  {
    MaskOfWrapped(|r.popped| + i, r.Capacity());
  }

  // ---- approxSize from a third thread ----

  /** Both histories only grow. */
  lemma {:induction false} ExecutionGrows<T>(r0: Ring<T>, actions: seq<Action<T>>, r: Ring<T>)
    requires r0.Sized() && Execution(r0, actions, r)
    ensures r0.pushed <= r.pushed && r0.popped <= r.popped
    decreases |actions|
  {
    if actions != [] {
      ExecutionGrows(Next(r0, actions[0]), actions[1..], r);
    }
  }

  /**
   The reader loads `head_` at one moment and `tail_` at a later one, with less than a wrap of pops in between.
   The depth it computes is what was queued less what was popped in between, unless more has been popped than
   had been pushed: then it is off by a whole wrap. Short of a wrap less the capacity of pops in between, it exceeds
   the capacity exactly when that has happened.
   */
  lemma DepthHeadFirst<T>(r1: Ring<T>, actions: seq<Action<T>>, r2: Ring<T>)
    requires Invariant(r1) && Execution(r1, actions, r2)
    requires |r2.popped| < |r1.popped| + WRAP
    ensures var depth := Minus(r1.head, r2.tail);
            && (|r2.popped| <= |r1.pushed| ==> depth == |Queued(r1)| - (|r2.popped| - |r1.popped|))
            && (|r2.popped| > |r1.pushed| ==> depth == WRAP - (|r2.popped| - |r1.pushed|))
            && (depth > r1.Capacity() <==> |r1.pushed| < |r2.popped| < |r1.pushed| + WRAP - r1.Capacity())
            && (|r2.popped| + r1.Capacity() < |r1.popped| + WRAP ==>
                  (depth > r1.Capacity() <==> |r2.popped| > |r1.pushed|))
  {
    ExecutionKeeps(r1, actions, r2);
    ExecutionGrows(r1, actions, r2);
    var h, t := |r1.pushed|, |r2.popped|;
    if t <= h {
      WrappedDifference(h, t);
    } else {
      WrappedBehind(h, t);
    }
  }

  lemma WrappedBehind(h: nat, t: nat)
    requires h < t < h + WRAP
    ensures Minus(h % WRAP, t % WRAP) == WRAP - (t - h)
  {
    WrappedDifference(t, h);
    assert h % WRAP - t % WRAP == -(t % WRAP - h % WRAP);
  }

  /** The other order of the two loads: the depth counts what was popped in between as well. */
  lemma DepthTailFirst<T>(r1: Ring<T>, actions: seq<Action<T>>, r2: Ring<T>)
    requires Invariant(r1) && Execution(r1, actions, r2)
    requires |r2.pushed| < |r1.popped| + WRAP
    ensures |r2.popped| <= |r2.pushed|
    ensures Minus(r2.head, r1.tail) == |Queued(r2)| + (|r2.popped| - |r1.popped|)
  {
    ExecutionKeeps(r1, actions, r2);
    ExecutionGrows(r1, actions, r2);
    WrappedDifference(|r2.pushed|, |r1.popped|);
  }

  /** From any start: `head_` is loaded while the queue is empty, one item passes through it, `tail_` is loaded. */
  lemma DepthCanWrap<T>(r0: Ring<T>, item: T) returns (actions: seq<Action<T>>, r: Ring<T>)
    requires Initial(r0)
    ensures Execution(r0, actions, r) && Minus(r0.head, r.tail) == WRAP - 1 > r0.Capacity()
  {
    var r1 := AfterPush(r0, item);
    SoloPush(r0, item);
    SoloPop(r1);
    assert Queued(r1) == [item];
    HalfIsLargest(r0.Capacity());
    r := AfterPop(r1);
    var later := [CheckItem, ReadSlot, StoreTail];
    Single(Next(Next(r1, CheckItem), ReadSlot), StoreTail);
    Prepend(Next(r1, CheckItem), ReadSlot, [StoreTail], r);
    Prepend(r1, CheckItem, [ReadSlot, StoreTail], r);
    var s1 := Next(r0, Push(item));
    Prepend(Next(Next(s1, CheckRoom), WriteSlot), StoreHead, later, r);
    Prepend(Next(s1, CheckRoom), WriteSlot, [StoreHead] + later, r);
    Prepend(s1, CheckRoom, [WriteSlot] + ([StoreHead] + later), r);
    Prepend(r0, Push(item), [CheckRoom] + ([WriteSlot] + ([StoreHead] + later)), r);
    actions := [Push(item)] + ([CheckRoom] + ([WriteSlot] + ([StoreHead] + later)));
  }

  lemma Single<T>(r0: Ring<T>, a: Action<T>)
    requires r0.Sized() && Enabled(r0, a)
    ensures Execution(r0, [a], Next(r0, a))
  {
    assert [a][1..] == [];
  }

  lemma Prepend<T>(r0: Ring<T>, a: Action<T>, actions: seq<Action<T>>, r: Ring<T>)
    requires r0.Sized() && Enabled(r0, a) && Execution(Next(r0, a), actions, r)
    ensures Execution(r0, [a] + actions, r)
  {
    assert ([a] + actions)[1..] == actions;
  }

  // ---- The queue in memory ----

  datatype Created<T> = InvalidCapacity | Created(queue: SPSCQueue<T>)

  /** Builds a queue, or refuses a capacity that is not a power of two of at least two. */
  method Create<T>(capacity: nat, blank: T) returns (r: Created<T>)
    requires capacity < WRAP
    ensures r.InvalidCapacity? <==> capacity < 2 || !IsPowerOfTwo(capacity)
    ensures r.Created? ==> fresh(r.queue) && fresh(r.queue.buffer) && r.queue.Valid() && Initial(r.queue.ring)
    ensures r.Created? ==> r.queue.buffer.Length == capacity
  {
    if capacity > 0 { PowerOfTwoTest(capacity); }
    if capacity < 2 || And(capacity, capacity - 1) != 0 {
      return InvalidCapacity;
    }
    var q := new SPSCQueue<T>(capacity, blank);
    r := Created(q);
  }

  class SPSCQueue<T> {
    const buffer: array<T>
    var head: nat
    var tail: nat

    ghost var ring: Ring<T>  // the memory, both threads' positions and the history

    ghost predicate Linked()
      reads this, buffer
    {
      ring.buffer == buffer[..] && ring.head == head && ring.tail == tail
    }

    ghost predicate Valid()
      reads this, buffer
    {
      Linked() && Invariant(ring)
    }

    constructor (capacity: nat, blank: T)
      requires 2 <= capacity < WRAP && IsPowerOfTwo(capacity)
      ensures Valid() && Initial(ring) && fresh(buffer) && buffer.Length == capacity
    {
      buffer := new T[capacity](_ => blank);
      head, tail := 0, 0;
      new;
      ring := Ring(buffer[..], 0, 0, Resting, Waiting, [], []);
    }

    /** One push while the consumer stands still, wherever it stands: refused exactly when the queue is full. */
    method TryPush(value: T) returns (ok: bool)
      requires Valid() && ring.pusher.Resting?
      modifies this`head, this`ring, buffer
      ensures Valid() && ring.pusher.Resting? && ring.popper == old(ring.popper)
      ensures ok <==> |Queued(old(ring))| < buffer.Length
      ensures Queued(ring) == if ok then Queued(old(ring)) + [value] else Queued(old(ring))
      ensures ring.popped == old(ring.popped)
      ensures ring.pushed == if ok then old(ring.pushed) + [value] else old(ring.pushed)
    {
      SoloPush(ring, value);
      MaskIsRemainder(head, buffer.Length);
      var next := Plus(head, 1);
      if Minus(next, tail) > buffer.Length {
        return false;
      }
      buffer[And(head, buffer.Length - 1)] := value;
      head := next;
      ring := AfterPush(ring, value);
      ok := true;
    }

    /** One pop while the producer stands still, wherever it stands: fails exactly when the queue is empty. */
    method TryPop(blank: T) returns (ok: bool, value: T)
      requires Valid() && ring.popper.Waiting?
      modifies this`tail, this`ring
      ensures Valid() && ring.popper.Waiting? && ring.pusher == old(ring.pusher)
      ensures ok <==> Queued(old(ring)) != []
      ensures ok ==> Queued(old(ring)) == [value] + Queued(ring) && ring.popped == old(ring.popped) + [value]
      ensures !ok ==> ring == old(ring)
      ensures ring.pushed == old(ring.pushed)
    {
      SoloPop(ring);
      MaskIsRemainder(tail, buffer.Length);
      if tail == head {
        return false, blank;
      }
      value := buffer[And(tail, buffer.Length - 1)];
      tail := Plus(tail, 1);
      ring := AfterPop(ring);
      ok := true;
    }

    method ApproxSize() returns (n: nat)
      requires Valid()
      ensures n == |Queued(ring)|
    {
      WrappedDifference(|ring.pushed|, |ring.popped|);
      n := Minus(head, tail);
    }
  }

  // ---- A call that runs alone ----

  function AfterPush<T>(r: Ring<T>, value: T): Ring<T>
    requires r.Sized() && r.pusher.Resting?
  {
    r.(buffer := r.buffer[Slot(r, r.head) := value], head := Plus(r.head, 1), pushed := r.pushed + [value])
  }

  lemma SoloPush<T>(r: Ring<T>, value: T)
    requires Invariant(r) && r.pusher.Resting?
    ensures Minus(Plus(r.head, 1), r.tail) > r.Capacity() <==> |Queued(r)| == r.Capacity()
    ensures |Queued(r)| < r.Capacity() ==>
              && Next(Next(Next(Next(r, Push(value)), CheckRoom), WriteSlot), StoreHead) == AfterPush(r, value)
              && Invariant(AfterPush(r, value)) && Queued(AfterPush(r, value)) == Queued(r) + [value]
    ensures |Queued(r)| == r.Capacity() ==> Next(Next(r, Push(value)), CheckRoom) == r
  {
    var r1 := Next(r, Push(value));
    StepKeeps(r, Push(value));
    FullTest(r);
    FullTest(r1);
    if |Queued(r)| < r.Capacity() {
      StepKeeps(r1, CheckRoom);
      StepKeeps(Next(r1, CheckRoom), WriteSlot);
      StepKeeps(Next(Next(r1, CheckRoom), WriteSlot), StoreHead);
    }
  }

  function AfterPop<T>(r: Ring<T>): Ring<T>
    requires r.Sized() && r.popper.Waiting?
  {
    r.(tail := Plus(r.tail, 1), popped := r.popped + [r.buffer[Slot(r, r.tail)]])
  }

  lemma SoloPop<T>(r: Ring<T>)
    requires Invariant(r) && r.popper.Waiting?
    ensures r.tail == r.head <==> Queued(r) == []
    ensures Queued(r) != [] ==>
              && Next(Next(Next(r, CheckItem), ReadSlot), StoreTail) == AfterPop(r)
              && Invariant(AfterPop(r)) && Queued(r) == [r.buffer[Slot(r, r.tail)]] + Queued(AfterPop(r))
  {
    EmptyTest(r);
    if Queued(r) != [] {
      var r1 := Next(r, CheckItem);
      StepKeeps(r, CheckItem);
      StepKeeps(r1, ReadSlot);
      StepKeeps(Next(r1, ReadSlot), StoreTail);
      StoreTailKeeps(Next(r1, ReadSlot));
    }
  }
}
