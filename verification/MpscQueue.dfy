/**
 The bounded multi-producer single-consumer ring (MPSCQueue.h) as a machine of atomic steps. Any number of
 producers and the one consumer interleave freely; a compare-exchange may fail spuriously. Positions are
 unbounded here, and the atomic accesses are sequentially consistent.
 */
module MpscQueue {
  import opened Bits

  type Pid = nat

  datatype Cell<T> = Cell(sequence: nat, data: T)

  /** Where a producer stands inside `enqueue`, with its local `pos`. */
  datatype Producer<T> =
    | Idle
    | LoadSequence(item: T, pos: nat)   // about to read the sequence of its cell
    | Reload(item: T, pos: nat)         // saw a larger sequence, about to read enqueue_pos_ again
    | Claim(item: T, pos: nat)          // saw its own position, about to compare-exchange
    | Store(item: T, pos: nat)          // owns ticket `pos`, about to write the cell
    | Publish(item: T, pos: nat)        // wrote the cell, about to release it to the consumer

  /** Where the consumer stands inside `dequeue`. */
  datatype Consumer<T> =
    | Waiting
    | Read(pos: nat)                    // saw the published sequence, about to read the cell
    | Advance(pos: nat, value: T)       // about to move dequeue_pos_
    | Release(pos: nat, value: T)       // about to hand the cell to the next lap

  /**
   The shared memory, every thread's position, and what has happened: `claims` lists owner and item of each
   ticket in claim order, `sent` what each producer's successful calls enqueued, `received` what dequeue returned.
   */
  datatype Ring<T> = Ring(
    cells: seq<Cell<T>>, enqueuePos: nat, dequeuePos: nat,
    producers: map<Pid, Producer<T>>, consumer: Consumer<T>,
    claims: seq<(Pid, T)>, sent: map<Pid, seq<T>>, received: seq<T>)
  {
    function Capacity(): nat {
      |cells|
    }

    /** `pos & buffer_mask_`. */
    function Slot(pos: nat): (i: nat)
      requires Sized()
      ensures i == pos % Capacity() && i < Capacity()
    {
      MaskIsRemainder(pos, Capacity());
      And(pos, Capacity() - 1)
    }

    /** The constructor's requirement. */
    ghost predicate Sized() {
      Capacity() >= 2 && IsPowerOfTwo(Capacity())
    }

    function At(p: Pid): Producer<T> {
      if p in producers then producers[p] else Idle
    }

    function Sent(p: Pid): seq<T> {
      if p in sent then sent[p] else []
    }

    /** Tickets the consumer has handed back. */
    function Released(): nat {
      if consumer.Release? then consumer.pos else dequeuePos
    }
  }

  // ---- The steps ----

  datatype Action<T> =
    | Begin(p: Pid, item: T)                     // call enqueue: read enqueue_pos_
    | ReadSequence(p: Pid)                       // read the cell's sequence and compare
    | ReadPosition(p: Pid)                       // read enqueue_pos_ again
    | CompareExchange(p: Pid, spurious: bool)    // claim the ticket, or learn the position
    | WriteCell(p: Pid)
    | WriteSequence(p: Pid)                      // publish and return true
    | Poll                                       // call dequeue: read the cell's sequence
    | ReadCell
    | MovePosition
    | HandBack                                   // recycle the cell and return true

  /** What a step returns to its caller, if it returns. */
  datatype Reply = Pending | Returned(ok: bool)

  predicate Enabled<T>(r: Ring<T>, a: Action<T>) {
    match a
    case Begin(p, _) => r.At(p).Idle?
    case ReadSequence(p) => r.At(p).LoadSequence?
    case ReadPosition(p) => r.At(p).Reload?
    case CompareExchange(p, _) => r.At(p).Claim?
    case WriteCell(p) => r.At(p).Store?
    case WriteSequence(p) => r.At(p).Publish?
    case Poll => r.consumer.Waiting?
    case ReadCell => r.consumer.Read?
    case MovePosition => r.consumer.Advance?
    case HandBack => r.consumer.Release?
  }

  function Moved<T>(r: Ring<T>, p: Pid, pc: Producer<T>): Ring<T> {
    r.(producers := r.producers[p := pc])
  }

  function WithCell<T>(r: Ring<T>, pos: nat, cell: Cell<T>): Ring<T>
    requires r.Sized()
  {
    r.(cells := r.cells[r.Slot(pos) := cell])
  }

  function CellOf<T>(r: Ring<T>, pos: nat): Cell<T>
    requires r.Sized()
  {
    r.cells[r.Slot(pos)]
  }

  function Next<T>(r: Ring<T>, a: Action<T>): (r': Ring<T>)
    requires r.Sized() && Enabled(r, a)
    ensures r'.Capacity() == r.Capacity() && r'.Sized()
  {
    match a
    case Begin(p, item) => Moved(r, p, LoadSequence(item, r.enqueuePos))
    case ReadSequence(p) =>
      var LoadSequence(item, pos) := r.At(p);
      var dif := CellOf(r, pos).sequence - pos;
      Moved(r, p, if dif == 0 then Claim(item, pos) else if dif < 0 then Idle else Reload(item, pos))
    case ReadPosition(p) => Moved(r, p, LoadSequence(r.At(p).item, r.enqueuePos))
    case CompareExchange(p, spurious) =>
      var Claim(item, pos) := r.At(p);
      if r.enqueuePos == pos && !spurious then
        Moved(r, p, Store(item, pos)).(enqueuePos := pos + 1, claims := r.claims + [(p, item)])
      else
        Moved(r, p, LoadSequence(item, r.enqueuePos))
    case WriteCell(p) =>
      var Store(item, pos) := r.At(p);
      Moved(WithCell(r, pos, CellOf(r, pos).(data := item)), p, Publish(item, pos))
    case WriteSequence(p) =>
      var Publish(item, pos) := r.At(p);
      Moved(WithCell(r, pos, CellOf(r, pos).(sequence := pos + 1)), p, Idle).(sent := r.sent[p := r.Sent(p) + [item]])
    case Poll =>
      var pos := r.dequeuePos;
      if CellOf(r, pos).sequence - (pos + 1) == 0 then r.(consumer := Read(pos)) else r
    case ReadCell => r.(consumer := Advance(r.consumer.pos, CellOf(r, r.consumer.pos).data))
    case MovePosition => r.(consumer := Release(r.consumer.pos, r.consumer.value), dequeuePos := r.consumer.pos + 1)
    case HandBack =>
      var Release(pos, value) := r.consumer;
      WithCell(r, pos, CellOf(r, pos).(sequence := pos + r.Capacity()))
      .(consumer := Waiting, received := r.received + [value])
  }

  function Answer<T>(r: Ring<T>, a: Action<T>): Reply
    requires r.Sized() && Enabled(r, a)
  {
    match a
    case ReadSequence(p) => if CellOf(r, r.At(p).pos).sequence - r.At(p).pos < 0 then Returned(false) else Pending
    case WriteSequence(_) => Returned(true)
    case Poll => if CellOf(r, r.dequeuePos).sequence - (r.dequeuePos + 1) == 0 then Pending else Returned(false)
    case HandBack => Returned(true)
    case _ => Pending
  }

  /** The constructor, once its capacity test has passed. */
  ghost predicate Initial<T>(r: Ring<T>) {
    && r.Sized()
    && (forall i :: 0 <= i < r.Capacity() ==> r.cells[i].sequence == i)
    && r.enqueuePos == r.dequeuePos == 0
    && r.producers == map[] && r.consumer == Waiting
    && r.claims == [] && r.sent == map[] && r.received == []
  }

  // ---- The invariant ----

  function Values<T>(claims: seq<(Pid, T)>): seq<T> {
    seq(|claims|, i requires 0 <= i < |claims| => claims[i].1)
  }

  /** The producer owns ticket `pos`: claimed it and has not published it. */
  predicate Owns<T>(r: Ring<T>, p: Pid, pos: nat) {
    (r.At(p).Store? || r.At(p).Publish?) && r.At(p).pos == pos
  }

  ghost predicate Published<T>(r: Ring<T>, t: nat)
    requires r.Sized() && t < |r.claims|
  {
    CellOf(r, t).sequence == t + 1 && CellOf(r, t).data == r.claims[t].1 && !Owns(r, r.claims[t].0, t)
  }

  /** The cell of a ticket of the current lap: free, owned by its claimant, or published with the claimed item. */
  ghost predicate TicketOk<T>(r: Ring<T>, t: nat)
    requires r.Sized()
  {
    if t >= |r.claims| then CellOf(r, t).sequence == t
    else (CellOf(r, t).sequence == t && Owns(r, r.claims[t].0, t)) || Published(r, t)
  }

  ghost predicate ProducerOk<T>(r: Ring<T>, p: Pid)
    requires r.Sized()
  {
    match r.At(p)
    case Idle => true
    case LoadSequence(_, pos) => pos <= r.enqueuePos
    case Reload(_, pos) => pos < r.enqueuePos
    case Claim(_, pos) => pos <= r.enqueuePos && (pos == r.enqueuePos ==> pos < r.Released() + r.Capacity())
    case Store(item, pos) => r.Released() <= pos < |r.claims| && r.claims[pos] == (p, item)
    case Publish(item, pos) =>
      r.Released() <= pos < |r.claims| && r.claims[pos] == (p, item) && CellOf(r, pos).data == item
  }

  ghost predicate ConsumerOk<T>(r: Ring<T>)
    requires r.Sized()
  {
    match r.consumer
    case Waiting => true
    case Read(pos) => pos == r.dequeuePos < |r.claims| && Published(r, pos)
    case Advance(pos, value) => pos == r.dequeuePos < |r.claims| && Published(r, pos) && value == r.claims[pos].1
    case Release(pos, value) =>
      pos + 1 == r.dequeuePos <= |r.claims| && Published(r, pos) && value == r.claims[pos].1
  }

  /** The items of producer `p`, in claim order. */
  function ClaimsOf<T>(claims: seq<(Pid, T)>, p: Pid): seq<T> {
    if claims == [] then []
    else ClaimsOf(claims[..|claims| - 1], p)
         + if claims[|claims| - 1].0 == p then [claims[|claims| - 1].1] else []
  }

  /** The item a producer has claimed a ticket for and not yet published. */
  function InFlight<T>(r: Ring<T>, p: Pid): seq<T> {
    if r.At(p).Store? || r.At(p).Publish? then [r.At(p).item] else []
  }

  ghost predicate Invariant<T>(r: Ring<T>) {
    && r.Sized()
    && |r.claims| == r.enqueuePos
    && r.Released() <= r.enqueuePos <= r.Released() + r.Capacity()
    && (forall t :: r.Released() <= t < r.Released() + r.Capacity() ==> TicketOk(r, t))
    && (forall p :: p in r.producers ==> ProducerOk(r, p))
    && ConsumerOk(r)
    && |r.received| == r.Released() && r.received == Values(r.claims)[..r.Released()]
    && (forall p: Pid :: ClaimsOf(r.claims, p) == r.Sent(p) + InFlight(r, p))
  }

  lemma InitialInvariant<T>(r: Ring<T>)
    requires Initial(r)
    ensures Invariant(r)
  {
    forall t | 0 <= t < r.Capacity() ensures TicketOk(r, t) {
      ModUnique(t, r.Capacity(), 0, t);
    }
  }

  // ---- What a producer learns from a sequence number ----

  ghost predicate InLap<T>(r: Ring<T>, t: nat) {
    r.Released() <= t < r.Released() + r.Capacity()
  }

  /**
   Reading the sequence of the cell of any position up to enqueue_pos_: smaller means the ring is full with
   respect to this position, equal at the frontier means the slot is free, larger means others have moved on.
   */
  lemma SequenceTells<T>(r: Ring<T>, pos: nat)
    requires Invariant(r) && pos <= r.enqueuePos
    ensures CellOf(r, pos).sequence < pos <==> pos == r.enqueuePos == r.Released() + r.Capacity()
    ensures CellOf(r, pos).sequence == pos && pos == r.enqueuePos ==> pos < r.Released() + r.Capacity()
    ensures CellOf(r, pos).sequence > pos ==> pos < r.enqueuePos
  {
    var t := SlotMate(pos, r.Released(), r.Capacity());
    assert InLap(r, t) && TicketOk(r, t);
    assert CellOf(r, t) == CellOf(r, pos);
    assert CellOf(r, t).sequence == t || CellOf(r, t).sequence == t + 1;
  }

  lemma SameSlotSameTicket<T>(r: Ring<T>, t: nat, u: nat)
    requires r.Sized() && InLap(r, t) && InLap(r, u) && t != u
    ensures r.Slot(t) != r.Slot(u)
  {
    if t < u { SlotsDiffer(t, u, r.Capacity()); } else { SlotsDiffer(u, t, r.Capacity()); }
  }

  // ---- Every step keeps the invariant ----

  /** A step that only moves a producer between points where it owns nothing. */
  lemma QuietMove<T>(r: Ring<T>, p: Pid, pc: Producer<T>)
    requires Invariant(r)
    requires !r.At(p).Store? && !r.At(p).Publish? && !pc.Store? && !pc.Publish?
    requires ProducerOk(Moved(r, p, pc), p)
    ensures Invariant(Moved(r, p, pc))
  {
    var r' := Moved(r, p, pc);
    QuietMemory(r, p, pc);
    forall q | q in r'.producers ensures ProducerOk(r', q) {
      assert q != p ==> ProducerOk(r, q);
    }
    SameOrder(r, r', p);
  }

  lemma QuietMemory<T>(r: Ring<T>, p: Pid, pc: Producer<T>)
    requires r.Sized() && ConsumerOk(r)
    requires forall t :: r.Released() <= t < r.Released() + r.Capacity() ==> TicketOk(r, t)
    requires !r.At(p).Store? && !r.At(p).Publish? && !pc.Store? && !pc.Publish?
    ensures ConsumerOk(Moved(r, p, pc))
    ensures forall t: nat :: InLap(Moved(r, p, pc), t) ==> TicketOk(Moved(r, p, pc), t)
  {
    forall t: nat | InLap(Moved(r, p, pc), t) ensures TicketOk(Moved(r, p, pc), t) {
      assert TicketOk(r, t);
    }
  }

  lemma ReadSequenceKeeps<T>(r: Ring<T>, p: Pid)
    requires Invariant(r) && Enabled(r, ReadSequence(p))
    ensures Invariant(Next(r, ReadSequence(p)))
  {
    var pos := r.At(p).pos;
    assert ProducerOk(r, p);
    SequenceTells(r, pos);
    QuietMove(r, p, Next(r, ReadSequence(p)).At(p));
  }

  lemma ValuesAppend<T>(claims: seq<(Pid, T)>, x: (Pid, T))
    ensures Values(claims + [x]) == Values(claims) + [x.1]
    ensures forall p: Pid :: ClaimsOf(claims + [x], p) == ClaimsOf(claims, p) + if x.0 == p then [x.1] else []
  {
    assert (claims + [x])[..|claims|] == claims;
  }

  lemma ClaimKeeps<T>(r: Ring<T>, p: Pid)
    requires Invariant(r) && r.At(p).Claim? && r.At(p).pos == r.enqueuePos
    ensures Invariant(Next(r, CompareExchange(p, false)))
  {
    var r' := Next(r, CompareExchange(p, false));
    var item, pos := r.At(p).item, r.enqueuePos;
    assert ProducerOk(r, p);
    ValuesAppend(r.claims, (p, item));
    forall t: nat | InLap(r', t) ensures TicketOk(r', t) {
      assert TicketOk(r, t);
      assert t < pos ==> r'.claims[t] == r.claims[t];
    }
    forall q | q in r'.producers ensures ProducerOk(r', q) {
      if q != p {
        assert ProducerOk(r, q);
        assert r.At(q).Store? || r.At(q).Publish? ==> r'.claims[r.At(q).pos] == r.claims[r.At(q).pos];
      }
    }
    ClaimKeepsOrder(r, p);
    ClaimKeepsConsumer(r, p);
  }

  lemma ClaimKeepsConsumer<T>(r: Ring<T>, p: Pid)
    requires Invariant(r) && r.At(p).Claim? && r.At(p).pos == r.enqueuePos
    ensures var r' := Next(r, CompareExchange(p, false));
            ConsumerOk(r') && r'.received == Values(r'.claims)[..r'.Released()]
  {
    var r' := Next(r, CompareExchange(p, false));
    ValuesAppend(r.claims, (p, r.At(p).item));
    if !r.consumer.Waiting? {
      assert r'.claims[r.consumer.pos] == r.claims[r.consumer.pos];
    }
  }

  lemma ClaimKeepsOrder<T>(r: Ring<T>, p: Pid)
    requires Invariant(r) && r.At(p).Claim? && r.At(p).pos == r.enqueuePos
    ensures var r' := Next(r, CompareExchange(p, false));
            forall q: Pid :: ClaimsOf(r'.claims, q) == r'.Sent(q) + InFlight(r', q)
  {
    var r' := Next(r, CompareExchange(p, false));
    ValuesAppend(r.claims, (p, r.At(p).item));
    forall q: Pid ensures ClaimsOf(r'.claims, q) == r'.Sent(q) + InFlight(r', q) {
      assert ClaimsOf(r.claims, q) == r.Sent(q) + InFlight(r, q);
    }
  }

  /** Writing the cell of one ticket of the lap leaves every other ticket's cell alone. */
  lemma OtherCells<T>(r: Ring<T>, pos: nat, cell: Cell<T>, t: nat)
    requires r.Sized() && InLap(r, pos) && InLap(r, t)
    ensures CellOf(WithCell(r, pos, cell), t) == if t == pos then cell else CellOf(r, t)
  {
    if t != pos { SameSlotSameTicket(r, t, pos); }
  }

  /** The owner of a ticket finds its cell exactly as the last lap left it. */
  lemma OwnedCell<T>(r: Ring<T>, p: Pid)
    requires Invariant(r) && (r.At(p).Store? || r.At(p).Publish?)
    ensures var pos := r.At(p).pos;
            && InLap(r, pos) && pos < |r.claims| && r.claims[pos] == (p, r.At(p).item)
            && CellOf(r, pos).sequence == pos
            && (r.consumer.Waiting? || r.consumer.pos != pos)
            && (r.At(p).Publish? ==> CellOf(r, pos).data == r.At(p).item)
            && forall q :: q != p && q in r.producers && (r.At(q).Store? || r.At(q).Publish?) ==> r.At(q).pos != pos
  {
    var pos := r.At(p).pos;
    assert ProducerOk(r, p) && InLap(r, pos) && TicketOk(r, pos);
    forall q | q != p && q in r.producers && (r.At(q).Store? || r.At(q).Publish?) ensures r.At(q).pos != pos {
      assert ProducerOk(r, q);
    }
  }

  /** An owner's write: any change of its own cell that leaves its ticket in good order. */
  lemma OwnerWrites<T>(r: Ring<T>, p: Pid, cell: Cell<T>, pc: Producer<T>)
    requires Invariant(r) && (r.At(p).Store? || r.At(p).Publish?)
    requires var pos := r.At(p).pos;
             var r' := Moved(WithCell(r, pos, cell), p, pc);
             TicketOk(r', pos) && ProducerOk(r', p)
    requires pc == Idle || (pc.Publish? && pc.pos == r.At(p).pos)
    ensures var r' := Moved(WithCell(r, r.At(p).pos, cell), p, pc);
            && (forall t: nat :: InLap(r', t) ==> TicketOk(r', t))
            && (forall q :: q in r'.producers ==> ProducerOk(r', q))
            && ConsumerOk(r')
  {
    var pos := r.At(p).pos;
    var r' := Moved(WithCell(r, pos, cell), p, pc);
    OwnedCell(r, p);
    forall t: nat | InLap(r', t) ensures TicketOk(r', t) {
      assert InLap(r, t) && TicketOk(r, t);
      OtherCells(r, pos, cell, t);
    }
    forall q | q in r'.producers && q != p ensures ProducerOk(r', q) {
      assert ProducerOk(r, q);
      if r.At(q).Publish? { OtherCells(r, pos, cell, r.At(q).pos); }
    }
    OwnerSparesConsumer(r, p, cell, pc);
  }

  lemma OwnerSparesConsumer<T>(r: Ring<T>, p: Pid, cell: Cell<T>, pc: Producer<T>)
    requires Invariant(r) && (r.At(p).Store? || r.At(p).Publish?)
    requires pc == Idle || (pc.Publish? && pc.pos == r.At(p).pos)
    ensures ConsumerOk(Moved(WithCell(r, r.At(p).pos, cell), p, pc))
  {
    OwnedCell(r, p);
    if !r.consumer.Waiting? {
      assert InLap(r, r.consumer.pos);
      OtherCells(r, r.At(p).pos, cell, r.consumer.pos);
    }
  }

  lemma WriteCellKeeps<T>(r: Ring<T>, p: Pid)
    requires Invariant(r) && r.At(p).Store?
    ensures Invariant(Next(r, WriteCell(p)))
  {
    var Store(item, pos) := r.At(p);
    OwnedCell(r, p);
    var cell := CellOf(r, pos).(data := item);
    OtherCells(r, pos, cell, pos);
    OwnerWrites(r, p, cell, Publish(item, pos));
    SameOrder(r, Next(r, WriteCell(p)), p);
  }

  lemma SameOrder<T>(r: Ring<T>, r': Ring<T>, p: Pid)
    requires forall q: Pid :: ClaimsOf(r.claims, q) == r.Sent(q) + InFlight(r, q)
    requires r'.claims == r.claims && forall q: Pid :: q != p ==> r'.At(q) == r.At(q) && r'.Sent(q) == r.Sent(q)
    requires r'.Sent(p) + InFlight(r', p) == r.Sent(p) + InFlight(r, p)
    ensures forall q: Pid :: ClaimsOf(r'.claims, q) == r'.Sent(q) + InFlight(r', q)
  {
    forall q: Pid ensures ClaimsOf(r'.claims, q) == r'.Sent(q) + InFlight(r', q) {
      assert ClaimsOf(r.claims, q) == r.Sent(q) + InFlight(r, q);
    }
  }

  lemma WriteSequenceKeeps<T>(r: Ring<T>, p: Pid)
    requires Invariant(r) && r.At(p).Publish?
    ensures Invariant(Next(r, WriteSequence(p)))
  {
    var Publish(item, pos) := r.At(p);
    OwnedCell(r, p);
    var cell := CellOf(r, pos).(sequence := pos + 1);
    OtherCells(r, pos, cell, pos);
    OwnerWrites(r, p, cell, Idle);
    LogSent(Moved(WithCell(r, pos, cell), p, Idle), Next(r, WriteSequence(p)));
    SameOrder(r, Next(r, WriteSequence(p)), p);
  }

  /** Recording a successful call touches no memory. */
  lemma LogSent<T>(r: Ring<T>, r': Ring<T>)
    requires r.Sized() && r' == r.(sent := r'.sent) && ConsumerOk(r)
    requires forall t: nat :: InLap(r, t) ==> TicketOk(r, t)
    requires forall q :: q in r.producers ==> ProducerOk(r, q)
    ensures forall t: nat :: InLap(r', t) ==> TicketOk(r', t)
    ensures forall q :: q in r'.producers ==> ProducerOk(r', q)
    ensures ConsumerOk(r')
  {
    forall t: nat | InLap(r', t) ensures TicketOk(r', t) { assert InLap(r, t) && TicketOk(r, t); }
    forall q | q in r'.producers ensures ProducerOk(r', q) { assert ProducerOk(r, q); }
  }

  lemma PollKeeps<T>(r: Ring<T>)
    requires Invariant(r) && r.consumer.Waiting?
    ensures Invariant(Next(r, Poll))
    ensures Next(r, Poll).consumer.Read? <==> r.dequeuePos < r.enqueuePos && Published(r, r.dequeuePos)
  {
    var pos := r.dequeuePos;
    assert InLap(r, pos) && TicketOk(r, pos);
    ConsumerMoves(r, Next(r, Poll));
  }

  /** A step of the consumer inside its own registers. */
  lemma ConsumerMoves<T>(r: Ring<T>, r': Ring<T>)
    requires Invariant(r) && r' == r.(consumer := r'.consumer, dequeuePos := r'.dequeuePos)
    requires r'.Released() == r.Released() && ConsumerOk(r')
    ensures Invariant(r')
  {
    forall t: nat | InLap(r', t) ensures TicketOk(r', t) { assert InLap(r, t) && TicketOk(r, t); }
    forall q | q in r'.producers ensures ProducerOk(r', q) { assert ProducerOk(r, q); }
    forall q: Pid ensures ClaimsOf(r'.claims, q) == r'.Sent(q) + InFlight(r', q) {
      assert ClaimsOf(r.claims, q) == r.Sent(q) + InFlight(r, q);
    }
  }

  lemma HandBackKeeps<T>(r: Ring<T>)
    requires Invariant(r) && r.consumer.Release?
    ensures Invariant(Next(r, HandBack))
  {
    var Release(pos, value) := r.consumer;
    var cell := CellOf(r, pos).(sequence := pos + r.Capacity());
    var r' := Next(r, HandBack);
    ShiftMod(pos, 1, r.Capacity());
    forall t: nat | InLap(r', t) ensures TicketOk(r', t) {
      if t == pos + r.Capacity() {
        OtherCells(r, pos, cell, pos);
        assert CellOf(r', t) == CellOf(WithCell(r, pos, cell), pos);
      } else {
        assert InLap(r, t) && TicketOk(r, t);
        OtherCells(r, pos, cell, t);
      }
    }
    forall q | q in r'.producers ensures ProducerOk(r', q) {
      assert ProducerOk(r, q);
      if r.At(q).Store? || r.At(q).Publish? {
        OwnedCell(r, q);
        OtherCells(r, pos, cell, r.At(q).pos);
      }
    }
    assert Values(r.claims)[..pos + 1] == Values(r.claims)[..pos] + [value];
    forall q: Pid ensures ClaimsOf(r'.claims, q) == r'.Sent(q) + InFlight(r', q) {
      assert ClaimsOf(r.claims, q) == r.Sent(q) + InFlight(r, q);
    }
  }

  /** Every step of every thread keeps the invariant. */
  lemma StepKeeps<T>(r: Ring<T>, a: Action<T>)
    requires Invariant(r) && Enabled(r, a)
    ensures Invariant(Next(r, a))
  {
    match a
    case Begin(p, item) => QuietMove(r, p, LoadSequence(item, r.enqueuePos));
    case ReadSequence(p) => ReadSequenceKeeps(r, p);
    case ReadPosition(p) => QuietMove(r, p, LoadSequence(r.At(p).item, r.enqueuePos));
    case CompareExchange(p, spurious) =>
      if r.enqueuePos == r.At(p).pos && !spurious {
        ClaimKeeps(r, p);
      } else {
        QuietMove(r, p, LoadSequence(r.At(p).item, r.enqueuePos));
      }
    case WriteCell(p) => WriteCellKeeps(r, p);
    case WriteSequence(p) => WriteSequenceKeeps(r, p);
    case Poll => PollKeeps(r);
    case ReadCell => ConsumerMoves(r, Next(r, a));
    case MovePosition => ConsumerMoves(r, Next(r, a));
    case HandBack => HandBackKeeps(r);
  }

  // ---- Whole interleavings ----

  /** `r` follows from `r0` by the actions, each enabled when taken. */
  ghost predicate Execution<T>(r0: Ring<T>, actions: seq<Action<T>>, r: Ring<T>)
    requires r0.Sized()
    decreases |actions|
  {
    if actions == [] then r == r0
    else Enabled(r0, actions[0]) && Execution(Next(r0, actions[0]), actions[1..], r)
  }

  lemma {:induction false} ExecutionKeeps<T>(r0: Ring<T>, actions: seq<Action<T>>, r: Ring<T>)
    requires Invariant(r0) && Execution(r0, actions, r)
    ensures Invariant(r) && r.Capacity() == r0.Capacity()
    decreases |actions|
  {
    if actions != [] {
      StepKeeps(r0, actions[0]);
      ExecutionKeeps(Next(r0, actions[0]), actions[1..], r);
    }
  }

  /**
   In every interleaving of any number of producers with the consumer, what dequeue has returned is a prefix
   of the items in ticket order: none lost, repeated, reordered or read before it was written. Each producer's
   items come out in the order of its own successful calls. Claimed and not yet released tickets never exceed
   the capacity.
   */
  lemma DequeuedInTicketOrder<T>(r0: Ring<T>, actions: seq<Action<T>>, r: Ring<T>)
    requires Initial(r0) && Execution(r0, actions, r)
    ensures r.received <= Values(r.claims)
    ensures |r.claims| - |r.received| <= r0.Capacity()
    ensures forall p: Pid :: ClaimsOf(r.claims[..|r.received|], p) <= r.Sent(p) <= ClaimsOf(r.claims, p)
  {
    InitialInvariant(r0);
    ExecutionKeeps(r0, actions, r);
    forall p: Pid ensures ClaimsOf(r.claims[..|r.received|], p) <= r.Sent(p) <= ClaimsOf(r.claims, p) {
      assert ClaimsOf(r.claims, p) == r.Sent(p) + InFlight(r, p);
      ProducerOrder(r, p);
    }
  }

  lemma ProducerOrder<T>(r: Ring<T>, p: Pid)
    requires Invariant(r)
    ensures ClaimsOf(r.claims[..|r.received|], p) <= r.Sent(p)
  {
    var n := r.Released();
    ClaimsOfPrefix(r.claims, n, p);
    assert ClaimsOf(r.claims, p) == r.Sent(p) + InFlight(r, p);
    if r.At(p).Store? || r.At(p).Publish? {
      OwnedCell(r, p);
      LastClaimIsLater(r.claims, n, r.At(p).pos, p);
    }
  }

  lemma {:induction false} ClaimsOfPrefix<T>(claims: seq<(Pid, T)>, n: nat, p: Pid)
    requires n <= |claims|
    ensures ClaimsOf(claims[..n], p) <= ClaimsOf(claims, p)
  {
    if n < |claims| {
      ClaimsOfPrefix(claims[..|claims| - 1], n, p);
      assert claims[..|claims| - 1][..n] == claims[..n];
    } else {
      assert claims[..n] == claims;
    }
  }

  lemma {:induction false} LastClaimIsLater<T>(claims: seq<(Pid, T)>, n: nat, k: nat, p: Pid)
    requires n <= k < |claims| && claims[k].0 == p
    ensures |ClaimsOf(claims[..n], p)| < |ClaimsOf(claims, p)|
  {
    var front := claims[..|claims| - 1];
    if k < |claims| - 1 {
      LastClaimIsLater(front, n, k, p);
      assert front[..n] == claims[..n];
    } else {
      ClaimsOfPrefix(front, n, p);
      assert front[..n] == claims[..n];
    }
  }

  // ---- Order in real time ----

  lemma {:induction false} ClaimsGrow<T>(r0: Ring<T>, actions: seq<Action<T>>, r: Ring<T>)
    requires r0.Sized() && Execution(r0, actions, r)
    ensures r0.claims <= r.claims
    decreases |actions|
  {
    if actions != [] {
      ClaimsGrow(Next(r0, actions[0]), actions[1..], r);
    }
  }

  /**
   Across producers: at any moment `now`, the calls that have returned true hold tickets below the number then
   claimed, and whatever a producer claims in calls begun after that moment comes behind them all. So a call
   that returns before another begins is dequeued first, whichever producers make them.
   */
  lemma RealTimeOrder<T>(r0: Ring<T>, earlier: seq<Action<T>>, now: Ring<T>, later: seq<Action<T>>, r: Ring<T>,
                         returned: Pid, beginning: Pid)
    requires Initial(r0) && Execution(r0, earlier, now) && now.Sized() && Execution(now, later, r)
    requires now.At(beginning).Idle?
    ensures now.claims <= r.claims && r.received <= Values(r.claims)
    ensures now.Sent(returned) <= ClaimsOf(now.claims, returned)
    ensures ClaimsOf(now.claims, beginning) == now.Sent(beginning)
    ensures ClaimsOf(r.claims, beginning) == now.Sent(beginning) + ClaimsOf(r.claims[|now.claims|..], beginning)
  {
    InitialInvariant(r0);
    ExecutionKeeps(r0, earlier, now);
    ExecutionKeeps(now, later, r);
    ClaimsGrow(now, later, r);
    assert r.claims == now.claims + r.claims[|now.claims|..];
    ClaimsOfBoth(now.claims, r.claims[|now.claims|..], beginning);
    assert ClaimsOf(now.claims, returned) == now.Sent(returned) + InFlight(now, returned);
    assert ClaimsOf(now.claims, beginning) == now.Sent(beginning) + InFlight(now, beginning);
  }

  lemma {:induction false} ClaimsOfBoth<T>(xs: seq<(Pid, T)>, ys: seq<(Pid, T)>, p: Pid)
    ensures ClaimsOf(xs + ys, p) == ClaimsOf(xs, p) + ClaimsOf(ys, p)
  {
    if ys == [] {
      assert xs + ys == xs;
    } else {
      var front := ys[..|ys| - 1];
      ClaimsOfBoth(xs, front, p);
      assert (xs + ys)[..|xs + ys| - 1] == xs + front;
    }
  }

  // ---- What the answers mean ----

  /** `enqueue` answers false exactly when, as it reads the sequence, every slot holds a ticket not yet released. */
  lemma FullMeansFull<T>(r: Ring<T>, p: Pid)
    requires Invariant(r) && Enabled(r, ReadSequence(p))
    ensures Answer(r, ReadSequence(p)) == Returned(false)
            <==> r.At(p).pos == r.enqueuePos && r.enqueuePos - r.Released() == r.Capacity()
  {
    assert ProducerOk(r, p);
    SequenceTells(r, r.At(p).pos);
  }

  /** A producer retries only because others have claimed past its position. */
  lemma RetryMeansOvertaken<T>(r: Ring<T>, p: Pid)
    requires Invariant(r) && Enabled(r, ReadSequence(p))
    ensures Next(r, ReadSequence(p)).At(p).Reload? ==> r.At(p).pos < r.enqueuePos
  {
    assert ProducerOk(r, p);
    SequenceTells(r, r.At(p).pos);
  }

  /** `dequeue` answers false exactly when the next ticket is unclaimed or its owner has not published it. */
  lemma EmptyMeansUnpublished<T>(r: Ring<T>)
    requires Invariant(r) && r.consumer.Waiting?
    ensures Answer(r, Poll) == Returned(false)
            <==> r.dequeuePos == r.enqueuePos || Owns(r, r.claims[r.dequeuePos].0, r.dequeuePos)
  {
    assert InLap(r, r.dequeuePos) && TicketOk(r, r.dequeuePos);
  }

  // ---- A call that runs alone ----

  /** The items claimed and not yet taken, in ticket order. */
  function Backlog<T>(r: Ring<T>): seq<T>
    requires r.dequeuePos <= |r.claims|
  {
    Values(r.claims)[r.dequeuePos..]
  }

  /** The retry loop of a producer that runs alone from position `enqueue_pos_`. */
  lemma SoloClaim<T>(r: Ring<T>, p: Pid, item: T)
    requires Invariant(r) && r.At(p).Idle?
    ensures var pos := r.enqueuePos;
            var loading := Moved(r, p, LoadSequence(item, pos));
            var claiming := Moved(r, p, Claim(item, pos));
            && Next(r, Begin(p, item)) == loading && Invariant(loading)
            && CellOf(loading, pos) == CellOf(r, pos) && CellOf(r, pos).sequence <= pos
            && (CellOf(r, pos).sequence < pos <==> pos - r.Released() == r.Capacity())
            && Next(loading, ReadSequence(p))
               == (if CellOf(r, pos).sequence < pos then Moved(r, p, Idle) else claiming)
            && (CellOf(r, pos).sequence == pos ==> Invariant(claiming))
            && Next(claiming, CompareExchange(p, true)) == loading
  {
    var pos := r.enqueuePos;
    var loading := Moved(r, p, LoadSequence(item, pos));
    StepKeeps(r, Begin(p, item));
    SequenceTells(r, pos);
    StepKeeps(loading, ReadSequence(p));
    assert r.producers[p := LoadSequence(item, pos)][p := Idle] == r.producers[p := Idle];
    assert r.producers[p := LoadSequence(item, pos)][p := Claim(item, pos)] == r.producers[p := Claim(item, pos)];
    assert r.producers[p := Claim(item, pos)][p := LoadSequence(item, pos)]
        == r.producers[p := LoadSequence(item, pos)];
  }

  /** The owner's two writes. */
  function Stored<T>(r: Ring<T>, p: Pid): Ring<T>
    requires r.Sized() && r.At(p).Store?
  {
    var Store(item, pos) := r.At(p);
    WithCell(r, pos, Cell(pos + 1, item))
    .(producers := r.producers[p := Idle], sent := r.sent[p := r.Sent(p) + [item]])
  }

  /** The two writes one after the other. */
  lemma BothWrites<T>(r: Ring<T>, p: Pid)
    requires r.Sized() && r.At(p).Store?
    ensures Enabled(Next(r, WriteCell(p)), WriteSequence(p))
    ensures Next(Next(r, WriteCell(p)), WriteSequence(p)) == Stored(r, p)
  {
    var Store(item, pos) := r.At(p);
    var i := r.Slot(pos);
    assert r.producers[p := Publish(item, pos)][p := Idle] == r.producers[p := Idle];
    assert r.cells[i := r.cells[i].(data := item)][i := Cell(pos + 1, item)] == r.cells[i := Cell(pos + 1, item)];
  }

  lemma StoredKeeps<T>(r: Ring<T>, p: Pid)
    requires Invariant(r) && r.At(p).Store?
    ensures Invariant(Stored(r, p))
  {
    BothWrites(r, p);
    StepKeeps(r, WriteCell(p));
    StepKeeps(Next(r, WriteCell(p)), WriteSequence(p));
  }

  /** What a successful enqueue adds up to. */
  lemma SoloEnqueue<T>(r: Ring<T>, claimed: Ring<T>, r': Ring<T>, p: Pid, item: T)
    requires r.Sized() && r.dequeuePos <= |r.claims| && r.At(p).Idle?
    requires claimed == Next(Moved(r, p, Claim(item, r.enqueuePos)), CompareExchange(p, false))
    requires r' == Stored(claimed, p)
    ensures Backlog(r') == Backlog(r) + [item] && r'.Sent(p) == r.Sent(p) + [item] && r'.consumer == r.consumer
    ensures r'.At(p).Idle? && forall q: Pid :: q != p ==> r'.At(q) == r.At(q) && r'.Sent(q) == r.Sent(q)
  {
    ValuesAppend(r.claims, (p, item));
  }

  /** The four steps of a successful dequeue. */
  function Taken<T>(r: Ring<T>): Ring<T>
    requires r.Sized() && r.dequeuePos < |r.claims|
  {
    var pos := r.dequeuePos;
    WithCell(r, pos, CellOf(r, pos).(sequence := pos + r.Capacity()))
    .(dequeuePos := pos + 1, received := r.received + [r.claims[pos].1])
  }

  predicate Ready<T>(r: Ring<T>)
    requires |r.claims| == r.enqueuePos
  {
    r.dequeuePos < r.enqueuePos && !Owns(r, r.claims[r.dequeuePos].0, r.dequeuePos)
  }

  /** The consumer has seen the published sequence and read the cell. */
  function Peeked<T>(r: Ring<T>): Ring<T>
    requires r.Sized() && r.dequeuePos < |r.claims|
  {
    r.(consumer := Advance(r.dequeuePos, r.claims[r.dequeuePos].1))
  }

  /** The consumer has moved its position and not yet handed the cell back. */
  function Passed<T>(r: Ring<T>): Ring<T>
    requires r.Sized() && r.dequeuePos < |r.claims|
  {
    r.(consumer := Release(r.dequeuePos, r.claims[r.dequeuePos].1), dequeuePos := r.dequeuePos + 1)
  }

  /** A poll that runs alone starts a dequeue exactly when the oldest item is published. */
  lemma SoloPoll<T>(r: Ring<T>)
    requires Invariant(r) && r.consumer.Waiting?
    ensures Ready(r) <==> CellOf(r, r.dequeuePos).sequence - (r.dequeuePos + 1) == 0
    ensures Next(r, Poll) == if Ready(r) then r.(consumer := Read(r.dequeuePos)) else r
    ensures Ready(r) ==> CellOf(r, r.dequeuePos).data == r.claims[r.dequeuePos].1
  {
    EmptyMeansUnpublished(r);
    assert InLap(r, r.dequeuePos) && TicketOk(r, r.dequeuePos);
  }

  lemma SoloPeek<T>(r: Ring<T>)
    requires Invariant(r) && r.consumer.Waiting? && Ready(r)
    ensures Enabled(Next(r, Poll), ReadCell) && Next(Next(r, Poll), ReadCell) == Peeked(r) && Invariant(Peeked(r))
  {
    SoloPoll(r);
    StepKeeps(r, Poll);
    StepKeeps(Next(r, Poll), ReadCell);
  }

  lemma SoloRelease<T>(r: Ring<T>)
    requires r.Sized() && r.consumer.Waiting? && r.dequeuePos < |r.claims| && Invariant(Peeked(r))
    ensures Next(Peeked(r), MovePosition) == Passed(r) && Next(Passed(r), HandBack) == Taken(r)
    ensures Invariant(Taken(r))
  {
    StepKeeps(Peeked(r), MovePosition);
    StepKeeps(Passed(r), HandBack);
  }

  /** The four steps of a dequeue that runs alone and finds the oldest item published. */
  lemma SoloTake<T>(r: Ring<T>)
    requires Invariant(r) && r.consumer.Waiting? && Ready(r)
    ensures Enabled(Next(r, Poll), ReadCell) && Next(Next(r, Poll), ReadCell) == Peeked(r)
    ensures Next(Next(Peeked(r), MovePosition), HandBack) == Taken(r) && Invariant(Taken(r))
    ensures Backlog(r) == [r.claims[r.dequeuePos].1] + Backlog(Taken(r))
  {
    SoloPeek(r);
    SoloRelease(r);
  }

  // ---- The queue in memory ----

  datatype Created<T> = InvalidCapacity | Created(queue: MPSCQueue<T>)

  /** Builds a queue, or refuses a capacity that is not a power of two of at least two. */
  method Create<T>(capacity: nat, blank: T) returns (r: Created<T>)
    ensures r.InvalidCapacity? <==> capacity < 2 || !IsPowerOfTwo(capacity)
    ensures r.Created? ==> fresh(r.queue) && r.queue.Valid() && Initial(r.queue.ring)
    ensures r.Created? ==> fresh(r.queue.buffer) && r.queue.buffer.Length == capacity
  {
    if capacity > 0 { PowerOfTwoTest(capacity); }
    if capacity < 2 || And(capacity, capacity - 1) != 0 {
      return InvalidCapacity;
    }
    var q := new MPSCQueue<T>(capacity, blank);
    r := Created(q);
  }

  class MPSCQueue<T> {
    const buffer: array<Cell<T>>
    var enqueuePos: nat
    var dequeuePos: nat

    ghost var ring: Ring<T>  // the memory, every thread's position and the history

    /** The machine's memory is this object's. */
    ghost predicate Linked()
      reads this, buffer
    {
      ring.cells == buffer[..] && ring.enqueuePos == enqueuePos && ring.dequeuePos == dequeuePos
    }

    ghost predicate Valid()
      reads this, buffer
    {
      Linked() && Invariant(ring)
    }

    constructor (capacity: nat, blank: T)
      requires capacity >= 2 && IsPowerOfTwo(capacity)
      ensures Valid() && Initial(ring) && fresh(buffer) && buffer.Length == capacity
    {
      buffer := new Cell<T>[capacity](i => Cell(if i >= 0 then i else 0, blank));
      enqueuePos, dequeuePos := 0, 0;
      new;
      ring := Ring(buffer[..], 0, 0, map[], Waiting, [], map[], []);
      InitialInvariant(ring);
    }

    /**
     One call of enqueue that runs while every other thread stands still, wherever it stands; the first
     `failures` compare-exchanges fail spuriously. It fails exactly when every slot holds an unreleased ticket.
     */
    method Enqueue(p: Pid, item: T, failures: nat) returns (ok: bool)
      requires Valid() && ring.At(p).Idle?
      modifies this, buffer
      ensures Valid() && ring.At(p).Idle? && ring.consumer == old(ring.consumer)
      ensures ok <==> old(enqueuePos) - old(ring).Released() < buffer.Length
      ensures Backlog(ring) == if ok then Backlog(old(ring)) + [item] else Backlog(old(ring))
      ensures ring.Sent(p) == if ok then old(ring).Sent(p) + [item] else old(ring).Sent(p)
      ensures forall q: Pid :: q != p ==> ring.At(q) == old(ring).At(q) && ring.Sent(q) == old(ring).Sent(q)
    {
      var pos;
      ok, pos := ClaimTicket(p, item, failures);
      if ok {
        ghost var claimed := ring;
        StoreItem(p, item, pos);
        SoloEnqueue(old(ring), claimed, ring, p, item);
      }
    }

    /** The retry loop: on success the ticket at the frontier is claimed, otherwise nothing has changed. */
    method ClaimTicket(p: Pid, item: T, failures: nat) returns (claimed: bool, pos: nat)
      requires Valid() && ring.At(p).Idle?
      modifies this
      ensures Valid() && pos == old(enqueuePos)
      ensures claimed <==> old(enqueuePos) - old(ring).Released() < buffer.Length
      ensures claimed ==> ring == Next(Moved(old(ring), p, Claim(item, pos)), CompareExchange(p, false))
      ensures !claimed ==> ring == Moved(old(ring), p, Idle)
    {
      var left := failures;
      pos := enqueuePos;
      SoloClaim(ring, p, item);
      MaskIsRemainder(pos, buffer.Length);
      ghost var claiming := Moved(ring, p, Claim(item, pos));
      ring := Next(ring, Begin(p, item));
      ghost var loading := ring;
      while true
        invariant Linked() && pos == enqueuePos == old(enqueuePos) && ring == loading
        decreases left
      {
        var dif := buffer[And(pos, buffer.Length - 1)].sequence - pos;
        ring := Next(ring, ReadSequence(p));
        if dif == 0 {
          ring := Next(ring, CompareExchange(p, left > 0));
          if left == 0 {
            enqueuePos := pos + 1;
            claimed := true;
            break;
          }
          left := left - 1;
          pos := enqueuePos;
        } else if dif < 0 {
          claimed := false;
          break;
        } else {
          assert false;
        }
      }
      if claimed {
        StepKeeps(claiming, CompareExchange(p, false));
      } else {
        StepKeeps(loading, ReadSequence(p));
      }
    }

    /** Writes the claimed cell, then publishes it. */
    method StoreItem(p: Pid, item: T, pos: nat)
      requires Valid() && ring.At(p) == Store(item, pos)
      modifies this`ring, buffer
      ensures Valid() && ring == Stored(old(ring), p)
    {
      MaskIsRemainder(pos, buffer.Length);
      ghost var stored := Stored(ring, p);
      assert stored.cells == ring.cells[And(pos, buffer.Length - 1) := Cell(pos + 1, item)];
      StoredKeeps(ring, p);
      WriteBoth(And(pos, buffer.Length - 1), item, pos);
      ring := stored;
    }

    /** The cell's item, then its sequence. */
    method WriteBoth(i: nat, item: T, pos: nat)
      requires i < buffer.Length
      modifies buffer
      ensures buffer[..] == old(buffer[..])[i := Cell(pos + 1, item)]
    {
      buffer[i] := buffer[i].(data := item);
      buffer[i] := buffer[i].(sequence := pos + 1);
    }

    /**
     One call of dequeue that runs while every producer stands still, wherever it stands. It fails exactly
     when the next ticket is unclaimed or not yet published, and otherwise takes the oldest item.
     */
    method Dequeue(blank: T) returns (ok: bool, value: T)
      requires Valid() && ring.consumer.Waiting?
      modifies this, buffer
      ensures Valid() && ring.consumer.Waiting? && ring.claims == old(ring.claims)
      ensures ring.producers == old(ring.producers) && ring.sent == old(ring.sent)
      ensures ok <==> Ready(old(ring))
      ensures ok ==> Backlog(old(ring)) == [value] + Backlog(ring) && ring.received == old(ring.received) + [value]
      ensures !ok ==> ring == old(ring)
    {
      var pos := dequeuePos;
      MaskIsRemainder(pos, buffer.Length);
      SoloPoll(ring);
      var i := And(pos, buffer.Length - 1);
      var dif := buffer[i].sequence - (pos + 1);
      if dif == 0 {
        SoloTake(ring);
        value := buffer[i].data;
        dequeuePos := pos + 1;
        buffer[i] := buffer[i].(sequence := pos + buffer.Length);
        assert buffer[..] == old(buffer[..])[i := old(buffer[i]).(sequence := pos + buffer.Length)];
        ring := Taken(ring);
        return true, value;
      }
      return false, blank;
    }
  }
}
