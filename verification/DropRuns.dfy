/**
 A run of the offloader in which one event is lost between two that are delivered: the ring fills up while the
 worker has not started, one event is refused, the worker takes one, the next event is accepted again.
 */
module DropRuns {
  import opened KafkaOffloader
  import R = SpscQueue

  /** `s` is reached from an initial state, by some interleaving. */
  ghost predicate Live<T(!new)>(s0: Offloader<T>, s: Offloader<T>) {
    Initial(s0) && exists actions :: Execution(s0, actions, s)
  }

  lemma Begins<T(!new)>(s0: Offloader<T>)
    requires Initial(s0)
    ensures Live(s0, s0) && Invariant(s0)
  {
    InitialInvariant(s0);
    assert Execution(s0, [], s0);
  }

  lemma Goes<T(!new)>(s0: Offloader<T>, s: Offloader<T>, a: Action<T>)
    requires Live(s0, s) && s.queue.Sized() && Enabled(s, a)
    ensures Live(s0, Next(s, a))
  {
    var actions :| Execution(s0, actions, s);
    InitialInvariant(s0);
    OneMore(s0, actions, s, a);
  }

  lemma LiveInvariant<T(!new)>(s0: Offloader<T>, s: Offloader<T>)
    requires Live(s0, s)
    ensures Invariant(s)
  {
    var actions :| Execution(s0, actions, s);
    InitialInvariant(s0);
    ExecutionKeeps(s0, actions, s);
  }

  // ---- One call of publish while the worker stands still ----

  ghost predicate Room<T>(s: Offloader<T>)
    requires |s.queue.popped| <= |s.queue.pushed|
  {
    |R.Queued(s.queue)| < s.queue.Capacity()
  }

  function Accepts<T>(s: Offloader<T>, event: T): Offloader<T>
    requires s.queue.Sized() && s.queue.pusher.Resting?
  {
    s.(queue := R.AfterPush(s.queue, event), attempts := s.attempts + [(event, true)], published := s.published + 1)
  }

  function Refuses<T>(s: Offloader<T>, event: T): Offloader<T> {
    s.(attempts := s.attempts + [(event, false)], dropped := s.dropped + 1)
  }

  lemma AcceptingSteps<T>(s: Offloader<T>, event: T)
    returns (s1: Offloader<T>, s2: Offloader<T>, s3: Offloader<T>, s4: Offloader<T>)
    requires R.Invariant(s.queue) && s.publisher.Free? && !s.closed && s.queue.pusher.Resting? && Room(s)
    ensures Enabled(s, Publish(event)) && s1 == Next(s, Publish(event))
    ensures s1.queue.Sized() && Enabled(s1, PushStep) && s2 == Next(s1, PushStep)
    ensures s2.queue.Sized() && Enabled(s2, PushStep) && s3 == Next(s2, PushStep)
    ensures s3.queue.Sized() && Enabled(s3, PushStep) && s4 == Next(s3, PushStep)
    ensures s4.queue.Sized() && Enabled(s4, Count) && Next(s4, Count) == Accepts(s, event)
  {
    R.SoloPush(s.queue, event);
    s1 := Next(s, Publish(event));
    s2 := Next(s1, PushStep);
    s3 := Next(s2, PushStep);
    s4 := Next(s3, PushStep);
  }

  lemma AcceptsOne<T(!new)>(s0: Offloader<T>, s: Offloader<T>, event: T)
    requires Live(s0, s) && R.Invariant(s.queue)
    requires s.publisher.Free? && !s.closed && s.queue.pusher.Resting? && Room(s)
    ensures Live(s0, Accepts(s, event))
  {
    var s1, s2, s3, s4 := AcceptingSteps(s, event);
    Goes(s0, s, Publish(event));
    Goes(s0, s1, PushStep);
    Goes(s0, s2, PushStep);
    Goes(s0, s3, PushStep);
    Goes(s0, s4, Count);
  }

  lemma RefusingSteps<T>(s: Offloader<T>, event: T) returns (s1: Offloader<T>, s2: Offloader<T>)
    requires R.Invariant(s.queue) && s.publisher.Free? && !s.closed && s.queue.pusher.Resting? && !Room(s)
    ensures Enabled(s, Publish(event)) && s1 == Next(s, Publish(event))
    ensures s1.queue.Sized() && Enabled(s1, PushStep) && s2 == Next(s1, PushStep)
    ensures s2.queue.Sized() && Enabled(s2, Count) && Next(s2, Count) == Refuses(s, event)
  {
    R.SoloPush(s.queue, event);
    s1 := Next(s, Publish(event));
    s2 := Next(s1, PushStep);
  }

  lemma RefusesOne<T(!new)>(s0: Offloader<T>, s: Offloader<T>, event: T)
    requires Live(s0, s) && R.Invariant(s.queue)
    requires s.publisher.Free? && !s.closed && s.queue.pusher.Resting? && !Room(s)
    ensures Live(s0, Refuses(s, event))
  {
    var s1, s2 := RefusingSteps(s, event);
    Goes(s0, s, Publish(event));
    Goes(s0, s1, PushStep);
    Goes(s0, s2, Count);
  }

  // ---- One successful pop while the publisher stands still ----

  function Takes<T>(s: Offloader<T>): Offloader<T>
    requires s.queue.Sized() && s.queue.popper.Waiting?
  {
    s.(queue := R.AfterPop(s.queue), batch := s.batch + [s.queue.buffer[R.Slot(s.queue, s.queue.tail)]])
  }

  lemma TakingSteps<T>(s: Offloader<T>) returns (s1: Offloader<T>, s2: Offloader<T>)
    requires R.Invariant(s.queue) && s.worker.Filling? && s.queue.popper.Waiting?
    requires |s.batch| < MAX_BATCH_EVENTS && R.Queued(s.queue) != []
    ensures Enabled(s, PopStep) && s1 == Next(s, PopStep)
    ensures s1.queue.Sized() && Enabled(s1, PopStep) && s2 == Next(s1, PopStep)
    ensures s2.queue.Sized() && Enabled(s2, PopStep) && Next(s2, PopStep) == Takes(s)
    ensures R.Invariant(Takes(s).queue) && |R.Queued(Takes(s).queue)| == |R.Queued(s.queue)| - 1
  {
    R.SoloPop(s.queue);
    s1 := Next(s, PopStep);
    s2 := Next(s1, PopStep);
  }

  lemma TakesOne<T(!new)>(s0: Offloader<T>, s: Offloader<T>)
    requires Live(s0, s) && R.Invariant(s.queue) && s.worker.Filling? && s.queue.popper.Waiting?
    requires |s.batch| < MAX_BATCH_EVENTS && R.Queued(s.queue) != []
    ensures R.Invariant(Takes(s).queue) && Live(s0, Takes(s)) && |R.Queued(Takes(s).queue)| == |R.Queued(s.queue)| - 1
  {
    var s1, s2 := TakingSteps(s);
    Goes(s0, s, PopStep);
    Goes(s0, s1, PopStep);
    Goes(s0, s2, PopStep);
  }

  // ---- Publishing a series of events ----

  /** The first `n` events have been offered, and both threads rest. */
  ghost predicate Offered<T(!new)>(s0: Offloader<T>, s: Offloader<T>, events: seq<T>, n: nat) {
    && Live(s0, s) && Invariant(s) && s.publisher.Free? && !s.closed && s.running && s.queue.popper.Waiting?
    && |s.attempts| == n <= |events| && forall i :: 0 <= i < n ==> s.attempts[i].0 == events[i]
  }

  /** The next event, whether there is room for it or not. */
  lemma OffersNext<T(!new)>(s0: Offloader<T>, s: Offloader<T>, events: seq<T>, n: nat) returns (t: Offloader<T>)
    requires Offered(s0, s, events, n) && n < |events|
    ensures Offered(s0, t, events, n + 1) && t.attempts == s.attempts + [(events[n], Room(s))]
    ensures t.worker == s.worker && t.batch == s.batch && t.queue.popped == s.queue.popped
    ensures |R.Queued(t.queue)| == |R.Queued(s.queue)| + (if Room(s) then 1 else 0)
    ensures t.queue.Capacity() == s.queue.Capacity()
  {
    if Room(s) {
      AcceptsOne(s0, s, events[n]);
      t := Accepts(s, events[n]);
      LiveInvariant(s0, t);
    } else {
      RefusesOne(s0, s, events[n]);
      t := Refuses(s, events[n]);
      LiveInvariant(s0, t);
    }
  }

  /** The ring fills up: the worker has not started. */
  lemma {:induction false} FillsRing<T(!new)>(s0: Offloader<T>, events: seq<T>, n: nat) returns (s: Offloader<T>)
    requires Initial(s0) && n <= QUEUE_CAPACITY && n <= |events|
    ensures Offered(s0, s, events, n) && s.worker.Top? && |R.Queued(s.queue)| == n
    ensures s.queue.Capacity() == QUEUE_CAPACITY && forall i :: 0 <= i < n ==> s.attempts[i].1
  {
    if n == 0 {
      Begins(s0);
      s := s0;
    } else {
      var r := FillsRing(s0, events, n - 1);
      s := OffersNext(s0, r, events, n - 1);
    }
  }

  /** The ring is full, one event is refused, the worker takes one, and the next event is accepted. */
  lemma LosesOne<T(!new)>(s0: Offloader<T>, events: seq<T>) returns (s: Offloader<T>)
    requires Initial(s0) && |events| > QUEUE_CAPACITY + 1
    ensures Offered(s0, s, events, QUEUE_CAPACITY + 2)
    ensures s.attempts[0].1 && !s.attempts[QUEUE_CAPACITY].1 && s.attempts[QUEUE_CAPACITY + 1].1
  {
    var full := FillsRing(s0, events, QUEUE_CAPACITY);
    var refused := OffersNext(s0, full, events, QUEUE_CAPACITY);
    Goes(s0, refused, CheckRunning);
    var filling := Next(refused, CheckRunning);
    TakesOne(s0, filling);
    LiveInvariant(s0, Takes(filling));
    s := OffersNext(s0, Takes(filling), events, QUEUE_CAPACITY + 1);
  }

  /** The remaining events, whatever becomes of them. */
  lemma {:induction false} OffersRest<T(!new)>(s0: Offloader<T>, s: Offloader<T>, events: seq<T>, n: nat)
    returns (t: Offloader<T>)
    requires Offered(s0, s, events, n)
    ensures Offered(s0, t, events, |events|) && s.attempts <= t.attempts
    decreases |events| - n
  {
    if n == |events| {
      t := s;
    } else {
      t := OffersNext(s0, s, events, n);
      t := OffersRest(s0, t, events, n + 1);
    }
  }

  // ---- The worker drains and returns ----

  /** How far the worker is from going round again or returning. */
  function Rank<T>(s: Offloader<T>): nat
    requires |s.queue.popped| <= |s.queue.pushed|
  {
    match s.worker
    case Filling => if s.batch != [] then 5 else if R.Queued(s.queue) == [] then 4 else 1
    case Tallying => 4
    case Top => 3
    case Draining => 2
    case Done => 0
  }

  ghost predicate Stopped<T(!new)>(s0: Offloader<T>, s: Offloader<T>) {
    Live(s0, s) && Invariant(s) && s.orderly && s.queue.popper.Waiting?
  }

  /** The step `a` pops nothing and brings the worker closer to its return. */
  ghost predicate Nearer<T>(s: Offloader<T>, a: Action<T>)
    requires R.Invariant(s.queue)
  {
    Enabled(s, a) && var t := Next(s, a);
    t.attempts == s.attempts && t.queue == s.queue && t.orderly == s.orderly && Rank(t) < Rank(s)
  }

  /** The fill ends: the batch is full, or nothing is queued. */
  lemma FillEndsNearer<T>(s: Offloader<T>)
    requires R.Invariant(s.queue) && s.worker.Filling? && s.queue.popper.Waiting?
    requires |s.batch| == MAX_BATCH_EVENTS || R.Queued(s.queue) == []
    ensures Nearer(s, PopStep)
  {
    R.EmptyTest(s.queue);
    assert Next(s, PopStep) == EndFill(s);
  }

  lemma DepthCheckIsNearer<T>(s: Offloader<T>)
    requires R.Invariant(s.queue) && s.worker.Draining?
    ensures Nearer(s, CheckDepth)
  {
    R.WrappedDifference(|s.queue.pushed|, |s.queue.popped|);
  }

  lemma WorkerStep<T>(s: Offloader<T>) returns (a: Action<T>)
    requires R.Invariant(s.queue) && !s.running && s.queue.popper.Waiting? && !s.worker.Done?
    requires s.worker.Filling? ==> |s.batch| == MAX_BATCH_EVENTS || R.Queued(s.queue) == []
    ensures Nearer(s, a)
  {
    match s.worker
    case Top => a := CheckRunning;
    case Draining => DepthCheckIsNearer(s); a := CheckDepth;
    case Filling => FillEndsNearer(s); a := PopStep;
    case Tallying => a := Tally;
  }

  /** After an orderly stop: one step of the worker that pops nothing. */
  lemma WorkerSteps<T(!new)>(s0: Offloader<T>, s: Offloader<T>) returns (t: Offloader<T>)
    requires Stopped(s0, s) && !s.worker.Done?
    requires s.worker.Filling? ==> |s.batch| == MAX_BATCH_EVENTS || R.Queued(s.queue) == []
    ensures Stopped(s0, t) && t.attempts == s.attempts && t.queue == s.queue && Rank(t) < Rank(s)
  {
    var a := WorkerStep(s);
    Goes(s0, s, a);
    t := Next(s, a);
    LiveInvariant(s0, t);
  }

  lemma {:induction false} Drains<T(!new)>(s0: Offloader<T>, s: Offloader<T>) returns (t: Offloader<T>)
    requires Stopped(s0, s)
    ensures Stopped(s0, t) && t.worker.Done? && t.attempts == s.attempts
    decreases |R.Queued(s.queue)|, Rank(s)
  {
    if s.worker.Done? {
      t := s;
    } else if s.worker.Filling? && |s.batch| < MAX_BATCH_EVENTS && R.Queued(s.queue) != [] {
      TakesOne(s0, s);
      LiveInvariant(s0, Takes(s));
      t := Drains(s0, Takes(s));
    } else {
      t := WorkerSteps(s0, s);
      t := Drains(s0, t);
    }
  }

  /** The matching thread is joined, stop is called, and the worker returns. */
  lemma StopsCleanly<T(!new)>(s0: Offloader<T>, s: Offloader<T>, events: seq<T>) returns (t: Offloader<T>)
    requires Offered(s0, s, events, |events|)
    ensures Stopped(s0, t) && t.worker.Done? && t.attempts == s.attempts
  {
    Goes(s0, s, Close);
    Goes(s0, Next(s, Close), Stop);
    LiveInvariant(s0, Next(Next(s, Close), Stop));
    t := Drains(s0, Next(Next(s, Close), Stop));
  }

  /**
   From any start, and for any series of more than 65537 events: they are all offered, stop is called in order
   and the worker returns, but event 65537 was lost between the first and the one after it.
   */
  lemma LosesInside<T(!new)>(s0: Offloader<T>, events: seq<T>) returns (actions: seq<Action<T>>, s: Offloader<T>)
    requires Initial(s0) && |events| > QUEUE_CAPACITY + 1
    ensures Execution(s0, actions, s) && s.worker.Done? && s.orderly
    ensures |s.attempts| == |events| && forall i :: 0 <= i < |events| ==> s.attempts[i].0 == events[i]
    ensures s.attempts[0].1 && !s.attempts[QUEUE_CAPACITY].1 && s.attempts[QUEUE_CAPACITY + 1].1
  {
    s := LosesOne(s0, events);
    ghost var early := s.attempts;
    s := OffersRest(s0, s, events, QUEUE_CAPACITY + 2);
    assert s.attempts[0] == early[0] && s.attempts[QUEUE_CAPACITY] == early[QUEUE_CAPACITY];
    assert s.attempts[QUEUE_CAPACITY + 1] == early[QUEUE_CAPACITY + 1];
    s := StopsCleanly(s0, s, events);
    actions :| Execution(s0, actions, s);
  }
}
