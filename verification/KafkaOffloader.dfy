/**
 The event offloader (KafkaOffloader.h): the matching thread publishes into the ring, one worker drains it in
 batches, and `stop` asks the worker to finish. All three interleave; "delivered" means handed to publishBatch.
 */
module KafkaOffloader {
  import opened Sequences
  import opened SpscQueue

  const QUEUE_CAPACITY: nat := 0x1_0000
  const MAX_BATCH_EVENTS: nat := 1024

  /** Where the matching thread stands inside `publish`. */
  datatype Publisher<T> =
    | Free
    | Trying(event: T)                 // inside tryPush
    | Counting(event: T, ok: bool)     // tryPush has returned, the counter is not yet bumped

  /** Where the worker stands inside `run`. */
  datatype Worker =
    | Top                // about to read running_
    | Draining           // read running_ == false, about to read the queue depth
    | Filling            // inside the batch loop
    | Tallying           // handed the batch over, about to bump the counter
    | Done

  /**
   The offloader: its queue and flag, both threads, the three counters, and the history. `attempts` lists every
   event published with the answer; `batches` what publishBatch was given; `closed` says that the matching
   thread has finished for good and `orderly` that it had when stop was called.
   */
  datatype Offloader<T> = Offloader(
    queue: Ring<T>, running: bool, publisher: Publisher<T>, worker: Worker, batch: seq<T>,
    published: nat, dropped: nat, delivered: nat,
    attempts: seq<(T, bool)>, batches: seq<seq<T>>, closed: bool, orderly: bool)

  datatype Action<T> =
    | Publish(event: T)
    | PushStep             // one step of tryPush
    | Count                // bump published_ or dropped_
    | Close                // the matching thread is joined
    | Stop                 // running_ = false
    | CheckRunning
    | CheckDepth
    | PopStep              // one step of the batch loop
    | Tally                // delivered_ += count

  function NextPush<T>(r: Ring<T>): SpscQueue.Action<T>
    requires !r.pusher.Resting?
  {
    match r.pusher
    case Checking(_) => CheckRoom
    case Writing(_) => WriteSlot
    case Publishing(_) => StoreHead
  }

  function NextPop<T>(r: Ring<T>): SpscQueue.Action<T> {
    match r.popper
    case Waiting => CheckItem
    case Reading => ReadSlot
    case Advancing(_) => StoreTail
  }

  predicate Enabled<T>(s: Offloader<T>, a: Action<T>) {
    match a
    case Publish(_) => s.publisher.Free? && !s.closed && s.queue.pusher.Resting?
    case PushStep => s.publisher.Trying? && !s.queue.pusher.Resting?
    case Count => s.publisher.Counting?
    case Close => s.publisher.Free?
    case Stop => s.running
    case CheckRunning => s.worker.Top?
    case CheckDepth => s.worker.Draining?
    case PopStep => s.worker.Filling?
    case Tally => s.worker.Tallying?
  }

  function AfterPushStep<T>(s: Offloader<T>): Offloader<T>
    requires s.queue.Sized() && s.publisher.Trying? && !s.queue.pusher.Resting?
  {
    var a := NextPush(s.queue);
    var t := s.(queue := SpscQueue.Next(s.queue, a));
    match SpscQueue.Answer(s.queue, a)
    case Pending => t
    case Returned(ok) =>
      t.(publisher := Counting(s.publisher.event, ok), attempts := s.attempts + [(s.publisher.event, ok)])
  }

  /** A full batch, or an empty queue, ends the fill; an empty batch goes back to the top. */
  function EndFill<T>(s: Offloader<T>): Offloader<T> {
    if s.batch == [] then s.(worker := Top)
    else s.(worker := Tallying, batches := s.batches + [s.batch])
  }

  function AfterPopStep<T>(s: Offloader<T>): Offloader<T>
    requires s.queue.Sized() && s.worker.Filling?
  {
    if |s.batch| >= MAX_BATCH_EVENTS && s.queue.popper.Waiting? then EndFill(s)
    else
      var a := NextPop(s.queue);
      var t := s.(queue := SpscQueue.Next(s.queue, a));
      match SpscQueue.Answer(s.queue, a)
      case Pending => t
      case Returned(true) => t.(batch := s.batch + [s.queue.popper.value])
      case Returned(false) => EndFill(t)
  }

  function Next<T>(s: Offloader<T>, a: Action<T>): Offloader<T>
    requires s.queue.Sized() && Enabled(s, a)
  {
    match a
    case Publish(e) => s.(publisher := Trying(e), queue := SpscQueue.Next(s.queue, Push(e)))
    case PushStep => AfterPushStep(s)
    case Count =>
      if s.publisher.ok then s.(publisher := Free, published := s.published + 1)
      else s.(publisher := Free, dropped := s.dropped + 1)
    case Close => s.(closed := true)
    case Stop => s.(running := false, orderly := s.closed)
    case CheckRunning => if s.running then s.(worker := Filling, batch := []) else s.(worker := Draining)
    case CheckDepth =>
      if Minus(s.queue.head, s.queue.tail) > 0 then s.(worker := Filling, batch := []) else s.(worker := Done)
    case PopStep => AfterPopStep(s)
    case Tally => s.(worker := Top, batch := [], delivered := s.delivered + |s.batch|)
  }

  ghost predicate Initial<T>(s: Offloader<T>) {
    && SpscQueue.Initial(s.queue) && s.queue.Capacity() == QUEUE_CAPACITY
    && s.running && s.publisher == Free && s.worker == Top && s.batch == []
    && s.published == s.dropped == s.delivered == 0
    && s.attempts == [] && s.batches == [] && !s.closed && !s.orderly
  }

  // ---- Accounting ----

  /** The events publish accepted, in order. */
  function Accepted<T>(attempts: seq<(T, bool)>): seq<T> {
    if attempts == [] then []
    else
      var last := attempts[|attempts| - 1];
      if last.1 then Accepted(attempts[..|attempts| - 1]) + [last.0] else Accepted(attempts[..|attempts| - 1])
  }

  function Refused<T>(attempts: seq<(T, bool)>): nat {
    if attempts == [] then 0
    else Refused(attempts[..|attempts| - 1]) + if attempts[|attempts| - 1].1 then 0 else 1
  }

  lemma AcceptedAppend<T>(attempts: seq<(T, bool)>, x: (T, bool))
    ensures Accepted(attempts + [x]) == if x.1 then Accepted(attempts) + [x.0] else Accepted(attempts)
    ensures Refused(attempts + [x]) == Refused(attempts) + if x.1 then 0 else 1
  {
    assert (attempts + [x])[..|attempts|] == attempts;
  }

  /** What the worker has popped but not yet handed over. */
  function InHand<T>(s: Offloader<T>): seq<T> {
    if s.worker.Filling? then s.batch else []
  }

  /** The publisher's point fits the queue's, and its counters lag by at most the call under way. */
  ghost predicate PublisherOk<T>(s: Offloader<T>) {
    && (match s.publisher
        case Trying(e) => !s.queue.pusher.Resting? && s.queue.pusher.value == e
        case _ => s.queue.pusher.Resting?)
    && Accepted(s.attempts) == s.queue.pushed
    && s.published + (if s.publisher.Counting? && s.publisher.ok then 1 else 0) == |Accepted(s.attempts)|
    && s.dropped + (if s.publisher.Counting? && !s.publisher.ok then 1 else 0) == Refused(s.attempts)
    && (s.closed ==> s.publisher.Free?)
  }

  /** The batches and the batch in hand are what was popped; the delivered count lags by the batch being tallied. */
  ghost predicate WorkerOk<T>(s: Offloader<T>) {
    && (!s.worker.Filling? ==> s.queue.popper.Waiting?)
    && s.queue.popped == Concat(s.batches) + InHand(s)
    && s.delivered + (if s.worker.Tallying? then |s.batch| else 0) == |Concat(s.batches)|
    && |s.batch| <= MAX_BATCH_EVENTS && (!s.queue.popper.Waiting? ==> |s.batch| < MAX_BATCH_EVENTS)
    && (s.worker.Tallying? ==> s.batch != [])
    && (forall b :: b in s.batches ==> 0 < |b| <= MAX_BATCH_EVENTS)
  }

  ghost predicate Invariant<T>(s: Offloader<T>) {
    && SpscQueue.Invariant(s.queue) && PublisherOk(s) && WorkerOk(s)
    && (s.worker.Draining? || s.worker.Done? ==> !s.running)
    && (s.orderly ==> s.closed && !s.running)
    && (s.worker.Done? && s.orderly ==> Queued(s.queue) == [])
  }

  lemma InitialInvariant<T>(s: Offloader<T>)
    requires Initial(s)
    ensures Invariant(s)
  {
  }

  /** A step of tryPush leaves the worker's side of the accounts alone. */
  lemma PushSparesWorker<T>(s: Offloader<T>, t: Offloader<T>)
    requires WorkerOk(s) && t.queue.popper == s.queue.popper && t.queue.popped == s.queue.popped
    requires t.worker == s.worker && t.batch == s.batch && t.batches == s.batches && t.delivered == s.delivered
    ensures WorkerOk(t)
  {
  }

  lemma PushUnderWay<T>(s: Offloader<T>)
    requires Invariant(s) && Enabled(s, PushStep) && SpscQueue.Answer(s.queue, NextPush(s.queue)).Pending?
    ensures Invariant(Next(s, PushStep))
  {
    StepKeeps(s.queue, NextPush(s.queue));
    PushSparesWorker(s, Next(s, PushStep));
  }

  /** The answer joins the history just as the event joins the queue, or does not. */
  lemma PushAnswered<T>(s: Offloader<T>)
    requires Invariant(s) && Enabled(s, PushStep) && SpscQueue.Answer(s.queue, NextPush(s.queue)).Returned?
    ensures Invariant(Next(s, PushStep))
  {
    var a := NextPush(s.queue);
    StepKeeps(s.queue, a);
    AcceptedAppend(s.attempts, (s.publisher.event, SpscQueue.Answer(s.queue, a).ok));
    PushSparesWorker(s, Next(s, PushStep));
  }

  lemma PushStepKeeps<T>(s: Offloader<T>)
    requires Invariant(s) && Enabled(s, PushStep)
    ensures Invariant(Next(s, PushStep))
  {
    match SpscQueue.Answer(s.queue, NextPush(s.queue))
    case Pending => PushUnderWay(s);
    case Returned(_) => PushAnswered(s);
  }

  lemma EndFillKeeps<T>(s: Offloader<T>)
    requires SpscQueue.Invariant(s.queue) && PublisherOk(s) && WorkerOk(s)
    requires s.worker.Filling? && s.queue.popper.Waiting?
    ensures var t := EndFill(s);
            SpscQueue.Invariant(t.queue) && PublisherOk(t) && WorkerOk(t)
  {
    ConcatAppend(s.batches, s.batch);
    assert Concat(s.batches) + [] == Concat(s.batches);
  }

  /** A pop that has not returned leaves both accounts alone. */
  lemma PopUnderWay<T>(s: Offloader<T>)
    requires Invariant(s) && s.worker.Filling? && |s.batch| < MAX_BATCH_EVENTS
    requires SpscQueue.Answer(s.queue, NextPop(s.queue)).Pending?
    ensures Invariant(Next(s, PopStep))
  {
    StepKeeps(s.queue, NextPop(s.queue));
  }

  /** A successful pop moves one event from the queue to the batch. */
  lemma PoppedOne<T>(s: Offloader<T>)
    requires Invariant(s) && s.worker.Filling? && s.queue.popper.Advancing? && |s.batch| < MAX_BATCH_EVENTS
    ensures Invariant(Next(s, PopStep))
  {
    StepKeeps(s.queue, StoreTail);
    assert Concat(s.batches) + (s.batch + [s.queue.popper.value])
        == (Concat(s.batches) + s.batch) + [s.queue.popper.value];
  }

  /** A full batch, or a pop that finds nothing, ends the fill. */
  lemma FillEnds<T>(s: Offloader<T>)
    requires Invariant(s) && s.worker.Filling? && s.queue.popper.Waiting?
    requires |s.batch| >= MAX_BATCH_EVENTS || s.queue.tail == s.queue.head
    ensures Invariant(Next(s, PopStep))
  {
    assert Next(s, PopStep) == EndFill(s);
    EndFillKeeps(s);
  }

  lemma PopStepKeeps<T>(s: Offloader<T>)
    requires Invariant(s) && Enabled(s, PopStep)
    ensures Invariant(Next(s, PopStep))
  {
    if |s.batch| >= MAX_BATCH_EVENTS {
      FillEnds(s);
    } else {
      match SpscQueue.Answer(s.queue, NextPop(s.queue)) {
        case Pending => PopUnderWay(s);
        case Returned(true) => PoppedOne(s);
        case Returned(false) => FillEnds(s);
      }
    }
  }

  lemma CheckKeeps<T>(s: Offloader<T>, a: Action<T>)
    requires Invariant(s) && Enabled(s, a) && (a.CheckRunning? || a.CheckDepth?)
    ensures Invariant(Next(s, a))
  {
    WrappedDifference(|s.queue.pushed|, |s.queue.popped|);
    assert Concat(s.batches) + [] == Concat(s.batches);
  }

  lemma StepKeepsInvariant<T>(s: Offloader<T>, a: Action<T>)
    requires Invariant(s) && Enabled(s, a)
    ensures Invariant(Next(s, a))
  {
    match a
    case Publish(e) => StepKeeps(s.queue, Push(e));
    case PushStep => PushStepKeeps(s);
    case Count =>
    case Close =>
    case Stop =>
    case CheckRunning => CheckKeeps(s, a);
    case CheckDepth => CheckKeeps(s, a);
    case PopStep => PopStepKeeps(s);
    case Tally =>
  }

  ghost predicate Execution<T>(s0: Offloader<T>, actions: seq<Action<T>>, s: Offloader<T>)
    requires s0.queue.Sized()
    decreases |actions|
  {
    if actions == [] then s == s0
    else Enabled(s0, actions[0]) && Execution(Next(s0, actions[0]), actions[1..], s)
  }

  lemma {:induction false} ExecutionKeeps<T>(s0: Offloader<T>, actions: seq<Action<T>>, s: Offloader<T>)
    requires Invariant(s0) && Execution(s0, actions, s)
    ensures Invariant(s)
    decreases |actions|
  {
    if actions != [] {
      StepKeepsInvariant(s0, actions[0]);
      ExecutionKeeps(Next(s0, actions[0]), actions[1..], s);
    }
  }

  /**
   At every moment of every interleaving the accepted events are, in order, what has been handed over in
   batches, what the worker holds and what is queued; and the counters differ from the truth only by the calls
   under way. `delivered` leads `published`, and then by one, exactly while the publisher stands between its
   last push and the count and the worker has already counted everything pushed.
   */
  lemma NothingLostInFlight<T>(s0: Offloader<T>, actions: seq<Action<T>>, s: Offloader<T>)
    requires Initial(s0) && Execution(s0, actions, s)
    ensures |s.queue.popped| <= |s.queue.pushed|
    ensures Accepted(s.attempts) == Concat(s.batches) + InHand(s) + Queued(s.queue)
    ensures s.delivered <= |Concat(s.batches)| <= s.published + 1
    ensures s.delivered > s.published
            <==> s.publisher.Counting? && s.publisher.ok && s.delivered == |s.queue.pushed|
    ensures forall b :: b in s.batches ==> 0 < |b| <= MAX_BATCH_EVENTS
  {
    InitialInvariant(s0);
    ExecutionKeeps(s0, actions, s);
  }

  /**
   Stop drains: when the publisher had finished before stop was called and the worker has returned, every
   accepted event has been handed over, in order, and all three counters are exact.
   */
  lemma StopDrains<T>(s0: Offloader<T>, actions: seq<Action<T>>, s: Offloader<T>)
    requires Initial(s0) && Execution(s0, actions, s)
    requires s.worker.Done? && s.orderly
    ensures Concat(s.batches) == Accepted(s.attempts)
    ensures s.delivered == s.published == |Accepted(s.attempts)| && s.dropped == Refused(s.attempts)
  {
    InitialInvariant(s0);
    ExecutionKeeps(s0, actions, s);
  }

  // ---- A run in which `delivered` is ahead of `published` ----

  lemma {:induction false} OneMore<T>(s0: Offloader<T>, actions: seq<Action<T>>, s: Offloader<T>, a: Action<T>)
    requires s0.queue.Sized() && Execution(s0, actions, s) && s.queue.Sized() && Enabled(s, a)
    ensures Execution(s0, actions + [a], Next(s, a))
    decreases |actions|
  {
    if actions == [] {
      assert [a][1..] == [];
    } else {
      assert (actions + [a])[1..] == actions[1..] + [a];
      OneMore(Next(s0, actions[0]), actions[1..], s, a);
    }
  }

  /** The publisher has pushed its first event and not yet counted it. */
  function Pushed<T>(s0: Offloader<T>, event: T): Offloader<T>
    requires s0.queue.Sized() && s0.queue.pusher.Resting?
  {
    s0.(queue := AfterPush(s0.queue, event), publisher := Counting(event, true), attempts := [(event, true)])
  }

  lemma PushesFirst<T>(s0: Offloader<T>, event: T) returns (actions: seq<Action<T>>)
    requires Initial(s0)
    ensures Execution(s0, actions, Pushed(s0, event))
  {
    SoloPush(s0.queue, event);
    var s1 := Next(s0, Publish(event));
    var s2 := Next(s1, PushStep);
    var s3 := Next(s2, PushStep);
    assert Next(s3, PushStep) == Pushed(s0, event);
    OneMore(s0, [], s0, Publish(event));
    OneMore(s0, [] + [Publish(event)], s1, PushStep);
    OneMore(s0, [] + [Publish(event)] + [PushStep], s2, PushStep);
    OneMore(s0, [] + [Publish(event)] + [PushStep] + [PushStep], s3, PushStep);
    actions := [] + [Publish(event)] + [PushStep] + [PushStep] + [PushStep];
  }

  /** The worker takes that event into its batch. */
  function Popped<T>(s: Offloader<T>): Offloader<T>
    requires s.queue.Sized() && s.queue.popper.Waiting?
  {
    var q := AfterPop(s.queue);
    s.(queue := q, worker := Filling, batch := q.popped)
  }

  lemma PopsFirst<T>(s0: Offloader<T>, actions: seq<Action<T>>, s: Offloader<T>) returns (more: seq<Action<T>>)
    requires Initial(s0) && Execution(s0, actions, s)
    requires SpscQueue.Invariant(s.queue) && s.running && s.worker.Top? && s.queue.popper.Waiting?
    requires s.queue.popped == [] && Queued(s.queue) != []
    ensures Execution(s0, more, Popped(s)) && SpscQueue.Invariant(Popped(s).queue)
  {
    SoloPop(s.queue);
    var s1 := Next(s, CheckRunning);
    var s2 := Next(s1, PopStep);
    var s3 := Next(s2, PopStep);
    assert Next(s3, PopStep) == Popped(s);
    OneMore(s0, actions, s, CheckRunning);
    OneMore(s0, actions + [CheckRunning], s1, PopStep);
    OneMore(s0, actions + [CheckRunning] + [PopStep], s2, PopStep);
    OneMore(s0, actions + [CheckRunning] + [PopStep] + [PopStep], s3, PopStep);
    more := actions + [CheckRunning] + [PopStep] + [PopStep] + [PopStep];
  }

  /** The queue is empty, so the batch is handed over and counted. */
  lemma TalliesFirst<T>(s0: Offloader<T>, actions: seq<Action<T>>, s: Offloader<T>)
    returns (more: seq<Action<T>>, t: Offloader<T>)
    requires s0.queue.Sized() && Execution(s0, actions, s)
    requires SpscQueue.Invariant(s.queue) && Queued(s.queue) == []
    requires s.worker.Filling? && s.queue.popper.Waiting? && 0 < |s.batch| < MAX_BATCH_EVENTS
    ensures Execution(s0, more, t) && t.delivered == s.delivered + |s.batch| && t.published == s.published
  {
    EmptyTest(s.queue);
    OneMore(s0, actions, s, PopStep);
    OneMore(s0, actions + [PopStep], Next(s, PopStep), Tally);
    more, t := actions + [PopStep] + [Tally], Next(Next(s, PopStep), Tally);
  }

  /** From any start: one event is pushed, handed over and counted as delivered before it is counted as published. */
  lemma DeliveredCanLead<T>(s0: Offloader<T>, event: T) returns (actions: seq<Action<T>>, s: Offloader<T>)
    requires Initial(s0)
    ensures Execution(s0, actions, s) && s.delivered == 1 && s.published == 0
  {
    actions := PushesFirst(s0, event);
    s := Pushed(s0, event);
    SoloPush(s0.queue, event);
    SoloPop(s.queue);
    assert Queued(s.queue) == [event];
    actions := PopsFirst(s0, actions, s);
    actions, s := TalliesFirst(s0, actions, Popped(s));
  }

  // ---- When an event is refused ----

  /** A publish is refused exactly when it finds every slot taken. */
  lemma RefusedExactlyWhenFull<T>(s: Offloader<T>)
    requires Invariant(s) && Enabled(s, PushStep)
    ensures SpscQueue.Answer(s.queue, NextPush(s.queue)) == Returned(false)
            <==> s.queue.pusher.Checking? && |Queued(s.queue)| == s.queue.Capacity()
  {
    FullTest(s.queue);
  }

  lemma {:induction false} EveryAttemptIsAnswered<T>(attempts: seq<(T, bool)>)
    ensures |Accepted(attempts)| + Refused(attempts) == |attempts|
  {
    if attempts != [] {
      EveryAttemptIsAnswered(attempts[..|attempts| - 1]);
    }
  }

  /** No event is refused before there have been as many as there are slots. */
  ghost predicate RefusesOnlyBeyondCapacity<T>(s: Offloader<T>) {
    forall i :: 0 <= i < |s.attempts| && !s.attempts[i].1 ==> i >= s.queue.Capacity()
  }

  lemma AnswerNeedsManyEvents<T>(s: Offloader<T>)
    requires Invariant(s) && Enabled(s, PushStep) && RefusesOnlyBeyondCapacity(s)
    requires SpscQueue.Answer(s.queue, NextPush(s.queue)).Returned?
    ensures RefusesOnlyBeyondCapacity(Next(s, PushStep)) && Next(s, PushStep).queue.Capacity() == s.queue.Capacity()
  {
    RefusedExactlyWhenFull(s);
    EveryAttemptIsAnswered(s.attempts);
    AcceptedAppend(s.attempts, (s.publisher.event, SpscQueue.Answer(s.queue, NextPush(s.queue)).ok));
  }

  lemma OnlyAnswersAreAttempts<T>(s: Offloader<T>, a: Action<T>)
    requires s.queue.Sized() && Enabled(s, a)
    requires !(a.PushStep? && SpscQueue.Answer(s.queue, NextPush(s.queue)).Returned?)
    ensures Next(s, a).attempts == s.attempts && Next(s, a).queue.Capacity() == s.queue.Capacity()
  {
  }

  lemma RefusalNeedsManyEvents<T>(s: Offloader<T>, a: Action<T>)
    requires Invariant(s) && Enabled(s, a) && RefusesOnlyBeyondCapacity(s)
    ensures RefusesOnlyBeyondCapacity(Next(s, a)) && Next(s, a).queue.Capacity() == s.queue.Capacity()
  {
    if a.PushStep? && SpscQueue.Answer(s.queue, NextPush(s.queue)).Returned? {
      AnswerNeedsManyEvents(s);
    } else {
      OnlyAnswersAreAttempts(s, a);
    }
  }

  lemma {:induction false} RefusalsNeedManyEvents<T>(s0: Offloader<T>, actions: seq<Action<T>>, s: Offloader<T>)
    requires Invariant(s0) && Execution(s0, actions, s) && RefusesOnlyBeyondCapacity(s0)
    ensures RefusesOnlyBeyondCapacity(s) && s.queue.Capacity() == s0.queue.Capacity()
    decreases |actions|
  {
    if actions != [] {
      RefusalNeedsManyEvents(s0, actions[0]);
      StepKeepsInvariant(s0, actions[0]);
      RefusalsNeedManyEvents(Next(s0, actions[0]), actions[1..], s);
    }
  }

  /** The first 65536 events are all accepted, however slow the worker is and however the threads interleave. */
  lemma EarlyEventsAreAccepted<T>(s0: Offloader<T>, actions: seq<Action<T>>, s: Offloader<T>)
    requires Initial(s0) && Execution(s0, actions, s)
    ensures forall i :: 0 <= i < |s.attempts| && i < QUEUE_CAPACITY ==> s.attempts[i].1
  {
    InitialInvariant(s0);
    RefusalsNeedManyEvents(s0, actions, s);
  }

  lemma {:induction false} NoneRefusedNoneMissing<T>(attempts: seq<(T, bool)>)
    requires forall i :: 0 <= i < |attempts| ==> attempts[i].1
    ensures Refused(attempts) == 0
  {
    if attempts != [] {
      NoneRefusedNoneMissing(attempts[..|attempts| - 1]);
    }
  }

  /** So a run of up to 65536 events drops nothing. */
  lemma SmallRunsDropNothing<T>(s0: Offloader<T>, actions: seq<Action<T>>, s: Offloader<T>)
    requires Initial(s0) && Execution(s0, actions, s)
    requires |s.attempts| <= QUEUE_CAPACITY
    ensures s.dropped == Refused(s.attempts) == 0 && |Accepted(s.attempts)| == |s.attempts|
  {
    InitialInvariant(s0);
    ExecutionKeeps(s0, actions, s);
    EarlyEventsAreAccepted(s0, actions, s);
    NoneRefusedNoneMissing(s.attempts);
    EveryAttemptIsAnswered(s.attempts);
  }

  lemma NextArrival<T>(arrivals: seq<seq<T>>, k: nat)
    requires k < |arrivals|
    ensures Concat(arrivals[k..k + 1]) == arrivals[k]
    ensures Concat(arrivals[..k + 1]) == Concat(arrivals[..k]) + arrivals[k]
  {
    ConcatPrefix(arrivals, k, 0);
    assert arrivals[k..k + 1] == [] + [arrivals[k]];
    ConcatAppend([], arrivals[k]);
  }

  // ---- The offloader in memory ----

  /** What has been queued, and the publisher's two counters. */
  datatype Account<T> = Account(pushed: seq<T>, published: nat, dropped: nat)

  /** From one account to the next `events` were offered: all counted, and queued in order unless some were dropped. */
  ghost predicate Offered<T>(a: Account<T>, b: Account<T>, events: seq<T>) {
    && a.pushed <= b.pushed && a.dropped <= b.dropped
    && b.published + b.dropped == a.published + a.dropped + |events|
    && (b.dropped == a.dropped ==> b.pushed == a.pushed + events)
  }

  lemma OfferedOn<T>(a: Account<T>, b: Account<T>, c: Account<T>, events: seq<T>, more: seq<T>)
    requires Offered(a, b, events) && Offered(b, c, more)
    ensures Offered(a, c, events + more)
  {
    assert (a.pushed + events) + more == a.pushed + (events + more);
  }

  class KafkaOffloader<T(0)> {
    const queue: SPSCQueue<T>
    var running: bool
    var joinable: bool              // a worker has been started and not yet joined
    var published: nat
    var dropped: nat
    var delivered: nat
    ghost var batches: seq<seq<T>>  // what publishBatch was given

    ghost predicate Valid()
      reads this, queue, queue.buffer
    {
      && queue.Valid() && queue.ring.pusher.Resting? && queue.ring.popper.Waiting?
      && queue.ring.popped == Concat(batches) && delivered == |Concat(batches)|
      && published == |queue.ring.pushed|
    }

    ghost function Accounts(): Account<T>
      reads this, queue
    {
      Account(queue.ring.pushed, published, dropped)
    }

    constructor (queue: SPSCQueue<T>)
      requires queue.Valid() && SpscQueue.Initial(queue.ring)
      ensures Valid() && this.queue == queue && !running && !joinable && dropped == 0 && batches == []
    {
      this.queue := queue;
      running, joinable, published, dropped, delivered, batches := false, false, 0, 0, 0, [];
    }

    method Start()
      requires Valid() && !joinable
      modifies this`running, this`joinable
      ensures Valid() && running && joinable
    {
      running := true;
      joinable := true;
    }

    /**
     Clears the flag and waits for the worker, which hands over everything still queued before it returns. A
     second call finds no worker to wait for and changes nothing.
     */
    method Stop(blank: T)
      requires Valid()
      modifies this`running, this`joinable, this`published, this`dropped, this`delivered, this`batches
      modifies queue, queue.buffer
      ensures Valid() && !running && !joinable && queue.ring.pushed == old(queue.ring.pushed)
      ensures published == old(published) && dropped == old(dropped)
      ensures old(joinable) ==> Concat(batches) == queue.ring.pushed && delivered == published
      ensures !old(joinable) ==> batches == old(batches) && delivered == old(delivered) && queue.ring == old(queue.ring)
    {
      running := false;
      if joinable {
        Run([], blank);
        joinable := false;
      }
    }

    /** Queues the event, or drops it when the queue is full, and counts which. */
    method Publish(event: T) returns (ok: bool)
      requires Valid()
      modifies this`published, this`dropped, queue, queue.buffer
      ensures Valid() && (ok <==> |Queued(old(queue.ring))| < queue.buffer.Length)
      ensures queue.ring.pushed == if ok then old(queue.ring.pushed) + [event] else old(queue.ring.pushed)
      ensures published == old(published) + (if ok then 1 else 0) && dropped == old(dropped) + if ok then 0 else 1
    {
      ok := queue.TryPush(event);
      if ok { published := published + 1; } else { dropped := dropped + 1; }
    }

    /** What the matching thread does meanwhile: a series of publishes. */
    method PublishAll(events: seq<T>)
      requires Valid()
      modifies this`published, this`dropped, queue, queue.buffer
      ensures Valid()
      ensures Offered(old(Accounts()), Accounts(), events)
    {
      var i := 0;
      while i < |events|
        invariant 0 <= i <= |events| && Valid()
        invariant Offered(old(Accounts()), Accounts(), events[..i])
      {
        ghost var now := Accounts();
        var _ := Publish(events[i]);
        OfferedOn(old(Accounts()), now, Accounts(), events[..i], [events[i]]);
        assert events[..i + 1] == events[..i] + [events[i]];
        i := i + 1;
      }
      assert events[..i] == events;
    }

    /** The batches handed over since `before`, each of 1 to 1024 events. */
    ghost predicate HandedOverSince(before: seq<seq<T>>)
      reads this
    {
      before <= batches && forall i :: |before| <= i < |batches| ==> 0 < |batches[i]| <= MAX_BATCH_EVENTS
    }

    /**
     The worker's loop. While it runs, the matching thread publishes `arrivals[k]` during the k-th pass, and the
     flag is cleared in the pass after the last of them; a worker that starts after the flag is cleared only
     drains. The loop ends, and by then everything accepted has been handed over, in order, in batches of at
     most 1024.
     */
    method Run(arrivals: seq<seq<T>>, blank: T)
      requires Valid() && (!running ==> arrivals == [])
      modifies this`running, this`published, this`dropped, this`delivered, this`batches, queue, queue.buffer
      ensures Valid() && !running && Concat(batches) == queue.ring.pushed && delivered == published
      ensures Offered(old(Accounts()), Accounts(), Concat(arrivals))
      ensures HandedOverSince(old(batches))
    {
      var batch := new T[MAX_BATCH_EVENTS];
      var k := 0;
      var depth := queue.ApproxSize();
      assert arrivals[..0] == [];
      while running || depth > 0
        invariant Valid() && k <= |arrivals| && (!running ==> k == |arrivals| && depth == |Queued(queue.ring)|)
        invariant Offered(old(Accounts()), Accounts(), Concat(arrivals[..k]))
        invariant HandedOverSince(old(batches))
        decreases |arrivals| - k + (if running then 1 else 0), |Queued(queue.ring)|
      {
        ghost var j, now := k, Accounts();
        k, depth := Pass(arrivals, k, batch, blank);
        OfferedOn(old(Accounts()), now, Accounts(), Concat(arrivals[..j]), Concat(arrivals[j..k]));
      }
      assert arrivals[..k] == arrivals;
    }

    /** One pass of the loop, with what the other threads do meanwhile. */
    method Pass(arrivals: seq<seq<T>>, k: nat, batch: array<T>, blank: T) returns (k': nat, depth: nat)
      requires Valid() && k <= |arrivals| && batch.Length == MAX_BATCH_EVENTS && batch != queue.buffer
      requires !running ==> k == |arrivals| && Queued(queue.ring) != []
      modifies this`running, this`published, this`dropped, this`delivered, this`batches, batch, queue, queue.buffer
      ensures Valid() && k <= k' <= |arrivals| && depth == |Queued(queue.ring)|
      ensures if !old(running) then !running && depth < |Queued(old(queue.ring))|
              else if k < |arrivals| then running && k' == k + 1 else !running
      ensures !running ==> k' == |arrivals|
      ensures Offered(old(Accounts()), Accounts(), Concat(arrivals[k..k']))
      ensures Concat(arrivals[..k']) == Concat(arrivals[..k]) + Concat(arrivals[k..k'])
      ensures HandedOverSince(old(batches))
    {
      k' := k;
      if running {
        k' := Meanwhile(arrivals, k);
      } else {
        assert arrivals[k..] == [];
      }
      var _ := HandOver(batch, blank);
      depth := queue.ApproxSize();
    }

    /** The other threads during one pass of the worker: the next publishes, or the flag is cleared. */
    method Meanwhile(arrivals: seq<seq<T>>, k: nat) returns (k': nat)
      requires Valid() && running && k <= |arrivals|
      modifies this`running, this`published, this`dropped, queue, queue.buffer
      ensures Valid() && if k < |arrivals| then running && k' == k + 1 else !running && k' == k
      ensures Offered(old(Accounts()), Accounts(), Concat(arrivals[k..k']))
      ensures Concat(arrivals[..k']) == Concat(arrivals[..k]) + Concat(arrivals[k..k'])
    {
      k' := k;
      if k < |arrivals| {
        NextArrival(arrivals, k);
        PublishAll(arrivals[k]);
        k' := k + 1;
      } else {
        running := false;
        assert arrivals[k..k'] == [];
      }
    }

    /** One pass: fills the batch and, unless it is empty, hands it over and counts it. */
    method HandOver(batch: array<T>, blank: T) returns (count: nat)
      requires Valid() && batch.Length == MAX_BATCH_EVENTS && batch != queue.buffer
      modifies this`delivered, this`batches, batch, queue
      ensures Valid() && queue.ring.pushed == old(queue.ring.pushed)
      ensures if count == 0 then Queued(queue.ring) == [] && batches == old(batches)
              else 0 < count <= MAX_BATCH_EVENTS && batches == old(batches) + [batch[..count]]
      ensures Queued(old(queue.ring)) == batch[..count] + Queued(queue.ring)
    {
      count := Fill(batch, blank);
      if count > 0 {
        batches, delivered := batches + [batch[..count]], delivered + count;
        ConcatAppend(old(batches), batch[..count]);
      }
    }

    /** Pops into the batch until it is full or the queue is empty. */
    method Fill(batch: array<T>, blank: T) returns (count: nat)
      requires queue.Valid() && queue.ring.popper.Waiting? && batch.Length == MAX_BATCH_EVENTS
      requires batch != queue.buffer
      modifies batch, queue
      ensures queue.Valid() && queue.ring.popper.Waiting? && queue.ring.pusher == old(queue.ring.pusher)
      ensures count <= MAX_BATCH_EVENTS && (count == 0 ==> Queued(queue.ring) == [])
      ensures queue.ring.popped == old(queue.ring.popped) + batch[..count]
      ensures queue.ring.pushed == old(queue.ring.pushed)
    {
      count := 0;
      while count < batch.Length
        invariant 0 <= count <= batch.Length
        invariant queue.Valid() && queue.ring.popper.Waiting? && queue.ring.pusher == old(queue.ring.pusher)
        invariant queue.ring.popped == old(queue.ring.popped) + batch[..count]
        invariant queue.ring.pushed == old(queue.ring.pushed)
      {
        var ok, value := queue.TryPop(blank);
        if !ok { break; }
        batch[count] := value;
        count := count + 1;
      }
    }
  }
}
