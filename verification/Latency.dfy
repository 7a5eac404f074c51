/**
 The latency histograms of MatchingEngine.cpp: the worker counts into arrays of its own and adds them to the
 shared ones every 65536 orders; the metrics thread takes the shared counts away and computes percentiles.
 */
module Latency {
  const BUCKETS: nat := 100000
  const FLUSH_EVERY: nat := 65536

  // ---- Buckets ----

  /** Division that rounds toward zero. */
  function Truncated(a: int, b: int): int
    requires b > 0
  {
    if a >= 0 then a / b else -(-a / b)
  }

  datatype Slot = Outside | Bucket(index: nat)

  /** The bucket of the time between two clock readings, in microseconds, when the order carries its stamps. */
  function BucketOf(stamped: bool, from: int, to: int): Slot {
    var us := Truncated(to - from, 1000);
    if stamped && 0 <= us < BUCKETS then Bucket(us) else Outside
  }

  /** Time in the engine, from receipt; and time on the network, which needs the sender's stamp as well. */
  function EngineSlot(t1: int, t2: int): Slot {
    BucketOf(t1 > 0, t1, t2)
  }

  function NetworkSlot(t0: int, t1: int): Slot {
    BucketOf(t0 > 0 && t1 > 0, t0, t1)
  }

  /** A clock that ran backwards by less than a microsecond still counts, in bucket 0. */
  lemma BucketMeans(from: int, to: int, k: nat)
    ensures BucketOf(true, from, to) == Bucket(k)
       <==> k < BUCKETS && ((1000 * k <= to - from < 1000 * (k + 1)) || (k == 0 && -1000 < to - from < 0))
  {
  }

  // ---- The two threads ----

  /** The counts, the orders since the last flush, the snapshots taken so far and the samples seen so far. */
  datatype Meter = Meter(local: seq<nat>, shared: seq<nat>, pending: nat, taken: seq<seq<nat>>, seen: seq<Slot>)

  datatype Step = Record(slot: Slot) | Flush | Snapshot

  function Zeros(): (z: seq<nat>)
    ensures |z| == BUCKETS
  {
    seq(BUCKETS, i => 0)
  }

  function Bump(h: seq<nat>, slot: Slot): (r: seq<nat>)
    ensures |r| == |h|
  {
    if slot.Bucket? && slot.index < |h| then h[slot.index := h[slot.index] + 1] else h
  }

  function Sum(a: seq<nat>, b: seq<nat>): (r: seq<nat>)
    requires |a| == |b|
    ensures |r| == |a|
  {
    seq(|a|, i requires 0 <= i < |a| => a[i] + b[i])
  }

  predicate Sized(m: Meter) {
    |m.local| == |m.shared| == BUCKETS && forall i :: 0 <= i < |m.taken| ==> |m.taken[i]| == BUCKETS
  }

  /** The worker flushes when it has recorded 65536 orders, and only then; the metrics thread steps in anywhere. */
  predicate Enabled(m: Meter, s: Step) {
    match s
    case Record(_) => m.pending < FLUSH_EVERY
    case Flush => m.pending == FLUSH_EVERY
    case Snapshot => true
  }

  function Next(m: Meter, s: Step): (r: Meter)
    requires Sized(m)
    ensures Sized(r)
  {
    match s
    case Record(slot) => m.(local := Bump(m.local, slot), pending := m.pending + 1, seen := m.seen + [slot])
    case Flush => m.(shared := Sum(m.shared, m.local), local := Zeros(), pending := 0)
    case Snapshot => m.(taken := m.taken + [m.shared], shared := Zeros())
  }

  const FRESH: Meter := Meter(Zeros(), Zeros(), 0, [], [])

  function Occurrences(seen: seq<Slot>, k: nat): nat {
    if seen == [] then 0
    else Occurrences(seen[..|seen| - 1], k) + if seen[|seen| - 1] == Bucket(k) then 1 else 0
  }

  /** What all snapshots hold of a bucket. */
  function Reported(taken: seq<seq<nat>>, k: nat): nat
    requires forall i :: 0 <= i < |taken| ==> k < |taken[i]|
  {
    if taken == [] then 0 else Reported(taken[..|taken| - 1], k) + taken[|taken| - 1][k]
  }

  /** Every sample of a bucket is in the local count, the shared count or a snapshot, and in one of them only. */
  predicate Accounted(m: Meter, k: nat)
    requires Sized(m) && k < BUCKETS
  {
    && m.local[k] + m.shared[k] + Reported(m.taken, k) == Occurrences(m.seen, k)
    && m.local[k] <= m.pending
  }

  predicate Conserved(m: Meter) {
    Sized(m) && m.pending <= FLUSH_EVERY && forall k: nat | k < BUCKETS :: Accounted(m, k)
  }

  lemma NextAccounts(m: Meter, s: Step, k: nat)
    requires Sized(m) && Enabled(m, s) && k < BUCKETS && Accounted(m, k)
    ensures Accounted(Next(m, s), k)
  {
    var n := Next(m, s);
    match s
    case Record(slot) => assert n.seen[..|n.seen| - 1] == m.seen;
    case Flush =>
    case Snapshot => assert n.taken[..|n.taken| - 1] == m.taken;
  }

  predicate Allowed(m: Meter, steps: seq<Step>)
    requires Sized(m)
    decreases |steps|
  {
    steps == [] || (Enabled(m, steps[0]) && Allowed(Next(m, steps[0]), steps[1..]))
  }

  function RunOf(m: Meter, steps: seq<Step>): Meter
    requires Sized(m)
    decreases |steps|
  {
    if steps == [] then m else RunOf(Next(m, steps[0]), steps[1..])
  }

  lemma NextConserves(m: Meter, s: Step)
    requires Conserved(m) && Enabled(m, s)
    ensures Conserved(Next(m, s))
  {
    forall k: nat | k < BUCKETS ensures Accounted(Next(m, s), k) {
      assert Accounted(m, k);
      NextAccounts(m, s, k);
    }
  }

  /** The slots of the orders recorded by a run, in order. */
  function Recorded(steps: seq<Step>): seq<Slot> {
    if steps == [] then []
    else (if steps[0].Record? then [steps[0].slot] else []) + Recorded(steps[1..])
  }

  lemma {:induction false} RunConserves(m: Meter, steps: seq<Step>)
    requires Conserved(m) && Allowed(m, steps)
    ensures Conserved(RunOf(m, steps))
    decreases |steps|
  {
    if steps != [] {
      NextConserves(m, steps[0]);
      RunConserves(Next(m, steps[0]), steps[1..]);
    }
  }

  lemma {:induction false} RunRecords(m: Meter, steps: seq<Step>)
    requires Sized(m)
    ensures RunOf(m, steps).seen == m.seen + Recorded(steps)
    decreases |steps|
  {
    if steps == [] {
      assert m.seen + [] == m.seen;
    } else {
      RunRecords(Next(m, steps[0]), steps[1..]);
      var first := if steps[0].Record? then [steps[0].slot] else [];
      assert Next(m, steps[0]).seen == m.seen + first;
      assert (m.seen + first) + Recorded(steps[1..]) == m.seen + (first + Recorded(steps[1..]));
    }
  }

  /**
   In every interleaving of recording, flushing and snapshots, each bucket's samples are exactly what is local,
   shared or reported, and no local count goes above 65536, far within 32 bits.
   */
  lemma EverySampleIsCountedOnce(steps: seq<Step>, k: nat)
    requires Allowed(FRESH, steps) && k < BUCKETS
    ensures var m := RunOf(FRESH, steps);
            && Sized(m)
            && m.local[k] + m.shared[k] + Reported(m.taken, k) == Occurrences(Recorded(steps), k)
            && m.local[k] <= 65536
  {
    forall j: nat | j < BUCKETS ensures Accounted(FRESH, j) {
    }
    RunConserves(FRESH, steps);
    RunRecords(FRESH, steps);
    assert [] + Recorded(steps) == Recorded(steps);
    assert Accounted(RunOf(FRESH, steps), k);
  }

  // ---- Percentiles ----

  function Total(h: seq<nat>): nat {
    if h == [] then 0 else Total(h[..|h| - 1]) + h[|h| - 1]
  }

  function Copies(x: nat, n: nat): (s: seq<nat>)
    ensures |s| == n && forall i :: 0 <= i < n ==> s[i] == x
  {
    seq(n, i => x)
  }

  /** The samples a histogram stands for, smallest first. */
  function Samples(h: seq<nat>): (s: seq<nat>)
    ensures |s| == Total(h)
  {
    if h == [] then [] else Samples(h[..|h| - 1]) + Copies(|h| - 1, h[|h| - 1])
  }

  lemma {:induction false} SamplesInRange(h: seq<nat>)
    ensures forall i :: 0 <= i < |Samples(h)| ==> Samples(h)[i] < |h|
  {
    if h != [] {
      SamplesInRange(h[..|h| - 1]);
    }
  }

  lemma {:induction false} SamplesSorted(h: seq<nat>)
    ensures forall i, j :: 0 <= i < j < |Samples(h)| ==> Samples(h)[i] <= Samples(h)[j]
  {
    if h != [] {
      SamplesSorted(h[..|h| - 1]);
      SamplesInRange(h[..|h| - 1]);
    }
  }

  lemma {:induction false} CopiesCount(x: nat, n: nat, k: nat)
    ensures multiset(Copies(x, n))[k] == if k == x then n else 0
  {
    if n == 0 {
      assert Copies(x, n) == [];
    } else {
      CopiesCount(x, n - 1, k);
      assert Copies(x, n) == Copies(x, n - 1) + [x];
    }
  }

  /** Each bucket's count is the number of its samples. */
  lemma {:induction false} SamplesCount(h: seq<nat>, k: nat)
    ensures multiset(Samples(h))[k] == if k < |h| then h[k] else 0
  {
    if h != [] {
      assert multiset(Samples(h)) == multiset(Samples(h[..|h| - 1])) + multiset(Copies(|h| - 1, h[|h| - 1]));
      SamplesCount(h[..|h| - 1], k);
      CopiesCount(|h| - 1, h[|h| - 1], k);
    }
  }

  /** The samples of the first buckets are the first samples. */
  lemma {:induction false} SamplesPrefix(h: seq<nat>, n: nat)
    requires n <= |h|
    ensures Samples(h[..n]) <= Samples(h)
    decreases |h|
  {
    if n == |h| {
      assert h[..n] == h;
    } else {
      SamplesPrefix(h[..|h| - 1], n);
      assert h[..|h| - 1][..n] == h[..n];
    }
  }

  /** The bucket at which the running count reaches the target holds the target-th smallest sample. */
  lemma ReachedAt(h: seq<nat>, i: nat, target: nat)
    requires i < |h| && Total(h[..i]) < target <= Total(h[..i + 1])
    ensures target <= |Samples(h)| && Samples(h)[target - 1] == i
  {
    SamplesPrefix(h, i + 1);
    assert h[..i + 1][..i] == h[..i];
    assert Samples(h[..i + 1])[target - 1] == Copies(i, h[i])[target - 1 - Total(h[..i])];
  }

  /** floor(total * p), for a fraction p. */
  function Target(total: nat, num: nat, den: nat): nat
    requires den > 0
  {
    total * num / den
  }

  /** The target-th smallest sample, and bucket 0 when there is none. */
  function PercentileOf(h: seq<nat>, num: nat, den: nat): nat
    requires den > 0
  {
    var s, target := Samples(h), Target(Total(h), num, den);
    if 1 <= target <= |s| then s[target - 1] else 0
  }

  /** With p at most 1, the answer is one of the samples exactly when p reaches the first one, or bucket 0 has some. */
  lemma PercentileIsASample(h: seq<nat>, num: nat, den: nat)
    requires 0 < num <= den && Total(h) > 0
    ensures PercentileOf(h, num, den) in Samples(h) <==> Total(h) * num >= den || h[0] > 0
  {
    var s, target := Samples(h), Target(Total(h), num, den);
    TargetInRange(Total(h), num, den);
    SamplesCount(h, 0);
    assert 0 in multiset(s) <==> 0 in s;
    if target >= 1 {
      assert s[target - 1] in s;
    }
  }

  lemma TargetInRange(total: nat, num: nat, den: nat)
    requires 0 < num <= den
    ensures Target(total, num, den) <= total
    ensures Target(total, num, den) >= 1 <==> total * num >= den
  {
    ProductBound(total, num, den);
    QuotientBound(total * num, total, den);
    QuotientReaches(total * num, den);
  }

  lemma ProductBound(a: nat, b: nat, c: nat)
    requires b <= c
    ensures a * b <= a * c
  {
    var d := c - b;
    assert a * c == a * b + a * d;
  }

  lemma QuotientBound(a: nat, n: nat, den: nat)
    requires den > 0 && a <= n * den
    ensures a / den <= n
  {
  }

  lemma QuotientReaches(a: nat, den: nat)
    requires den > 0
    ensures a / den >= 1 <==> a >= den
  {
  }

  lemma {:induction false} EmptyBuckets(h: seq<nat>)
    requires forall i :: 0 <= i < |h| ==> h[i] == 0
    ensures Samples(h) == []
  {
    if h != [] {
      EmptyBuckets(h[..|h| - 1]);
    }
  }

  /** Empty buckets behind the others stand for no samples. */
  lemma {:induction false} TrailingEmpties(h: seq<nat>, n: nat)
    requires n <= |h| && forall i :: n <= i < |h| ==> h[i] == 0
    ensures Samples(h) == Samples(h[..n])
    decreases |h|
  {
    if n == |h| {
      assert h[..n] == h;
    } else {
      TrailingEmpties(h[..|h| - 1], n);
      assert h[..|h| - 1][..n] == h[..n];
      assert Samples(h) == Samples(h[..|h| - 1]) + [];
    }
  }

  /** The histogram of one sample. */
  function Lone(k: nat): (h: seq<nat>)
    requires k < BUCKETS
    ensures |h| == BUCKETS
  {
    Zeros()[k := 1]
  }

  /** A single sample, wherever it lies: the 50th percentile is reported as 0 us, which it is only in bucket 0. */
  lemma LoneSampleHasNoMedian(k: nat)
    requires k < BUCKETS
    ensures Samples(Lone(k)) == [k] && PercentileOf(Lone(k), 1, 2) == 0
    ensures PercentileOf(Lone(k), 1, 2) in Samples(Lone(k)) <==> k == 0
  {
    var h := Lone(k);
    TrailingEmpties(h, k + 1);
    EmptyBuckets(h[..k]);
    assert h[..k + 1][..k] == h[..k];
    assert Samples(h[..k + 1]) == [] + Copies(k, 1);
    assert Copies(k, 1) == [k];
  }

  /**
   calc_hist_percentile: the target-th smallest sample. A target of zero gives bucket 0, even when that
   bucket is empty; so does an empty histogram, and a target beyond the samples.
   */
  method Percentile(hist: array<nat>, num: nat, den: nat) returns (r: nat)
    requires den > 0
    ensures r == PercentileOf(hist[..], num, den)
  {
    var total := 0;
    for i := 0 to hist.Length
      invariant total == Total(hist[..i])
    {
      assert hist[..i + 1][..i] == hist[..i];
      total := total + hist[i];
    }
    assert hist[..] == hist[..hist.Length];
    if total == 0 {
      return 0;
    }
    var target := Target(total, num, den);
    var accumulated := 0;
    for i := 0 to hist.Length
      invariant accumulated == Total(hist[..i])
      invariant i > 0 ==> accumulated < target
    {
      assert hist[..i + 1][..i] == hist[..i];
      accumulated := accumulated + hist[i];
      if accumulated >= target {
        if target >= 1 {
          assert hist[..][..i] == hist[..i] && hist[..][..i + 1] == hist[..i + 1];
          ReachedAt(hist[..], i, target);
        }
        return i;
      }
    }
    return 0;
  }

  // ---- One histogram in memory ----

  class LatencyMeter {
    var local: array<nat>
    var shared: array<nat>
    var snapshot: array<nat>
    var loopCounter: nat
    ghost var pending: nat
    ghost var taken: seq<seq<nat>>
    ghost var seen: seq<Slot>

    ghost function View(): Meter
      reads this, local, shared
    {
      Meter(local[..], shared[..], pending, taken, seen)
    }

    ghost function Repr(): set<object>
      reads this
    {
      {this, local, shared, snapshot}
    }

    ghost predicate Valid()
      reads this, local, shared
    {
      && local != shared && local != snapshot && shared != snapshot
      && snapshot.Length == BUCKETS && Conserved(View())
      && loopCounter % FLUSH_EVERY == pending % FLUSH_EVERY
    }

    constructor ()
      ensures Valid() && View() == FRESH && fresh(local) && fresh(shared) && fresh(snapshot)
    {
      local := new nat[BUCKETS](_ => 0);
      shared := new nat[BUCKETS](_ => 0);
      snapshot := new nat[BUCKETS](_ => 0);
      loopCounter, pending, taken, seen := 0, 0, [], [];
      new;
      assert local[..] == Zeros() && shared[..] == Zeros();
      forall j: nat | j < BUCKETS ensures Accounted(FRESH, j) {
      }
    }

    /** After an order: its latency, when it has one that fits, and one more order on the counter. */
    method RecordOrder(stamped: bool, from: int, to: int)
      requires Valid() && Enabled(View(), Record(BucketOf(stamped, from, to)))
      modifies this`loopCounter, this`pending, this`seen, local
      ensures Valid() && View() == Next(old(View()), Record(BucketOf(stamped, from, to)))
    {
      ghost var m := View();
      if stamped {
        var us := Truncated(to - from, 1000);
        if us >= 0 && us < BUCKETS {
          local[us] := local[us] + 1;
        }
      }
      loopCounter := loopCounter + 1;
      pending, seen := pending + 1, seen + [BucketOf(stamped, from, to)];
      assert local[..] == Bump(m.local, BucketOf(stamped, from, to));
      NextConserves(m, Record(BucketOf(stamped, from, to)));
    }

    /** Every 65536 orders, under the lock: the local counts are added to the shared ones and start again. */
    method FlushWhenDue()
      requires Valid() && pending > 0
      modifies this`pending, local, shared
      ensures Valid() && View() == if Enabled(old(View()), Flush) then Next(old(View()), Flush) else old(View())
    {
      if loopCounter % FLUSH_EVERY == 0 {
        ghost var m := View();
        AddTo(shared, local);
        Fill(local);
        pending := 0;
        assert View() == Next(m, Flush);
        NextConserves(m, Flush);
      }
    }

    /** Under the lock: the shared counts are copied out and start again. */
    method TakeSnapshot()
      requires Valid()
      modifies this`taken, shared, snapshot
      ensures Valid() && View() == Next(old(View()), Snapshot) && snapshot[..] == old(shared[..])
    {
      ghost var m := View();
      taken := taken + [m.shared];
      for i := 0 to BUCKETS
        invariant taken == m.taken + [m.shared]
        invariant snapshot[..i] == m.shared[..i]
        invariant shared[..] == m.shared && local[..] == m.local
      {
        snapshot[i] := shared[i];
      }
      Fill(shared);
      assert snapshot[..] == m.shared;
      assert View() == Next(m, Snapshot);
      NextConserves(m, Snapshot);
    }

    static method AddTo(into: array<nat>, from: array<nat>)
      requires into.Length == from.Length == BUCKETS && into != from
      modifies into
      ensures into[..] == Sum(old(into[..]), from[..])
    {
      for i := 0 to BUCKETS
        invariant forall j :: 0 <= j < i ==> into[j] == old(into[j]) + from[j]
        invariant forall j :: i <= j < BUCKETS ==> into[j] == old(into[j])
      {
        into[i] := into[i] + from[i];
      }
    }

    static method Fill(a: array<nat>)
      requires a.Length == BUCKETS
      modifies a
      ensures a[..] == Zeros()
    {
      for i := 0 to BUCKETS
        invariant forall j :: 0 <= j < i ==> a[j] == 0
      {
        a[i] := 0;
      }
    }
  }

  /** One order of the worker: recorded, and the counts flushed when that made 65536. */
  function Recording(m: Meter, slot: Slot): (r: Meter)
    requires Sized(m)
    ensures Sized(r)
  {
    var n := Next(m, Record(slot));
    if Enabled(n, Flush) then Next(n, Flush) else n
  }

  /** What processLoop does with the clock readings of an order, in both histograms. */
  method AfterOrder(engine: LatencyMeter, network: LatencyMeter, t0: int, t1: int, t2: int)
    requires engine.Valid() && network.Valid() && engine.Repr() !! network.Repr()
    requires engine.pending < FLUSH_EVERY && network.pending < FLUSH_EVERY
    modifies engine`loopCounter, engine`pending, engine`seen, engine.local, engine.shared
    modifies network`loopCounter, network`pending, network`seen, network.local, network.shared
    ensures engine.Valid() && network.Valid() && engine.pending < FLUSH_EVERY && network.pending < FLUSH_EVERY
    ensures engine.View() == Recording(old(engine.View()), EngineSlot(t1, t2))
    ensures network.View() == Recording(old(network.View()), NetworkSlot(t0, t1))
  {
    engine.RecordOrder(t1 > 0, t1, t2);
    network.RecordOrder(t0 > 0 && t1 > 0, t0, t1);
    engine.FlushWhenDue();
    network.FlushWhenDue();
  }
}
