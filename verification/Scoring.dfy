/** The stream validator and rolling window of the scoring worker (scoring_engine.py). */
module Scoring {
  import opened Orders
  import opened Sequences
  import opened TakerView
  import opened EngineRuns
  import opened Wire
  import W = TradeRecords

  const PRICE_EPSILON: real := 0.000000001

  datatype Option<+T> = None | Some(value: T)

  datatype Violation =
    | MatchSequence | T2Retrograde | ZeroOrderId | SelfMatch | MissingTimestamp
    | TimestampOrder | InvalidPrice | InvalidQty | PricePriority

  datatype Correctness = Passed | Failed(reason: Violation)

  type Sample = (real, nat)

  function EngineLatency(e: TradeEvent): nat {
    if e.t2 - e.t1 > 0 then e.t2 - e.t1 else 0
  }

  // ---- What a legal stream is ----

  /** An event the validator has no quarrel with on its own. */
  predicate Plausible(e: TradeEvent) {
    && e.buyId != 0 && e.sellId != 0 && e.buyId != e.sellId
    && Stamped(e)
    && e.qty > 0
  }

  /** Present and ordered timestamps and a positive price. */
  predicate Stamped(e: TradeEvent) {
    e.t0 != 0 && e.t1 != 0 && e.t2 != 0 && e.t0 <= e.t1 <= e.t2 && e.price > 0.0
  }

  /** A buyer shared with the previous trade pays no less, a shared seller gets no more, within epsilon. */
  predicate KeepsPriority(prev: TradeEvent, e: TradeEvent) {
    && (e.buyId == prev.buyId && e.sellId != prev.sellId ==> e.price >= prev.price - PRICE_EPSILON)
    && (e.sellId == prev.sellId && e.buyId != prev.buyId ==> e.price <= prev.price + PRICE_EPSILON)
  }

  predicate MayFollow(prev: TradeEvent, e: TradeEvent) {
    e.matchId == prev.matchId + 1 && e.t2 >= prev.t2 && KeepsPriority(prev, e)
  }

  ghost predicate Legal(stream: seq<TradeEvent>) {
    && (forall k :: 0 <= k < |stream| ==> Plausible(stream[k]))
    && (forall k :: 0 < k < |stream| ==> MayFollow(stream[k - 1], stream[k]))
  }

  /** What each reason claims about an event offered after a stream. */
  ghost predicate Violates(v: Violation, stream: seq<TradeEvent>, e: TradeEvent) {
    match v
    case MatchSequence => stream != [] && e.matchId != stream[|stream| - 1].matchId + 1
    case T2Retrograde => stream != [] && e.t2 < stream[|stream| - 1].t2
    case ZeroOrderId => e.buyId == 0 || e.sellId == 0
    case SelfMatch => e.buyId == e.sellId
    case MissingTimestamp => e.t0 == 0 || e.t1 == 0 || e.t2 == 0
    case TimestampOrder => !(e.t0 <= e.t1 <= e.t2)
    case InvalidPrice => e.price <= 0.0
    case InvalidQty => e.qty == 0
    case PricePriority => stream != [] && !KeepsPriority(stream[|stream| - 1], e)
  }

  lemma LegalExtends(stream: seq<TradeEvent>, e: TradeEvent)
    requires Legal(stream)
    ensures Legal(stream + [e]) <==> Plausible(e) && (stream != [] ==> MayFollow(stream[|stream| - 1], e))
  {
    var longer := stream + [e];
    assert longer[|stream|] == e;
    assert forall k :: 0 <= k < |stream| ==> longer[k] == stream[k];
  }

  lemma LegalPrefix(stream: seq<TradeEvent>, k: nat)
    requires Legal(stream) && k <= |stream|
    ensures Legal(stream[..k])
  {
  }

  // ---- Consequences over whole streams ----

  lemma {:induction false} MatchIdsCountUp(stream: seq<TradeEvent>, i: nat, j: nat)
    requires Legal(stream) && i <= j < |stream|
    ensures stream[j].matchId == stream[i].matchId + (j - i) && stream[j].t2 >= stream[i].t2
    decreases j - i
  {
    if i < j {
      MatchIdsCountUp(stream, i, j - 1);
      assert MayFollow(stream[j - 1], stream[j]);
    }
  }

  /** A buyer trading against changing sellers never gains more than epsilon a step. */
  lemma {:induction false} BuyerNeverImproves(stream: seq<TradeEvent>, i: nat, j: nat)
    requires Legal(stream) && i <= j < |stream|
    requires forall k :: i < k <= j ==>
               stream[k].buyId == stream[k - 1].buyId && stream[k].sellId != stream[k - 1].sellId
    ensures stream[j].price >= stream[i].price - (j - i) as real * PRICE_EPSILON
    decreases j - i
  {
    if i < j {
      BuyerNeverImproves(stream, i, j - 1);
      assert MayFollow(stream[j - 1], stream[j]);
    }
  }

  lemma {:induction false} SellerNeverImproves(stream: seq<TradeEvent>, i: nat, j: nat)
    requires Legal(stream) && i <= j < |stream|
    requires forall k :: i < k <= j ==>
               stream[k].sellId == stream[k - 1].sellId && stream[k].buyId != stream[k - 1].buyId
    ensures stream[j].price <= stream[i].price + (j - i) as real * PRICE_EPSILON
    decreases j - i
  {
    if i < j {
      SellerNeverImproves(stream, i, j - 1);
      assert MayFollow(stream[j - 1], stream[j]);
    }
  }

  // ---- Fills ----

  /** The total of a fill table. */
  ghost function TotalFills(fills: map<nat, nat>): nat
    decreases fills.Keys
  {
    if fills.Keys == {} then 0 else
      var id :| id in fills.Keys;
      fills[id] + TotalFills(fills - {id})
  }

  lemma {:induction false} TotalSplit(fills: map<nat, nat>, id: nat)
    requires id in fills
    ensures TotalFills(fills) == fills[id] + TotalFills(fills - {id})
    decreases fills.Keys
  {
    var x :| x in fills.Keys && TotalFills(fills) == fills[x] + TotalFills(fills - {x});
    if x != id {
      TotalSplit(fills - {x}, id);
      TotalSplit(fills - {id}, x);
      assert fills - {x} - {id} == fills - {id} - {x};
    }
  }

  function AddFill(fills: map<nat, nat>, id: nat, qty: nat): map<nat, nat> {
    fills[id := (if id in fills then fills[id] else 0) + qty]
  }

  lemma AddFillTotal(fills: map<nat, nat>, id: nat, qty: nat)
    ensures TotalFills(AddFill(fills, id, qty)) == TotalFills(fills) + qty
  {
    var more := AddFill(fills, id, qty);
    TotalSplit(more, id);
    if id in fills {
      TotalSplit(fills, id);
      assert more - {id} == fills - {id};
    } else {
      assert more - {id} == fills;
    }
  }

  /** The table records exactly what has traded under each id. */
  ghost predicate FillsOf(fills: map<nat, nat>, stream: seq<TradeEvent>) {
    && (forall id: nat :: (if id in fills then fills[id] else 0) == Moved(stream, id))
    && TotalFills(fills) == 2 * Filled(stream)
  }

  lemma FillsStep(fills: map<nat, nat>, stream: seq<TradeEvent>, e: TradeEvent)
    requires FillsOf(fills, stream)
    ensures FillsOf(AddFill(AddFill(fills, e.buyId, e.qty), e.sellId, e.qty), stream + [e])
  {
    AddFillTotal(fills, e.buyId, e.qty);
    AddFillTotal(AddFill(fills, e.buyId, e.qty), e.sellId, e.qty);
    FilledAppend(stream, e);
    forall id: nat
      ensures Moved(stream + [e], id)
           == Moved(stream, id) + (if e.buyId == id then e.qty else 0) + (if e.sellId == id then e.qty else 0)
    {
      MovedAppend(stream, [e], id);
      assert [e][1..] == [];
    }
  }

  lemma {:induction false} FilledAppend(stream: seq<TradeEvent>, e: TradeEvent)
    ensures Filled(stream + [e]) == Filled(stream) + e.qty
  {
    if stream == [] {
      assert (stream + [e])[1..] == [];
    } else {
      assert (stream + [e])[1..] == stream[1..] + [e];
      FilledAppend(stream[1..], e);
    }
  }

  // ---- The rolling window ----

  /** The samples taken at or after `cutoff`. */
  function Since(samples: seq<Sample>, cutoff: real): seq<Sample> {
    if samples == [] then []
    else if samples[0].0 >= cutoff then [samples[0]] + Since(samples[1..], cutoff)
    else Since(samples[1..], cutoff)
  }

  ghost predicate InTimeOrder(samples: seq<Sample>) {
    forall i, j :: 0 <= i < j < |samples| ==> samples[i].0 <= samples[j].0
  }

  lemma {:induction false} SinceTwice(samples: seq<Sample>, early: real, late: real)
    requires early <= late
    ensures Since(Since(samples, early), late) == Since(samples, late)
  {
    if samples != [] {
      SinceTwice(samples[1..], early, late);
    }
  }

  lemma {:induction false} SinceAppend(samples: seq<Sample>, x: Sample, cutoff: real)
    ensures Since(samples + [x], cutoff) == Since(samples, cutoff) + if x.0 >= cutoff then [x] else []
  {
    if samples == [] {
      assert (samples + [x])[1..] == [];
    } else {
      assert (samples + [x])[1..] == samples[1..] + [x];
      SinceAppend(samples[1..], x, cutoff);
    }
  }

  lemma {:induction false} SinceAll(samples: seq<Sample>, cutoff: real)
    requires InTimeOrder(samples) && (samples != [] ==> samples[0].0 >= cutoff)
    ensures Since(samples, cutoff) == samples
  {
    if samples != [] {
      SinceAll(samples[1..], cutoff);
    }
  }

  lemma {:induction false} SinceInOrder(samples: seq<Sample>, cutoff: real)
    requires InTimeOrder(samples)
    ensures InTimeOrder(Since(samples, cutoff))
    ensures forall x :: x in Since(samples, cutoff) ==> x in samples
  {
    if samples != [] {
      SinceInOrder(samples[1..], cutoff);
      var later := Since(samples[1..], cutoff);
      forall j | 0 <= j < |later| ensures samples[0].0 <= later[j].0 {
        assert later[j] in samples[1..];
        var i :| 0 <= i < |samples[1..]| && samples[1..][i] == later[j];
        assert samples[i + 1] == later[j];
      }
    }
  }

  /** A new sample on the window and a new sample on the whole history look the same after the next cutoff. */
  lemma WindowStep(taken: seq<Sample>, x: Sample, early: real, late: real)
    requires InTimeOrder(taken) && (forall y :: y in taken ==> y.0 <= x.0) && early <= late
    ensures Since(Since(taken, early) + [x], late) == Since(taken + [x], late)
    ensures InTimeOrder(Since(taken, early) + [x]) && InTimeOrder(taken + [x])
    ensures forall y :: y in taken + [x] ==> y.0 <= x.0
  {
    SinceAppend(taken, x, late);
    SinceAppend(Since(taken, early), x, late);
    SinceTwice(taken, early, late);
    SinceInOrder(taken, early);
    var window := Since(taken, early);
    assert forall i :: 0 <= i < |window| ==> window[i] in taken;
    assert forall i :: 0 <= i < |taken| ==> taken[i] in taken;
  }

  // ---- Percentiles ----

  function InsertValue(x: nat, s: seq<nat>): seq<nat> {
    if s == [] || x <= s[0] then [x] + s else [s[0]] + InsertValue(x, s[1..])
  }

  /** sorted(values). */
  function SortValues(s: seq<nat>): (r: seq<nat>)
    ensures |r| == |s|
  {
    if s == [] then [] else
      InsertLength(s[0], SortValues(s[1..]));
      InsertValue(s[0], SortValues(s[1..]))
  }

  lemma {:induction false} InsertLength(x: nat, s: seq<nat>)
    ensures |InsertValue(x, s)| == |s| + 1
  {
    if s != [] { InsertLength(x, s[1..]); }
  }

  ghost predicate Ascending(s: seq<nat>) {
    forall i, j :: 0 <= i < j < |s| ==> s[i] <= s[j]
  }

  function CountAtMost(s: seq<nat>, v: nat): nat {
    if s == [] then 0 else (if s[0] <= v then 1 else 0) + CountAtMost(s[1..], v)
  }

  function CountAtLeast(s: seq<nat>, v: nat): nat {
    if s == [] then 0 else (if s[0] >= v then 1 else 0) + CountAtLeast(s[1..], v)
  }

  lemma {:induction false} InsertKeepsOrder(x: nat, s: seq<nat>)
    requires Ascending(s)
    ensures Ascending(InsertValue(x, s)) && forall y :: y in InsertValue(x, s) ==> y == x || y in s
    ensures forall v :: CountAtMost(InsertValue(x, s), v) == CountAtMost(s, v) + if x <= v then 1 else 0
    ensures forall v :: CountAtLeast(InsertValue(x, s), v) == CountAtLeast(s, v) + if x >= v then 1 else 0
  {
    if s != [] && x > s[0] {
      InsertKeepsOrder(x, s[1..]);
      var r := InsertValue(x, s[1..]);
      forall j | 0 <= j < |r| ensures s[0] <= r[j] {
        assert r[j] in r;
        if r[j] != x { var i :| 0 <= i < |s[1..]| && s[1..][i] == r[j]; assert s[0] <= s[i + 1]; }
      }
    }
  }

  lemma {:induction false} SortKeepsCounts(s: seq<nat>)
    ensures Ascending(SortValues(s))
    ensures forall v :: CountAtMost(SortValues(s), v) == CountAtMost(s, v)
    ensures forall v :: CountAtLeast(SortValues(s), v) == CountAtLeast(s, v)
  {
    if s != [] {
      SortKeepsCounts(s[1..]);
      InsertKeepsOrder(s[0], SortValues(s[1..]));
    }
  }

  lemma {:induction false} AscendingRanks(s: seq<nat>, k: nat, v: nat)
    requires Ascending(s) && k < |s|
    ensures v >= s[k] ==> CountAtMost(s, v) >= k + 1
    ensures v <= s[k] ==> CountAtLeast(s, v) >= |s| - k
  {
    if k > 0 {
      AscendingRanks(s[1..], k - 1, v);
      assert s[0] <= s[k];
    } else if |s| > 1 {
      AscendingRanks(s[1..], 0, v);
      assert s[0] <= s[1];
    }
  }

  /** The index int((n - 1) * p), for p == num / den. */
  function RankIndex(n: nat, num: nat, den: nat): (k: nat)
    requires n > 0 && 0 < den && num <= den
    ensures k < n
  {
    RankBound(n - 1, num, den);
    (n - 1) * num / den
  }

  lemma RankBound(m: nat, num: nat, den: nat)
    requires 0 < den && num <= den
    ensures 0 <= m * num / den <= m
  {
    var q := m * num / den;
    assert m * num <= m * den;
    assert q * den <= m * num;
    assert (m + 1) * den == m * den + den;
    assert q > m ==> q * den >= (m + 1) * den;
  }

  function Percentile(values: seq<nat>, num: nat, den: nat): nat
    requires 0 < den && num <= den
  {
    if values == [] then 0 else SortValues(values)[RankIndex(|values|, num, den)]
  }

  /** The percentile is a sample with enough samples on either side of it. */
  lemma PercentileRanks(values: seq<nat>, num: nat, den: nat)
    requires values != [] && 0 < den && num <= den
    ensures var v, k := Percentile(values, num, den), RankIndex(|values|, num, den);
            CountAtMost(values, v) >= k + 1 && CountAtLeast(values, v) >= |values| - k
  {
    SortKeepsCounts(values);
    var k := RankIndex(|values|, num, den);
    AscendingRanks(SortValues(values), k, SortValues(values)[k]);
  }

  /** A higher percentile is at least as large. */
  lemma PercentileIsMonotone(values: seq<nat>, low: nat, high: nat, den: nat)
    requires 0 < den && low <= high <= den
    ensures Percentile(values, low, den) <= Percentile(values, high, den)
  {
    if values != [] {
      var n := |values| - 1;
      SortKeepsCounts(values);
      ProductIsMonotone(n, low, high);
      QuotientIsMonotone(n * low, n * high, den);
      assert RankIndex(|values|, low, den) <= RankIndex(|values|, high, den);
    }
  }

  lemma ProductIsMonotone(n: nat, a: nat, b: nat)
    requires a <= b
    ensures n * a <= n * b
  {
    var d := b - a;
    assert n * b == n * a + n * d;
  }

  lemma QuotientIsMonotone(a: nat, b: nat, den: nat)
    requires 0 < den && a <= b
    ensures a / den <= b / den
  {
    var qa, qb := a / den, b / den;
    assert qa * den <= a && b < qb * den + den;
    assert qa > qb ==> qa * den >= (qb + 1) * den == qb * den + den;
  }

  // ---- The contestant's state ----

  /** Trades a second over tail latency, floored at 0.1 microseconds; nothing for a failed contestant. */
  function Score(correctness: Correctness, tps: real, p99us: real): (score: real)
    requires tps >= 0.0
    ensures score >= 0.0 && (score > 0.0 <==> correctness == Passed && tps > 0.0)
  {
    var tail := if p99us > 0.1 then p99us else 0.1;
    if correctness != Passed then 0.0
    else if tps > 0.0 then PositiveQuotient(tps, tail); tps / tail
    else 0.0 / tail
  }

  lemma PositiveQuotient(a: real, b: real)
    requires a > 0.0 && b > 0.0
    ensures a / b > 0.0
  {
    var q := a / b;
    assert q * b == a;
  }

  datatype Metrics = Metrics(
    tps: real, p50us: real, p90us: real, p99us: real, score: real, correctness: Correctness,
    totalEvents: nat, trackedOrders: nat, lastMatchId: nat)

  function Latencies(samples: seq<Sample>): seq<nat> {
    seq(|samples|, i requires 0 <= i < |samples| => samples[i].1)
  }

  /** A percentile of the window in microseconds, for a whole number of hundredths. */
  function Micros(samples: seq<Sample>, hundredths: nat): real
    requires hundredths <= 100
  {
    if samples == [] then 0.0 else Percentile(Latencies(samples), hundredths, 100) as real / 1000.0
  }

  lemma MicrosAreOrdered(samples: seq<Sample>)
    ensures 0.0 <= Micros(samples, 50) <= Micros(samples, 90) <= Micros(samples, 99)
  {
    PercentileIsMonotone(Latencies(samples), 50, 90, 100);
    PercentileIsMonotone(Latencies(samples), 90, 99, 100);
  }

  class ContestantState {
    var lastMatchId: Option<nat>
    var lastT2: nat
    var orderFills: map<nat, nat>
    const windowSeconds: real
    var samples: seq<Sample>
    var correctness: Correctness
    var totalEvents: nat
    var prevEvent: Option<TradeEvent>

    ghost var accepted: seq<TradeEvent>  // every event accepted so far
    ghost var taken: seq<Sample>         // every sample ever taken
    ghost var horizon: real              // the last cutoff applied
    ghost var latest: real               // the last reading of the monotonic clock

    /** The sequence fields summarise the accepted stream. */
    ghost predicate StreamOk()
      reads this
    {
      && Legal(accepted)
      && (accepted == [] ==> lastMatchId == None && lastT2 == 0 && prevEvent == None)
      && (accepted != [] ==>
            var last := accepted[|accepted| - 1];
            lastMatchId == Some(last.matchId) && lastT2 == last.t2 && prevEvent == Some(last))
      && totalEvents == |accepted|
    }

    /** The deque is the filter of every sample ever taken by the last cutoff. */
    ghost predicate WindowOk()
      reads this
    {
      && InTimeOrder(taken) && (forall x :: x in taken ==> x.0 <= latest)
      && samples == Since(taken, horizon) && horizon <= latest - windowSeconds
    }

    ghost predicate Valid()
      reads this
    {
      StreamOk() && FillsOf(orderFills, accepted) && WindowOk()
    }

    constructor (windowSeconds: real, now: real)
      ensures Valid() && this.windowSeconds == windowSeconds
      ensures accepted == [] && correctness == Passed && latest == now
    {
      lastMatchId, lastT2, prevEvent := None, 0, None;
      orderFills, samples, totalEvents := map[], [], 0;
      correctness := Passed;
      accepted, taken := [], [];
      this.windowSeconds := windowSeconds;
      horizon, latest := now - windowSeconds, now;
    }

    function CheckPricePriority(event: TradeEvent): (r: Option<Violation>)
      reads this
      ensures r == None <==> prevEvent == None || KeepsPriority(prevEvent.value, event)
      ensures r == None || r.value == PricePriority
    {
      if prevEvent == None then None else
        var prev := prevEvent.value;
        var sameBuy, sameSell := event.buyId == prev.buyId, event.sellId == prev.sellId;
        if sameBuy && !sameSell && event.price < prev.price - PRICE_EPSILON then Some(PricePriority)
        else if sameSell && !sameBuy && event.price > prev.price + PRICE_EPSILON then Some(PricePriority)
        else None
    }

    /** Finds nothing wrong exactly when the event extends the accepted stream legally, and a true fault otherwise. */
    function Validate(event: TradeEvent): (r: Option<Violation>)
      requires Valid()
      reads this
      ensures r == None <==> Legal(accepted + [event])
      ensures r != None ==> Violates(r.value, accepted, event)
    {
      LegalExtends(accepted, event);
      if lastMatchId != None && event.matchId != lastMatchId.value + 1 then Some(MatchSequence)
      else if event.t2 < lastT2 then Some(T2Retrograde)
      else if event.buyId == 0 || event.sellId == 0 then Some(ZeroOrderId)
      else if event.buyId == event.sellId then Some(SelfMatch)
      else if event.t0 == 0 || event.t1 == 0 || event.t2 == 0 then Some(MissingTimestamp)
      else if event.t1 < event.t0 || event.t2 < event.t1 then Some(TimestampOrder)
      else if event.price <= 0.0 then Some(InvalidPrice)
      else if event.qty <= 0 then Some(InvalidQty)
      else CheckPricePriority(event)
    }

    /** `now` is the reading of the monotonic clock. */
    method Accept(event: TradeEvent, now: real)
      requires Valid() && latest <= now && Legal(accepted + [event])
      modifies this
      ensures Valid() && correctness == old(correctness)
      ensures accepted == old(accepted) + [event] && latest == now
      ensures samples == Since(taken, now - windowSeconds)
      ensures taken == old(taken) + [(now, EngineLatency(event))]
    {
      AddFills(event, accepted);
      RecordLast(event);
      TakeSample((now, EngineLatency(event)));
    }

    method RecordLast(event: TradeEvent)
      requires StreamOk() && Legal(accepted + [event])
      modifies this`lastMatchId, this`lastT2, this`prevEvent, this`totalEvents, this`accepted
      ensures StreamOk() && accepted == old(accepted) + [event]
    {
      lastMatchId, lastT2, prevEvent := Some(event.matchId), event.t2, Some(event);
      totalEvents := totalEvents + 1;
      accepted := accepted + [event];
    }

    method AddFills(event: TradeEvent, ghost stream: seq<TradeEvent>)
      requires FillsOf(orderFills, stream)
      modifies this`orderFills
      ensures FillsOf(orderFills, stream + [event])
    {
      FillsStep(orderFills, stream, event);
      orderFills := AddFill(orderFills, event.buyId, event.qty);
      orderFills := AddFill(orderFills, event.sellId, event.qty);
    }

    method TakeSample(sample: Sample)
      requires WindowOk() && latest <= sample.0
      modifies this`samples, this`taken, this`horizon, this`latest
      ensures WindowOk() && latest == sample.0
      ensures taken == old(taken) + [sample] && samples == Since(taken, sample.0 - windowSeconds)
    {
      WindowStep(taken, sample, horizon, sample.0 - windowSeconds);
      samples := samples + [sample];
      taken := taken + [sample];
      PruneTo(sample.0);
    }

    /** Pops the stale samples off the front; what stays is the filter of every sample ever taken. */
    method PruneTo(now: real)
      requires InTimeOrder(taken) && InTimeOrder(samples)
      requires Since(samples, now - windowSeconds) == Since(taken, now - windowSeconds)
      modifies this`samples, this`horizon, this`latest
      ensures samples == Since(taken, now - windowSeconds)
      ensures horizon == now - windowSeconds && latest == now
    {
      var cutoff := now - windowSeconds;
      while samples != [] && samples[0].0 < cutoff
        invariant InTimeOrder(samples) && Since(samples, cutoff) == Since(taken, cutoff)
        decreases |samples|
      {
        samples := samples[1..];
      }
      SinceAll(samples, cutoff);
      horizon, latest := cutoff, now;
    }

    method Prune(now: real)
      requires Valid() && latest <= now
      modifies this`samples, this`horizon, this`latest
      ensures Valid() && latest == now
      ensures samples == Since(taken, now - windowSeconds)
    {
      SinceTwice(taken, horizon, now - windowSeconds);
      SinceInOrder(taken, horizon);
      PruneTo(now);
    }

    /** Prunes and summarises; the score is positive exactly for a passing contestant with a sample in the window. */
    method ComputeMetrics(now: real) returns (m: Metrics)
      requires Valid() && latest <= now
      modifies this`samples, this`horizon, this`latest
      ensures Valid() && latest == now && samples == Since(taken, now - windowSeconds)
      ensures m.correctness == correctness && m.totalEvents == |accepted| && m.trackedOrders == |orderFills|
      ensures m.p50us == Micros(samples, 50) && m.p90us == Micros(samples, 90) && m.p99us == Micros(samples, 99)
      ensures 0.0 <= m.p50us <= m.p90us <= m.p99us
      ensures m.tps == if windowSeconds > 0.0 then |samples| as real / windowSeconds else 0.0
      ensures m.tps >= 0.0 && m.score == Score(correctness, m.tps, m.p99us)
      ensures m.score > 0.0 <==> correctness == Passed && samples != [] && windowSeconds > 0.0
      ensures accepted != [] ==> m.lastMatchId == accepted[|accepted| - 1].matchId
    {
      Prune(now);
      MicrosAreOrdered(samples);
      var p99 := Micros(samples, 99);
      var tps := if windowSeconds > 0.0 then |samples| as real / windowSeconds else 0.0;
      m := Metrics(tps, Micros(samples, 50), Micros(samples, 90), p99, Score(correctness, tps, p99),
                   correctness, totalEvents, |orderFills|, if lastMatchId == None then 0 else lastMatchId.value);
      if windowSeconds > 0.0 && samples != [] {
        PositiveQuotient(|samples| as real, windowSeconds);
      }
    }

    /** The reason is recorded and the published score is -1. */
    method Disqualify(reason: Violation, now: real) returns (m: Metrics)
      requires Valid() && latest <= now
      modifies this`correctness, this`samples, this`horizon, this`latest
      ensures Valid() && latest == now
      ensures correctness == Failed(reason) && m.correctness == Failed(reason) && m.score == -1.0
      ensures m.totalEvents == |accepted| && samples == Since(taken, now - windowSeconds)
    {
      correctness := Failed(reason);
      m := ComputeMetrics(now);
      m := m.(score := -1.0);
    }

    /**
     The verdict on a stream of events: a disqualification exactly when it is not legal, and then for a fault of
     the event after the longest legal beginning, which is what has been accepted.
     */
    ghost predicate Judged(ended: Ended, events: seq<TradeEvent>)
      reads this
    {
      && (ended.Disqualification? <==> !Legal(events))
      && (ended.Disqualification? ==>
            && StopsAt(events, accepted) && ended.final.score == -1.0
            && correctness.Failed? && Violates(correctness.reason, accepted, events[|accepted|]))
      && (!ended.Disqualification? ==> accepted == events && correctness == Passed)
    }

    /**
     The consuming loop on the payloads of the topic: unpack, validate, then accept or disqualify and stop for
     good; between polls, metrics are published when the interval has passed. Whatever the batching, it accepts
     the longest legal prefix of the events, and disqualifies exactly when the events up to the first payload of
     a wrong size are not legal; a legal stream ends at that payload. No metrics published before are negative
     or of a failed contestant. A poll that brings nothing is an empty payload, and `now(k)` is the k-th reading
     of the clock: one for each event and one for each poll.
     */
    method ScoreStream(payloads: seq<seq<Byte>>, priceOf: seq<Byte> -> real, now: nat -> real, interval: real)
      returns (ended: Ended, published: seq<Metrics>)
      requires Valid() && accepted == [] && correctness == Passed
      requires latest <= now(0) && NeverBack(now)
      modifies this
      ensures Valid() && AllPassing(published)
      ensures Judged(ended, Concat(Decoded(payloads, priceOf)))
      ensures !ended.Disqualification? ==> ended == Ending(payloads, |Decoded(payloads, priceOf)|)
    {
      ghost var messages := Decoded(payloads, priceOf);
      DecodedAre(payloads, priceOf);
      var i, lastMetrics := 0, now(0);
      published := [];
      while i < |payloads|
        invariant 0 <= i <= |messages|
        invariant Valid() && correctness == Passed && latest <= now(|accepted| + i)
        invariant accepted == Concat(messages[..i])
        invariant AllPassing(published)
      {
        var whole, j, violation := ScorePayload(payloads[i], priceOf, now, i);
        if !whole {
          assert messages[..i] == messages;
          return Malformed(|payloads[i]|), published;
        }
        if violation != None {
          StopsInMessage(messages, i, j, accepted);
          var m := Disqualify(violation.value, now(totalEvents + i));
          return Disqualification(m), published;
        }
        GoesOnAfter(messages, i, j);
        published, lastMetrics := PublishWhenDue(published, lastMetrics, interval, now(totalEvents + i));
        i := i + 1;
      }
      assert messages[..i] == messages;
      ended := Consumed;
    }

    /** One payload: refused for its size, or unpacked and scored. */
    method ScorePayload(payload: seq<Byte>, priceOf: seq<Byte> -> real, now: nat -> real, polls: nat)
      returns (whole: bool, j: nat, violation: Option<Violation>)
      requires Valid() && correctness == Passed && latest <= now(|accepted| + polls) && NeverBack(now)
      modifies this
      ensures Valid() && correctness == Passed && latest <= now(|accepted| + polls)
      ensures whole == W.WholeRecords(payload) && (!whole ==> accepted == old(accepted) && violation == None)
      ensures whole ==>
                var message := W.Decode(payload, priceOf);
                && j <= |message| && accepted == old(accepted) + message[..j]
                && (if violation == None then j == |message|
                    else j < |message| && !Legal(old(accepted) + message[..j + 1])
                         && Violates(violation.value, accepted, message[j]))
    {
      var unpacked := W.UnpackTradeEvents(payload);
      whole, j, violation := unpacked.Events?, 0, None;
      if whole {
        j, violation := ScoreMessage(W.ToEvents(unpacked.events, priceOf), now, polls);
      }
    }

    /** The metrics of this moment, if the interval has passed since the last ones. */
    method PublishWhenDue(earlier: seq<Metrics>, since: real, interval: real, reading: real)
      returns (published: seq<Metrics>, last: real)
      requires Valid() && correctness == Passed && latest <= reading && AllPassing(earlier)
      modifies this`samples, this`horizon, this`latest
      ensures Valid() && latest <= reading && AllPassing(published)
      ensures if reading - since >= interval then |published| == |earlier| + 1 && last == reading
              else published == earlier && last == since
    {
      published, last := earlier, since;
      if reading - since >= interval {
        var m := ComputeMetrics(reading);
        published, last := published + [m], reading;
      }
    }

    /** One message of the stream, after `polls` earlier ones: accepts up to the first violation. */
    method ScoreMessage(message: seq<TradeEvent>, now: nat -> real, polls: nat)
      returns (j: nat, violation: Option<Violation>)
      requires Valid() && correctness == Passed && latest <= now(|accepted| + polls) && NeverBack(now)
      modifies this
      ensures Valid() && correctness == Passed && latest <= now(|accepted| + polls)
      ensures j <= |message| && accepted == old(accepted) + message[..j]
      ensures violation == None <==> j == |message|
      ensures violation != None ==> !Legal(old(accepted) + message[..j + 1])
      ensures violation != None ==> Violates(violation.value, accepted, message[j])
    {
      j := 0;
      while j < |message|
        invariant 0 <= j <= |message|
        invariant Valid() && correctness == Passed && latest <= now(|accepted| + polls)
        invariant accepted == old(accepted) + message[..j]
      {
        assert old(accepted) + message[..j + 1] == accepted + [message[j]];
        violation := ScoreEvent(message[j], now(totalEvents + polls));
        if violation != None {
          return;
        }
        j := j + 1;
      }
      violation := None;
    }

    /** One event: accepted, or left out with the fault it has. */
    method ScoreEvent(event: TradeEvent, reading: real) returns (violation: Option<Violation>)
      requires Valid() && correctness == Passed && latest <= reading
      modifies this
      ensures Valid() && correctness == Passed && latest <= reading
      ensures violation == None <==> Legal(old(accepted) + [event])
      ensures accepted == if violation == None then old(accepted) + [event] else old(accepted)
      ensures violation != None ==> Violates(violation.value, accepted, event)
    {
      violation := Validate(event);
      if violation == None {
        Accept(event, reading);
      }
    }
  }

  /** How consuming ends: with the last payload, with a verdict, or with a payload of a wrong size. */
  datatype Ended = Consumed | Disqualification(final: Metrics) | Malformed(size: nat)

  /** How consuming a legal stream ends after `n` whole payloads. */
  function Ending(payloads: seq<seq<Byte>>, n: nat): Ended {
    if n < |payloads| then Malformed(|payloads[n]|) else Consumed
  }

  /** The events of each payload, up to the first payload of a wrong size. */
  function Decoded(payloads: seq<seq<Byte>>, priceOf: seq<Byte> -> real): seq<seq<TradeEvent>> {
    if payloads == [] || !W.WholeRecords(payloads[0]) then []
    else [W.Decode(payloads[0], priceOf)] + Decoded(payloads[1..], priceOf)
  }

  predicate DecodesTo(payload: seq<Byte>, message: seq<TradeEvent>, priceOf: seq<Byte> -> real) {
    W.WholeRecords(payload) && message == W.Decode(payload, priceOf)
  }

  lemma {:induction false} DecodedAre(payloads: seq<seq<Byte>>, priceOf: seq<Byte> -> real)
    ensures var messages := Decoded(payloads, priceOf);
            && |messages| <= |payloads|
            && (forall k :: 0 <= k < |messages| ==> DecodesTo(payloads[k], messages[k], priceOf))
            && (|messages| < |payloads| ==> !W.WholeRecords(payloads[|messages|]))
  {
    if payloads != [] && W.WholeRecords(payloads[0]) {
      var messages := Decoded(payloads, priceOf);
      DecodedAre(payloads[1..], priceOf);
      forall k | 0 <= k < |messages| ensures DecodesTo(payloads[k], messages[k], priceOf) {
        assert k > 0 ==> payloads[k] == payloads[1..][k - 1] && messages[k] == messages[1..][k - 1];
      }
    }
  }

  ghost predicate AllPassing(published: seq<Metrics>) {
    forall m :: m in published ==> m.correctness == Passed && m.score >= 0.0
  }

  /** A monotonic clock, reading by reading. */
  ghost predicate NeverBack(now: nat -> real) {
    forall i: nat, j: nat :: i <= j ==> now(i) <= now(j)
  }

  /** `accepted` is as much of the stream as is legal: one event more would not be. */
  ghost predicate StopsAt(all: seq<TradeEvent>, accepted: seq<TradeEvent>) {
    accepted <= all && |accepted| < |all| && !Legal(all[..|accepted| + 1])
  }

  /** A violation in message `i` after `j` of its events. */
  lemma StopsInMessage(messages: seq<seq<TradeEvent>>, i: nat, j: nat, accepted: seq<TradeEvent>)
    requires i < |messages| && j < |messages[i]| && accepted == Concat(messages[..i]) + messages[i][..j]
    requires !Legal(Concat(messages[..i]) + messages[i][..j + 1])
    ensures StopsAt(Concat(messages), accepted) && !Legal(Concat(messages))
    ensures Concat(messages)[|accepted|] == messages[i][j]
  {
    var upTo := Concat(messages[..i]) + messages[i][..j + 1];
    ConcatPrefix(messages, i, j);
    ConcatPrefix(messages, i, j + 1);
    assert upTo[|accepted|] == messages[i][j];
    StopsHere(Concat(messages), accepted, upTo);
  }

  lemma GoesOnAfter(messages: seq<seq<TradeEvent>>, i: nat, j: nat)
    requires i < |messages| && j == |messages[i]|
    ensures Concat(messages[..i]) + messages[i][..j] == Concat(messages[..i + 1])
    ensures Concat(messages[..i + 1]) <= Concat(messages)
  {
    ConcatPrefix(messages, i, j);
    assert messages[i][..j] == messages[i];
  }

  lemma StopsHere(all: seq<TradeEvent>, accepted: seq<TradeEvent>, upTo: seq<TradeEvent>)
    requires upTo <= all && accepted <= upTo && |upTo| == |accepted| + 1 && !Legal(upTo)
    ensures accepted <= all && StopsAt(all, accepted) && !Legal(all)
  {
    assert all[..|upTo|] == upTo;
    if Legal(all) { LegalPrefix(all, |upTo|); }
  }
}
