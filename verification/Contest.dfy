/** A whole contest: the engine in memory plays a series of operations, and the scoring worker judges its events. */
module Contest {
  import opened Orders
  import opened Sequences
  import opened FlatBook
  import opened PriceLevels
  import opened EngineRuns
  import opened NoFalseAlarm
  import Wire
  import M = MatchingEngine
  import S = Scoring

  /** A fresh id is not tracked, so adding an order never overwrites an entry of the index. */
  lemma NewcomerIsUntracked(b: Book, f: Flat, o: Order)
    requires Consistent(b, f) && Newest(f, o)
    ensures o.id !in b.index
  {
    if o.id in b.index {
      var loc := b.index[o.id];
      assert Addresses(b, o.id, loc);
      LevelOrderIsListed(b.Of(loc.isBuy), f.Of(loc.isBuy), loc.isBuy, loc.price, loc.vectorIndex);
    }
  }

  /** The engine in memory follows the flat description over any admissible series of operations. */
  method Play(engine: M.MatchingEngine, ops: seq<Op>)
    requires engine.Valid() && engine.flat == Flat([], []) && engine.trades == [] && Admissible(ops)
    modifies engine, engine.book
    ensures engine.Valid()
    ensures Exchange(engine.flat, engine.trades) == Run(ops, engine.clock)
  {
    var i := 0;
    while i < |ops|
      invariant 0 <= i <= |ops| && engine.Valid()
      invariant Exchange(engine.flat, engine.trades) == Run(ops[..i], engine.clock)
    {
      RunStep(ops, i, engine.clock);
      match ops[i] {
        case Add(o) =>
          NewcomerFits(ops, i, engine.clock);
          NewcomerIsUntracked(engine.book.Value(), engine.flat, o);
          engine.AddOrder(o);
        case Cancel(id) =>
          engine.CancelOrder(id);
      }
      i := i + 1;
    }
    assert ops[..i] == ops;
  }

  lemma RunStep(ops: seq<Op>, i: nat, clock: nat -> int)
    requires i < |ops|
    ensures Run(ops[..i + 1], clock) == Step(Run(ops[..i], clock), ops[i], clock)
  {
    assert ops[..i + 1][..i] == ops[..i];
  }

  lemma NewcomerFits(ops: seq<Op>, i: nat, clock: nat -> int)
    requires Admissible(ops) && i < |ops| && ops[i].Add?
    ensures Newest(Run(ops[..i], clock).book, ops[i].order)
  {
    var before := ops[..i];
    assert before + [ops[i]] == ops[..i + 1];
    FrontIsAdmissible(ops, i);
    FrontIsAdmissible(ops, i + 1);
    EveryRunIsGood(before, clock);
    NewcomerIsNewest(Run(before, clock), before, ops[i].order, clock);
  }

  lemma FrontIsAdmissible(ops: seq<Op>, i: nat)
    requires Admissible(ops) && i <= |ops|
    ensures Admissible(ops[..i])
  {
  }

  /**
   A well-fed engine and its judge. The worker reads, in any batching, the trades the offloader took. It
   disqualifies exactly when a trade was dropped between two that were taken, and counts every one it read;
   in particular it finds nothing wrong when nothing was dropped.
   */
  method Hold(ops: seq<Op>, clock: nat -> int, accepts: nat -> bool,
              payloads: seq<seq<Wire.Byte>>, priceOf: seq<Wire.Byte> -> real,
              windowSeconds: real, now: nat -> real, interval: real)
    returns (engine: M.MatchingEngine, ended: S.Ended, total: nat)
    requires Admissible(ops) && SteadyClock(clock) && Timely(ops, clock)
    requires var trades := Run(ops, clock).trades;
             && |S.Decoded(payloads, priceOf)| == |payloads|
             && Concat(S.Decoded(payloads, priceOf)) == Published(trades, accepts, |trades|)
    requires S.NeverBack(now)
    ensures engine.Valid() && engine.trades == Run(ops, clock).trades && Uncrossed(engine.flat)
    ensures ended == S.Consumed <==> NoInnerDrop(accepts, |engine.trades|)
    ensures ended.Disqualification? || ended == S.Consumed
    ensures ended == S.Consumed ==> total == |Concat(S.Decoded(payloads, priceOf))|
    ensures engine.tradeEventsDropped == 0 ==> ended == S.Consumed && total == |engine.trades|
  {
    engine := new M.MatchingEngine(clock, accepts);
    Play(engine, ops);
    ghost var trades := Run(ops, clock).trades;
    EveryRunIsGood(ops, clock);
    NoFalseDisqualification(ops, clock);
    PassesExactlyWithoutInnerDrop(trades, accepts, |trades|);
    NothingRefused(trades, accepts, |trades|);
    var state := new S.ContestantState(windowSeconds, now(0));
    var published;
    ended, published := state.ScoreStream(payloads, priceOf, now, interval);
    total := state.totalEvents;
  }

  lemma {:induction false} NothingRefused(trades: seq<TradeEvent>, accepts: nat -> bool, n: nat)
    requires n <= |trades|
    ensures M.Refusals(accepts, n) == 0 ==>
              |Published(trades, accepts, n)| == n && forall k :: 0 < k <= n ==> accepts(k)
  {
    if n > 0 {
      NothingRefused(trades, accepts, n - 1);
    }
  }
}
