/**
 The archiver between the close callback and the database: a bounded queue
 filled by many callers, one loop that collects batches and inserts them.
 */
module Archiving {
  import opened Options
  import opened Bars

  /** Limits, and which of the insert calls succeed (numbered from 0). */
  datatype Config = Config(queueSize: nat, batchMax: nat, succeeds: nat -> bool) {
    predicate Valid() { queueSize > 0 && batchMax > 0 }
  }

  const DEFAULT_QUEUE := 10000
  const DEFAULT_BATCH := 500

  /** Options of zero or less are replaced by the defaults. */
  function WithDefaults(queueSize: int, batchMax: int, succeeds: nat -> bool): (c: Config)
    ensures c.Valid() && c.succeeds == succeeds
    ensures queueSize > 0 ==> c.queueSize == queueSize
    ensures batchMax > 0 ==> c.batchMax == batchMax
    ensures queueSize <= 0 ==> c.queueSize == 10000
    ensures batchMax <= 0 ==> c.batchMax == 500
  {
    Config(if queueSize <= 0 then DEFAULT_QUEUE else queueSize,
           if batchMax <= 0 then DEFAULT_BATCH else batchMax, succeeds)
  }

  datatype Phase = Running | Draining | Returned

  datatype State = State(queue: seq<Bar>, batch: seq<Bar>, phase: Phase,
                         enqueued: nat, dropped: nat, inserted: nat, failed: nat,
                         uncounted: nat,             // sent to the queue, counter not yet raised
                         accepted: seq<Bar>,         // everything ever put into the queue
                         attempts: seq<seq<Bar>>)    // arguments of the insert calls

  const INITIAL := State([], [], Running, 0, 0, 0, 0, 0, [], [])

  datatype Step =
    | Offer(bar: Option<Bar>)    // OnBarClose up to its select
    | Count                      // one caller raises `enqueued`
    | Receive                    // the loop takes a bar
    | Interval                   // the ticker fires
    | Cancel                     // the context ends
    | DrainReceive
    | DrainDone

  function Flush(c: Config, s: State): State {
    if s.batch == [] then s
    else if c.succeeds(|s.attempts|) then
      s.(attempts := s.attempts + [s.batch], batch := [], inserted := s.inserted + |s.batch|)
    else
      s.(attempts := s.attempts + [s.batch], batch := [], failed := s.failed + 1)
  }

  function Take(c: Config, s: State): State
    requires s.queue != []
  {
    var t := s.(queue := s.queue[1..], batch := s.batch + [s.queue[0]]);
    if |t.batch| >= c.batchMax then Flush(c, t) else t
  }

  function OfferBar(c: Config, s: State, b: Option<Bar>): State {
    if b.None? || !Persistent(b.value.tf) then s
    else if |s.queue| < c.queueSize then
      s.(queue := s.queue + [b.value], accepted := s.accepted + [b.value], uncounted := s.uncounted + 1)
    else s.(dropped := s.dropped + 1)
  }

  function CountOne(s: State): State
    requires s.uncounted > 0
  {
    s.(uncounted := s.uncounted - 1, enqueued := s.enqueued + 1)
  }

  /** The next state, or None when the step cannot happen now. */
  function Next(c: Config, s: State, step: Step): Option<State> {
    match step
    case Offer(b) => Some(OfferBar(c, s, b))
    case Count => if s.uncounted > 0 then Some(CountOne(s)) else None
    case Receive => if s.phase == Running && s.queue != [] then Some(Take(c, s)) else None
    case Interval => if s.phase == Running then Some(Flush(c, s)) else None
    case Cancel => if s.phase == Running then Some(s.(phase := Draining)) else None
    case DrainReceive => if s.phase == Draining && s.queue != [] then Some(Take(c, s)) else None
    case DrainDone => if s.phase == Draining && s.queue == [] then Some(Flush(c, s).(phase := Returned)) else None
  }

  function Run(c: Config, steps: seq<Step>): Option<State> {
    if steps == [] then Some(INITIAL)
    else
      var s := Run(c, steps[..|steps| - 1]);
      if s.None? then None else Next(c, s.value, steps[|steps| - 1])
  }

  function Concat(bs: seq<seq<Bar>>): seq<Bar> {
    if bs == [] then [] else Concat(bs[..|bs| - 1]) + bs[|bs| - 1]
  }

  lemma ConcatSnoc(bs: seq<seq<Bar>>, b: seq<Bar>)
    ensures Concat(bs + [b]) == Concat(bs) + b
  {
    assert (bs + [b])[..|bs|] == bs;
  }

  /** Number of bars in the insert calls with outcome `good`, among the first `n`. */
  function BarsWith(c: Config, attempts: seq<seq<Bar>>, good: bool): nat {
    if attempts == [] then 0
    else
      var n := |attempts| - 1;
      BarsWith(c, attempts[..n], good) + if c.succeeds(n) == good then |attempts[n]| else 0
  }

  function Failures(c: Config, n: nat): nat {
    if n == 0 then 0 else Failures(c, n - 1) + if c.succeeds(n - 1) then 0 else 1
  }

  lemma BarsWithSnoc(c: Config, attempts: seq<seq<Bar>>, b: seq<Bar>, good: bool)
    ensures BarsWith(c, attempts + [b], good)
         == BarsWith(c, attempts, good) + if c.succeeds(|attempts|) == good then |b| else 0
  {
    assert (attempts + [b])[..|attempts|] == attempts;
  }

  /** Bars are neither lost nor reordered between the queue and the inserts; every count adds up. */
  ghost predicate Inv(c: Config, s: State) {
    && Concat(s.attempts) + s.batch + s.queue == s.accepted
    && (forall i :: 0 <= i < |s.attempts| ==> 1 <= |s.attempts[i]| <= c.batchMax)
    && |s.batch| < c.batchMax
    && |s.queue| <= c.queueSize
    && s.inserted == BarsWith(c, s.attempts, true)
    && s.failed == Failures(c, |s.attempts|)
    && s.enqueued + s.uncounted == s.inserted + BarsWith(c, s.attempts, false) + |s.batch| + |s.queue|
    && (s.phase == Returned ==> s.batch == [])
    && (forall i :: 0 <= i < |s.accepted| ==> Persistent(s.accepted[i].tf))
  }

  /** The invariant with the batch one bar longer than the loop ever keeps it. */
  ghost predicate FlushReady(c: Config, s: State) {
    && Concat(s.attempts) + s.batch + s.queue == s.accepted
    && (forall i :: 0 <= i < |s.attempts| ==> 1 <= |s.attempts[i]| <= c.batchMax)
    && |s.batch| <= c.batchMax
    && |s.queue| <= c.queueSize
    && s.inserted == BarsWith(c, s.attempts, true)
    && s.failed == Failures(c, |s.attempts|)
    && s.enqueued + s.uncounted == s.inserted + BarsWith(c, s.attempts, false) + |s.batch| + |s.queue|
    && (forall i :: 0 <= i < |s.accepted| ==> Persistent(s.accepted[i].tf))
  }

  lemma FlushInv(c: Config, s: State)
    requires c.Valid() && FlushReady(c, s)
    ensures Inv(c, Flush(c, s)) && Flush(c, s).batch == []
  {
    if s.batch != [] {
      ConcatSnoc(s.attempts, s.batch);
      BarsWithSnoc(c, s.attempts, s.batch, true);
      BarsWithSnoc(c, s.attempts, s.batch, false);
    }
  }

  lemma TakeInv(c: Config, s: State)
    requires c.Valid() && Inv(c, s) && s.queue != [] && s.phase != Returned
    ensures Inv(c, Take(c, s)) && Take(c, s).phase == s.phase
  {
    var t := s.(queue := s.queue[1..], batch := s.batch + [s.queue[0]]);
    assert t.batch + t.queue == s.batch + s.queue;
    assert Concat(s.attempts) + t.batch + t.queue == Concat(s.attempts) + (s.batch + s.queue);
    FlushInv(c, t);
  }

  /** With one bar moved from the queue to the batch the state may be flushed, and need not be below the limit. */
  lemma TakeReady(c: Config, s: State)
    requires c.Valid() && Inv(c, s) && s.queue != [] && s.phase != Returned
    ensures var t := s.(queue := s.queue[1..], batch := s.batch + [s.queue[0]]);
            FlushReady(c, t) && (|t.batch| < c.batchMax ==> Inv(c, t))
  {
    var t := s.(queue := s.queue[1..], batch := s.batch + [s.queue[0]]);
    assert Concat(t.attempts) + t.batch + t.queue == Concat(s.attempts) + s.batch + s.queue;
  }

  lemma NextInv(c: Config, s: State, step: Step)
    requires c.Valid() && Inv(c, s) && Next(c, s, step).Some?
    ensures Inv(c, Next(c, s, step).value)
  {
    match step
    case Offer(b) =>
      if b.Some? {
        assert Concat(s.attempts) + s.batch + (s.queue + [b.value])
            == (Concat(s.attempts) + s.batch + s.queue) + [b.value];
      }
    case Count =>
    case Receive => TakeInv(c, s);
    case Interval => FlushInv(c, s);
    case Cancel =>
    case DrainReceive => TakeInv(c, s);
    case DrainDone => FlushInv(c, s);
  }

  /**
   In every interleaving of callers, loop, ticker and cancellation the insert
   arguments, then the batch, then the queue are the accepted bars in order;
   inserts carry 1 to batchMax bars; the counters account for every bar; and
   the loop returns with an empty batch.
   */
  lemma {:induction false} RunInv(c: Config, steps: seq<Step>)
    requires c.Valid() && Run(c, steps).Some?
    ensures Inv(c, Run(c, steps).value)
    decreases |steps|
  {
    if steps != [] {
      RunInv(c, steps[..|steps| - 1]);
      NextInv(c, Run(c, steps[..|steps| - 1]).value, steps[|steps| - 1]);
    }
  }

  lemma TakeEffect(c: Config, s: State)
    requires s.queue != []
    ensures var t := Take(c, s);
            t.queue == s.queue[1..] && t.accepted == s.accepted && s.attempts <= t.attempts && t.phase == s.phase
  {
  }

  lemma FlushEffect(c: Config, s: State)
    requires Inv(c, s)
    ensures FlushReady(c, s)
    ensures var t := Flush(c, s);
            && t.batch == [] && t.queue == s.queue && t.accepted == s.accepted
            && s.attempts <= t.attempts && t.phase == s.phase
  {
  }

  /** With nothing queued or collected, the inserts were given exactly the accepted bars. */
  lemma Drained(c: Config, s: State)
    requires Inv(c, s) && s.queue == [] && s.batch == []
    ensures Concat(s.attempts) == s.accepted && Inv(c, s.(phase := Returned))
    ensures s.enqueued + s.uncounted == s.inserted + BarsWith(c, s.attempts, false)
  {
    assert Concat(s.attempts) + [] + [] == Concat(s.attempts);
  }

  // ---- when bars are dropped and batches cut -------------------------------

  lemma RunSnoc(c: Config, steps: seq<Step>, step: Step)
    requires Run(c, steps).Some?
    ensures Run(c, steps + [step]) == Next(c, Run(c, steps).value, step)
  {
    hide Next;
    assert (steps + [step])[..|steps|] == steps;
  }

  /** A bar shorter than a minute is ignored; any other is dropped exactly when the queue is full. */
  lemma OfferOutcome(c: Config, steps: seq<Step>, b: Bar)
    requires Run(c, steps).Some?
    ensures var s, r := Run(c, steps).value, Run(c, steps + [Offer(Some(b))]);
            && r.Some?
            && (Duration(b.tf) < 60_000_000_000 ==> r.value == s)
            && (Duration(b.tf) >= 60_000_000_000 && |s.queue| < c.queueSize ==>
                  r.value.queue == s.queue + [b] && r.value.dropped == s.dropped)
            && (Duration(b.tf) >= 60_000_000_000 && |s.queue| >= c.queueSize ==>
                  r.value == s.(dropped := s.dropped + 1))
  {
    RunSnoc(c, steps, Offer(Some(b)));
    PersistentIff(b.tf);
  }

  /** The interval leaves nothing collected: what was is handed to the inserter whole. */
  lemma IntervalHandsOver(c: Config, steps: seq<Step>)
    requires Run(c, steps).Some? && Run(c, steps).value.phase == Running
    ensures var s, r := Run(c, steps).value, Run(c, steps + [Interval]);
            && r.Some? && r.value.batch == [] && r.value.queue == s.queue
            && r.value.attempts == s.attempts + if s.batch == [] then [] else [s.batch]
  {
    RunSnoc(c, steps, Interval);
  }

  function ShortBatches(c: Config, attempts: seq<seq<Bar>>): nat {
    if attempts == [] then 0
    else ShortBatches(c, attempts[..|attempts| - 1]) + if |attempts[|attempts| - 1]| < c.batchMax then 1 else 0
  }

  function TimedFlushes(steps: seq<Step>): nat {
    if steps == [] then 0
    else TimedFlushes(steps[..|steps| - 1])
         + if steps[|steps| - 1] == Interval || steps[|steps| - 1] == DrainDone then 1 else 0
  }

  lemma ShortStep(c: Config, s: State, step: Step)
    requires Next(c, s, step).Some?
    ensures var t := Next(c, s, step).value;
            ShortBatches(c, t.attempts)
            <= ShortBatches(c, s.attempts) + if step == Interval || step == DrainDone then 1 else 0
  {
    var t := Next(c, s, step).value;
    if |t.attempts| > |s.attempts| { assert t.attempts[..|t.attempts| - 1] == s.attempts; }
  }

  /** A batch is cut short only by the interval or by the final flush: no more short batches than of those. */
  lemma {:induction false} ShortBatchesAreTimed(c: Config, steps: seq<Step>)
    requires Run(c, steps).Some?
    ensures ShortBatches(c, Run(c, steps).value.attempts) <= TimedFlushes(steps)
    decreases |steps|
  {
    if steps != [] {
      hide Next;
      ShortBatchesAreTimed(c, steps[..|steps| - 1]);
      ShortStep(c, Run(c, steps[..|steps| - 1]).value, steps[|steps| - 1]);
    }
  }

  /** The archiver object, with the loop's batch as a field. */
  class Archiver {
    const config: Config
    var queue: seq<Bar>
    var batch: seq<Bar>
    var phase: Phase
    var enqueued: nat
    var dropped: nat
    var inserted: nat
    var failed: nat
    ghost var accepted: seq<Bar>
    var attempts: seq<seq<Bar>>

    ghost function Abs(): State
      reads this
    {
      State(queue, batch, phase, enqueued, dropped, inserted, failed, 0, accepted, attempts)
    }

    ghost predicate Valid()
      reads this
    {
      config.Valid() && Inv(config, Abs())
    }

    constructor (queueSize: int, batchMax: int, succeeds: nat -> bool)
      ensures Valid() && Abs() == INITIAL && config == WithDefaults(queueSize, batchMax, succeeds)
    {
      config := WithDefaults(queueSize, batchMax, succeeds);
      queue, batch, phase, accepted, attempts := [], [], Running, [], [];
      enqueued, dropped, inserted, failed := 0, 0, 0, 0;
    }

    method OnBarClose(b: Option<Bar>)
      requires Valid()
      modifies this
      ensures Valid()
      ensures var s := OfferBar(config, old(Abs()), b); Abs() == if s.uncounted == 0 then s else CountOne(s)
    {
      NextInv(config, Abs(), Offer(b));
      if b.None? || !Persistent(b.value.tf) {
        return;
      }
      if |queue| < config.queueSize {
        queue := queue + [b.value];
        accepted := accepted + [b.value];
        enqueued := enqueued + 1;
      } else {
        dropped := dropped + 1;
      }
    }

    method FlushBatch()
      requires config.Valid() && FlushReady(config, Abs())
      modifies this
      ensures Valid() && Abs() == Flush(config, old(Abs()))
    {
      FlushInv(config, Abs());
      if |batch| == 0 {
        return;
      }
      if !config.succeeds(|attempts|) {
        failed := failed + 1;
      } else {
        inserted := inserted + |batch|;
      }
      attempts := attempts + [batch];
      batch := [];
    }

    /** The loop takes one bar, in either select. */
    method TakeBar()
      requires Valid() && queue != [] && phase != Returned
      modifies this
      ensures Valid() && Abs() == Take(config, old(Abs()))
    {
      TakeReady(config, Abs());
      hide Inv, FlushReady, Flush;
      batch, queue := batch + [queue[0]], queue[1..];
      if |batch| >= config.batchMax {
        FlushBatch();
      }
    }

    /** After cancellation: the queue is emptied and the rest inserted before the loop returns. */
    method Drain()
      requires Valid() && phase == Draining
      modifies this
      ensures Valid() && phase == Returned
      ensures queue == [] && batch == [] && accepted == old(accepted)
      ensures Concat(attempts) == accepted && old(attempts) <= attempts
      ensures enqueued == inserted + BarsWith(config, attempts, false)
    {
      hide Inv, FlushReady, Flush, Take;
      while |queue| > 0
        invariant Valid() && phase == Draining && accepted == old(accepted) && old(attempts) <= attempts
        decreases |queue|
      {
        TakeEffect(config, Abs());
        TakeBar();
      }
      FlushEffect(config, Abs());
      FlushBatch();
      Drained(config, Abs());
      phase := Returned;
    }
  }
}
