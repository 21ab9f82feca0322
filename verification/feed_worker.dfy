/**
 One feed of the forwarder: a reader that fills a bounded queue, a worker that
 collects envelopes into batches, and a flush timer whose firing can overtake
 the worker at any point.
 */
module FeedWorker {
  import opened Options
  import opened FixExtract
  import opened FlushSplitting

  type Packet = string

  datatype Config = Config(feedBuffer: nat, batchMax: nat, pub: Publisher<V1>, accept: Packet -> Option<V1>) {
    predicate Valid() { feedBuffer >= 1 && batchMax >= 1 }
  }

  /** A one-shot timer: armed, `firing` expiries on their way to the channel, and the channel of capacity one. */
  datatype Timer = Timer(armed: bool, firing: nat, ready: bool)

  datatype Feed = Feed(received: nat, drops: nat, rejected: nat,
                       inHand: Option<Packet>,       // read and counted, not yet queued
                       queue: seq<Packet>, batch: seq<V1>, timer: Timer, log: Log<V1>, stopped: bool,
                       entered: seq<Packet>,         // everything ever queued
                       taken: seq<Packet>)           // everything the worker took

  const EMPTY_LOG: Log<V1> := Log(0, [], [], 0, 0)
  const INITIAL := Feed(0, 0, 0, None, [], [], Timer(false, 0, false), EMPTY_LOG, false, [], [])

  datatype Step =
    | Read(pkt: Packet)     // reader: a datagram arrives
    | Enqueue               // reader: non-blocking send
    | Expire                // the armed timer runs out
    | Deliver               // its tick reaches the channel
    | OnTimer               // worker: takes the tick
    | OnPacket              // worker: takes a packet
    | Stop                  // worker: the context ended

  function Flush(c: Config, s: Feed): Feed {
    s.(log := FlushSplit(c.pub, s.log, s.batch), batch := [])
  }

  /** Stop the timer; if it had already run out, drain the channel without waiting. */
  function Disarm(t: Timer): Timer {
    if t.armed then t.(armed := false) else t.(ready := false)
  }

  function AddEnvelope(c: Config, s: Feed, e: V1): Feed {
    var t := s.(timer := if s.batch == [] then s.timer.(armed := true) else s.timer, batch := s.batch + [e]);
    if |t.batch| >= c.batchMax then Flush(c, t.(timer := Disarm(t.timer))) else t
  }

  function TakePacket(c: Config, s: Feed): Feed
    requires s.queue != []
  {
    var pkt := s.queue[0];
    var t := s.(queue := s.queue[1..], taken := s.taken + [pkt]);
    var e := c.accept(pkt);
    if e.None? then t.(rejected := t.rejected + 1) else AddEnvelope(c, t, e.value)
  }

  function Next(c: Config, s: Feed, step: Step): Option<Feed> {
    match step
    case Read(pkt) =>
      if s.inHand.None? then Some(s.(received := s.received + 1, inHand := Some(pkt))) else None
    case Enqueue =>
      if s.inHand.None? then None
      else if |s.queue| < c.feedBuffer then
        Some(s.(inHand := None, queue := s.queue + [s.inHand.value], entered := s.entered + [s.inHand.value]))
      else Some(s.(inHand := None, drops := s.drops + 1))
    case Expire => if s.timer.armed then Some(s.(timer := Timer(false, s.timer.firing + 1, s.timer.ready))) else None
    case Deliver =>
      if s.timer.firing > 0 then Some(s.(timer := Timer(s.timer.armed, s.timer.firing - 1, true))) else None
    case OnTimer => if !s.stopped && s.timer.ready then Some(Flush(c, s.(timer := s.timer.(ready := false)))) else None
    case OnPacket => if !s.stopped && s.queue != [] then Some(TakePacket(c, s)) else None
    case Stop => Some(s.(stopped := true))
  }

  function Run(c: Config, steps: seq<Step>): Option<Feed> {
    if steps == [] then Some(INITIAL)
    else
      var s := Run(c, steps[..|steps| - 1]);
      if s.None? then None else Next(c, s.value, steps[|steps| - 1])
  }

  /** Every packet received was dropped, is in hand or queued, was rejected, is batched, or was published or failed. */
  ghost predicate Accounted(s: Feed) {
    s.received == s.drops + (if s.inHand.Some? then 1 else 0) + |s.queue| + s.rejected + |s.batch|
                  + s.log.ok + s.log.err
  }

  /** A flush is on its way whenever a batch waits; batches stay below the limit; every packet is accounted for. */
  ghost predicate Inv(c: Config, s: Feed) {
    && (s.batch != [] ==> s.timer.armed || s.timer.firing > 0 || s.timer.ready)
    && |s.batch| < c.batchMax
    && |s.queue| <= c.feedBuffer
    && Accounted(s)
    && s.entered == s.taken + s.queue
  }

  lemma FlushInv(c: Config, s: Feed, t: Timer)
    requires c.Valid() && |s.batch| <= c.batchMax && |s.queue| <= c.feedBuffer && s.entered == s.taken + s.queue
    requires Accounted(s)
    ensures Inv(c, Flush(c, s.(timer := t)))
  {
    FlushCounts(c.pub, s.log, s.batch);
  }

  lemma TakeInv(c: Config, s: Feed)
    requires c.Valid() && Inv(c, s) && s.queue != []
    ensures Inv(c, TakePacket(c, s))
  {
    var pkt := s.queue[0];
    var t := s.(queue := s.queue[1..], taken := s.taken + [pkt]);
    assert t.taken + t.queue == s.taken + s.queue;
    var e := c.accept(pkt);
    if e.Some? {
      var timer := if s.batch == [] then s.timer.(armed := true) else s.timer;
      FlushInv(c, t.(batch := t.batch + [e.value], timer := timer), Disarm(timer));
    }
  }

  lemma NextInv(c: Config, s: Feed, step: Step)
    requires c.Valid() && Inv(c, s) && Next(c, s, step).Some?
    ensures Inv(c, Next(c, s, step).value)
  {
    match step
    case Enqueue => assert s.taken + (s.queue + [s.inHand.value]) == (s.taken + s.queue) + [s.inHand.value];
    case OnTimer => FlushInv(c, s, s.timer.(ready := false));
    case OnPacket => TakeInv(c, s);
    case _ =>
  }

  lemma RunSnoc(c: Config, steps: seq<Step>, step: Step)
    requires Run(c, steps).Some?
    ensures Run(c, steps + [step]) == Next(c, Run(c, steps).value, step)
  {
    hide Next;
    assert (steps + [step])[..|steps|] == steps;
  }

  /**
   Taking a packet that is a quote: the first one of a batch arms the timer; the
   one that fills it sends the whole batch and stops the timer, draining a tick
   that had already come; any other only joins the batch.
   */
  lemma TakeOutcome(c: Config, steps: seq<Step>)
    requires Run(c, steps).Some? && !Run(c, steps).value.stopped && Run(c, steps).value.queue != []
    requires c.accept(Run(c, steps).value.queue[0]).Some?
    ensures var s, r := Run(c, steps).value, Run(c, steps + [OnPacket]);
            var batch := s.batch + [c.accept(s.queue[0]).value];
            && r.Some? && r.value.queue == s.queue[1..] && r.value.rejected == s.rejected
            && (|batch| < c.batchMax ==>
                  && r.value.batch == batch && r.value.log == s.log
                  && (s.batch == [] ==> r.value.timer == s.timer.(armed := true))
                  && (s.batch != [] ==> r.value.timer == s.timer))
            && (|batch| >= c.batchMax ==>
                  && r.value.batch == [] && r.value.log == FlushSplit(c.pub, s.log, batch) && !r.value.timer.armed
                  && (s.batch != [] && !s.timer.armed ==> !r.value.timer.ready)
                  && (s.batch == [] || s.timer.armed ==> r.value.timer.ready == s.timer.ready))
  {
    RunSnoc(c, steps, OnPacket);
  }

  /** The reader drops exactly when the queue is full; a timer tick sends what is collected; a bad packet is counted. */
  lemma OtherOutcomes(c: Config, steps: seq<Step>)
    requires Run(c, steps).Some?
    ensures var s := Run(c, steps).value;
            s.inHand.Some? ==>
              var r := Run(c, steps + [Enqueue]);
              && r.Some? && r.value.inHand == None
              && if |s.queue| < c.feedBuffer
                 then r.value.queue == s.queue + [s.inHand.value] && r.value.drops == s.drops
                 else r.value.queue == s.queue && r.value.drops == s.drops + 1
    ensures var s := Run(c, steps).value;
            !s.stopped && s.timer.ready ==>
              var r := Run(c, steps + [OnTimer]);
              r.Some? && r.value.batch == [] && r.value.log == FlushSplit(c.pub, s.log, s.batch)
    ensures var s := Run(c, steps).value;
            !s.stopped && s.queue != [] && c.accept(s.queue[0]).None? ==>
              var r := Run(c, steps + [OnPacket]);
              && r.Some?
              && r.value == s.(queue := s.queue[1..], taken := s.taken + [s.queue[0]], rejected := s.rejected + 1)
  {
    RunSnoc(c, steps, Enqueue);
    RunSnoc(c, steps, OnTimer);
    RunSnoc(c, steps, OnPacket);
  }

  /** In every interleaving of reader, worker and timer the invariant holds. */
  lemma {:induction false} RunInv(c: Config, steps: seq<Step>)
    requires c.Valid() && Run(c, steps).Some?
    ensures Inv(c, Run(c, steps).value)
    decreases |steps|
  {
    if steps != [] {
      RunInv(c, steps[..|steps| - 1]);
      NextInv(c, Run(c, steps[..|steps| - 1]).value, steps[|steps| - 1]);
    }
  }

  // ---- what is published ---------------------------------------------------

  /** The envelopes of the packets taken so far, in order. */
  function Envelopes(accept: Packet -> Option<V1>, pkts: seq<Packet>): seq<V1> {
    if pkts == [] then []
    else
      var rest, e := Envelopes(accept, pkts[..|pkts| - 1]), accept(pkts[|pkts| - 1]);
      if e.Some? then rest + [e.value] else rest
  }

  /** The envelopes are those already flushed, with exact effect, followed by the batch. */
  ghost predicate Forwarded(c: Config, size: seq<V1> -> nat, limit: nat, s: Feed, flushed: seq<V1>) {
    Envelopes(c.accept, s.taken) == flushed + s.batch && Exactly(size, limit, EMPTY_LOG, s.log, flushed)
  }

  lemma FlushForwards(c: Config, size: seq<V1> -> nat, limit: nat, s: Feed, flushed: seq<V1>)
    requires SizeLimited(c.pub, size, limit) && Monotone(size) && Forwarded(c, size, limit, s, flushed)
    ensures Forwarded(c, size, limit, Flush(c, s), flushed + s.batch)
  {
    hide Monotone, Exactly, SizeLimited, Envelopes;
    FlushExact(c.pub, size, limit, s.log, s.batch);
    ExactlyJoin(size, limit, EMPTY_LOG, s.log, FlushSplit(c.pub, s.log, s.batch), flushed, s.batch);
    assert (flushed + s.batch) + [] == flushed + s.batch;
  }

  lemma NextForwards(c: Config, size: seq<V1> -> nat, limit: nat, s: Feed, step: Step, flushed: seq<V1>)
      returns (flushed': seq<V1>)
    requires SizeLimited(c.pub, size, limit) && Monotone(size)
    requires Forwarded(c, size, limit, s, flushed) && Next(c, s, step).Some?
    ensures Forwarded(c, size, limit, Next(c, s, step).value, flushed')
  {
    hide Monotone, Exactly, SizeLimited, FlushSplit;
    flushed' := flushed;
    if step.OnTimer? {
      FlushForwards(c, size, limit, s.(timer := s.timer.(ready := false)), flushed);
      flushed' := flushed + s.batch;
    } else if step.OnPacket? {
      var pkt := s.queue[0];
      var taken := s.taken + [pkt];
      assert taken[..|taken| - 1] == s.taken;
      var e := c.accept(pkt);
      if e.Some? {
        var batch := s.batch + [e.value];
        assert (flushed + s.batch) + [e.value] == flushed + batch;
        if |batch| >= c.batchMax {
          var timer := Disarm(if s.batch == [] then s.timer.(armed := true) else s.timer);
          var t := s.(queue := s.queue[1..], taken := taken, batch := batch, timer := timer);
          FlushForwards(c, size, limit, t, flushed);
          flushed' := flushed + batch;
        }
      }
    }
  }

  lemma {:induction false} RunForwards(c: Config, size: seq<V1> -> nat, limit: nat, steps: seq<Step>)
    returns (flushed: seq<V1>)
    requires SizeLimited(c.pub, size, limit) && Monotone(size) && Run(c, steps).Some?
    ensures Forwarded(c, size, limit, Run(c, steps).value, flushed)
    decreases |steps|
  {
    if steps == [] {
      flushed := [];
    } else {
      hide Monotone, SizeLimited, Next;
      flushed := RunForwards(c, size, limit, steps[..|steps| - 1]);
      flushed := NextForwards(c, size, limit, Run(c, steps[..|steps| - 1]).value, steps[|steps| - 1], flushed);
    }
  }

  /**
   With a size-limited publisher, after every run the envelopes published are
   exactly those of the packets taken that fit a message alone, in arrival
   order, up to the ones still in the batch; the others were dropped.
   */
  lemma PublishedInOrder(c: Config, size: seq<V1> -> nat, limit: nat, steps: seq<Step>)
    requires SizeLimited(c.pub, size, limit) && Monotone(size) && Run(c, steps).Some?
    ensures var s := Run(c, steps).value;
            var envs := Envelopes(c.accept, s.taken);
            && |s.batch| <= |envs| && envs[|envs| - |s.batch|..] == s.batch
            && Flat(s.log.published) == Fitting(size, limit, envs[..|envs| - |s.batch|], true)
            && s.log.dropped == Fitting(size, limit, envs[..|envs| - |s.batch|], false)
  {
    hide Monotone, SizeLimited, Run, Envelopes, Fitting;
    var flushed := RunForwards(c, size, limit, steps);
    var s := Run(c, steps).value;
    var envs := Envelopes(c.accept, s.taken);
    assert envs[..|envs| - |s.batch|] == flushed;
  }
}
