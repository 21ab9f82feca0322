/** Aggregator, archiver and table together. */
module Pipeline {
  import opened Options
  import opened Bars
  import opened GroupBy
  import opened Aggregation
  import opened BarAggregator
  import opened Archiving
  import opened BarTable

  /** The bars offered to the archiver, in order. */
  function Offered(steps: seq<Step>): seq<Bar> {
    if steps == [] then []
    else
      var rest, x := Offered(steps[..|steps| - 1]), steps[|steps| - 1];
      if x.Offer? && x.bar.Some? then rest + [x.bar.value] else rest
  }

  function PersistentOnly(bars: seq<Bar>): seq<Bar> {
    if bars == [] then []
    else
      var rest, b := PersistentOnly(bars[..|bars| - 1]), bars[|bars| - 1];
      if Persistent(b.tf) then rest + [b] else rest
  }

  lemma {:induction false} PersistentOnlyElems(bars: seq<Bar>, b: Bar)
    ensures b in PersistentOnly(bars) <==> b in bars && Persistent(b.tf)
    decreases |bars|
  {
    if bars != [] {
      PersistentOnlyElems(bars[..|bars| - 1], b);
      assert bars == bars[..|bars| - 1] + [bars[|bars| - 1]];
    }
  }

  /** One step without a drop accepts the persistent bar it offers, if any. */
  lemma NextAccepts(c: Config, s: State, x: Step)
    requires Next(c, s, x).Some?
    ensures var t := Next(c, s, x).value;
            && t.dropped >= s.dropped
            && (t.dropped == s.dropped ==>
                  t.accepted == s.accepted +
                    if x.Offer? && x.bar.Some? && Persistent(x.bar.value.tf) then [x.bar.value] else [])
  {
  }

  /** While nothing is dropped, the archiver accepts the persistent bars it is offered, in order. */
  lemma {:induction false} AcceptedIsOffered(c: Config, steps: seq<Step>)
    requires Run(c, steps).Some? && Run(c, steps).value.dropped == 0
    ensures Run(c, steps).value.accepted == PersistentOnly(Offered(steps))
    decreases |steps|
  {
    if steps != [] {
      hide Next;
      var init, x := steps[..|steps| - 1], steps[|steps| - 1];
      NextAccepts(c, Run(c, init).value, x);
      AcceptedIsOffered(c, init);
      if x.Offer? && x.bar.Some? {
        var o := Offered(init) + [x.bar.value];
        assert o[..|o| - 1] == Offered(init);
      }
    }
  }

  lemma {:induction false} LogOfElems(log: seq<Bar>, k: BarKey, b: Bar)
    ensures b in LogOf(log, k) <==> b in log && KeyOf(b) == k
    decreases |log|
  {
    if log != [] {
      LogOfElems(log[..|log| - 1], k, b);
      assert log == log[..|log| - 1] + [log[|log| - 1]];
    }
  }

  /** The callback log of an aggregator that has processed `evs`. */
  ghost predicate LogMatches(evs: seq<Event>, log: seq<Bar>) {
    forall k :: LogOf(log, k) == RunKey(k, evs).closed
  }

  /** Every aggregator object in a valid state has such a log. */
  lemma AggregatorLog(a: Aggregator)
    requires a.Valid()
    ensures LogMatches(a.history, a.emitted)
  {
    forall k ensures LogOf(a.emitted, k) == RunKey(k, a.history).closed {
      assert a.View(k) == RunKey(k, a.history);
    }
  }

  ghost predicate AllInOrder(evs: seq<Event>) { forall k :: InOrder(k, evs) }

  lemma ClosedIsBucketBar(evs: seq<Event>, k: BarKey, b: Bar)
    requires InOrder(k, evs) && b in RunKey(k, evs).closed
    ensures IsBucketBar(k.tf, TicksOf(k.pair, evs), b)
  {
    AggregatorGroups(k, evs);
    var s := RunKey(k, evs);
    var i :| 0 <= i < |s.closed| && s.closed[i] == b;
    assert Output(s)[i] == b;
  }

  /** No two bars of the log share a primary key. */
  lemma LogFunctional(evs: seq<Event>, log: seq<Bar>, a: Bar, b: Bar)
    requires AllInOrder(evs) && LogMatches(evs, log) && a in log && b in log && RowKeyOf(a) == RowKeyOf(b)
    ensures a == b
  {
    var k := KeyOf(a);
    LogOfElems(log, k, a);
    LogOfElems(log, k, b);
    ClosedIsBucketBar(evs, k, a);
    ClosedIsBucketBar(evs, k, b);
  }

  /** The table after the archiver's insert calls; a failed call stores nothing. */
  function Stored(c: Config, attempts: seq<seq<Bar>>): Table {
    if attempts == [] then map[]
    else
      var n := |attempts| - 1;
      if c.succeeds(n) then InsertAll(Stored(c, attempts[..n]), attempts[n]) else Stored(c, attempts[..n])
  }

  /** Without failures, batch boundaries do not show in the table. */
  lemma {:induction false} StoredIsConcat(c: Config, attempts: seq<seq<Bar>>)
    requires Failures(c, |attempts|) == 0
    ensures Stored(c, attempts) == InsertAll(map[], Concat(attempts))
    decreases |attempts|
  {
    if attempts != [] {
      var n := |attempts| - 1;
      StoredIsConcat(c, attempts[..n]);
      InsertAllConcat(map[], Concat(attempts[..n]), attempts[n]);
    }
  }

  /**
   The table is exactly the grouping by bucket of every timeframe of a minute
   or longer, as far as its bars are closed, and every row opens at a multiple
   of its timeframe.
   */
  ghost predicate HoldsGroups(evs: seq<Event>, t: Table) {
    && (forall k: BarKey, i :: Duration(k.tf) >= 60_000_000_000 && 0 <= i < |RunKey(k, evs).closed| ==>
          RowKey(k.pair, k.tf, RunKey(k, evs).closed[i].openedAt) in t)
    && (forall r: RowKey :: r in t ==>
          && Duration(r.tf) >= 60_000_000_000 && r.openedAt % Duration(r.tf) == 0
          && t[r] in RunKey(BarKey(r.pair, r.tf), evs).closed && RowKeyOf(t[r]) == r
          && t[r].closedAt == Some(r.openedAt + Duration(r.tf)))
    && (forall r: RowKey :: r in t ==> IsBucketBar(r.tf, TicksOf(r.pair, evs), t[r]))
  }

  lemma TableOfLog(evs: seq<Event>, log: seq<Bar>)
    requires AllInOrder(evs) && LogMatches(evs, log)
    ensures HoldsGroups(evs, InsertAll(map[], PersistentOnly(log)))
  {
    var acc := PersistentOnly(log);
    var t := InsertAll(map[], acc);
    InsertAllRows(acc);
    forall k: BarKey, i | Duration(k.tf) >= 60_000_000_000 && 0 <= i < |RunKey(k, evs).closed|
      ensures RowKey(k.pair, k.tf, RunKey(k, evs).closed[i].openedAt) in t
    {
      PersistentIff(k.tf);
      var b := RunKey(k, evs).closed[i];
      assert b in LogOf(log, k);
      LogOfElems(log, k, b);
      PersistentOnlyElems(log, b);
      assert RowKeyOf(b) == RowKey(k.pair, k.tf, b.openedAt);
      var j :| 0 <= j < |acc| && acc[j] == b;
    }
    forall r | r in t
      ensures Duration(r.tf) >= 60_000_000_000 && t[r] in RunKey(BarKey(r.pair, r.tf), evs).closed
      ensures IsBucketBar(r.tf, TicksOf(r.pair, evs), t[r]) && r.openedAt % Duration(r.tf) == 0
      ensures t[r].closedAt == Some(r.openedAt + Duration(r.tf))
    {
      PersistentIff(r.tf);
      var k := BarKey(r.pair, r.tf);
      PersistentOnlyElems(log, t[r]);
      LogOfElems(log, k, t[r]);
      ClosedIsBucketBar(evs, k, t[r]);
      BucketBarAligned(r.tf, TicksOf(r.pair, evs), t[r]);
    }
  }

  /**
   End to end: ticks and sweeps in order, every closed bar offered to the
   archiver, nothing dropped, nothing left in queue or batch, every insert
   successful. Then the table holds exactly the grouping by bucket, whatever
   the batch size, the flush times and the interleaving were.
   */
  lemma PipelineExact(evs: seq<Event>, log: seq<Bar>, c: Config, steps: seq<Step>)
    requires AllInOrder(evs) && LogMatches(evs, log)
    requires c.Valid() && Run(c, steps).Some? && Offered(steps) == log
    requires var s := Run(c, steps).value; s.dropped == 0 && s.failed == 0 && s.queue == [] && s.batch == []
    ensures HoldsGroups(evs, Stored(c, Run(c, steps).value.attempts))
  {
    hide HoldsGroups;
    var s := Run(c, steps).value;
    RunInv(c, steps);
    Drained(c, s);
    AcceptedIsOffered(c, steps);
    StoredIsConcat(c, s.attempts);
    TableOfLog(evs, log);
  }

  /** Inserting bars of the log again, in any order and number, changes nothing. */
  lemma ReplayChangesNothing(evs: seq<Event>, log: seq<Bar>, replay: seq<Bar>)
    requires AllInOrder(evs) && LogMatches(evs, log)
    requires forall b :: b in replay ==> b in PersistentOnly(log)
    ensures InsertAll(InsertAll(map[], replay), PersistentOnly(log)) == InsertAll(map[], PersistentOnly(log))
    ensures InsertAll(InsertAll(map[], PersistentOnly(log)), replay) == InsertAll(map[], PersistentOnly(log))
  {
    var acc := PersistentOnly(log);
    forall i, j | 0 <= i < |acc| && 0 <= j < |acc| && RowKeyOf(acc[i]) == RowKeyOf(acc[j]) ensures acc[i] == acc[j] {
      PersistentOnlyElems(log, acc[i]);
      PersistentOnlyElems(log, acc[j]);
      LogFunctional(evs, log, acc[i], acc[j]);
    }
    InsertAllConcat(map[], replay, acc);
    InsertAllConcat(map[], acc, replay);
    SameRows(acc, replay + acc);
    SameRows(acc, acc + replay);
  }
}
