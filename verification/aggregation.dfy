/**
 What the bar aggregator does to one (pair, timeframe) key under ticks and
 timer sweeps, and why that is a grouping by bucket.
 */
module Aggregation {
  import opened Options
  import opened Bars
  import opened GroupBy

  datatype BarKey = BarKey(pair: Pair, tf: Timeframe)
  datatype Event = Tick(q: Quote) | Sweep(now: int)

  /** Bars handed to the close callback so far, and the bar still open. */
  datatype KeyState = KeyState(closed: seq<Bar>, open: Option<Bar>)

  function ApplyTo(tf: Timeframe, s: KeyState, q: Quote): KeyState {
    if s.open.None? then s.(open := Some(NewBar(tf, q)))
    else if Contains(s.open.value, q.ts) then s.(open := Some(Update(s.open.value, q)))
    else KeyState(s.closed + [Close(s.open.value)], Some(NewBar(tf, q)))
  }

  function SweepKey(s: KeyState, now: int): KeyState {
    if s.open.Some? && now >= End(s.open.value) then KeyState(s.closed + [Close(s.open.value)], None) else s
  }

  function KeyStep(k: BarKey, s: KeyState, e: Event): KeyState {
    match e
    case Tick(q) => if q.pair == k.pair then ApplyTo(k.tf, s, q) else s
    case Sweep(now) => SweepKey(s, now)
  }

  function RunKey(k: BarKey, evs: seq<Event>): KeyState {
    if evs == [] then KeyState([], None) else KeyStep(k, RunKey(k, evs[..|evs| - 1]), evs[|evs| - 1])
  }

  /** The accepted ticks of a pair, in arrival order. */
  function TicksOf(pair: Pair, evs: seq<Event>): seq<Quote> {
    if evs == [] then []
    else
      var rest, e := TicksOf(pair, evs[..|evs| - 1]), evs[|evs| - 1];
      if e.Tick? && e.q.pair == pair then rest + [e.q] else rest
  }

  function WithoutSweeps(evs: seq<Event>): seq<Event> {
    if evs == [] then []
    else
      var rest, e := WithoutSweeps(evs[..|evs| - 1]), evs[|evs| - 1];
      if e.Sweep? then rest else rest + [e]
  }

  predicate Concerns(k: BarKey, e: Event) { e.Tick? ==> e.q.pair == k.pair }
  function Time(e: Event): int { if e.Tick? then e.q.ts else e.now }

  /** Ticks of the key's pair and sweeps come with non-decreasing instants. */
  ghost predicate InOrder(k: BarKey, evs: seq<Event>) {
    forall i, j :: 0 <= i < j < |evs| && Concerns(k, evs[i]) && Concerns(k, evs[j]) ==> Time(evs[i]) <= Time(evs[j])
  }

  /** The closed bars followed by the open one as if it were closed now. */
  function Output(s: KeyState): seq<Bar> {
    s.closed + if s.open.Some? then [Close(s.open.value)] else []
  }

  /** An event of this key happened at `t` or later. */
  ghost predicate Reached(k: BarKey, evs: seq<Event>, t: int) {
    exists i :: 0 <= i < |evs| && Concerns(k, evs[i]) && Time(evs[i]) >= t
  }

  // ---- exactly when the grouping holds -------------------------------------

  /** The tick's bucket is later than that of every bar so far, or is the bucket of the bar still open. */
  predicate Admissible(tf: Timeframe, s: KeyState, q: Quote) {
    var out, b := Output(s), BucketStart(tf, q.ts);
    out == [] || b > out[|out| - 1].openedAt || (b == out[|out| - 1].openedAt && s.open.Some?)
  }

  /** Every tick of the pair is admissible when it arrives. */
  predicate AllAdmissible(k: BarKey, evs: seq<Event>) {
    evs != [] ==>
      var init, e := evs[..|evs| - 1], evs[|evs| - 1];
      AllAdmissible(k, init) && (e.Tick? && e.q.pair == k.pair ==> Admissible(k.tf, RunKey(k, init), e.q))
  }

  ghost predicate Grouped(k: BarKey, evs: seq<Event>, s: KeyState) {
    IsGroupBy(k.tf, TicksOf(k.pair, evs), Output(s)) && (s.open.Some? ==> s.open.value.closedAt == None)
  }

  /** A step only adds bars: the buckets already put out stay, in place. */
  lemma OutputGrows(k: BarKey, s: KeyState, e: Event)
    ensures |Output(s)| <= |Output(KeyStep(k, s, e))|
    ensures forall i :: 0 <= i < |Output(s)| ==> Output(KeyStep(k, s, e))[i].openedAt == Output(s)[i].openedAt
  {
    var n := KeyStep(k, s, e);
    assert forall i :: 0 <= i < |s.closed| ==> Output(n)[i] == Output(s)[i] == s.closed[i];
  }

  lemma GroupFacts(tf: Timeframe, qs: seq<Quote>, bars: seq<Bar>)
    requires IsGroupBy(tf, qs, bars)
    ensures forall i :: 0 <= i < |bars| ==>
              IsBucketBar(tf, qs, bars[i]) && bars[i].openedAt <= bars[|bars| - 1].openedAt
  {
    hide IsBucketBar;
  }

  lemma TickGrouped(k: BarKey, evs: seq<Event>, s: KeyState, q: Quote)
    requires Grouped(k, evs, s) && q.pair == k.pair && Admissible(k.tf, s, q)
    ensures IsGroupBy(k.tf, TicksOf(k.pair, evs) + [q], Output(ApplyTo(k.tf, s, q)))
  {
    hide IsGroupBy, TicksOf, IsBucketBar;
    var qs, out := TicksOf(k.pair, evs), Output(s);
    GroupFacts(k.tf, qs, out);
    if s.open.None? {
      assert out == s.closed;
      GroupByNew(k.tf, qs, out, q);
    } else {
      var b := s.open.value;
      assert out[|s.closed|] == Close(b);
      BucketBarAligned(k.tf, qs, Close(b));
      if Contains(b, q.ts) {
        BucketOf(k.tf, b.openedAt, q.ts);
        GroupBySame(k.tf, qs, s.closed, b, q);
      } else {
        GroupByNew(k.tf, qs, out, q);
      }
    }
  }

  /** An inadmissible tick puts a bar out of bucket order. */
  lemma TickBreaks(k: BarKey, evs: seq<Event>, s: KeyState, q: Quote)
    requires Grouped(k, evs, s) && q.pair == k.pair && !Admissible(k.tf, s, q)
    ensures !Increasing(Output(ApplyTo(k.tf, s, q)))
  {
    var out, n := Output(s), ApplyTo(k.tf, s, q);
    var last := |out| - 1;
    if s.open.Some? {
      assert out[last] == Close(s.open.value);
      BucketBarAligned(k.tf, TicksOf(k.pair, evs), out[last]);
      if Contains(s.open.value, q.ts) { BucketOf(k.tf, s.open.value.openedAt, q.ts); }
    }
    assert n.closed == out && Output(n)[last] == out[last] && Output(n)[|out|] == Close(NewBar(k.tf, q));
  }

  lemma StaysBroken(k: BarKey, s: KeyState, e: Event)
    requires !Increasing(Output(s))
    ensures !Increasing(Output(KeyStep(k, s, e)))
  {
    OutputGrows(k, s, e);
    var out, more := Output(s), Output(KeyStep(k, s, e));
    var i, j :| 0 <= i < j < |out| && out[i].openedAt >= out[j].openedAt;
    assert more[i].openedAt >= more[j].openedAt;
  }

  lemma {:induction false} RunExact(k: BarKey, evs: seq<Event>)
    ensures AllAdmissible(k, evs) ==> Grouped(k, evs, RunKey(k, evs))
    ensures !AllAdmissible(k, evs) ==> !Increasing(Output(RunKey(k, evs)))
    decreases |evs|
  {
    hide IsGroupBy, Increasing, Admissible;
    if evs == [] {
      EmptyGroup(k);
    } else {
      var init, e := evs[..|evs| - 1], evs[|evs| - 1];
      var s := RunKey(k, init);
      RunExact(k, init);
      if !AllAdmissible(k, init) {
        StaysBroken(k, s, e);
      } else if e.Tick? && e.q.pair == k.pair {
        if Admissible(k.tf, s, e.q) { TickGrouped(k, init, s, e.q); } else { TickBreaks(k, init, s, e.q); }
      } else {
        assert Output(KeyStep(k, s, e)) == Output(s);
      }
    }
  }

  lemma EmptyGroup(k: BarKey)
    ensures Grouped(k, [], RunKey(k, []))
  {
  }

  // ---- the condition on the events alone -----------------------------------

  predicate IsTick(k: BarKey, e: Event) { e.Tick? && e.q.pair == k.pair }

  function BucketAt(k: BarKey, e: Event): int
    requires e.Tick?
  {
    BucketStart(k.tf, e.q.ts)
  }

  /** A sweep strictly between two places came at `end` or later. */
  ghost predicate Swept(evs: seq<Event>, i: int, j: int, end: int) {
    exists m :: 0 <= m < |evs| && i < m < j && evs[m].Sweep? && evs[m].now >= end
  }

  /** The later of two ticks is not in an earlier bucket, and not in one that a sweep between them closed. */
  ghost predicate PairOnTime(k: BarKey, evs: seq<Event>, i: nat, j: nat)
    requires i < j < |evs| && evs[i].Tick? && evs[j].Tick?
  {
    var a, b := BucketAt(k, evs[i]), BucketAt(k, evs[j]);
    a <= b && (a == b ==> !Swept(evs, i, j, b + Duration(k.tf)))
  }

  ghost predicate OnTime(k: BarKey, evs: seq<Event>) {
    forall i, j :: 0 <= i < j < |evs| && IsTick(k, evs[i]) && IsTick(k, evs[j]) ==> PairOnTime(k, evs, i, j)
  }

  /** Place of the last tick of the key's pair, or -1. */
  function LastTick(k: BarKey, evs: seq<Event>): (l: int)
    ensures -1 <= l < |evs| && (l >= 0 ==> IsTick(k, evs[l]))
    ensures forall i :: l < i < |evs| ==> !IsTick(k, evs[i])
  {
    if evs == [] then -1
    else if IsTick(k, evs[|evs| - 1]) then |evs| - 1
    else LastTick(k, evs[..|evs| - 1])
  }

  /** The last bar is of the last tick's bucket, and is closed exactly when a sweep past its end came since. */
  ghost predicate Stands(k: BarKey, evs: seq<Event>, s: KeyState) {
    var l, out := LastTick(k, evs), Output(s);
    if l < 0 then s == KeyState([], None)
    else
      var b := BucketAt(k, evs[l]);
      && out != [] && out[|out| - 1].openedAt == b
      && (s.open.Some? ==> s.open.value.openedAt == b && s.open.value.tf == k.tf)
      && (s.open.None? <==> Swept(evs, l, |evs|, b + Duration(k.tf)))
  }

  lemma SweptMore(evs: seq<Event>, e: Event, i: int, j: int, end: int)
    requires j <= |evs|
    ensures Swept(evs + [e], i, j, end) <==> Swept(evs, i, j, end)
    ensures -1 <= i < |evs| ==>
              (Swept(evs + [e], i, |evs| + 1, end) <==> Swept(evs, i, |evs|, end) || (e.Sweep? && e.now >= end))
  {
    var all := evs + [e];
    assert forall m :: 0 <= m < |evs| ==> all[m] == evs[m];
    assert all[|evs|] == e;
    if Swept(evs, i, j, end) {
      var m :| 0 <= m < |evs| && i < m < j && evs[m].Sweep? && evs[m].now >= end;
      assert all[m].Sweep?;
    }
    if Swept(evs, i, |evs|, end) {
      var m :| 0 <= m < |evs| && i < m < |evs| && evs[m].Sweep? && evs[m].now >= end;
      assert all[m].Sweep?;
    }
  }

  lemma LastTickStep(k: BarKey, evs: seq<Event>, e: Event)
    ensures LastTick(k, evs + [e]) == if IsTick(k, e) then |evs| else LastTick(k, evs)
  {
    assert (evs + [e])[..|evs|] == evs;
  }

  lemma StandsTick(k: BarKey, evs: seq<Event>, s: KeyState, q: Quote)
    requires Stands(k, evs, s) && q.pair == k.pair
    ensures Stands(k, evs + [Tick(q)], ApplyTo(k.tf, s, q))
  {
    LastTickStep(k, evs, Tick(q));
    var n, b := ApplyTo(k.tf, s, q), BucketStart(k.tf, q.ts);
    if s.open.Some? {
      var o := s.open.value.openedAt;
      BucketIdempotent(k.tf, evs[LastTick(k, evs)].q.ts);
      if Contains(s.open.value, q.ts) { BucketOf(k.tf, o, q.ts); }
    }
    hide BucketStart, LastTick;
    assert Output(n)[|n.closed|] == Close(n.open.value);
  }

  lemma StandsOther(k: BarKey, evs: seq<Event>, s: KeyState, e: Event)
    requires Stands(k, evs, s) && !IsTick(k, e)
    ensures Stands(k, evs + [e], KeyStep(k, s, e))
  {
    hide BucketStart;
    LastTickStep(k, evs, e);
    var l := LastTick(k, evs);
    hide LastTick;
    if l >= 0 {
      SweptMore(evs, e, l, |evs|, BucketAt(k, evs[l]) + Duration(k.tf));
      hide Swept;
      assert (evs + [e])[l] == evs[l];
      assert Output(KeyStep(k, s, e)) == Output(s);
    }
  }

  lemma {:induction false} RunStands(k: BarKey, evs: seq<Event>)
    ensures Stands(k, evs, RunKey(k, evs))
    decreases |evs|
  {
    if evs != [] {
      var init, e := evs[..|evs| - 1], evs[|evs| - 1];
      RunStands(k, init);
      hide Stands, ApplyTo;
      assert init + [e] == evs;
      if IsTick(k, e) { StandsTick(k, init, RunKey(k, init), e.q); } else { StandsOther(k, init, RunKey(k, init), e); }
    }
  }

  lemma OnTimeInit(k: BarKey, evs: seq<Event>, e: Event)
    requires OnTime(k, evs + [e])
    ensures OnTime(k, evs)
  {
    hide BucketStart, Swept;
    var all := evs + [e];
    forall i, j | 0 <= i < j < |evs| && IsTick(k, evs[i]) && IsTick(k, evs[j]) ensures PairOnTime(k, evs, i, j) {
      assert all[i] == evs[i] && all[j] == evs[j] && PairOnTime(k, all, i, j);
      SweptMore(evs, e, i, j, BucketAt(k, evs[j]) + Duration(k.tf));
    }
  }

  lemma OnTimeOther(k: BarKey, evs: seq<Event>, e: Event)
    requires OnTime(k, evs) && !IsTick(k, e)
    ensures OnTime(k, evs + [e])
  {
    hide BucketStart, Swept;
    var all := evs + [e];
    forall i, j | 0 <= i < j < |all| && IsTick(k, all[i]) && IsTick(k, all[j]) ensures PairOnTime(k, all, i, j) {
      assert all[i] == evs[i] && all[j] == evs[j] && PairOnTime(k, evs, i, j);
      SweptMore(evs, e, i, j, BucketAt(k, evs[j]) + Duration(k.tf));
    }
  }

  /** The new tick is on time with all earlier ones if it is with the last. */
  lemma OnTimeTick(k: BarKey, evs: seq<Event>, q: Quote)
    requires OnTime(k, evs) && q.pair == k.pair
    ensures var all, l := evs + [Tick(q)], LastTick(k, evs);
            OnTime(k, all) <==> l < 0 || PairOnTime(k, all, l, |evs|)
  {
    hide BucketStart;
    var all, l, n := evs + [Tick(q)], LastTick(k, evs), |evs|;
    assert forall i :: 0 <= i < n ==> all[i] == evs[i];
    if l < 0 || PairOnTime(k, all, l, n) {
      forall i, j | 0 <= i < j < |all| && IsTick(k, all[i]) && IsTick(k, all[j]) ensures PairOnTime(k, all, i, j) {
        if j < n {
          assert PairOnTime(k, evs, i, j);
          SweptMore(evs, Tick(q), i, j, BucketAt(k, evs[j]) + Duration(k.tf));
        } else if i < l {
          assert PairOnTime(k, evs, i, l);
          EarlierOnTime(k, evs, i, l, q);
        }
      }
    }
  }

  /** A tick on time with the last one is so with an earlier one that the last was on time with. */
  lemma EarlierOnTime(k: BarKey, evs: seq<Event>, i: nat, l: nat, q: Quote)
    requires i < l < |evs| && evs[i].Tick? && evs[l].Tick? && PairOnTime(k, evs, i, l)
    requires PairOnTime(k, evs + [Tick(q)], l, |evs|)
    ensures PairOnTime(k, evs + [Tick(q)], i, |evs|)
  {
    hide BucketStart;
    var all := evs + [Tick(q)];
    var end := BucketAt(k, all[|evs|]) + Duration(k.tf);
    assert all[i] == evs[i] && all[l] == evs[l];
    SweptSplit(all, i, l, |evs|, end);
    SweptMore(evs, Tick(q), i, l, end);
    hide Swept;
  }

  lemma SweptSplit(evs: seq<Event>, i: int, l: int, j: int, end: int)
    requires 0 <= i < l < j <= |evs| && evs[l].Tick?
    ensures Swept(evs, i, j, end) ==> Swept(evs, i, l, end) || Swept(evs, l, j, end)
  {
  }

  lemma AdmissibleIsOnTime(k: BarKey, evs: seq<Event>, s: KeyState, q: Quote)
    requires Stands(k, evs, s)
    ensures var all, l := evs + [Tick(q)], LastTick(k, evs);
            Admissible(k.tf, s, q) <==> l < 0 || PairOnTime(k, all, l, |evs|)
  {
    hide BucketStart;
    var l := LastTick(k, evs);
    hide LastTick;
    if l >= 0 {
      assert (evs + [Tick(q)])[l] == evs[l];
      SweptMore(evs, Tick(q), l, |evs|, BucketAt(k, evs[l]) + Duration(k.tf));
    }
  }

  /** What each tick meets in the machine is what the events alone say. */
  lemma {:induction false} AdmissibleIffOnTime(k: BarKey, evs: seq<Event>)
    ensures AllAdmissible(k, evs) <==> OnTime(k, evs)
    decreases |evs|
  {
    if evs != [] {
      var init, e := evs[..|evs| - 1], evs[|evs| - 1];
      assert init + [e] == evs;
      AdmissibleIffOnTime(k, init);
      if OnTime(k, evs) { OnTimeInit(k, init, e); }
      if OnTime(k, init) {
        hide OnTime, Admissible, Stands;
        if IsTick(k, e) {
          RunStands(k, init);
          AdmissibleIsOnTime(k, init, RunKey(k, init), e.q);
          OnTimeTick(k, init, e.q);
        } else {
          OnTimeOther(k, init, e);
        }
      }
    }
  }

  /**
   Over all runs, in order or not: the bars of a key are the grouping of its
   ticks by bucket if and only if no tick of the pair is in an earlier bucket
   than a tick before it, or in the same bucket with a sweep past that bucket's
   end between them.
   */
  lemma AggregatorGroupsIff(k: BarKey, evs: seq<Event>)
    ensures IsGroupBy(k.tf, TicksOf(k.pair, evs), Output(RunKey(k, evs))) <==> OnTime(k, evs)
  {
    RunExact(k, evs);
    AdmissibleIffOnTime(k, evs);
  }

  /** The condition can fail: a tick one bucket late gives bars in the wrong order. */
  lemma LateTickBreaksGrouping()
    ensures var k := BarKey("P", TF1s);
            var evs := [Tick(Quote("P", 1.0, 2.0, SECOND)), Tick(Quote("P", 1.0, 2.0, 0))];
            !OnTime(k, evs) && !IsGroupBy(k.tf, TicksOf("P", evs), Output(RunKey(k, evs)))
  {
    hide IsGroupBy, TicksOf;
    var k := BarKey("P", TF1s);
    var a, b := Tick(Quote("P", 1.0, 2.0, SECOND)), Tick(Quote("P", 1.0, 2.0, 0));
    var evs := [a, b];
    assert evs[..1] == [a] && [a][..0] == [];
    assert RunKey(k, [a]) == KeyState([], Some(NewBar(TF1s, a.q)));
    assert Output(RunKey(k, [a])) == [Close(NewBar(TF1s, a.q))];
    assert !Admissible(TF1s, RunKey(k, [a]), b.q);
    assert !AllAdmissible(k, evs);
    AdmissibleIffOnTime(k, evs);
    AggregatorGroupsIff(k, evs);
  }

  // ---- runs in order -------------------------------------------------------

  lemma {:induction false} TicksAreEvents(pair: Pair, evs: seq<Event>, i: nat)
    requires i < |TicksOf(pair, evs)|
    ensures Tick(TicksOf(pair, evs)[i]) in evs && TicksOf(pair, evs)[i].pair == pair
    decreases |evs|
  {
    var init := evs[..|evs| - 1];
    if i < |TicksOf(pair, init)| { TicksAreEvents(pair, init, i); }
  }

  lemma ReachedBefore(k: BarKey, evs: seq<Event>, q: Quote, t: int)
    requires InOrder(k, evs + [Tick(q)]) && q.pair == k.pair && Reached(k, evs, t)
    ensures t <= q.ts
  {
    var i :| 0 <= i < |evs| && Concerns(k, evs[i]) && Time(evs[i]) >= t;
    var all := evs + [Tick(q)];
    assert all[i] == evs[i] && all[|evs|] == Tick(q);
  }

  lemma ReachedMore(k: BarKey, evs: seq<Event>, e: Event, t: int)
    requires Reached(k, evs, t) || (Concerns(k, e) && Time(e) >= t)
    ensures Reached(k, evs + [e], t)
  {
    var all := evs + [e];
    if Reached(k, evs, t) {
      var i :| 0 <= i < |evs| && Concerns(k, evs[i]) && Time(evs[i]) >= t;
      assert all[i] == evs[i];
    } else {
      assert all[|evs|] == e;
    }
  }

  /** Between ticks, the last bar of a key without an open bar ended in the past. */
  ghost predicate Standing(k: BarKey, evs: seq<Event>, s: KeyState) {
    && Grouped(k, evs, s)
    && (s.open.None? && s.closed != [] ==> Reached(k, evs, End(s.closed[|s.closed| - 1])))
  }

  /** The open bar started no later than any later tick of its pair. */
  lemma OpenedBefore(k: BarKey, evs: seq<Event>, s: KeyState, q: Quote)
    requires InOrder(k, evs + [Tick(q)]) && q.pair == k.pair && Grouped(k, evs, s) && s.open.Some?
    ensures s.open.value.openedAt <= q.ts
  {
    var b, qs := s.open.value, TicksOf(k.pair, evs);
    assert Output(s)[|s.closed|] == Close(b);
    assert IsBucketBar(k.tf, qs, Close(b));
    var t := TicksIn(k.tf, qs, b.openedAt)[0];
    var i :| 0 <= i < |qs| && qs[i] == t;
    TicksAreEvents(k.pair, evs, i);
    assert Reached(k, evs, t.ts) by { var j :| 0 <= j < |evs| && evs[j] == Tick(t); }
    ReachedBefore(k, evs, q, t.ts);
  }

  lemma TickInOrder(k: BarKey, evs: seq<Event>, s: KeyState, q: Quote)
    requires InOrder(k, evs + [Tick(q)]) && q.pair == k.pair && Standing(k, evs, s)
    ensures Admissible(k.tf, s, q)
  {
    var out := Output(s);
    if out != [] {
      var last := out[|out| - 1];
      BucketBarAligned(k.tf, TicksOf(k.pair, evs), last);
      if s.open.None? {
        assert out == s.closed;
        ReachedBefore(k, evs, q, End(last));
        BucketAfter(k.tf, last.openedAt, q.ts);
      } else {
        OpenedBefore(k, evs, s, q);
        if Contains(s.open.value, q.ts) {
          BucketOf(k.tf, last.openedAt, q.ts);
        } else {
          BucketAfter(k.tf, last.openedAt, q.ts);
        }
      }
    }
  }

  lemma {:induction false} RunInOrder(k: BarKey, evs: seq<Event>)
    requires InOrder(k, evs)
    ensures AllAdmissible(k, evs) && Standing(k, evs, RunKey(k, evs))
    decreases |evs|
  {
    hide IsGroupBy, Reached, Admissible, InOrder;
    RunExact(k, evs);
    if evs != [] {
      var init, e := evs[..|evs| - 1], evs[|evs| - 1];
      var s, n := RunKey(k, init), RunKey(k, evs);
      assert evs == init + [e];
      InOrderInit(k, init, e);
      RunInOrder(k, init);
      if e.Tick? && e.q.pair == k.pair {
        TickInOrder(k, init, s, e.q);
      } else if n.open.None? && n.closed != [] {
        ReachedMore(k, init, e, End(n.closed[|n.closed| - 1]));
      }
    }
  }

  lemma InOrderInit(k: BarKey, init: seq<Event>, e: Event)
    requires InOrder(k, init + [e])
    ensures InOrder(k, init)
  {
    var all := init + [e];
    assert forall i :: 0 <= i < |init| ==> all[i] == init[i];
  }

  /**
   For every run in order, the bars emitted for a key followed by the open bar
   are exactly the ticks of its pair grouped by bucket.
   */
  lemma AggregatorGroups(k: BarKey, evs: seq<Event>)
    requires InOrder(k, evs)
    ensures IsGroupBy(k.tf, TicksOf(k.pair, evs), Output(RunKey(k, evs)))
  {
    RunInOrder(k, evs);
  }

  /** Two runs in order over the same ticks give the same bars, wherever their sweeps fall. */
  lemma SweepsDoNotMatter(k: BarKey, evs: seq<Event>, evs': seq<Event>)
    requires InOrder(k, evs) && InOrder(k, evs') && TicksOf(k.pair, evs) == TicksOf(k.pair, evs')
    ensures Output(RunKey(k, evs)) == Output(RunKey(k, evs'))
  {
    AggregatorGroups(k, evs);
    AggregatorGroups(k, evs');
    GroupByUnique(k.tf, TicksOf(k.pair, evs), Output(RunKey(k, evs)), Output(RunKey(k, evs')));
  }

  lemma {:induction false} WithoutSweepsTicks(pair: Pair, evs: seq<Event>)
    ensures TicksOf(pair, WithoutSweeps(evs)) == TicksOf(pair, evs)
    decreases |evs|
  {
    if evs != [] {
      var init, e := evs[..|evs| - 1], evs[|evs| - 1];
      WithoutSweepsTicks(pair, init);
      if e.Tick? {
        var kept := WithoutSweeps(init) + [e];
        assert kept[..|kept| - 1] == WithoutSweeps(init);
      }
    }
  }

  /** In any run at all, every accepted tick is counted in exactly one bar. */
  function TickTotal(bars: seq<Bar>): nat {
    if bars == [] then 0 else TickTotal(bars[..|bars| - 1]) + bars[|bars| - 1].tickCount
  }

  lemma TickTotalSnoc(bars: seq<Bar>, b: Bar)
    ensures TickTotal(bars + [b]) == TickTotal(bars) + b.tickCount
  {
    assert (bars + [b])[..|bars|] == bars;
  }

  lemma OutputTotal(s: KeyState)
    ensures TickTotal(Output(s)) == TickTotal(s.closed) + if s.open.Some? then s.open.value.tickCount else 0
  {
    if s.open.Some? { TickTotalSnoc(s.closed, Close(s.open.value)); } else { assert Output(s) == s.closed; }
  }

  lemma StepTotal(k: BarKey, s: KeyState, e: Event)
    ensures TickTotal(Output(KeyStep(k, s, e)))
         == TickTotal(Output(s)) + if e.Tick? && e.q.pair == k.pair then 1 else 0
  {
    OutputTotal(s);
    OutputTotal(KeyStep(k, s, e));
    if s.open.Some? { TickTotalSnoc(s.closed, Close(s.open.value)); }
    hide TickTotal, Output, BucketStart;
  }

  lemma {:induction false} NoTickLost(k: BarKey, evs: seq<Event>)
    ensures TickTotal(Output(RunKey(k, evs))) == |TicksOf(k.pair, evs)|
    decreases |evs|
  {
    if evs != [] {
      var init, e := evs[..|evs| - 1], evs[|evs| - 1];
      NoTickLost(k, init);
      hide KeyStep, TickTotal, Output;
      StepTotal(k, RunKey(k, init), e);
    }
  }
}
