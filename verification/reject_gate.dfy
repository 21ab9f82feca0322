/** The rate limit on logged rejects: one timestamp per key, taken by compare-and-swap. */
module RejectGate {
  import opened Options

  const INTERVAL := 60_000_000_000
  const MIN64 := -0x8000_0000_0000_0000
  const MAX64 := 0x7FFF_FFFF_FFFF_FFFF

  newtype Int64 = x: int | MIN64 <= x <= MAX64

  /** Two's complement subtraction. */
  function Sub64(a: Int64, b: Int64): Int64 {
    var d := a as int - b as int;
    (if d > MAX64 then d - 0x1_0000_0000_0000_0000 else if d < MIN64 then d + 0x1_0000_0000_0000_0000 else d) as Int64
  }

  predicate Elapsed(now: Int64, last: Int64) { Sub64(now, last) as int >= INTERVAL }

  /** A call past the map lookup, then past its load and interval check. */
  datatype Call = Holding(now: Int64) | Claiming(now: Int64, last: Int64)

  datatype State = State(slot: Option<Int64>, calls: map<nat, Call>, accepted: seq<Int64>)

  datatype Step =
    | Enter(id: nat, now: Int64)   // LoadOrStore
    | Load(id: nat)                // Load and compare
    | Claim(id: nat)               // CompareAndSwap

  const START := State(None, map[], [])

  function Next(s: State, step: Step): Option<State> {
    match step
    case Enter(id, now) =>
      if id in s.calls then None
      else if s.slot.None? then Some(s.(slot := Some(now), accepted := s.accepted + [now]))
      else Some(s.(calls := s.calls[id := Holding(now)]))
    case Load(id) =>
      if id in s.calls && s.calls[id].Holding? && s.slot.Some? then
        var now, last := s.calls[id].now, s.slot.value;
        Some(s.(calls := if Elapsed(now, last) then s.calls[id := Claiming(now, last)] else s.calls - {id}))
      else None
    case Claim(id) =>
      if id in s.calls && s.calls[id].Claiming? then
        var c := s.calls[id];
        var t := s.(calls := s.calls - {id});
        Some(if s.slot == Some(c.last) then t.(slot := Some(c.now), accepted := s.accepted + [c.now]) else t)
      else None
  }

  function Run(steps: seq<Step>): Option<State> {
    if steps == [] then Some(START)
    else
      var s := Run(steps[..|steps| - 1]);
      if s.None? then None else Next(s.value, steps[|steps| - 1])
  }

  ghost predicate Inv(s: State) {
    && (s.slot.None? <==> s.accepted == [])
    && (s.slot.Some? ==> s.accepted[|s.accepted| - 1] == s.slot.value)
    && (forall i :: 0 < i < |s.accepted| ==> Elapsed(s.accepted[i], s.accepted[i - 1]))
    && (forall id :: id in s.calls && s.calls[id].Claiming? ==> Elapsed(s.calls[id].now, s.calls[id].last))
  }

  lemma NextInv(s: State, step: Step)
    requires Inv(s) && Next(s, step).Some?
    ensures Inv(Next(s, step).value)
  {
    hide Elapsed;
    var t := Next(s, step).value;
    assert forall id :: id in t.calls && t.calls[id].Claiming? ==> Elapsed(t.calls[id].now, t.calls[id].last);
  }

  /** Each accepted reading passed the interval check against the accepted reading before it, whatever raced. */
  lemma {:induction false} RunInv(steps: seq<Step>)
    requires Run(steps).Some?
    ensures Inv(Run(steps).value)
    decreases |steps|
  {
    if steps != [] {
      RunInv(steps[..|steps| - 1]);
      NextInv(Run(steps[..|steps| - 1]).value, steps[|steps| - 1]);
    }
  }

  // ---- which readings keep the samples apart -------------------------------

  const TWO64 := 0x1_0000_0000_0000_0000

  /** Read after `last`, `now` passes the check though it lies before: the subtraction wraps round. */
  predicate Wraps(now: Int64, last: Int64) {
    now as int - last as int < MIN64 && now as int - last as int + TWO64 >= 60_000_000_000
  }

  lemma ElapsedCases(now: Int64, last: Int64)
    ensures Elapsed(now, last) ==> now as int - last as int >= INTERVAL || Wraps(now, last)
    ensures Wraps(now, last) ==> Elapsed(now, last) && now as int < last as int
  {
  }

  ghost predicate ReadingsIn(steps: seq<Step>, r: iset<Int64>) {
    forall i :: 0 <= i < |steps| && steps[i].Enter? ==> steps[i].now in r
  }

  ghost predicate SomeWrap(r: iset<Int64>) {
    exists a, b :: a in r && b in r && Wraps(a, b)
  }

  ghost predicate Spaced(xs: seq<Int64>) {
    forall i :: 0 < i < |xs| ==> xs[i] as int - xs[i - 1] as int >= 60_000_000_000
  }

  /** Whatever is accepted or on its way was read. */
  ghost predicate AllRead(s: State, r: iset<Int64>) {
    && (forall i :: 0 <= i < |s.accepted| ==> s.accepted[i] in r)
    && (forall id :: id in s.calls ==> s.calls[id].now in r)
  }

  lemma {:induction false} RunAllRead(steps: seq<Step>, r: iset<Int64>)
    requires Run(steps).Some? && ReadingsIn(steps, r)
    ensures AllRead(Run(steps).value, r)
    decreases |steps|
  {
    if steps != [] {
      RunAllRead(steps[..|steps| - 1], r);
      hide Elapsed;
    }
  }

  /** Without a wrapping pair of readings every run keeps its samples an interval apart, whatever raced. */
  lemma SpacedWithoutWrap(steps: seq<Step>, r: iset<Int64>)
    requires Run(steps).Some? && ReadingsIn(steps, r) && !SomeWrap(r)
    ensures Spaced(Run(steps).value.accepted)
  {
    RunInv(steps);
    RunAllRead(steps, r);
    hide Elapsed, Wraps, Run;
    var xs := Run(steps).value.accepted;
    forall i | 0 < i < |xs| ensures xs[i] as int - xs[i - 1] as int >= INTERVAL {
      ElapsedCases(xs[i], xs[i - 1]);
      assert xs[i] in r && xs[i - 1] in r;
    }
  }

  lemma RunSnoc(steps: seq<Step>, step: Step)
    requires Run(steps).Some?
    ensures Run(steps + [step]) == Next(Run(steps).value, step) && Run([]) == Some(START)
  {
    assert (steps + [step])[..|steps|] == steps;
  }

  function WrapRun(a: Int64, b: Int64): seq<Step> { [Enter(0, b), Enter(1, a), Load(1), Claim(1)] }

  /** One call after the other, with a wrapping pair of readings: the gate accepts both. */
  lemma WrappedReadingAccepted(a: Int64, b: Int64)
    requires Wraps(a, b)
    ensures Run(WrapRun(a, b)).Some? && Run(WrapRun(a, b)).value.accepted == [b, a]
    ensures !Spaced([b, a])
  {
    ElapsedCases(a, b);
    hide Elapsed, Wraps;
    RunSnoc([], Enter(0, b));
    assert [] + [Enter(0, b)] == [Enter(0, b)] && [] + [b] == [b];
    RunSnoc([Enter(0, b)], Enter(1, a));
    assert [Enter(0, b)] + [Enter(1, a)] == [Enter(0, b), Enter(1, a)];
    RunSnoc([Enter(0, b), Enter(1, a)], Load(1));
    assert [Enter(0, b), Enter(1, a)] + [Load(1)] == [Enter(0, b), Enter(1, a), Load(1)];
    RunSnoc([Enter(0, b), Enter(1, a), Load(1)], Claim(1));
    assert [Enter(0, b), Enter(1, a), Load(1)] + [Claim(1)] == WrapRun(a, b);
    assert [b] + [a] == [b, a];
    assert [b, a][1] == a && [b, a][0] == b;
  }

  /**
   Every run with readings in a set keeps its samples an interval apart if and
   only if no two readings of the set lie so far apart that the subtraction
   wraps round to an interval or more.
   */
  lemma SpacedIff(r: iset<Int64>)
    ensures (forall steps :: Run(steps).Some? && ReadingsIn(steps, r) ==> Spaced(Run(steps).value.accepted))
       <==> !SomeWrap(r)
  {
    if SomeWrap(r) {
      var a, b :| a in r && b in r && Wraps(a, b);
      WrappedReadingAccepted(a, b);
      assert ReadingsIn(WrapRun(a, b), r);
    } else {
      forall steps | Run(steps).Some? && ReadingsIn(steps, r) ensures Spaced(Run(steps).value.accepted) {
        SpacedWithoutWrap(steps, r);
      }
    }
  }

  /** Readings within half the range of each other never wrap; those since the epoch are such. */
  lemma HalfRangeNeverWraps(r: iset<Int64>, least: int)
    requires forall x :: x in r ==> least <= x as int <= least + MAX64
    ensures !SomeWrap(r)
  {
  }

  /** Accepted samples that are j - i apart in order lie that many intervals apart. */
  lemma {:induction false} Spacing(steps: seq<Step>, r: iset<Int64>, i: nat, j: nat)
    requires Run(steps).Some? && ReadingsIn(steps, r) && !SomeWrap(r)
    requires i <= j < |Run(steps).value.accepted|
    ensures var xs := Run(steps).value.accepted; xs[j] as int - xs[i] as int >= (j - i) * 60_000_000_000
    decreases j - i
  {
    if i < j {
      Spacing(steps, r, i, j - 1);
      SpacedWithoutWrap(steps, r);
    }
  }

  /** So a stretch of that many nanoseconds holds at most one more sample than full intervals. */
  lemma AtMost(steps: seq<Step>, r: iset<Int64>, i: nat, j: nat, span: nat)
    requires Run(steps).Some? && ReadingsIn(steps, r) && !SomeWrap(r)
    requires i <= j < |Run(steps).value.accepted|
    requires Run(steps).value.accepted[j] as int - Run(steps).value.accepted[i] as int <= span
    ensures j - i + 1 <= 1 + span / 60_000_000_000
  {
    Spacing(steps, r, i, j);
  }

  /** A call that nobody disturbs is accepted exactly when it is the first or sixty seconds past the last sample. */
  lemma LoneCall(steps: seq<Step>, id: nat, now: Int64)
    requires Run(steps).Some? && id !in Run(steps).value.calls
    ensures var s, first := Run(steps).value, Run(steps + [Enter(id, now)]);
            && first.Some?
            && (s.slot.None? ==> first.value.accepted == s.accepted + [now])
            && (s.slot.Some? && MIN64 <= now as int - s.slot.value as int <= MAX64 ==>
                  var r := Run(steps + [Enter(id, now)] + [Load(id)]);
                  if now as int - s.slot.value as int >= 60_000_000_000
                  then var t := Run(steps + [Enter(id, now)] + [Load(id)] + [Claim(id)]);
                       t.Some? && t.value.accepted == s.accepted + [now] && t.value.slot == Some(now)
                  else r.Some? && id !in r.value.calls && r.value.accepted == s.accepted)
  {
    var s := Run(steps).value;
    RunSnoc(steps, Enter(id, now));
    if s.slot.Some? {
      assert MIN64 <= now as int - s.slot.value as int <= MAX64 ==>
               (Elapsed(now, s.slot.value) <==> now as int - s.slot.value as int >= 60_000_000_000);
      hide Run, Elapsed;
      RunSnoc(steps + [Enter(id, now)], Load(id));
      if Elapsed(now, s.slot.value) { RunSnoc(steps + [Enter(id, now)] + [Load(id)], Claim(id)); }
    }
  }

  /** A clock that reads the far past after a second past the epoch: both samples are logged. */
  lemma FarPastAccepted()
    ensures var r := Run([Enter(0, 1_000_000_000), Enter(1, MIN64 as Int64), Load(1), Claim(1)]);
            r.Some? && r.value.accepted == [1_000_000_000, MIN64 as Int64]
  {
    WrappedReadingAccepted(MIN64 as Int64, 1_000_000_000);
  }
}
