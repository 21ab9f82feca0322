/**
 The comparison of two price streams: ticks paired by key under a lock, counts
 in atomics, and maxima raised by compare-and-swap loops.
 */
module QuoteMatcher {
  import opened Options

  datatype Key = Key(sym: string, seq_: nat, ts: string)
  datatype Tick = Tick(key: Key, fromA: bool, bid: real, ask: real, recvAt: int)
  datatype Diff = Diff(bid: real, ask: real)

  const EPSILON := 0.000000001

  function Abs(x: real): real { if x < 0.0 then -x else x }

  function DiffOf(t: Tick, other: Tick): Diff { Diff(Abs(t.bid - other.bid), Abs(t.ask - other.ask)) }

  predicate Same(d: Diff) { d.bid < EPSILON && d.ask < EPSILON }

  /** Where a Submit call stands; a raise is one round of a compare-and-swap loop. */
  datatype Call =
    | Counted(tick: Tick)
    | Paired(diff: Diff)                          // out of the lock with the other tick
    | RaiseBid(diff: Diff)
    | SawBid(diff: Diff, cur: real)
    | RaiseAsk(diff: Diff)
    | SawAsk(diff: Diff, cur: real)
    | Finished

  datatype State = State(
    pending: map<Key, Tick>, totalA: nat, totalB: nat, matched: nat, mismatched: nat, expired: nat,
    maxBid: real, maxAsk: real, calls: seq<Call>, seen: map<nat, Diff>,
    submitted: seq<Tick>,                              // every tick, in order
    pairs: seq<(Tick, Tick)>, owners: seq<nat>)        // the pairs compared, and the calls that compare them

  datatype Step = Submit(tick: Tick) | Advance(call: nat) | Expire(cutoff: int)

  const START := State(map[], 0, 0, 0, 0, 0, 0.0, 0.0, [], map[], [], [], [])

  function Old(pending: map<Key, Tick>, cutoff: int): set<Key> {
    set k | k in pending && pending[k].recvAt < cutoff
  }

  function Count(s: State, t: Tick): State {
    var u := s.(calls := s.calls + [Counted(t)], submitted := s.submitted + [t]);
    if t.fromA then u.(totalA := s.totalA + 1) else u.(totalB := s.totalB + 1)
  }

  function AdvanceCall(s: State, i: nat): State
    requires i < |s.calls|
  {
    match s.calls[i]
    case Counted(t) =>
      if t.key in s.pending
      then s.(pending := s.pending - {t.key}, calls := s.calls[i := Paired(DiffOf(t, s.pending[t.key]))],
              pairs := s.pairs + [(t, s.pending[t.key])], owners := s.owners + [i])
      else s.(pending := s.pending[t.key := t], calls := s.calls[i := Finished])
    case Paired(d) =>
      if Same(d) then s.(matched := s.matched + 1, calls := s.calls[i := Finished])
      else s.(mismatched := s.mismatched + 1, calls := s.calls[i := RaiseBid(d)], seen := s.seen[i := d])
    case RaiseBid(d) => s.(calls := s.calls[i := if d.bid <= s.maxBid then RaiseAsk(d) else SawBid(d, s.maxBid)])
    case SawBid(d, cur) =>
      if s.maxBid == cur then s.(maxBid := d.bid, calls := s.calls[i := RaiseAsk(d)])
      else s.(calls := s.calls[i := RaiseBid(d)])
    case RaiseAsk(d) => s.(calls := s.calls[i := if d.ask <= s.maxAsk then Finished else SawAsk(d, s.maxAsk)])
    case SawAsk(d, cur) =>
      if s.maxAsk == cur then s.(maxAsk := d.ask, calls := s.calls[i := Finished])
      else s.(calls := s.calls[i := RaiseAsk(d)])
    case Finished => s
  }

  function Next(s: State, step: Step): Option<State> {
    match step
    case Submit(t) => Some(Count(s, t))
    case Advance(i) => if i < |s.calls| then Some(AdvanceCall(s, i)) else None
    case Expire(cutoff) =>
      var old_ := Old(s.pending, cutoff);
      Some(s.(pending := s.pending - old_, expired := s.expired + |old_|))
  }

  function Run(steps: seq<Step>): Option<State> {
    if steps == [] then Some(START)
    else
      var s := Run(steps[..|steps| - 1]);
      if s.None? then None else Next(s.value, steps[|steps| - 1])
  }

  // ---- conservation --------------------------------------------------------

  /** Ticks a call holds that no counter has yet. */
  function Held(c: Call): nat { if c.Counted? then 1 else if c.Paired? then 2 else 0 }

  function HeldBy(cs: seq<Call>): nat {
    if cs == [] then 0 else HeldBy(cs[..|cs| - 1]) + Held(cs[|cs| - 1])
  }

  lemma {:induction false} HeldUpdate(cs: seq<Call>, i: nat, c: Call)
    requires i < |cs|
    ensures HeldBy(cs[i := c]) == HeldBy(cs) - Held(cs[i]) + Held(c)
    decreases |cs|
  {
    var n := |cs| - 1;
    if i < n {
      HeldUpdate(cs[..n], i, c);
      assert cs[i := c][..n] == cs[..n][i := c];
    } else {
      assert cs[i := c][..n] == cs[..n];
    }
  }

  ghost predicate Balanced(s: State) {
    s.totalA + s.totalB == 2 * (s.matched + s.mismatched) + |s.pending| + s.expired + HeldBy(s.calls)
  }

  lemma LockBalanced(s: State, i: nat)
    requires Balanced(s) && i < |s.calls| && s.calls[i].Counted?
    ensures Balanced(AdvanceCall(s, i))
  {
    hide HeldBy, DiffOf;
    var t, tick := AdvanceCall(s, i), s.calls[i].tick;
    HeldUpdate(s.calls, i, t.calls[i]);
    if tick.key in s.pending { Removed(s.pending, {tick.key}); } else { Inserted(s.pending, tick); }
  }

  lemma Inserted(m: map<Key, Tick>, t: Tick)
    requires t.key !in m
    ensures |m[t.key := t]| == |m| + 1
  {
    assert m[t.key := t].Keys == m.Keys + {t.key};
  }

  lemma CountBalanced(s: State, i: nat)
    requires Balanced(s) && i < |s.calls| && !s.calls[i].Counted?
    ensures Balanced(AdvanceCall(s, i))
  {
    var t := AdvanceCall(s, i);
    HeldUpdate(s.calls, i, t.calls[i]);
    hide HeldBy, Same;
    if s.calls[i].Finished? { assert s.calls[i := Finished] == s.calls; }
  }

  lemma AdvanceBalanced(s: State, i: nat)
    requires Balanced(s) && i < |s.calls|
    ensures Balanced(AdvanceCall(s, i))
  {
    if s.calls[i].Counted? { LockBalanced(s, i); } else { CountBalanced(s, i); }
  }

  lemma Removed(m: map<Key, Tick>, ks: set<Key>)
    requires ks <= m.Keys
    ensures |m - ks| == |m| - |ks|
  {
    assert (m - ks).Keys == m.Keys - ks;
    assert |m.Keys - ks| == |m.Keys| - |ks|;
  }

  lemma StepBalanced(s: State, step: Step)
    requires Balanced(s) && Next(s, step).Some?
    ensures Balanced(Next(s, step).value)
  {
    match step
    case Submit(t) => assert (s.calls + [Counted(t)])[..|s.calls|] == s.calls;
    case Advance(i) => AdvanceBalanced(s, i);
    case Expire(cutoff) => Removed(s.pending, Old(s.pending, cutoff));
  }

  // ---- maxima --------------------------------------------------------------

  predicate AtBid(c: Call) { c.RaiseBid? || c.SawBid? }
  predicate AtAsk(c: Call) { AtBid(c) || c.RaiseAsk? || c.SawAsk? }

  ghost predicate CallOk(s: State, i: nat)
    requires i < |s.calls|
  {
    var c := s.calls[i];
    && (AtAsk(c) ==> i in s.seen && s.seen[i] == c.diff)
    && (c.Paired? || c.Counted? ==> i !in s.seen)
    && (c.SawBid? ==> c.cur < c.diff.bid && c.cur <= s.maxBid)
    && (c.SawAsk? ==> c.cur < c.diff.ask && c.cur <= s.maxAsk)
    && (i in s.seen && !AtBid(c) ==> s.seen[i].bid <= s.maxBid)
    && (i in s.seen && !AtAsk(c) ==> s.seen[i].ask <= s.maxAsk)
  }

  ghost predicate Attained(s: State) {
    && (s.maxBid == 0.0 || exists i :: i in s.seen && s.seen[i].bid == s.maxBid)
    && (s.maxAsk == 0.0 || exists i :: i in s.seen && s.seen[i].ask == s.maxAsk)
  }

  ghost predicate MaxInv(s: State) {
    && (forall i :: i in s.seen ==> i < |s.calls|)
    && (forall i :: 0 <= i < |s.calls| ==> CallOk(s, i))
    && Attained(s)
  }

  lemma AdvanceAttained(s: State, i: nat)
    requires MaxInv(s) && i < |s.calls|
    ensures Attained(AdvanceCall(s, i))
  {
    var t := AdvanceCall(s, i);
    assert CallOk(s, i);
    hide DiffOf, Same, CallOk;
    forall k | k in s.seen && k != i ensures k in t.seen && t.seen[k] == s.seen[k] {}
    if s.calls[i].SawBid? || s.calls[i].SawAsk? {
      assert i in t.seen;
    }
  }

  lemma AdvanceOwn(s: State, i: nat)
    requires MaxInv(s) && i < |s.calls|
    ensures |AdvanceCall(s, i).calls| == |s.calls| && CallOk(AdvanceCall(s, i), i)
    ensures forall k :: k in AdvanceCall(s, i).seen ==> k < |s.calls|
  {
    assert CallOk(s, i);
    hide DiffOf, Same;
  }

  lemma AdvanceOther(s: State, i: nat, j: nat)
    requires MaxInv(s) && i < |s.calls| && j < |s.calls| && i != j
    ensures |AdvanceCall(s, i).calls| == |s.calls| && CallOk(AdvanceCall(s, i), j)
  {
    assert CallOk(s, i) && CallOk(s, j);
    var t := AdvanceCall(s, i);
    assert t.maxBid >= s.maxBid && t.maxAsk >= s.maxAsk;
    assert |t.calls| == |s.calls| && t.calls[j] == s.calls[j];
    assert (j in t.seen <==> j in s.seen) && (j in s.seen ==> t.seen[j] == s.seen[j]);
    hide AdvanceCall, MaxInv;
  }

  lemma StepMax(s: State, step: Step)
    requires MaxInv(s) && Next(s, step).Some?
    ensures MaxInv(Next(s, step).value)
  {
    hide AdvanceCall, CallOk, Attained;
    match step
    case Submit(t) =>
      SubmitMax(s, t);
    case Advance(i) =>
      AdvanceAttained(s, i);
      AdvanceOwn(s, i);
      forall j | 0 <= j < |s.calls| ensures CallOk(AdvanceCall(s, i), j) {
        if j != i { AdvanceOther(s, i, j); }
      }
    case Expire(cutoff) =>
      ExpireMax(s, Next(s, step).value);
  }

  lemma SubmitMax(s: State, t: Tick)
    requires MaxInv(s)
    ensures MaxInv(Count(s, t))
  {
    var u := Count(s, t);
    forall i | 0 <= i < |u.calls| ensures CallOk(u, i) {
      if i < |s.calls| { assert CallOk(s, i); }
    }
  }

  lemma ExpireMax(s: State, u: State)
    requires MaxInv(s) && u == s.(pending := u.pending, expired := u.expired)
    ensures MaxInv(u)
  {
    forall i | 0 <= i < |u.calls| ensures CallOk(u, i) { assert CallOk(s, i); }
  }

  lemma {:induction false} RunInv(steps: seq<Step>)
    requires Run(steps).Some?
    ensures Balanced(Run(steps).value) && MaxInv(Run(steps).value)
    decreases |steps|
  {
    if steps != [] {
      var s := Run(steps[..|steps| - 1]).value;
      RunInv(steps[..|steps| - 1]);
      hide Next, Balanced, MaxInv;
      StepBalanced(s, steps[|steps| - 1]);
      StepMax(s, steps[|steps| - 1]);
    }
  }

  ghost predicate Quiet(s: State) {
    forall i :: 0 <= i < |s.calls| ==> s.calls[i] == Finished
  }

  /**
   When no call is under way, after any interleaving: every tick counted is in
   a pair, pending or expired; and each recorded maximum is the largest
   difference of all mismatches, and one of them when it is not zero.
   */
  lemma AtRest(steps: seq<Step>)
    requires Run(steps).Some? && Quiet(Run(steps).value)
    ensures var s := Run(steps).value;
            && s.totalA + s.totalB == 2 * (s.matched + s.mismatched) + |s.pending| + s.expired
            && (forall i :: i in s.seen ==> s.seen[i].bid <= s.maxBid && s.seen[i].ask <= s.maxAsk)
            && (s.maxBid == 0.0 || exists i :: i in s.seen && s.seen[i].bid == s.maxBid)
            && (s.maxAsk == 0.0 || exists i :: i in s.seen && s.seen[i].ask == s.maxAsk)
            && s.mismatched == |s.seen|
  {
    RunInv(steps);
    var s := Run(steps).value;
    NothingHeld(s.calls);
    forall i | i in s.seen ensures s.seen[i].bid <= s.maxBid && s.seen[i].ask <= s.maxAsk {
      assert CallOk(s, i);
    }
    SeenCounted(steps);
  }

  lemma {:induction false} NothingHeld(cs: seq<Call>)
    requires forall i :: 0 <= i < |cs| ==> cs[i] == Finished
    ensures HeldBy(cs) == 0
    decreases |cs|
  {
    if cs != [] { NothingHeld(cs[..|cs| - 1]); }
  }

  /** Each mismatch counted has its difference recorded. */
  lemma {:induction false} SeenCounted(steps: seq<Step>)
    requires Run(steps).Some?
    ensures Run(steps).value.mismatched == |Run(steps).value.seen|
    decreases |steps|
  {
    if steps != [] {
      var s, step := Run(steps[..|steps| - 1]).value, steps[|steps| - 1];
      SeenCounted(steps[..|steps| - 1]);
      RunInv(steps[..|steps| - 1]);
      if step.Advance? && s.calls[step.call].Paired? {
        assert CallOk(s, step.call);
        var d := s.calls[step.call].diff;
        assert s.seen[step.call := d].Keys == s.seen.Keys + {step.call};
      }
    }
  }

  // ---- counters and maxima against the prices ------------------------------

  /** Two prices lie a billionth or more apart. */
  predicate Apart(x: real, y: real) { x - y >= 0.000000001 || y - x >= 0.000000001 }

  predicate Differ(p: (Tick, Tick)) { Apart(p.0.bid, p.1.bid) || Apart(p.0.ask, p.1.ask) }

  function Differing(pairs: seq<(Tick, Tick)>): nat {
    if pairs == [] then 0 else Differing(pairs[..|pairs| - 1]) + if Differ(pairs[|pairs| - 1]) then 1 else 0
  }

  lemma DifferIsNotSame(t: Tick, o: Tick)
    ensures Differ((t, o)) <==> !Same(DiffOf(t, o))
  {
  }

  lemma DifferingSnoc(pairs: seq<(Tick, Tick)>, p: (Tick, Tick))
    ensures Differing(pairs + [p]) == Differing(pairs) + if Differ(p) then 1 else 0
  {
    hide Differ;
    assert (pairs + [p])[..|pairs|] == pairs;
  }

  /** A call that holds a pair it has not counted yet. */
  predicate Waits(c: Call, same: bool) { c.Paired? && Same(c.diff) == same }

  function Waiting(cs: seq<Call>, same: bool): nat {
    if cs == [] then 0 else Waiting(cs[..|cs| - 1], same) + if Waits(cs[|cs| - 1], same) then 1 else 0
  }

  lemma {:induction false} WaitingUpdate(cs: seq<Call>, i: nat, c: Call, same: bool)
    requires i < |cs|
    ensures Waiting(cs[i := c], same)
         == Waiting(cs, same) - (if Waits(cs[i], same) then 1 else 0) + if Waits(c, same) then 1 else 0
    decreases |cs|
  {
    hide Waits;
    var n := |cs| - 1;
    if i < n {
      WaitingUpdate(cs[..n], i, c, same);
      assert cs[i := c][..n] == cs[..n][i := c];
    } else {
      assert cs[i := c][..n] == cs[..n];
    }
  }

  ghost predicate PairsCounted(s: State) {
    && s.mismatched + Waiting(s.calls, false) == Differing(s.pairs)
    && s.matched + Waiting(s.calls, true) + Differing(s.pairs) == |s.pairs|
  }

  lemma CountedStep(s: State, i: nat)
    requires PairsCounted(s) && i < |s.calls|
    ensures PairsCounted(AdvanceCall(s, i))
  {
    var t, c := AdvanceCall(s, i), s.calls[i];
    assert t.calls == s.calls[i := t.calls[i]];
    WaitingUpdate(s.calls, i, t.calls[i], true);
    WaitingUpdate(s.calls, i, t.calls[i], false);
    if c.Counted? && c.tick.key in s.pending {
      var o := s.pending[c.tick.key];
      DifferIsNotSame(c.tick, o);
      DifferingSnoc(s.pairs, (c.tick, o));
    }
    hide Waiting, Differing, DiffOf, Same, Differ;
  }

  lemma {:induction false} RunCounted(steps: seq<Step>)
    requires Run(steps).Some?
    ensures PairsCounted(Run(steps).value)
    decreases |steps|
  {
    if steps != [] {
      var s, step := Run(steps[..|steps| - 1]).value, steps[|steps| - 1];
      RunCounted(steps[..|steps| - 1]);
      hide AdvanceCall, Differing, Old, Same;
      match step
      case Submit(t) => assert (s.calls + [Counted(t)])[..|s.calls|] == s.calls;
      case Advance(i) => CountedStep(s, i);
      case Expire(_) =>
    }
  }

  /** A pair's call still holds its difference, or has recorded it as a mismatch, or has counted it as equal. */
  ghost predicate PairOwned(s: State, i: nat)
    requires i < |s.pairs| && i < |s.owners|
  {
    var k, d := s.owners[i], DiffOf(s.pairs[i].0, s.pairs[i].1);
    && k < |s.calls|
    && if k in s.seen then s.seen[k] == d && !Same(d)
       else s.calls[k] == Paired(d) || (s.calls[k] == Finished && Same(d))
  }

  ghost predicate Owned(s: State) {
    && |s.owners| == |s.pairs|
    && (forall i :: 0 <= i < |s.pairs| ==> PairOwned(s, i))
    && (forall k :: k in s.seen ==> k < |s.calls| && k in s.owners)
    && (forall k :: 0 <= k < |s.calls| && s.calls[k].Paired? ==> k in s.owners)
    && (forall k :: 0 <= k < |s.calls| && s.calls[k].Counted? ==> k !in s.owners)
    && (forall k :: 0 <= k < |s.calls| && AtAsk(s.calls[k]) ==> k in s.seen)
  }

  lemma OwnedLock(s: State, i: nat)
    requires Owned(s) && i < |s.calls| && s.calls[i].Counted? && i !in s.seen
    ensures Owned(AdvanceCall(s, i))
  {
    hide DiffOf, Same;
    var t := AdvanceCall(s, i);
    forall j | 0 <= j < |t.pairs| ensures PairOwned(t, j) {
      if j < |s.pairs| {
        assert PairOwned(s, j) && s.owners[j] != i;
      }
    }
  }

  lemma OwnedCount(s: State, i: nat)
    requires Owned(s) && i < |s.calls| && s.calls[i].Paired? && i !in s.seen
    ensures Owned(AdvanceCall(s, i))
  {
    hide DiffOf, Same;
    var t := AdvanceCall(s, i);
    forall j | 0 <= j < |t.pairs| ensures PairOwned(t, j) { assert PairOwned(s, j); }
  }

  lemma OwnedRest(s: State, i: nat)
    requires Owned(s) && i < |s.calls| && !s.calls[i].Counted? && !s.calls[i].Paired?
    ensures Owned(AdvanceCall(s, i))
  {
    hide DiffOf, Same;
    var t := AdvanceCall(s, i);
    assert t.pairs == s.pairs && t.owners == s.owners && t.seen == s.seen && |t.calls| == |s.calls|;
    assert forall k :: 0 <= k < |s.calls| && k != i ==> t.calls[k] == s.calls[k];
    assert !t.calls[i].Paired? && !t.calls[i].Counted?;
    assert AtAsk(t.calls[i]) ==> AtAsk(s.calls[i]);
    assert s.calls[i].Finished? ==> t.calls[i] == Finished;
    assert !s.calls[i].Finished? ==> i in s.seen;
    hide AdvanceCall;
    forall j | 0 <= j < |t.pairs| ensures PairOwned(t, j) { assert PairOwned(s, j); }
  }

  lemma {:induction false} RunOwned(steps: seq<Step>)
    requires Run(steps).Some?
    ensures Owned(Run(steps).value)
    decreases |steps|
  {
    if steps != [] {
      var s, step := Run(steps[..|steps| - 1]).value, steps[|steps| - 1];
      RunOwned(steps[..|steps| - 1]);
      RunInv(steps[..|steps| - 1]);
      hide AdvanceCall, Balanced;
      match step
      case Submit(t) => OwnedSame(s, Count(s, t));
      case Advance(i) =>
        assert CallOk(s, i);
        hide Owned, MaxInv, CallOk;
        if s.calls[i].Counted? { OwnedLock(s, i); }
        else if s.calls[i].Paired? { OwnedCount(s, i); }
        else { OwnedRest(s, i); }
      case Expire(cutoff) => OwnedSame(s, Next(s, step).value);
    }
  }

  lemma OwnedSame(s: State, t: State)
    requires Owned(s) && t.pairs == s.pairs && t.owners == s.owners && t.seen == s.seen
    requires s.calls <= t.calls && forall k :: |s.calls| <= k < |t.calls| ==> t.calls[k].Counted?
    ensures Owned(t)
  {
    forall j | 0 <= j < |t.pairs| ensures PairOwned(t, j) { assert PairOwned(s, j); }
    forall k | |s.calls| <= k < |t.calls| ensures k !in t.owners {
      forall j | 0 <= j < |t.owners| ensures t.owners[j] != k { assert PairOwned(s, j); }
    }
  }

  predicate IsDistance(x: real, y: real, d: real) { x - y == d || y - x == d }

  ghost predicate Widest(pairs: seq<(Tick, Tick)>, maxBid: real, maxAsk: real) {
    && (forall i :: 0 <= i < |pairs| && Differ(pairs[i]) ==>
          && pairs[i].0.bid - pairs[i].1.bid <= maxBid && pairs[i].1.bid - pairs[i].0.bid <= maxBid
          && pairs[i].0.ask - pairs[i].1.ask <= maxAsk && pairs[i].1.ask - pairs[i].0.ask <= maxAsk)
    && (maxBid == 0.0 ||
        exists i :: 0 <= i < |pairs| && Differ(pairs[i]) && IsDistance(pairs[i].0.bid, pairs[i].1.bid, maxBid))
    && (maxAsk == 0.0 ||
        exists i :: 0 <= i < |pairs| && Differ(pairs[i]) && IsDistance(pairs[i].0.ask, pairs[i].1.ask, maxAsk))
  }

  lemma PairWithin(s: State, i: nat)
    requires Owned(s) && MaxInv(s) && Quiet(s) && i < |s.pairs| && Differ(s.pairs[i])
    ensures var d := DiffOf(s.pairs[i].0, s.pairs[i].1); d.bid <= s.maxBid && d.ask <= s.maxAsk
  {
    assert PairOwned(s, i);
    DifferIsNotSame(s.pairs[i].0, s.pairs[i].1);
    assert CallOk(s, s.owners[i]);
  }

  lemma WidestOwned(s: State)
    requires Owned(s) && MaxInv(s) && Quiet(s)
    ensures Widest(s.pairs, s.maxBid, s.maxAsk)
  {
    forall i | 0 <= i < |s.pairs| && Differ(s.pairs[i])
      ensures var d := DiffOf(s.pairs[i].0, s.pairs[i].1); d.bid <= s.maxBid && d.ask <= s.maxAsk
    {
      PairWithin(s, i);
    }
    assert Attained(s);
    forall k | k in s.seen
      ensures exists i :: 0 <= i < |s.pairs| && Differ(s.pairs[i]) && s.seen[k] == DiffOf(s.pairs[i].0, s.pairs[i].1)
    {
      PairOfSeen(s, k);
    }
    hide Owned, MaxInv, Differ;
  }

  lemma PairOfSeen(s: State, k: nat)
    requires Owned(s) && k in s.seen
    ensures exists i :: 0 <= i < |s.pairs| && Differ(s.pairs[i]) && s.seen[k] == DiffOf(s.pairs[i].0, s.pairs[i].1)
  {
    var i :| 0 <= i < |s.owners| && s.owners[i] == k;
    assert PairOwned(s, i);
    DifferIsNotSame(s.pairs[i].0, s.pairs[i].1);
  }

  /**
   When no call is under way, after any interleaving: mismatched counts the
   pairs whose bids or asks lie a billionth or more apart and matched the
   others; each maximum is the widest distance over the pairs that differ.
   */
  lemma CountersMeanPrices(steps: seq<Step>)
    requires Run(steps).Some? && Quiet(Run(steps).value)
    ensures var s := Run(steps).value;
            && s.mismatched == Differing(s.pairs) && s.matched == |s.pairs| - Differing(s.pairs)
            && Widest(s.pairs, s.maxBid, s.maxAsk)
  {
    RunInv(steps);
    RunCounted(steps);
    RunOwned(steps);
    var s := Run(steps).value;
    NothingWaits(s.calls, true);
    NothingWaits(s.calls, false);
    hide Run, Widest, Owned, MaxInv, Balanced;
    WidestOwned(s);
  }

  lemma {:induction false} NothingWaits(cs: seq<Call>, same: bool)
    requires forall i :: 0 <= i < |cs| ==> cs[i] == Finished
    ensures Waiting(cs, same) == 0
    decreases |cs|
  {
    if cs != [] { NothingWaits(cs[..|cs| - 1], same); }
  }

  // ---- whose ticks are paired ----------------------------------------------

  ghost predicate AllCross(pairs: seq<(Tick, Tick)>) {
    forall i :: 0 <= i < |pairs| ==> pairs[i].0.fromA != pairs[i].1.fromA
  }

  /** Two ticks that could be taken for one another's counterpart within one stream. */
  predicate Clash(a: Tick, b: Tick) { a.key == b.key && a.fromA == b.fromA }

  ghost predicate NoClash(ticks: seq<Tick>) {
    forall i, j :: 0 <= i < j < |ticks| ==> !Clash(ticks[i], ticks[j])
  }

  /** A pending tick was submitted by a call that is past the lock. */
  ghost predicate PendingOk(s: State, k: Key)
    requires k in s.pending
  {
    exists p :: 0 <= p < |s.calls| && p < |s.submitted| && s.submitted[p] == s.pending[k] && !s.calls[p].Counted?
  }

  ghost predicate SourceInv(s: State) {
    && |s.calls| == |s.submitted|
    && (forall i :: 0 <= i < |s.calls| && s.calls[i].Counted? ==> s.calls[i].tick == s.submitted[i])
    && (forall k :: k in s.pending ==> s.pending[k].key == k && PendingOk(s, k))
    && (NoClash(s.submitted) ==> AllCross(s.pairs))
  }

  lemma SubmitSources(s: State, t: Tick)
    requires SourceInv(s)
    ensures SourceInv(Count(s, t))
  {
    var u := Count(s, t);
    forall k | k in u.pending ensures PendingOk(u, k) {
      var p :| 0 <= p < |s.calls| && p < |s.submitted| && s.submitted[p] == s.pending[k] && !s.calls[p].Counted?;
      assert u.submitted[p] == u.pending[k] && !u.calls[p].Counted?;
    }
    if NoClash(u.submitted) {
      assert forall i :: 0 <= i < |s.submitted| ==> u.submitted[i] == s.submitted[i];
      assert NoClash(s.submitted);
    }
  }

  lemma ExpireSources(s: State, u: State)
    requires SourceInv(s) && u == s.(pending := u.pending, expired := u.expired)
    requires forall k :: k in u.pending ==> k in s.pending && u.pending[k] == s.pending[k]
    ensures SourceInv(u)
  {
    forall k | k in u.pending ensures PendingOk(u, k) { assert PendingOk(s, k); }
  }

  /** Leaving the lock with a pair: the two ticks came from different calls. */
  lemma PairSources(s: State, i: nat)
    requires SourceInv(s) && i < |s.calls| && s.calls[i].Counted? && s.calls[i].tick.key in s.pending
    ensures NoClash(s.submitted) ==> s.calls[i].tick.fromA != s.pending[s.calls[i].tick.key].fromA
  {
    var t := s.calls[i].tick;
    assert PendingOk(s, t.key);
    var p :| 0 <= p < |s.calls| && p < |s.submitted| && s.submitted[p] == s.pending[t.key] && !s.calls[p].Counted?;
    assert p != i && (p < i ==> Clash(s.submitted[p], t) ==> !NoClash(s.submitted));
  }

  /** A pending tick stays accounted for while calls only move on. */
  lemma PendingKept(s: State, t: State, k: Key)
    requires k in s.pending && k in t.pending && t.pending[k] == s.pending[k] && PendingOk(s, k)
    requires t.submitted == s.submitted && |t.calls| == |s.calls|
    requires forall j :: 0 <= j < |s.calls| && t.calls[j].Counted? ==> t.calls[j] == s.calls[j]
    ensures PendingOk(t, k)
  {
    var p :| 0 <= p < |s.calls| && p < |s.submitted| && s.submitted[p] == s.pending[k] && !s.calls[p].Counted?;
    assert t.submitted[p] == t.pending[k] && !t.calls[p].Counted?;
  }

  lemma LockSources(s: State, i: nat)
    requires SourceInv(s) && i < |s.calls| && s.calls[i].Counted?
    ensures SourceInv(AdvanceCall(s, i))
  {
    var t, c := AdvanceCall(s, i), s.calls[i];
    if c.tick.key in s.pending { PairSources(s, i); }
    hide DiffOf, NoClash, PendingOk;
    forall k | k in t.pending ensures t.pending[k].key == k && PendingOk(t, k) {
      if k in s.pending { PendingKept(s, t, k); } else { NewPending(t, k, i); }
    }
  }

  lemma NewPending(t: State, k: Key, i: nat)
    requires k in t.pending && i < |t.calls| && i < |t.submitted| && t.submitted[i] == t.pending[k]
    requires !t.calls[i].Counted?
    ensures PendingOk(t, k)
  {
  }

  lemma RestSources(s: State, i: nat)
    requires SourceInv(s) && i < |s.calls| && !s.calls[i].Counted?
    ensures SourceInv(AdvanceCall(s, i))
  {
    hide DiffOf, Same, NoClash, AllCross, PendingOk;
    var t := AdvanceCall(s, i);
    assert t.pending == s.pending && t.pairs == s.pairs && t.submitted == s.submitted;
    assert |t.calls| == |s.calls| && !t.calls[i].Counted?;
    assert forall j :: 0 <= j < |s.calls| && j != i ==> t.calls[j] == s.calls[j];
    hide AdvanceCall;
    forall k | k in t.pending ensures PendingOk(t, k) { PendingKept(s, t, k); }
  }

  lemma AdvanceSources(s: State, i: nat)
    requires SourceInv(s) && i < |s.calls|
    ensures SourceInv(AdvanceCall(s, i)) && AdvanceCall(s, i).submitted == s.submitted
  {
    hide SourceInv;
    if s.calls[i].Counted? { LockSources(s, i); } else { RestSources(s, i); }
  }

  lemma {:induction false} RunSources(steps: seq<Step>)
    requires Run(steps).Some?
    ensures SourceInv(Run(steps).value) && Run(steps).value.submitted == Submitted(steps)
    decreases |steps|
  {
    if steps != [] {
      var s, step := Run(steps[..|steps| - 1]).value, steps[|steps| - 1];
      hide SourceInv, AdvanceCall;
      RunSources(steps[..|steps| - 1]);
      match step
      case Submit(t) => SubmitSources(s, t);
      case Advance(i) => AdvanceSources(s, i);
      case Expire(cutoff) => ExpireSources(s, Next(s, step).value);
    }
  }

  function FromStream(ticks: seq<Tick>, a: bool): nat {
    if ticks == [] then 0 else FromStream(ticks[..|ticks| - 1], a) + if ticks[|ticks| - 1].fromA == a then 1 else 0
  }

  /** The two totals count the ticks of the two streams. */
  lemma {:induction false} TotalsByStream(steps: seq<Step>)
    requires Run(steps).Some?
    ensures var s := Run(steps).value;
            s.totalA == FromStream(s.submitted, true) && s.totalB == FromStream(s.submitted, false)
    decreases |steps|
  {
    if steps != [] {
      var s, step := Run(steps[..|steps| - 1]).value, steps[|steps| - 1];
      TotalsByStream(steps[..|steps| - 1]);
      hide Next, FromStream;
      TotalsStep(s, step);
      if step.Submit? {
        FromStreamSnoc(s.submitted, step.tick, true);
        FromStreamSnoc(s.submitted, step.tick, false);
      }
    }
  }

  lemma FromStreamSnoc(ticks: seq<Tick>, t: Tick, a: bool)
    ensures FromStream(ticks + [t], a) == FromStream(ticks, a) + if t.fromA == a then 1 else 0
  {
    assert (ticks + [t])[..|ticks|] == ticks;
  }

  lemma TotalsStep(s: State, step: Step)
    requires Next(s, step).Some?
    ensures var t := Next(s, step).value;
            if step.Submit? then
              && t.submitted == s.submitted + [step.tick]
              && t.totalA == s.totalA + (if step.tick.fromA then 1 else 0)
              && t.totalB == s.totalB + (if step.tick.fromA then 0 else 1)
            else t.submitted == s.submitted && t.totalA == s.totalA && t.totalB == s.totalB
  {
    hide DiffOf, Same, Old;
  }

  /** The ticks of a run, in the order of their calls. */
  function Submitted(steps: seq<Step>): seq<Tick> {
    if steps == [] then []
    else Submitted(steps[..|steps| - 1]) + if steps[|steps| - 1].Submit? then [steps[|steps| - 1].tick] else []
  }

  function SubmitAll(ticks: seq<Tick>): seq<Step> {
    if ticks == [] then [] else SubmitAll(ticks[..|ticks| - 1]) + [Submit(ticks[|ticks| - 1])]
  }

  lemma RunSnoc(steps: seq<Step>, step: Step)
    requires Run(steps).Some?
    ensures Run(steps + [step]) == Next(Run(steps).value, step)
    ensures Submitted(steps + [step]) == Submitted(steps) + if step.Submit? then [step.tick] else []
  {
    hide Next;
    assert (steps + [step])[..|steps|] == steps;
  }

  lemma {:induction false} AllCounted(ticks: seq<Tick>)
    ensures var r := Run(SubmitAll(ticks));
            && r.Some? && r.value.pending == map[] && r.value.pairs == []
            && |r.value.calls| == |ticks| && Submitted(SubmitAll(ticks)) == ticks
            && forall i :: 0 <= i < |ticks| ==> r.value.calls[i] == Counted(ticks[i])
    decreases |ticks|
  {
    if ticks != [] {
      var init := ticks[..|ticks| - 1];
      AllCounted(init);
      hide Run, Submitted;
      RunSnoc(SubmitAll(init), Submit(ticks[|ticks| - 1]));
      assert ticks == init + [ticks[|ticks| - 1]];
    }
  }

  /** Two clashing ticks are paired when their calls pass the lock one after the other. */
  lemma ClashIsPaired(ticks: seq<Tick>, i: nat, j: nat)
    requires i < j < |ticks| && Clash(ticks[i], ticks[j])
    ensures var steps := SubmitAll(ticks) + [Advance(i)] + [Advance(j)];
            && Submitted(steps) == ticks && Run(steps).Some?
            && Run(steps).value.pairs == [(ticks[j], ticks[i])] && !AllCross([(ticks[j], ticks[i])])
  {
    AllCounted(ticks);
    hide Run, Submitted, SubmitAll, DiffOf;
    RunSnoc(SubmitAll(ticks), Advance(i));
    RunSnoc(SubmitAll(ticks) + [Advance(i)], Advance(j));
    assert [] + [(ticks[j], ticks[i])] == [(ticks[j], ticks[i])];
    assert [(ticks[j], ticks[i])][0].0.fromA == [(ticks[j], ticks[i])][0].1.fromA;
  }

  /**
   The comparison never looks at the source. Over all interleavings of the
   calls for a list of ticks, every pair has one tick of each stream if and only
   if no two ticks of one stream share a key.
   */
  lemma CrossPairsIff(ticks: seq<Tick>)
    ensures (forall steps :: Run(steps).Some? && Submitted(steps) == ticks ==> AllCross(Run(steps).value.pairs))
       <==> NoClash(ticks)
  {
    if NoClash(ticks) {
      forall steps | Run(steps).Some? && Submitted(steps) == ticks ensures AllCross(Run(steps).value.pairs) {
        RunSources(steps);
      }
    } else {
      var i, j :| 0 <= i < j < |ticks| && Clash(ticks[i], ticks[j]);
      ClashIsPaired(ticks, i, j);
    }
  }

  // ---- the matcher alone ---------------------------------------------------

  class Matcher {
    var pending: map<Key, Tick>
    var matched: nat
    var mismatched: nat
    var totalA: nat
    var totalB: nat
    var maxBid: real
    var maxAsk: real

    /** One call without interference: the same counters, the maxima raised at once. */
    method Submit(t: Tick)
      modifies this
      ensures totalA == old(totalA) + (if t.fromA then 1 else 0) && totalB == old(totalB) + (if t.fromA then 0 else 1)
      ensures t.key !in old(pending) ==>
                && pending == old(pending)[t.key := t]
                && matched == old(matched) && mismatched == old(mismatched)
                && maxBid == old(maxBid) && maxAsk == old(maxAsk)
      ensures t.key in old(pending) ==>
                var o := old(pending)[t.key];
                && pending == old(pending) - {t.key}
                && matched == old(matched) + (if Differ((t, o)) then 0 else 1)
                && mismatched == old(mismatched) + (if Differ((t, o)) then 1 else 0)
                && maxBid >= old(maxBid) && maxAsk >= old(maxAsk)
                && (!Differ((t, o)) ==> maxBid == old(maxBid) && maxAsk == old(maxAsk))
                && (Differ((t, o)) ==>
                      && maxBid >= t.bid - o.bid && maxBid >= o.bid - t.bid
                      && (maxBid == old(maxBid) || maxBid == t.bid - o.bid || maxBid == o.bid - t.bid)
                      && maxAsk >= t.ask - o.ask && maxAsk >= o.ask - t.ask
                      && (maxAsk == old(maxAsk) || maxAsk == t.ask - o.ask || maxAsk == o.ask - t.ask))
    {
      if t.fromA {
        totalA := totalA + 1;
      } else {
        totalB := totalB + 1;
      }
      if t.key !in pending {
        pending := pending[t.key := t];
        return;
      }
      var d := DiffOf(t, pending[t.key]);
      pending := pending - {t.key};
      if Same(d) {
        matched := matched + 1;
        return;
      }
      mismatched := mismatched + 1;
      if d.bid > maxBid {
        maxBid := d.bid;
      }
      if d.ask > maxAsk {
        maxAsk := d.ask;
      }
    }

    method Expire(cutoff: int) returns (expired: nat)
      modifies this`pending
      ensures forall k :: k in pending <==> k in old(pending) && old(pending)[k].recvAt >= cutoff
      ensures forall k :: k in pending ==> pending[k] == old(pending)[k]
      ensures expired == |set k | k in old(pending) && old(pending)[k].recvAt < cutoff|
    {
      expired := 0;
      ghost var gone: set<Key> := {};
      var left := pending.Keys;
      while left != {}
        invariant left <= pending.Keys && pending == old(pending) - gone
        invariant forall k :: k in gone <==> k in old(pending) && k !in left && old(pending)[k].recvAt < cutoff
        invariant expired == |gone|
        decreases |left|
      {
        var k :| k in left;
        if pending[k].recvAt < cutoff {
          pending := pending - {k};
          gone := gone + {k};
          expired := expired + 1;
        }
        left := left - {k};
      }
      assert gone == Old(old(pending), cutoff);
    }
  }
}
