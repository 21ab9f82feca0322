/**
 The forwarder's price stream: one supervisor that reconnects with backoff,
 publishers that mark the stream failed, and an acknowledgement loop for each
 stream generation, interleaved at every shared read and write.
 */
module StreamSupervisor {
  import opened Options

  datatype Status = Up | Failed | Reconnect

  const BACKOFF_MIN := 1000
  const BACKOFF_MAX := 30000

  /** Where the supervisor stands. */
  datatype Sup =
    | Polling
    | SawFailed
    | Waiting       // took Failed to Reconnect, cancelled the old stream, in the backoff wait
    | Opened        // counted the generation
    | Installed     // stored the stream
    | Stored        // stored status Up
    | Spawned       // started the acknowledgement loop
    | Exited

  datatype Ack =
    | Reading
    | Erred         // Recv failed
    | Checked       // found its generation current
    | Marked        // stored Failed
    | Dismissed     // found its generation old, or the publisher closed
    | Ended         // end of stream

  datatype Pub = Admitted | Holding(gen: nat)

  datatype State = State(
    status: Status, gen: nat, stream: Option<nat>, reconnects: nat, closed: bool,
    sup: Sup, backoff: nat, failures: nat, acks: map<nat, Ack>, pubs: map<nat, Pub>, ups: seq<nat>)

  datatype Step =
    | Poll | Swap | Exit | OpenFails | CountGen | Install | StoreUp | Spawn | CountReconnect
    | AckErrs(gen: nat) | AckEnds(gen: nat) | AckChecks(gen: nat) | AckMarks(gen: nat)
    | PubChecks(id: nat) | PubTakes(id: nat) | PubSends(id: nat) | PubFails(id: nat)
    | Close

  /** After construction: the first open either succeeded or left the status Failed. */
  function Initial(ok: bool): State {
    if ok then State(Up, 1, Some(1), 0, false, Polling, BACKOFF_MIN, 0, map[1 := Reading], map[], [1])
    else State(Failed, 0, None, 0, false, Polling, BACKOFF_MIN, 0, map[], map[], [])
  }

  function Double(backoff: nat): nat { if backoff * 2 < BACKOFF_MAX then backoff * 2 else BACKOFF_MAX }

  function SupNext(s: State, step: Step): Option<State> {
    match step
    case Poll => if s.sup != Polling then None else
      Some(s.(sup := if s.closed then Exited else if s.status == Failed then SawFailed else Polling))
    case Swap => if s.sup != SawFailed then None else
      Some(if s.status == Failed then s.(status := Reconnect, sup := Waiting) else s.(sup := Polling))
    case Exit => if s.sup == Polling || s.sup == Waiting then Some(s.(sup := Exited)) else None
    case OpenFails => if s.sup != Waiting then None else
      Some(s.(status := Failed, sup := Polling, backoff := Double(s.backoff), failures := s.failures + 1))
    case CountGen => if s.sup != Waiting then None else Some(s.(gen := s.gen + 1, sup := Opened))
    case Install => if s.sup != Opened then None else Some(s.(stream := Some(s.gen), sup := Installed))
    case StoreUp => if s.sup != Installed then None else Some(s.(status := Up, sup := Stored, ups := s.ups + [s.gen]))
    case Spawn => if s.sup != Stored then None else Some(s.(acks := s.acks[s.gen := Reading], sup := Spawned))
    case CountReconnect => if s.sup != Spawned then None else
      Some(s.(reconnects := s.reconnects + 1, sup := Polling, backoff := BACKOFF_MIN, failures := 0))
    case _ => None
  }

  function AckNext(s: State, step: Step): Option<State> {
    match step
    case AckErrs(g) => if g in s.acks && s.acks[g] == Reading then Some(s.(acks := s.acks[g := Erred])) else None
    case AckEnds(g) => if g in s.acks && s.acks[g] == Reading then Some(s.(acks := s.acks[g := Ended])) else None
    case AckChecks(g) => if g in s.acks && s.acks[g] == Erred
      then Some(s.(acks := s.acks[g := if s.gen == g && !s.closed then Checked else Dismissed])) else None
    case AckMarks(g) => if g in s.acks && s.acks[g] == Checked
      then Some(s.(status := Failed, acks := s.acks[g := Marked])) else None
    case _ => None
  }

  function PubNext(s: State, step: Step): Option<State> {
    match step
    case PubChecks(id) => if id in s.pubs then None else
      Some(if s.closed || s.status != Up then s else s.(pubs := s.pubs[id := Admitted]))
    case PubTakes(id) => if id in s.pubs && s.pubs[id] == Admitted
      then Some(s.(pubs := if s.stream.None? then s.pubs - {id} else s.pubs[id := Holding(s.stream.value)])) else None
    case PubSends(id) => if id in s.pubs && s.pubs[id].Holding? then Some(s.(pubs := s.pubs - {id})) else None
    case PubFails(id) => if id in s.pubs && s.pubs[id].Holding?
      then Some(s.(status := Failed, pubs := s.pubs - {id})) else None
    case _ => None
  }

  function Next(s: State, step: Step): Option<State> {
    if step == Close then Some(s.(closed := true))
    else if step.AckErrs? || step.AckEnds? || step.AckChecks? || step.AckMarks? then AckNext(s, step)
    else if step.PubChecks? || step.PubTakes? || step.PubSends? || step.PubFails? then PubNext(s, step)
    else SupNext(s, step)
  }

  function Run(ok: bool, steps: seq<Step>): Option<State> {
    if steps == [] then Some(Initial(ok))
    else
      var s := Run(ok, steps[..|steps| - 1]);
      if s.None? then None else Next(s.value, steps[|steps| - 1])
  }

  // ---- invariant -----------------------------------------------------------

  /** The wait after so many failed opens in a row. */
  function Backoff(failures: nat): nat {
    if failures == 0 then BACKOFF_MIN else Double(Backoff(failures - 1))
  }

  predicate Opening(sup: Sup) { sup == Waiting || sup == Opened || sup == Installed }

  ghost predicate StatusOk(s: State) {
    && (s.status == Up ==> !Opening(s.sup) && s.sup != SawFailed && s.stream == Some(s.gen))
    && (s.status == Reconnect ==> Opening(s.sup) || s.sup == Exited)
    && (s.sup == SawFailed ==> s.status == Failed)
    && (s.sup == Installed || s.sup == Stored || s.sup == Spawned ==> s.stream == Some(s.gen))
    && (s.stream.Some? ==> s.stream.value <= s.gen)
  }

  ghost predicate CountsOk(ok: bool, s: State) {
    && s.gen == (if ok then 1 else 0) + s.reconnects
                + (if s.sup == Opened || s.sup == Installed || s.sup == Stored || s.sup == Spawned then 1 else 0)
    && s.backoff == Backoff(s.failures)
  }

  /** The generations that were ever up, in order. */
  ghost predicate UpsOk(s: State) {
    && (forall i, j :: 0 <= i < j < |s.ups| ==> s.ups[i] < s.ups[j])
    && (forall i :: 0 <= i < |s.ups| ==> s.ups[i] <= s.gen)
    && (s.sup == Opened || s.sup == Installed ==> forall i :: 0 <= i < |s.ups| ==> s.ups[i] < s.gen)
    && (s.status == Up ==> |s.ups| > 0 && s.ups[|s.ups| - 1] == s.gen)
  }

  /** What each acknowledgement loop's state says about the status. */
  ghost predicate AckOk(s: State, g: nat, a: Ack) {
    && g <= s.gen
    && ((s.sup == Opened || s.sup == Installed || s.sup == Stored) ==> g < s.gen)
    && (a == Dismissed ==> g < s.gen || s.closed)
    && (a == Marked && g == s.gen ==> s.status != Up)
  }

  ghost predicate AcksOk(s: State) {
    && (forall g :: g in s.acks ==> AckOk(s, g, s.acks[g]))
    && (s.status == Up && s.sup != Stored ==> s.gen in s.acks)
  }

  ghost predicate Inv(ok: bool, s: State) {
    StatusOk(s) && CountsOk(ok, s) && UpsOk(s) && AcksOk(s)
  }

  lemma SupStatus(ok: bool, s: State, step: Step)
    requires StatusOk(s) && CountsOk(ok, s) && SupNext(s, step).Some?
    ensures StatusOk(SupNext(s, step).value) && CountsOk(ok, SupNext(s, step).value)
  {
  }

  lemma SupUps(s: State, step: Step)
    requires StatusOk(s) && UpsOk(s) && SupNext(s, step).Some?
    ensures UpsOk(SupNext(s, step).value)
  {
  }

  lemma SupAcks(s: State, step: Step)
    requires StatusOk(s) && AcksOk(s) && SupNext(s, step).Some?
    ensures AcksOk(SupNext(s, step).value)
  {
    var t := SupNext(s, step).value;
    forall g | g in t.acks ensures AckOk(t, g, t.acks[g]) {
      if g in s.acks { assert AckOk(s, g, s.acks[g]); }
    }
  }

  lemma SupInv(ok: bool, s: State, step: Step)
    requires Inv(ok, s) && SupNext(s, step).Some?
    ensures Inv(ok, SupNext(s, step).value)
  {
    hide SupNext, StatusOk, CountsOk, UpsOk, AcksOk;
    SupStatus(ok, s, step);
    SupUps(s, step);
    SupAcks(s, step);
  }

  lemma AckInv(ok: bool, s: State, step: Step)
    requires Inv(ok, s) && AckNext(s, step).Some?
    ensures Inv(ok, AckNext(s, step).value)
  {
    var t := AckNext(s, step).value;
    assert t == s.(acks := t.acks) || t == s.(acks := t.acks, status := Failed);
    hide Backoff;
    assert StatusOk(t) && CountsOk(ok, t) && UpsOk(t);
    hide StatusOk, CountsOk, UpsOk;
    forall g | g in t.acks ensures AckOk(t, g, t.acks[g]) {
      assert g in s.acks && AckOk(s, g, s.acks[g]);
    }
  }

  lemma PubInv(ok: bool, s: State, step: Step)
    requires Inv(ok, s) && PubNext(s, step).Some?
    ensures Inv(ok, PubNext(s, step).value)
  {
    var t := PubNext(s, step).value;
    assert t == s.(pubs := t.pubs) || t == s.(pubs := t.pubs, status := Failed);
    hide PubNext;
    forall g | g in t.acks ensures AckOk(t, g, t.acks[g]) {
      assert AckOk(s, g, s.acks[g]);
    }
  }

  lemma NextInv(ok: bool, s: State, step: Step)
    requires Inv(ok, s) && Next(s, step).Some?
    ensures Inv(ok, Next(s, step).value)
  {
    hide SupNext, AckNext, PubNext;
    if step == Close {
      CloseInv(ok, s);
    } else if step.AckErrs? || step.AckEnds? || step.AckChecks? || step.AckMarks? {
      AckInv(ok, s, step);
    } else if step.PubChecks? || step.PubTakes? || step.PubSends? || step.PubFails? {
      PubInv(ok, s, step);
    } else {
      SupInv(ok, s, step);
    }
  }

  lemma CloseInv(ok: bool, s: State)
    requires Inv(ok, s)
    ensures Inv(ok, s.(closed := true))
  {
  }

  /**
   After every interleaving: while the status is Up the installed stream is the
   one of the current generation, and the generations that were up strictly
   increase; Reconnect is held only by the supervisor between its compare and
   its store; every generation is the first connection or a counted reconnect;
   the wait is the doubled, capped one of the failures in a row.
   */
  lemma {:induction false} RunInv(ok: bool, steps: seq<Step>)
    requires Run(ok, steps).Some?
    ensures Inv(ok, Run(ok, steps).value)
    decreases |steps|
  {
    if steps == [] {
      assert Backoff(0) == BACKOFF_MIN;
    } else {
      RunInv(ok, steps[..|steps| - 1]);
      NextInv(ok, Run(ok, steps[..|steps| - 1]).value, steps[|steps| - 1]);
    }
  }

  /** The wait never leaves the interval from one second to thirty. */
  lemma {:induction false} BackoffRange(failures: nat)
    ensures 1000 <= Backoff(failures) <= 30000
    ensures Backoff(0) == 1000 && Backoff(1) == 2000 && Backoff(2) == 4000 && Backoff(3) == 8000 && Backoff(4) == 16000
    ensures failures >= 5 ==> Backoff(failures) == 30000
  {
    assert Backoff(1) == 2000;
    assert Backoff(2) == 4000;
    assert Backoff(3) == 8000;
    assert Backoff(4) == 16000;
    if failures > 0 { BackoffRange(failures - 1); }
  }

  /** Failed opens since the last reconnect that came up. */
  function FailedOpens(steps: seq<Step>): nat {
    if steps == [] || steps[|steps| - 1] == CountReconnect then 0
    else FailedOpens(steps[..|steps| - 1]) + if steps[|steps| - 1] == OpenFails then 1 else 0
  }

  lemma FailuresStep(s: State, step: Step)
    requires Next(s, step).Some?
    ensures Next(s, step).value.failures
         == if step == CountReconnect then 0 else s.failures + if step == OpenFails then 1 else 0
  {
  }

  /** Over every run the wait is the doubled, capped one of the failed opens since the last reconnect. */
  lemma {:induction false} WaitCountsFailures(ok: bool, steps: seq<Step>)
    requires Run(ok, steps).Some?
    ensures Run(ok, steps).value.failures == FailedOpens(steps)
    ensures Run(ok, steps).value.backoff == Backoff(FailedOpens(steps))
    decreases |steps|
  {
    RunInv(ok, steps);
    if steps != [] {
      hide Next, Backoff;
      WaitCountsFailures(ok, steps[..|steps| - 1]);
      FailuresStep(Run(ok, steps[..|steps| - 1]).value, steps[|steps| - 1]);
    }
  }

  lemma NoPubStep(s: State, step: Step)
    requires s.status != Up && s.pubs == map[] && step != StoreUp && Next(s, step).Some?
    ensures Next(s, step).value.status != Up && Next(s, step).value.pubs == map[]
  {
  }

  /** As long as no stream has come up, no publisher is admitted: everything offered is dropped at the status check. */
  lemma {:induction false} NothingSentBeforeUp(steps: seq<Step>)
    requires Run(false, steps).Some? && StoreUp !in steps
    ensures Run(false, steps).value.status != Up && Run(false, steps).value.pubs == map[]
    decreases |steps|
  {
    if steps != [] {
      hide Next;
      NothingSentBeforeUp(steps[..|steps| - 1]);
      NoPubStep(Run(false, steps[..|steps| - 1]).value, steps[|steps| - 1]);
    }
  }

  /**
   No failure of the current stream goes unseen: while the status is Up and the
   publisher open, that stream's acknowledgement loop has not started, is still
   running, or met the end of the stream. The supervisor's compare never loses.
   */
  lemma NoSilentFailure(ok: bool, steps: seq<Step>)
    requires Run(ok, steps).Some?
    ensures var s := Run(ok, steps).value;
            && (s.status == Up && !s.closed ==>
                  s.sup == Stored || (s.gen in s.acks && s.acks[s.gen] != Marked && s.acks[s.gen] != Dismissed))
            && (s.sup == SawFailed ==> Next(s, Swap).value.sup == Waiting)
            && (s.sup == Polling ==> s.status != Reconnect)
  {
    RunInv(ok, steps);
    var s := Run(ok, steps).value;
    if s.status == Up && !s.closed && s.sup != Stored {
      assert AckOk(s, s.gen, s.acks[s.gen]);
    }
  }

  // ---- old acknowledgement loops -------------------------------------------

  function Opens(steps: seq<Step>): nat {
    if steps == [] then 0 else Opens(steps[..|steps| - 1]) + if steps[|steps| - 1] == CountGen then 1 else 0
  }

  /**
   An acknowledgement loop compares its generation and stores Failed in two
   steps. Between them its mark still concerns its own stream if and only if no
   new stream was opened meanwhile.
   */
  lemma {:induction false} MarkIsOwnIff(ok: bool, pre: seq<Step>, g: nat, post: seq<Step>)
    requires Run(ok, pre).Some? && Run(ok, pre + post).Some? && AckMarks(g) !in post
    requires var s := Run(ok, pre).value; g in s.acks && s.acks[g] == Checked && s.gen == g
    ensures var t := Run(ok, pre + post).value;
            && g in t.acks && t.acks[g] == Checked
            && t.gen == g + Opens(post)
            && (t.gen == g <==> CountGen !in post)
    decreases |post|
  {
    if post == [] {
      assert pre + post == pre;
    } else {
      var init, step := post[..|post| - 1], post[|post| - 1];
      assert (pre + post)[..|pre + post| - 1] == pre + init;
      assert post == init + [step];
      MarkIsOwnIff(ok, pre, g, init);
      RunInv(ok, pre + init);
      GenStep(ok, Run(ok, pre + init).value, step, g);
    }
  }

  lemma GenStep(ok: bool, s: State, step: Step, g: nat)
    requires Inv(ok, s) && Next(s, step).Some? && g in s.acks && s.acks[g] == Checked && step != AckMarks(g)
    ensures var t := Next(s, step).value;
            && g in t.acks && t.acks[g] == Checked
            && t.gen == s.gen + if step == CountGen then 1 else 0
  {
    assert AckOk(s, g, s.acks[g]);
  }

  /**
   A publisher stores Failed for the stream it holds without looking at the
   generation. The mark concerns the current stream if and only if that was the
   one it took and no new stream was opened since.
   */
  lemma {:induction false} PublisherMarkIsOwnIff(ok: bool, pre: seq<Step>, id: nat, post: seq<Step>)
    requires Run(ok, pre).Some? && Run(ok, pre + post).Some? && PubSends(id) !in post && PubFails(id) !in post
    requires var s := Run(ok, pre).value; id in s.pubs && s.pubs[id].Holding?
    ensures var s, t := Run(ok, pre).value, Run(ok, pre + post).value;
            && id in t.pubs && t.pubs[id] == s.pubs[id] && s.pubs[id].gen <= s.gen
            && (t.pubs[id].gen == t.gen <==> s.pubs[id].gen == s.gen && CountGen !in post)
    decreases |post|
  {
    RunInv(ok, pre);
    HeldIsOld(ok, pre, id);
    PublisherKeeps(ok, pre, id, post);
  }

  lemma PubKeepsStep(s: State, step: Step, id: nat)
    requires Next(s, step).Some? && id in s.pubs && s.pubs[id].Holding?
    requires step != PubSends(id) && step != PubFails(id)
    ensures var t := Next(s, step).value;
            && id in t.pubs && t.pubs[id] == s.pubs[id]
            && t.gen == s.gen + if step == CountGen then 1 else 0
  {
  }

  lemma {:induction false} PublisherKeeps(ok: bool, pre: seq<Step>, id: nat, post: seq<Step>)
    requires Run(ok, pre).Some? && Run(ok, pre + post).Some? && PubSends(id) !in post && PubFails(id) !in post
    requires var s := Run(ok, pre).value; id in s.pubs && s.pubs[id].Holding?
    ensures var s, t := Run(ok, pre).value, Run(ok, pre + post).value;
            && id in t.pubs && t.pubs[id] == s.pubs[id] && t.gen == s.gen + Opens(post)
            && (Opens(post) == 0 <==> CountGen !in post)
    decreases |post|
  {
    if post == [] {
      assert pre + post == pre;
    } else {
      hide Next;
      var init, step := post[..|post| - 1], post[|post| - 1];
      assert (pre + post)[..|pre + post| - 1] == pre + init;
      assert post == init + [step];
      PublisherKeeps(ok, pre, id, init);
      PubKeepsStep(Run(ok, pre + init).value, step, id);
    }
  }

  ghost predicate Held(s: State, id: nat) {
    id in s.pubs && s.pubs[id].Holding? ==> s.pubs[id].gen <= s.gen
  }

  lemma HeldStep(s: State, step: Step, id: nat)
    requires StatusOk(s) && Held(s, id) && Next(s, step).Some?
    ensures Held(Next(s, step).value, id)
  {
  }

  /** What a publisher holds is no newer than the current generation. */
  lemma {:induction false} HeldIsOld(ok: bool, steps: seq<Step>, id: nat)
    requires Run(ok, steps).Some?
    ensures Held(Run(ok, steps).value, id)
    decreases |steps|
  {
    if steps != [] {
      hide Next, StatusOk, CountsOk, UpsOk, AcksOk, Held;
      HeldIsOld(ok, steps[..|steps| - 1], id);
      RunInv(ok, steps[..|steps| - 1]);
      HeldStep(Run(ok, steps[..|steps| - 1]).value, steps[|steps| - 1], id);
    }
  }

  // ---- runs in which a fresh stream is failed ------------------------------

  lemma RunSnoc(steps: seq<Step>, step: Step)
    requires Run(true, steps).Some?
    ensures Run(true, steps + [step]) == Next(Run(true, steps).value, step)
  {
    hide Next;
    assert (steps + [step])[..|steps|] == steps;
  }

  /** The steps of a reconnect, from a failed stream on. */
  const RECONNECT := [Poll, Swap, CountGen, Install, StoreUp, Spawn, CountReconnect]

  /** From any failed state with the supervisor polling they bring up the next generation. */
  lemma Reconnects(steps: seq<Step>)
    requires Run(true, steps).Some?
    requires var s := Run(true, steps).value; s.status == Failed && s.sup == Polling && !s.closed
    ensures var s, t := Run(true, steps).value, Run(true, steps + RECONNECT);
            && t.Some? && t.value.status == Up && t.value.gen == s.gen + 1 && t.value.stream == Some(s.gen + 1)
            && t.value.pubs == s.pubs && t.value.acks == s.acks[s.gen + 1 := Reading]
  {
    hide Run, AckNext, PubNext;
    ReconnectOpens(steps);
    var half := steps + RECONNECT[..4];
    RunSnoc(half, StoreUp);
    RunSnoc(half + [StoreUp], Spawn);
    RunSnoc(half + [StoreUp] + [Spawn], CountReconnect);
    assert half + [StoreUp] + [Spawn] + [CountReconnect] == steps + RECONNECT;
  }

  lemma ReconnectOpens(steps: seq<Step>)
    requires Run(true, steps).Some?
    requires var s := Run(true, steps).value; s.status == Failed && s.sup == Polling && !s.closed
    ensures var s, t := Run(true, steps).value, Run(true, steps + RECONNECT[..4]);
            t.Some? && t.value == s.(status := Reconnect, gen := s.gen + 1, stream := Some(s.gen + 1), sup := Installed)
  {
    hide Run, AckNext, PubNext;
    RunSnoc(steps, Poll);
    RunSnoc(steps + [Poll], Swap);
    RunSnoc(steps + [Poll] + [Swap], CountGen);
    RunSnoc(steps + [Poll] + [Swap] + [CountGen], Install);
    assert steps + [Poll] + [Swap] + [CountGen] + [Install] == steps + RECONNECT[..4];
  }

  /** A publisher has taken the first stream, and its acknowledgement loop has met an error and checked. */
  const BOTH := [PubChecks(0)] + [PubTakes(0)] + [AckErrs(1)] + [AckChecks(1)]

  lemma RunStart()
    ensures Run(true, []) == Some(Initial(true))
  {
  }

  lemma TakenRun()
    ensures Run(true, [PubChecks(0)] + [PubTakes(0)]) == Some(Initial(true).(pubs := map[0 := Holding(1)]))
  {
    hide Run, SupNext, AckNext;
    assert Run(true, []) == Some(Initial(true)) by { RunStart(); }
    RunSnoc([], PubChecks(0));
    assert [] + [PubChecks(0)] == [PubChecks(0)];
    var s := Initial(true);
    assert Run(true, [PubChecks(0)]) == Some(s.(pubs := s.pubs[0 := Admitted]));
    RunSnoc([PubChecks(0)], PubTakes(0));
    assert s.pubs[0 := Admitted][0 := Holding(1)] == map[0 := Holding(1)];
  }

  lemma BothRun()
    ensures var r := Run(true, BOTH);
            && r.Some? && r.value.status == Up && r.value.gen == 1 && r.value.sup == Polling && !r.value.closed
            && r.value.pubs == map[0 := Holding(1)] && r.value.acks == map[1 := Checked]
  {
    hide Run, SupNext, PubNext;
    TakenRun();
    RunSnoc([PubChecks(0)] + [PubTakes(0)], AckErrs(1));
    RunSnoc([PubChecks(0)] + [PubTakes(0)] + [AckErrs(1)], AckChecks(1));
  }

  /** The mark of an old stream's loop can take down a fresh stream. */
  lemma OldLoopFailsFreshStream()
    ensures var r := Run(true, BOTH + [PubFails(0)] + RECONNECT + [AckMarks(1)]);
            && r.Some? && r.value.status == Failed && r.value.gen == 2 && r.value.stream == Some(2)
            && 2 in r.value.acks && r.value.acks[2] == Reading
  {
    BothRun();
    hide Run;
    RunSnoc(BOTH, PubFails(0));
    Reconnects(BOTH + [PubFails(0)]);
    RunSnoc(BOTH + [PubFails(0)] + RECONNECT, AckMarks(1));
  }

  /** So can the failed send of a publisher that took an old stream. */
  lemma OldPublisherFailsFreshStream()
    ensures var r := Run(true, BOTH + [AckMarks(1)] + RECONNECT + [PubFails(0)]);
            && r.Some? && r.value.status == Failed && r.value.gen == 2 && r.value.stream == Some(2)
            && 2 in r.value.acks && r.value.acks[2] == Reading
  {
    BothRun();
    hide Run;
    RunSnoc(BOTH, AckMarks(1));
    Reconnects(BOTH + [AckMarks(1)]);
    RunSnoc(BOTH + [AckMarks(1)] + RECONNECT, PubFails(0));
  }
}
