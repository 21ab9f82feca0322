/**
 What survives on the pricing key: over every interleaving the document is the
 writes of its lineage, and an update is lost exactly under a condition on when
 the blind writers read and put.
 */
module PricingLineage {
  import opened Options
  import opened PricingDoc
  import opened PricingCas

  /** The writes the current value goes back to, oldest first. */
  function Lineage(log: seq<Write>): seq<Write>
    decreases |log|
  {
    if log == [] then [] else Lineage(log[..Back(log)]) + [log[|log| - 1]]
  }

  /** Writes applied one after the other. */
  function Replay(v: Option<Value>, ws: seq<Write>): Option<Value> {
    if ws == [] then v else Applied(ws[|ws| - 1], Replay(v, ws[..|ws| - 1]))
  }

  lemma ReplaySnoc(v: Option<Value>, ws: seq<Write>, w: Write)
    ensures Replay(v, ws + [w]) == Applied(w, Replay(v, ws))
  {
    hide Applied;
    assert (ws + [w])[..|ws|] == ws;
  }

  lemma {:induction false} ValIsReplay(start: Option<Value>, log: seq<Write>)
    ensures Val(start, log) == Replay(start, Lineage(log))
    decreases |log|
  {
    if log != [] {
      hide Applied, Back, Replay;
      ValIsReplay(start, log[..Back(log)]);
      ReplaySnoc(start, Lineage(log[..Back(log)]), log[|log| - 1]);
    } else {
      assert Replay(start, []) == start;
    }
  }

  /** Over every interleaving the document is exactly the writes of its lineage, applied in order. */
  lemma DocumentIsLineage(v: Option<Value>, steps: seq<Step>)
    requires Run(v, steps).Some?
    ensures var s := Run(v, steps).value; s.store.value == Replay(v, Lineage(s.log))
  {
    RunInv(v, steps);
    ValIsReplay(v, Run(v, steps).value.log);
  }

  /**
   Write i is gone from the value: it fell between the get and the put of the
   last job that put, or before a raw write, or was gone when that job read.
   */
  predicate Lost(log: seq<Write>, i: nat)
    requires i < |log|
    decreases |log|
  {
    var n := |log| - 1;
    i < n &&
    match log[n]
    case ByCall(_, _) => Lost(log[..n], i)
    case ByJob(_, from, _) => from <= i || (from < |log| && Lost(log[..from], i))
    case Raw(_) => true
  }

  /** The places in the log of the lineage's writes. */
  function Places(log: seq<Write>): seq<nat>
    decreases |log|
  {
    if log == [] then [] else Places(log[..Back(log)]) + [|log| - 1]
  }

  ghost predicate FromsOk(log: seq<Write>) { forall i :: 0 <= i < |log| && log[i].ByJob? ==> log[i].from <= i }

  /** The lineage holds exactly the writes that are not lost, in order. */
  lemma {:induction false} LineagePlaces(log: seq<Write>)
    requires FromsOk(log)
    ensures |Places(log)| == |Lineage(log)|
    ensures forall k :: 0 <= k < |Places(log)| ==>
              Places(log)[k] < |log| && Lineage(log)[k] == log[Places(log)[k]]
    ensures forall k :: 0 < k < |Places(log)| ==> Places(log)[k - 1] < Places(log)[k]
    ensures forall i :: 0 <= i < |log| ==> (i in Places(log) <==> !Lost(log, i))
    decreases |log|
  {
    if log != [] {
      var n, b := |log| - 1, Back(log);
      LineagePlaces(log[..b]);
      var ps := Places(log[..b]);
      assert Places(log) == ps + [n] && Lineage(log) == Lineage(log[..b]) + [log[n]];
      forall i | 0 <= i < |log| ensures i in Places(log) <==> !Lost(log, i) {
        LostStep(log, i);
        assert i in Places(log) <==> i in ps || i == n;
        if i < b { assert i in ps <==> !Lost(log[..b], i); }
      }
    }
  }

  lemma LostStep(log: seq<Write>, i: nat)
    requires FromsOk(log) && i < |log|
    ensures Lost(log, i) <==> i < |log| - 1 && (i >= Back(log) || Lost(log[..Back(log)], i))
  {
  }

  lemma LogFroms(s: State)
    requires LogOk(s)
    ensures FromsOk(s.log)
  {
    hide Val, ApplySwap, Modify;
    forall i | 0 <= i < |s.log| && s.log[i].ByJob? ensures s.log[i].from <= i { assert WriteOk(s, i); }
  }

  /**
   An update that returned nil is in the document if and only if its write is
   not lost: the call has one write, and that write is in the lineage exactly
   when it neither fell between the get and the put of the last job that put
   nor before a raw write, and was not gone already when that job read.
   */
  lemma UpdateStaysIff(v: Option<Value>, steps: seq<Step>, id: nat)
    requires Run(v, steps).Some?
    requires id in Run(v, steps).value.calls && Run(v, steps).value.calls[id].Done?
    requires Run(v, steps).value.calls[id].result == Nil
    ensures var s := Run(v, steps).value;
            && WritesBy(s.log, id) == 1
            && s.store.value == Replay(v, Lineage(s.log))
            && (forall i :: 0 <= i < |s.log| && s.log[i].ByCall? && s.log[i].id == id ==>
                  (i in Places(s.log) <==> !Lost(s.log, i)))
  {
    RunInv(v, steps);
    DocumentIsLineage(v, steps);
    var s := Run(v, steps).value;
    InvFacts(s, id);
    LogFroms(s);
    LineagePlaces(s.log);
  }

  /** A blind write that undoes write i: a raw one, or that of a job which read before it. */
  predicate Undoes(w: Write, i: nat) { w.Raw? || (w.ByJob? && w.from <= i) }

  /** No job's get and put have another blind write between them. */
  ghost predicate OneAtATime(log: seq<Write>) {
    forall p, q :: 0 <= p < q < |log| && !log[p].ByCall? && log[q].ByJob? ==> p < log[q].from
  }

  /** When jobs and raw writes do not overlap: lost if and only if some later one undoes it. */
  lemma {:induction false} LostIffUndone(log: seq<Write>, i: nat)
    requires FromsOk(log) && OneAtATime(log) && i < |log|
    ensures Lost(log, i) <==> exists p :: i < p < |log| && Undoes(log[p], i)
    decreases |log|
  {
    var n := |log| - 1;
    var b := Back(log);
    LostStep(log, i);
    if i < n && i < b {
      var init := log[..b];
      assert FromsOk(init) && OneAtATime(init);
      LostIffUndone(init, i);
      assert forall p :: 0 <= p < b ==> init[p] == log[p];
      assert forall p :: b <= p < n ==> log[p].ByCall?;
      assert !Undoes(log[n], i);
      if p :| i < p < |log| && Undoes(log[p], i) { assert p < b && Undoes(init[p], i); }
    } else if i < n {
      assert Undoes(log[n], i);
    }
  }

  /** With jobs that overlap the simple rule is wrong: a job that read in between brings the write back. */
  lemma OverlapRestores(id: nat, req: Request, c: Change)
    ensures var log := [ByCall(id, req), ByJob(0, 0, c), ByJob(1, 1, c)]; Undoes(log[1], 0) && !Lost(log, 0)
  {
    var log := [ByCall(id, req), ByJob(0, 0, c), ByJob(1, 1, c)];
    assert log[..1] == [ByCall(id, req)];
  }

  // ---- no blind writes -----------------------------------------------------

  ghost predicate NoBlindWrite(steps: seq<Step>) {
    forall i :: 0 <= i < |steps| ==> !steps[i].SyncPut? && !steps[i].BlindPut? && !steps[i].Delete?
  }

  /**
   From any point of any run on, as long as nothing is put blindly or deleted,
   the value is the one at that point with all later updates applied in commit
   order.
   */
  lemma {:induction false} NoLostUpdateSince(v: Option<Value>, pre: seq<Step>, post: seq<Step>)
    requires Run(v, pre + post).Some? && NoBlindWrite(post)
    ensures Run(v, pre).Some?
    ensures var s, t := Run(v, pre).value, Run(v, pre + post).value;
            && s.log <= t.log
            && (forall i :: |s.log| <= i < |t.log| ==> t.log[i].ByCall?)
            && t.store.value == Replay(s.store.value, t.log[|s.log|..])
    decreases |post|
  {
    if post == [] {
      assert pre + post == pre;
    } else {
      var init, step := post[..|post| - 1], post[|post| - 1];
      assert (pre + post)[..|pre + post| - 1] == pre + init;
      assert NoBlindWrite(init);
      NoLostUpdateSince(v, pre, init);
      RunInv(v, pre + init);
      StepReplays(Run(v, pre).value, Run(v, pre + init).value, step);
    }
  }

  lemma StepReplays(from: State, s: State, step: Step)
    requires Inv(s) && Next(s, step).Some? && !step.SyncPut? && !step.BlindPut? && !step.Delete?
    requires from.log <= s.log && s.store.value == Replay(from.store.value, s.log[|from.log|..])
    requires forall i :: |from.log| <= i < |s.log| ==> s.log[i].ByCall?
    ensures var t := Next(s, step).value;
            && from.log <= t.log && t.store.value == Replay(from.store.value, t.log[|from.log|..])
            && forall i :: |from.log| <= i < |t.log| ==> t.log[i].ByCall?
  {
    hide ApplySwap, Modify, Inv, Replay, Applied;
    if (step.Txn? || step.TxnErrs?) && s.calls[step.id].rev == s.store.modRev {
      var c := s.calls[step.id];
      var w := ByCall(step.id, c.req);
      InvFacts(s, step.id);
      BaseIsCurrent(s.store, |s.log|, c);
      AppliedCall(w, s.store.value, c.next);
      ReplaySnoc(from.store.value, s.log[|from.log|..], w);
      assert (s.log + [w])[|from.log|..] == s.log[|from.log|..] + [w];
    }
  }

  lemma AppliedCall(w: Write, cur: Option<Value>, next: Doc)
    requires w.ByCall? && ApplySwap(cur, w.req) == Some(next)
    ensures Applied(w, cur) == Some(Parsed(next))
  {
  }

  /** Without blind writes at all the document is every committed update in commit order. */
  lemma NoLostUpdate(v: Option<Value>, steps: seq<Step>)
    requires Run(v, steps).Some? && NoBlindWrite(steps)
    ensures Run(v, steps).value.store.value == Replay(v, Run(v, steps).value.log)
  {
    assert [] + steps == steps;
    NoLostUpdateSince(v, [], steps);
    var t := Run(v, steps).value;
    assert Run(v, []) == Some(Initial(v));
    assert t.log[0..] == t.log;
  }

  /** Each write that is not raw raises the version by one, so the version counts the lineage. */
  lemma {:induction false} VersionCounts(d: Doc, ws: seq<Write>)
    requires forall i :: 0 <= i < |ws| ==> !ws[i].Raw?
    ensures var r := Replay(Some(Parsed(d)), ws);
            r.Some? && r.value.Parsed? && r.value.doc.version == d.version + |ws|
    decreases |ws|
  {
    if ws != [] {
      VersionCounts(d, ws[..|ws| - 1]);
      var before := Replay(Some(Parsed(d)), ws[..|ws| - 1]);
      if ws[|ws| - 1].ByCall? { ApplySwapMeaning(before, ws[|ws| - 1].req, "", ""); }
    }
  }

  /** The swap layer under writes that are not raw: jobs on other layers leave it alone. */
  function SwapFold(swaps: seq<SwapEntry>, ws: seq<Write>): seq<SwapEntry> {
    if ws == [] then swaps
    else
      var w, before := ws[|ws| - 1], SwapFold(swaps, ws[..|ws| - 1]);
      match w
      case ByCall(_, req) => if req.clear then Without(before, req.pair) else UpsertAll(before, req.pair, req.updates)
      case ByJob(_, _, change) => if change.Layers? then before else change.swaps
      case Raw(_) => before
  }

  /** The swap layer is the fold of the surviving updates and swap point jobs, in order. */
  lemma {:induction false} SwapLayer(v: Option<Value>, ws: seq<Write>)
    requires v != Some(Garbage) && forall i :: 0 <= i < |ws| ==> !ws[i].Raw?
    ensures var r := Replay(v, ws); r != Some(Garbage) && DocOf(r).swaps == SwapFold(DocOf(v).swaps, ws)
    decreases |ws|
  {
    if ws != [] {
      hide Without, UpsertAll;
      SwapLayer(v, ws[..|ws| - 1]);
    }
  }

  // ---- a lost update -------------------------------------------------------

  const POINTS := Request("P", [SwapUpdate("1M", 1.0, 2.0)], false)
  const RATE := SwapEntry("P", "1M", 1.0, 2.0, 0.0, 0.0)

  /** The update alone, and what a job that read before it leaves. */
  lemma PointsRate(d: Doc)
    requires d.swaps == []
    ensures var next := ApplySwap(Some(Parsed(d)), POINTS);
            next.Some? && Rate(next.value.swaps, "P", "1M") == Some(RATE) && Rate(d.swaps, "P", "1M") == None
  {
    ApplySwapMeaning(Some(Parsed(d)), POINTS, "P", "1M");
    assert LastUpdate(POINTS.updates, "1M") == Some(POINTS.updates[0]);
  }

  function JobThenUpdate(layers: string): seq<Step> {
    [SyncGet(7, Layers(layers)), Begin(0, POINTS), Get(0), Txn(0)]
  }

  lemma UpdateInBetween(v: Option<Value>, layers: string, next: Doc)
    requires v.Some? && v.value.Parsed? && ApplySwap(v, POINTS) == Some(next)
    ensures var s := Run(v, JobThenUpdate(layers));
            && s.Some? && 0 in s.value.calls && s.value.calls[0] == Done(POINTS, 1, [], Nil)
            && s.value.store == Store(Some(Parsed(next)), 2, 2) && s.value.log == [ByCall(0, POINTS)]
            && 7 in s.value.jobs && s.value.jobs[7] == Job(0, v, Layers(layers))
  {
    hide ApplySwap, Run;
    assert Run(v, []) == Some(Initial(v)) by { RunEmpty(v); }
    var a, b, c, e := SyncGet(7, Layers(layers)), Begin(0, POINTS), Get(0), Txn(0);
    RunSnoc(v, [], a);
    assert [] + [a] == [a];
    RunSnoc(v, [a], b);
    assert [a] + [b] == [a, b];
    RunSnoc(v, [a, b], c);
    assert [a, b] + [c] == [a, b, c];
    RunSnoc(v, [a, b, c], e);
    assert [a, b, c] + [e] == [a, b, c, e];
  }

  /** A sync job that reads before an update and puts after it: the call has its nil, the rate is gone. */
  lemma SyncJobLosesUpdate(d: Doc, layers: string)
    requires d.swaps == []
    ensures var steps := JobThenUpdate(layers);
            var s, t := Run(Some(Parsed(d)), steps), Run(Some(Parsed(d)), steps + [SyncPut(7)]);
            && s.Some? && t.Some?
            && 0 in t.value.calls && t.value.calls[0] == Done(POINTS, 1, [], Nil)
            && s.value.store.value.Some? && s.value.store.value.value.Parsed?
            && Rate(s.value.store.value.value.doc.swaps, "P", "1M") == Some(RATE)
            && t.value.store.value == Some(Parsed(Doc(d.version + 1, [], layers)))
            && Rate([], "P", "1M") == None && Lost(t.value.log, 0)
  {
    var v := Some(Parsed(d));
    PointsRate(d);
    assert Modify(v, Layers(layers)) == Some(Doc(d.version + 1, [], layers));
    hide ApplySwap, Run, Rate, Modify, JobThenUpdate;
    UpdateInBetween(v, layers, ApplySwap(v, POINTS).value);
    RunSnoc(v, JobThenUpdate(layers), SyncPut(7));
  }

  lemma RunEmpty(v: Option<Value>)
    ensures Run(v, []) == Some(Initial(v))
  {
  }
}
