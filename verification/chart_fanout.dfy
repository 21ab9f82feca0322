/**
 The hub under interference: one publishing goroutine, interleaved at each lock
 and queue operation with clients that register, change filters, drain their
 queues and close.
 */
module ChartFanout {
  import opened Options
  import opened ChartHub

  datatype Publication = Publication(pair: string, tf: string, payload: Payload)

  /**
   A subscriber: its state; what backfill had queued, what its writer took,
   what it was matched for, how much was published before it registered, and
   its state at each later scan.
   */
  datatype Live = Live(sub: Sub, early: seq<Payload>, delivered: seq<Payload>, due: seq<Payload>,
                       since: nat, seen: seq<Sub>)

  /** Inside a delivery: past the closed check, or found full. */
  datatype At = Free | Admitted(id: nat) | Overflowed(id: nat)

  datatype Pub =
    | Idle
    | Busy(what: Publication, unseen: set<nat>, todo: set<nat>, at: At, sent: nat, dropped: nat, matched: nat)

  datatype State = State(subs: map<nat, Live>, registered: set<nat>, added: set<nat>, leaving: set<nat>,
                         pub: Pub, published: seq<Publication>, sent: nat, dropped: nat, matched: nat)

  datatype Step =
    | New(id: nat, sub: Sub, early: seq<Payload>)
    | Add(id: nat)
    | SetFilters(id: nat, pairs: set<string>, tfs: set<string>)
    | Write(id: nat)
    | Close(id: nat)
    | Leave(id: nat)         // the close callback
    | Begin(what: Publication)
    | Scan(id: nat)
    | Pick(id: nat)          // Send's closed check
    | Enqueue                // Send's queue operation
    | Isolate                // the close of a slow consumer
    | Finish

  const START := State(map[], {}, {}, {}, Idle, [], 0, 0, 0)

  /** The hub's read lock is held while subscribers are scanned. */
  predicate Locked(pub: Pub) { pub.Busy? && pub.unseen != {} }

  function Put(s: State, id: nat, l: Live): State { s.(subs := s.subs[id := l]) }

  function Shut(s: State, id: nat): State
    requires id in s.subs
  {
    var l := s.subs[id];
    if l.sub.closed then s else Put(s, id, l.(sub := l.sub.(closed := true))).(leaving := s.leaving + {id})
  }

  function ClientNext(s: State, step: Step): Option<State> {
    match step
    case New(id, sub, early) =>
      if id !in s.subs && !sub.closed && |early| <= sub.cap
      then Some(Put(s, id, Live(sub.(queue := early), early, [], [], 0, []))) else None
    case Add(id) =>
      if id in s.subs && id !in s.added && !Locked(s.pub)
      then Some(Put(s, id, s.subs[id].(since := |s.published|)).(
                  registered := s.registered + {id}, added := s.added + {id}))
      else None
    case SetFilters(id, pairs, tfs) =>
      if id in s.subs then Some(Put(s, id, s.subs[id].(sub := s.subs[id].sub.(pairs := pairs, tfs := tfs)))) else None
    case Write(id) =>
      if id in s.subs && s.subs[id].sub.queue != []
      then var l := s.subs[id];
           Some(Put(s, id, l.(sub := l.sub.(queue := l.sub.queue[1..]), delivered := l.delivered + [l.sub.queue[0]])))
      else None
    case Close(id) => if id in s.subs then Some(Shut(s, id)) else None
    case Leave(id) =>
      if id in s.leaving && !Locked(s.pub)
      then Some(s.(registered := s.registered - {id}, leaving := s.leaving - {id})) else None
    case _ => None
  }

  /** A scanned subscriber, matched or not. */
  function ScanLive(l: Live, what: Publication): Live {
    l.(seen := l.seen + [l.sub],
       due := if Passes(l.sub, what.pair, what.tf) then l.due + [what.payload] else l.due)
  }

  function ScanPub(b: Pub, l: Live, id: nat): Pub
    requires b.Busy?
  {
    if Passes(l.sub, b.what.pair, b.what.tf)
    then b.(unseen := b.unseen - {id}, todo := b.todo + {id}, matched := b.matched + 1)
    else b.(unseen := b.unseen - {id})
  }

  function PubNext(s: State, step: Step): Option<State> {
    match step
    case Begin(what) =>
      if s.pub.Idle?
      then Some(s.(pub := Busy(what, s.registered, {}, Free, 0, 0, 0), published := s.published + [what]))
      else None
    case Scan(id) =>
      if s.pub.Busy? && id in s.pub.unseen && id in s.subs then
        Some(Put(s, id, ScanLive(s.subs[id], s.pub.what)).(pub := ScanPub(s.pub, s.subs[id], id)))
      else None
    case Pick(id) =>
      if s.pub.Busy? && s.pub.unseen == {} && s.pub.at == Free && id in s.pub.todo && id in s.subs then
        var b := s.pub.(todo := s.pub.todo - {id});
        Some(s.(pub := if s.subs[id].sub.closed then b.(dropped := b.dropped + 1) else b.(at := Admitted(id))))
      else None
    case Enqueue =>
      if s.pub.Busy? && s.pub.at.Admitted? && s.pub.at.id in s.subs then
        var id, b := s.pub.at.id, s.pub;
        var l := s.subs[id];
        if Full(l.sub) then Some(s.(pub := b.(at := Overflowed(id), dropped := b.dropped + 1)))
        else Some(Put(s, id, l.(sub := l.sub.(queue := l.sub.queue + [b.what.payload]))).(
                    pub := b.(at := Free, sent := b.sent + 1)))
      else None
    case Isolate =>
      if s.pub.Busy? && s.pub.at.Overflowed? && s.pub.at.id in s.subs
      then Some(Shut(s, s.pub.at.id).(pub := s.pub.(at := Free))) else None
    case Finish =>
      if s.pub.Busy? && s.pub.unseen == {} && s.pub.todo == {} && s.pub.at == Free
      then Some(s.(pub := Idle, sent := s.sent + s.pub.sent, dropped := s.dropped + s.pub.dropped,
                   matched := s.matched + s.pub.matched))
      else None
    case _ => None
  }

  predicate OfPublisher(step: Step) {
    step.Begin? || step.Scan? || step.Pick? || step.Enqueue? || step.Isolate? || step.Finish?
  }

  function Next(s: State, step: Step): Option<State> {
    if OfPublisher(step) then PubNext(s, step) else ClientNext(s, step)
  }

  function Run(steps: seq<Step>): Option<State> {
    if steps == [] then Some(START)
    else
      var s := Run(steps[..|steps| - 1]);
      if s.None? then None else Next(s.value, steps[|steps| - 1])
  }

  // ---- invariant -----------------------------------------------------------

  /** The payloads of the publications that passed the filters in force at their scan. */
  function Select(ps: seq<Publication>, seen: seq<Sub>): seq<Payload>
    requires |ps| == |seen|
  {
    if ps == [] then []
    else
      var n := |ps| - 1;
      Select(ps[..n], seen[..n])
      + if (seen[n].pairs == {} || ps[n].pair in seen[n].pairs) && (seen[n].tfs == {} || ps[n].tf in seen[n].tfs)
        then [ps[n].payload] else []
  }

  /** Matched for the publication in progress and not yet tried at its queue. */
  predicate Pending(pub: Pub, id: nat) { pub.Busy? && (id in pub.todo || pub.at == Admitted(id)) }

  function InFlight(pub: Pub, id: nat): seq<Payload> {
    if Pending(pub, id) then [pub.what.payload] else []
  }

  ghost predicate Complete(l: Live, pub: Pub, id: nat) {
    l.delivered + l.sub.queue + InFlight(pub, id) == l.early + l.due
  }

  ghost predicate Missed(l: Live, pub: Pub, id: nat) {
    && (l.sub.closed || (pub.Busy? && pub.at == Overflowed(id)))
    && (pub.Busy? ==> pub.at != Admitted(id))
    && l.delivered + l.sub.queue <= l.early + l.due
  }

  ghost predicate Matching(l: Live, published: seq<Publication>) {
    && l.since + |l.seen| <= |published|
    && l.due == Select(published[l.since..l.since + |l.seen|], l.seen)
  }

  ghost predicate ScanOk(s: State, id: nat, l: Live) {
    && (id !in s.added ==> id !in s.registered && l.seen == [])
    && (id in s.registered ==>
          l.since + |l.seen| + (if s.pub.Busy? && id in s.pub.unseen then 1 else 0) == |s.published|)
  }

  ghost predicate SubOk(s: State, id: nat, l: Live) {
    && Matching(l, s.published)
    && ScanOk(s, id, l)
    && (Complete(l, s.pub, id) || Missed(l, s.pub, id))
  }

  ghost predicate PubOk(s: State) {
    && s.registered <= s.added <= s.subs.Keys && s.leaving <= s.subs.Keys
    && s.sent + s.dropped == s.matched
    && (s.pub.Busy? ==>
          && |s.published| > 0 && s.published[|s.published| - 1] == s.pub.what
          && s.pub.unseen <= s.registered && s.pub.todo <= s.subs.Keys && s.pub.todo !! s.pub.unseen
          && (s.pub.at != Free ==> s.pub.unseen == {} && s.pub.at.id !in s.pub.todo && s.pub.at.id in s.subs)
          && s.pub.sent + s.pub.dropped + |s.pub.todo| + (if s.pub.at.Admitted? then 1 else 0) == s.pub.matched)
  }

  ghost predicate Inv(s: State) {
    PubOk(s) && forall id :: id in s.subs ==> SubOk(s, id, s.subs[id])
  }

  lemma SelectSnoc(ps: seq<Publication>, seen: seq<Sub>, p: Publication, v: Sub)
    requires |ps| == |seen|
    ensures Select(ps + [p], seen + [v]) == Select(ps, seen) + if Passes(v, p.pair, p.tf) then [p.payload] else []
  {
    assert (ps + [p])[..|ps|] == ps && (seen + [v])[..|ps|] == seen;
  }

  lemma PubStepOk(s: State, step: Step)
    requires PubOk(s) && PubNext(s, step).Some?
    ensures PubOk(PubNext(s, step).value)
  {
    if step.Scan? { assert |s.pub.todo + {step.id}| == |s.pub.todo| + 1; }
    if step.Pick? { assert |s.pub.todo - {step.id}| == |s.pub.todo| - 1; }
  }

  lemma ClientStepOk(s: State, step: Step)
    requires PubOk(s) && ClientNext(s, step).Some?
    ensures PubOk(ClientNext(s, step).value)
  {
  }

  lemma ScanMatching(l: Live, published: seq<Publication>)
    requires Matching(l, published) && l.since + |l.seen| < |published|
    ensures Matching(ScanLive(l, published[l.since + |l.seen|]), published)
  {
    var n := l.since + |l.seen|;
    assert published[l.since..n + 1] == published[l.since..n] + [published[n]];
    SelectSnoc(published[l.since..n], l.seen, published[n], l.sub);
    hide Select;
  }

  lemma ScanStream(l: Live, b: Pub, id: nat)
    requires b.Busy? && id !in b.todo && b.at == Free
    requires Complete(l, b, id) || Missed(l, b, id)
    ensures Complete(ScanLive(l, b.what), ScanPub(b, l, id), id) || Missed(ScanLive(l, b.what), ScanPub(b, l, id), id)
  {
    hide Passes;
    var p := b.what.payload;
    assert l.early + (l.due + [p]) == (l.early + l.due) + [p];
    assert l.delivered + l.sub.queue + [] == l.delivered + l.sub.queue;
  }

  lemma ScanCount(s: State, id: nat)
    requires PubOk(s) && id in s.subs && ScanOk(s, id, s.subs[id]) && PubNext(s, Scan(id)).Some?
    ensures var t := PubNext(s, Scan(id)).value; ScanOk(t, id, t.subs[id])
    ensures var l := s.subs[id];
            l.since + |l.seen| + 1 == |s.published| && s.published[l.since + |l.seen|] == s.pub.what
  {
    hide Passes;
  }

  lemma ScanOwn(s: State, id: nat)
    requires PubOk(s) && id in s.subs && SubOk(s, id, s.subs[id]) && PubNext(s, Scan(id)).Some?
    ensures var t := PubNext(s, Scan(id)).value; SubOk(t, id, t.subs[id])
  {
    hide Matching, Complete, Missed, ScanOk, ScanLive, ScanPub;
    ScanCount(s, id);
    ScanMatching(s.subs[id], s.published);
    ScanStream(s.subs[id], s.pub, id);
  }

  lemma ScanOther(s: State, id: nat, j: nat)
    requires PubOk(s) && j in s.subs && SubOk(s, j, s.subs[j]) && PubNext(s, Scan(id)).Some? && j != id
    ensures var t := PubNext(s, Scan(id)).value; SubOk(t, j, t.subs[j])
  {
    hide Matching;
  }

  lemma QueueSub(s: State, step: Step, j: nat)
    requires PubOk(s) && j in s.subs && SubOk(s, j, s.subs[j]) && PubNext(s, step).Some?
    requires step.Pick? || step.Enqueue? || step.Isolate?
    ensures var t := PubNext(s, step).value; SubOk(t, j, t.subs[j])
  {
    hide Select;
    var t := PubNext(s, step).value;
    var l, m := s.subs[j], t.subs[j];
    if step.Enqueue? && s.pub.at.id == j && !Full(l.sub) {
      assert l.delivered + (l.sub.queue + [s.pub.what.payload]) == l.delivered + l.sub.queue + [s.pub.what.payload];
    }
    if Complete(l, s.pub, j) && !Complete(m, t.pub, j) {
      assert l.delivered + l.sub.queue <= l.early + l.due;
    }
  }

  lemma RoundSub(s: State, step: Step, j: nat)
    requires PubOk(s) && j in s.subs && SubOk(s, j, s.subs[j]) && PubNext(s, step).Some?
    requires step.Begin? || step.Finish?
    ensures var t := PubNext(s, step).value; SubOk(t, j, t.subs[j])
  {
    hide Select;
    var t := PubNext(s, step).value;
    var l := s.subs[j];
    assert t.published[l.since..l.since + |l.seen|] == s.published[l.since..l.since + |l.seen|];
  }

  lemma NewSub(s: State, id: nat, sub: Sub, early: seq<Payload>)
    requires PubOk(s) && ClientNext(s, New(id, sub, early)).Some? && id !in s.added
    ensures var t := ClientNext(s, New(id, sub, early)).value; SubOk(t, id, t.subs[id])
  {
    assert Select(s.published[0..0], []) == [];
    hide Select;
  }

  lemma AddSub(s: State, id: nat)
    requires PubOk(s) && ClientNext(s, Add(id)).Some? && SubOk(s, id, s.subs[id])
    ensures var t := ClientNext(s, Add(id)).value; SubOk(t, id, t.subs[id])
  {
    var l, n := s.subs[id], |s.published|;
    assert l.due == [] by { assert s.published[l.since..l.since] == []; }
    assert s.published[n..n] == [];
    assert Select(s.published[n..n], []) == [];
    hide Select;
  }

  lemma OtherSub(s: State, step: Step, j: nat)
    requires PubOk(s) && ClientNext(s, step).Some? && j in s.subs && SubOk(s, j, s.subs[j]) && step != Add(j)
    ensures var t := ClientNext(s, step).value; SubOk(t, j, t.subs[j])
  {
    hide Select;
    if step == Write(j) {
      var l := s.subs[j];
      assert (l.delivered + [l.sub.queue[0]]) + l.sub.queue[1..] == l.delivered + l.sub.queue;
    }
  }

  lemma ClientSub(s: State, step: Step, j: nat)
    requires PubOk(s) && ClientNext(s, step).Some? && j in ClientNext(s, step).value.subs
    requires j in s.subs ==> SubOk(s, j, s.subs[j])
    ensures var t := ClientNext(s, step).value; SubOk(t, j, t.subs[j])
  {
    hide SubOk;
    if j !in s.subs { NewSub(s, j, step.sub, step.early); }
    else if step == Add(j) { AddSub(s, j); }
    else { OtherSub(s, step, j); }
  }

  lemma NextInv(s: State, step: Step)
    requires Inv(s) && Next(s, step).Some?
    ensures Inv(Next(s, step).value)
  {
    hide PubNext, ClientNext, SubOk, PubOk;
    var t := Next(s, step).value;
    if OfPublisher(step) {
      PubStepOk(s, step);
      SameSubs(s, step);
      forall j | j in t.subs ensures SubOk(t, j, t.subs[j]) {
        if step == Scan(j) { ScanOwn(s, j); }
        else if step.Scan? { ScanOther(s, step.id, j); }
        else if step.Begin? || step.Finish? { RoundSub(s, step, j); }
        else { QueueSub(s, step, j); }
      }
    } else {
      ClientStepOk(s, step);
      forall j | j in t.subs ensures SubOk(t, j, t.subs[j]) {
        ClientSub(s, step, j);
      }
    }
  }

  lemma SameSubs(s: State, step: Step)
    requires PubNext(s, step).Some?
    ensures PubNext(s, step).value.subs.Keys == s.subs.Keys
  {
  }

  lemma {:induction false} RunInv(steps: seq<Step>)
    requires Run(steps).Some?
    ensures Inv(Run(steps).value)
    decreases |steps|
  {
    if steps != [] {
      RunInv(steps[..|steps| - 1]);
      NextInv(Run(steps[..|steps| - 1]).value, steps[|steps| - 1]);
    }
  }

  lemma Scanned(s: State, id: nat, l: Live)
    requires ScanOk(s, id, l) && s.pub == Idle
    ensures id in s.registered ==> l.since + |l.seen| == |s.published|
  {
  }

  lemma AtRest(l: Live, pub: Pub, id: nat)
    requires pub == Idle && (Complete(l, pub, id) || Missed(l, pub, id))
    ensures l.delivered + l.sub.queue <= l.early + l.due
    ensures !l.sub.closed ==> l.delivered + l.sub.queue == l.early + l.due
  {
    assert l.delivered + l.sub.queue + [] == l.delivered + l.sub.queue;
  }

  /**
   After every interleaving, between publications: a registered subscriber that
   is open has got or queued, in order, exactly the payloads published since it
   registered that passed its filters when scanned; one that is closed has a
   prefix of what it was due, never a stream with a hole; and sent plus dropped
   is the number of matches.
   */
  lemma NoHoles(steps: seq<Step>, id: nat)
    requires Run(steps).Some? && Run(steps).value.pub == Idle && id in Run(steps).value.subs
    ensures var s := Run(steps).value; var l := s.subs[id];
            && s.sent + s.dropped == s.matched
            && l.delivered + l.sub.queue <= l.early + l.due
            && (!l.sub.closed ==> l.delivered + l.sub.queue == l.early + l.due)
            && (id in s.registered ==>
                  l.since + |l.seen| == |s.published| && l.due == Select(s.published[l.since..], l.seen))
  {
    hide Run, Select, Complete, Missed, ScanOk;
    RunInv(steps);
    var s := Run(steps).value;
    var l := s.subs[id];
    assert SubOk(s, id, l);
    AtRest(l, s.pub, id);
    assert id in s.registered ==> l.since + |l.seen| == |s.published| by { Scanned(s, id, l); }
    assert l.since + |l.seen| == |s.published| ==> s.published[l.since..l.since + |l.seen|] == s.published[l.since..];
  }

  // ---- who stays in the hub ------------------------------------------------

  /** The close callback ran before the subscriber was registered. */
  ghost predicate LeftFirst(steps: seq<Step>, id: nat) {
    exists i, j :: 0 <= i < j < |steps| && steps[i] == Leave(id) && steps[j] == Add(id)
  }

  /** What the steps taken say about a subscriber's life: registered once, closed once, its callback run once. */
  ghost predicate Life(steps: seq<Step>, s: State, id: nat) {
    && (id in s.added <==> Add(id) in steps)
    && (id in s.leaving || Leave(id) in steps <==> id in s.subs && s.subs[id].sub.closed)
    && !(id in s.leaving && Leave(id) in steps)
    && (id in s.registered <==> Add(id) in steps && (Leave(id) in steps ==> LeftFirst(steps, id)))
  }

  lemma LeftFirstStep(steps: seq<Step>, step: Step, id: nat)
    ensures LeftFirst(steps + [step], id) <==> LeftFirst(steps, id) || (step == Add(id) && Leave(id) in steps)
  {
    var all := steps + [step];
    assert forall i :: 0 <= i < |steps| ==> all[i] == steps[i];
    if LeftFirst(steps, id) {
      var i, j :| 0 <= i < j < |steps| && steps[i] == Leave(id) && steps[j] == Add(id);
      assert all[i] == Leave(id) && all[j] == Add(id);
    }
    if step == Add(id) && Leave(id) in steps {
      var i :| 0 <= i < |steps| && steps[i] == Leave(id);
      assert all[i] == Leave(id) && all[|steps|] == Add(id);
    }
  }

  lemma AddedOnce(steps: seq<Step>, id: nat)
    requires LeftFirst(steps, id)
    ensures Add(id) in steps && Leave(id) in steps
  {
  }

  lemma LifeStep(steps: seq<Step>, s: State, step: Step, id: nat)
    requires PubOk(s) && Life(steps, s, id) && Next(s, step).Some?
    ensures Life(steps + [step], Next(s, step).value, id)
  {
    LeftFirstStep(steps, step, id);
    if LeftFirst(steps, id) { AddedOnce(steps, id); }
    hide LeftFirst;
    assert forall x :: x in steps + [step] <==> x in steps || x == step;
    if OfPublisher(step) { PubLife(s, step, id); }
  }

  /** The publisher changes a subscriber's standing only by closing it. */
  lemma PubLife(s: State, step: Step, id: nat)
    requires PubNext(s, step).Some? && (id in s.leaving ==> id in s.subs && s.subs[id].sub.closed)
    ensures var t := PubNext(s, step).value;
            && t.added == s.added && t.registered == s.registered && (id in t.subs <==> id in s.subs)
            && (id in s.subs && s.subs[id].sub.closed ==> t.subs[id].sub.closed)
            && (id in t.leaving <==>
                  id in s.leaving || (id in s.subs && !s.subs[id].sub.closed && t.subs[id].sub.closed))
  {
    hide Passes;
  }

  lemma LifeStart(id: nat)
    ensures Life([], START, id)
  {
  }

  lemma {:induction false} RunLife(steps: seq<Step>, id: nat)
    requires Run(steps).Some?
    ensures Life(steps, Run(steps).value, id)
    decreases |steps|
  {
    hide Life, Next, PubOk, SubOk;
    if steps == [] {
      LifeStart(id);
    } else {
      var init := steps[..|steps| - 1];
      RunLife(init, id);
      RunInv(init);
      LifeStep(init, Run(init).value, steps[|steps| - 1], id);
      assert init + [steps[|steps| - 1]] == steps;
    }
  }

  /**
   A closed subscriber whose callback has run is still in the hub if and only
   if the callback ran before it was registered.
   */
  lemma ClosedStaysIff(steps: seq<Step>, id: nat)
    requires Run(steps).Some? && id in Run(steps).value.subs
    requires Run(steps).value.subs[id].sub.closed && id !in Run(steps).value.leaving
    ensures id in Run(steps).value.registered <==> LeftFirst(steps, id)
  {
    RunLife(steps, id);
    if LeftFirst(steps, id) { AddedOnce(steps, id); }
  }

  /** One that was open when it was registered is in the hub exactly until its callback runs. */
  lemma OpenAtAddLeaves(pre: seq<Step>, id: nat, post: seq<Step>)
    requires Run(pre).Some? && Run(pre + [Add(id)] + post).Some?
    requires id in Run(pre).value.subs && !Run(pre).value.subs[id].sub.closed
    ensures id in Run(pre + [Add(id)] + post).value.registered <==> Leave(id) !in post
  {
    var steps := pre + [Add(id)] + post;
    RunLife(pre, id);
    RunLife(steps, id);
    assert Leave(id) !in pre;
    assert steps[|pre|] == Add(id) && forall k :: 0 <= k < |pre| ==> steps[k] == pre[k];
    if LeftFirst(steps, id) {
      var i, j :| 0 <= i < j < |steps| && steps[i] == Leave(id) && steps[j] == Add(id);
      AddOnce(steps, id, |pre|, j);
    }
    assert Leave(id) in steps <==> Leave(id) in post;
  }

  /** A subscriber registers once. */
  lemma {:induction false} AddOnce(steps: seq<Step>, id: nat, i: nat, j: nat)
    requires Run(steps).Some? && i < |steps| && j < |steps| && steps[i] == steps[j] == Add(id)
    ensures i == j
    decreases |steps|
  {
    var n := |steps| - 1;
    var init := steps[..n];
    RunLife(init, id);
    assert forall k :: 0 <= k < n ==> init[k] == steps[k];
    if i < n && j < n { AddOnce(init, id, i, j); }
  }

  const EARLY_CLOSE := [New(0, EMPTY_SUB, []), Close(0), Leave(0), Add(0)]

  /** A client that goes away before it registers stays in the hub though closed. */
  lemma ClosedBeforeAddStays()
    ensures var r := Run(EARLY_CLOSE);
            && r.Some? && 0 in r.value.registered
            && 0 in r.value.subs && r.value.subs[0].sub.closed && r.value.leaving == {}
  {
    hide Run;
    RunStart();
    assert EARLY_CLOSE[..0] == [];
    var s1 := Put(START, 0, Live(EMPTY_SUB, [], [], [], 0, []));
    After(0, s1);
    After(1, Shut(s1, 0));
    After(2, Shut(s1, 0).(registered := {} - {0}, leaving := {} + {0} - {0}));
    After(3, Put(Shut(s1, 0), 0, Shut(s1, 0).subs[0].(since := 0)).(
               registered := {} - {0} + {0}, leaving := {} + {0} - {0}, added := {} + {0}));
    assert EARLY_CLOSE[..4] == EARLY_CLOSE;
  }

  lemma RunStart()
    ensures Run([]) == Some(START)
  {
  }

  lemma After(k: nat, t: State)
    requires k < |EARLY_CLOSE| && Run(EARLY_CLOSE[..k]).Some?
    requires Next(Run(EARLY_CLOSE[..k]).value, EARLY_CLOSE[k]) == Some(t)
    ensures Run(EARLY_CLOSE[..k + 1]) == Some(t)
  {
    hide Next;
    assert EARLY_CLOSE[..k + 1][..k] == EARLY_CLOSE[..k];
  }
}
