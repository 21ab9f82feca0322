/**
 Many writers on the pricing key: calls that get, transform and put under a
 revision compare with at most three attempts, beside sync jobs that get,
 change a layer and put without a compare, and raw puts and deletes.
 */
module PricingCas {
  import opened Options
  import opened PricingDoc

  /** The key as etcd keeps it; a missing key has modification revision 0. */
  datatype Store = Store(value: Option<Value>, modRev: nat, rev: nat)

  datatype Result = Nil | Deadline | Failed

  /** A lost compare: how many writes the key had had at the get, and at the put. */
  datatype Loss = Loss(from: nat, to: nat)

  datatype Call =
    | Reading(req: Request, attempt: nat, lost: seq<Loss>)
    | Computed(req: Request, attempt: nat, lost: seq<Loss>, at: nat, rev: nat, base: Option<Value>, next: Doc)
    | Done(req: Request, tries: nat, lost: seq<Loss>, result: Result)

  /** What a sync job replaces: a layer other than the swap points, or all swap points. */
  datatype Change = Layers(layers: string) | Points(swaps: seq<SwapEntry>)

  /** A sync job between its get and its put: how many writes came before the get, and what it read. */
  datatype Job = Job(from: nat, base: Option<Value>, change: Change)

  /** A write of the key, in the order of the revisions. */
  datatype Write =
    | ByCall(id: nat, req: Request)
    | ByJob(job: nat, from: nat, change: Change)
    | Raw(value: Option<Value>)

  datatype State = State(store: Store, calls: map<nat, Call>, jobs: map<nat, Job>, log: seq<Write>,
                         start: Option<Value>)

  datatype Step =
    | Begin(id: nat, req: Request)
    | Get(id: nat)                       // read and transform
    | GetFails(id: nat)
    | Txn(id: nat)                       // compare and put
    | TxnErrs(id: nat, applied: bool)    // the call sees an error; the server may have done it
    | SyncGet(job: nat, change: Change)
    | SyncPut(job: nat)
    | SyncDrops(job: nat)                // the put failed
    | BlindPut(value: Value)             // admin
    | Delete

  /** The sync job's document; None when the stored text does not parse. */
  function Modify(cur: Option<Value>, c: Change): Option<Doc> {
    if cur == Some(Garbage) then None
    else
      var d := DocOf(cur);
      var e := match c case Layers(l) => d.(layers := l) case Points(es) => d.(swaps := es);
      Some(e.(version := d.version + 1))
  }

  function Put(s: Store, v: Value): Store { Store(Some(v), s.rev + 1, s.rev + 1) }

  function Initial(v: Option<Value>): State {
    State(Store(v, if v.None? then 0 else 1, 1), map[], map[], [], v)
  }

  function Set(s: State, id: nat, c: Call): State { s.(calls := s.calls[id := c]) }

  function WriteTo(s: State, store: Store, w: Write): State { s.(store := store, log := s.log + [w]) }

  /** The server's side of the transaction when its compare succeeds. */
  function CommitOf(s: State, id: nat, c: Call): State
    requires c.Computed?
  {
    WriteTo(s, Put(s.store, Parsed(c.next)), ByCall(id, c.req))
  }

  function AfterTxn(s: State, id: nat, c: Call): State
    requires c.Computed?
  {
    if c.rev == s.store.modRev then Set(CommitOf(s, id, c), id, Done(c.req, c.attempt + 1, c.lost, Nil))
    else
      var lost := c.lost + [Loss(c.at, |s.log|)];
      if c.attempt >= 2 then Set(s, id, Done(c.req, c.attempt + 1, lost, Deadline))
      else Set(s, id, Reading(c.req, c.attempt + 1, lost))
  }

  function AfterGet(s: State, id: nat, c: Call): State
    requires c.Reading?
  {
    var next := ApplySwap(s.store.value, c.req);
    if next.None? then Set(s, id, Done(c.req, c.attempt, c.lost, Failed))
    else Set(s, id, Computed(c.req, c.attempt, c.lost, |s.log|, s.store.modRev, s.store.value, next.value))
  }

  function CallNext(s: State, step: Step): Option<State> {
    match step
    case Begin(id, req) => if id in s.calls then None else Some(Set(s, id, Reading(req, 0, [])))
    case Get(id) => if id in s.calls && s.calls[id].Reading? then Some(AfterGet(s, id, s.calls[id])) else None
    case GetFails(id) =>
      if id in s.calls && s.calls[id].Reading?
      then Some(Set(s, id, Done(s.calls[id].req, s.calls[id].attempt, s.calls[id].lost, Failed))) else None
    case Txn(id) => if id in s.calls && s.calls[id].Computed? then Some(AfterTxn(s, id, s.calls[id])) else None
    case TxnErrs(id, applied) =>
      if id in s.calls && s.calls[id].Computed? then
        var c := s.calls[id];
        var t := if applied && c.rev == s.store.modRev then CommitOf(s, id, c) else s;
        Some(Set(t, id, Done(c.req, c.attempt + 1, c.lost, Failed)))
      else None
    case _ => None
  }

  function BlindNext(s: State, step: Step): Option<State> {
    match step
    case SyncGet(j, change) =>
      if j in s.jobs then None
      else if s.store.value == Some(Garbage) then Some(s)
      else Some(s.(jobs := s.jobs[j := Job(|s.log|, s.store.value, change)]))
    case SyncPut(j) =>
      if j !in s.jobs || Modify(s.jobs[j].base, s.jobs[j].change).None? then None
      else
        var doc := Modify(s.jobs[j].base, s.jobs[j].change).value;
        Some(WriteTo(s, Put(s.store, Parsed(doc)), ByJob(j, s.jobs[j].from, s.jobs[j].change)).(jobs := s.jobs - {j}))
    case SyncDrops(j) => if j in s.jobs then Some(s.(jobs := s.jobs - {j})) else None
    case BlindPut(v) => Some(WriteTo(s, Put(s.store, v), Raw(Some(v))))
    case Delete => Some(WriteTo(s, Store(None, 0, s.store.rev + 1), Raw(None)))
    case _ => None
  }

  predicate OfCall(step: Step) { step.Begin? || step.Get? || step.GetFails? || step.Txn? || step.TxnErrs? }

  function Next(s: State, step: Step): Option<State> {
    if OfCall(step) then CallNext(s, step) else BlindNext(s, step)
  }

  function Run(v: Option<Value>, steps: seq<Step>): Option<State> {
    if steps == [] then Some(Initial(v))
    else
      var s := Run(v, steps[..|steps| - 1]);
      if s.None? then None else Next(s.value, steps[|steps| - 1])
  }

  // ---- the value of a log --------------------------------------------------

  function OrSame(d: Option<Doc>, cur: Option<Value>): Option<Value> {
    if d.None? then cur else Some(Parsed(d.value))
  }

  /** A write on the value it was computed from. */
  function Applied(w: Write, cur: Option<Value>): Option<Value> {
    match w
    case ByCall(_, req) => OrSame(ApplySwap(cur, req), cur)
    case ByJob(_, _, change) => OrSame(Modify(cur, change), cur)
    case Raw(v) => v
  }

  /** How many writes went before the value the last write was computed from. */
  function Back(log: seq<Write>): (n: nat)
    requires log != []
    ensures n < |log|
  {
    var w := log[|log| - 1];
    match w
    case ByCall(_, _) => |log| - 1
    case ByJob(_, from, _) => if from < |log| then from else |log| - 1
    case Raw(_) => 0
  }

  /** The value after the writes of a log. */
  function Val(start: Option<Value>, log: seq<Write>): Option<Value>
    decreases |log|
  {
    if log == [] then start else Applied(log[|log| - 1], Val(start, log[..Back(log)]))
  }

  lemma ValSnoc(start: Option<Value>, log: seq<Write>, w: Write)
    ensures w.ByCall? ==> Val(start, log + [w]) == Applied(w, Val(start, log))
    ensures w.ByJob? && w.from <= |log| ==> Val(start, log + [w]) == Applied(w, Val(start, log[..w.from]))
    ensures w.Raw? ==> Val(start, log + [w]) == w.value
  {
    hide Applied;
    var more := log + [w];
    assert more[..|log|] == log;
    if w.ByJob? && w.from <= |log| { assert more[..w.from] == log[..w.from]; }
    assert w.Raw? ==> Applied(w, Val(start, more[..0])) == w.value by { RawValue(w, Val(start, more[..0])); }
  }

  lemma RawValue(w: Write, cur: Option<Value>)
    ensures w.Raw? ==> Applied(w, cur) == w.value
  {
  }

  function WritesBy(log: seq<Write>, id: nat): nat {
    if log == [] then 0
    else WritesBy(log[..|log| - 1], id) + if log[|log| - 1].ByCall? && log[|log| - 1].id == id then 1 else 0
  }

  lemma WritesBySnoc(log: seq<Write>, w: Write, id: nat)
    ensures WritesBy(log + [w], id) == WritesBy(log, id) + if w.ByCall? && w.id == id then 1 else 0
  {
    assert (log + [w])[..|log|] == log;
  }

  // ---- invariant -----------------------------------------------------------

  /** Compares lost one after the other, each to a write between its get and its put. */
  ghost predicate LostOk(lost: seq<Loss>, n: nat) {
    && (forall i :: 0 <= i < |lost| ==> lost[i].from < lost[i].to <= n)
    && (forall i :: 0 < i < |lost| ==> lost[i - 1].to <= lost[i].from)
  }

  /**
   The revision a call remembers names the value it read as long as the key
   carries that revision, and the key carries it as long as nothing was written.
   Every attempt but the last lost its compare; giving up takes three.
   */
  ghost predicate CallOk(s: Store, n: nat, c: Call) {
    LostOk(c.lost, n) &&
    match c
    case Reading(_, attempt, lost) => attempt == |lost| <= 2
    case Computed(req, attempt, lost, at, rev, base, next) =>
      && attempt == |lost| <= 2 && at <= n && (lost != [] ==> lost[|lost| - 1].to <= at)
      && rev <= s.rev && (at == n ==> rev == s.modRev)
      && ApplySwap(base, req) == Some(next)
      && (rev == 0 ==> base == None)
      && (rev == s.modRev ==> base == s.value)
    case Done(_, tries, lost, result) =>
      if result == Nil then tries == |lost| + 1 <= 3
      else if result == Deadline then tries == |lost| == 3
      else |lost| <= tries <= |lost| + 1 <= 3
  }

  ghost predicate CountOk(n: nat, c: Call) {
    match c
    case Reading(_, _, _) => n == 0
    case Computed(_, _, _, _, _, _, _) => n == 0
    case Done(_, _, _, result) => if result == Nil then n == 1 else if result == Deadline then n == 0 else n <= 1
  }

  ghost predicate StoreOk(s: Store) {
    s.modRev <= s.rev && (s.value == None <==> s.modRev == 0)
  }

  ghost predicate CallsOk(s: State) {
    && (forall id :: id in s.calls ==>
          CallOk(s.store, |s.log|, s.calls[id]) && CountOk(WritesBy(s.log, id), s.calls[id]))
    && (forall id :: id !in s.calls ==> WritesBy(s.log, id) == 0)
  }

  ghost predicate JobOk(s: State, j: Job) {
    j.from <= |s.log| && j.base == Val(s.start, s.log[..j.from])
  }

  /** A write was computed by its rule: a call's from the value it replaced, a job's from the one it had read. */
  ghost predicate WriteOk(s: State, i: nat)
    requires i < |s.log|
  {
    match s.log[i]
    case ByCall(_, req) => ApplySwap(Val(s.start, s.log[..i]), req).Some?
    case ByJob(_, from, change) => from <= i && Modify(Val(s.start, s.log[..from]), change).Some?
    case Raw(_) => true
  }

  ghost predicate LogOk(s: State) {
    && s.store.value == Val(s.start, s.log)
    && (forall j :: j in s.jobs ==> JobOk(s, s.jobs[j]))
    && (forall i :: 0 <= i < |s.log| ==> WriteOk(s, i))
  }

  ghost predicate Inv(s: State) {
    StoreOk(s.store) && CallsOk(s) && LogOk(s)
  }

  /** Any write moves the key to a revision no call can have seen. */
  lemma WriteKeepsCalls(s: Store, t: Store, n: nat, c: Call)
    requires StoreOk(s) && CallOk(s, n, c)
    requires t == Store(None, 0, s.rev + 1) || (t.value.Some? && t == Put(s, t.value.value))
    ensures CallOk(t, n + 1, c)
  {
  }

  /** What a write must be like to keep the log's part of the invariant. */
  lemma WriteLogOk(s: State, store: Store, w: Write)
    requires LogOk(s) && store.value == Val(s.start, s.log + [w])
    requires w.ByCall? ==> ApplySwap(s.store.value, w.req).Some?
    requires w.ByJob? ==> w.from <= |s.log| && Modify(Val(s.start, s.log[..w.from]), w.change).Some?
    ensures LogOk(WriteTo(s, store, w))
  {
    hide Val, ApplySwap, Modify;
    var t := WriteTo(s, store, w);
    assert forall n :: 0 <= n <= |s.log| ==> t.log[..n] == s.log[..n];
    forall i | 0 <= i < |t.log| ensures WriteOk(t, i) {
      if i < |s.log| {
        assert WriteOk(s, i);
      } else {
        assert t.log[..i] == s.log;
      }
    }
    forall j | j in t.jobs ensures JobOk(t, t.jobs[j]) { assert JobOk(s, s.jobs[j]); }
  }

  lemma WriteCallsOk(s: State, store: Store, w: Write)
    requires StoreOk(s.store) && CallsOk(s) && !w.ByCall?
    requires store == Store(None, 0, s.store.rev + 1) || (store.value.Some? && store == Put(s.store, store.value.value))
    ensures CallsOk(WriteTo(s, store, w)) && StoreOk(store)
  {
    hide CallOk, CountOk, WritesBy;
    forall id ensures WritesBy(s.log + [w], id) == WritesBy(s.log, id) { WritesBySnoc(s.log, w, id); }
    forall id | id in s.calls ensures CallOk(store, |s.log| + 1, s.calls[id]) {
      WriteKeepsCalls(s.store, store, |s.log|, s.calls[id]);
    }
  }

  lemma BaseIsCurrent(s: Store, n: nat, c: Call)
    requires c.Computed? && CallOk(s, n, c) && c.rev == s.modRev
    ensures ApplySwap(s.value, c.req) == Some(c.next)
  {
  }

  lemma CommitInv(s: State, id: nat, c: Call, result: Result)
    requires Inv(s) && id in s.calls && s.calls[id] == c && c.Computed? && c.rev == s.store.modRev
    requires result == Nil || result == Failed
    ensures Inv(Set(CommitOf(s, id, c), id, Done(c.req, c.attempt + 1, c.lost, result)))
  {
    var store, w := Put(s.store, Parsed(c.next)), ByCall(id, c.req);
    BaseIsCurrent(s.store, |s.log|, c);
    assert c.attempt == |c.lost| <= 2 && LostOk(c.lost, |s.log|);
    ValSnoc(s.start, s.log, w);
    assert Applied(w, s.store.value) == Some(Parsed(c.next));
    hide ApplySwap, WritesBy, CallOk, Val, Applied;
    WriteLogOk(s, store, w);
    forall j ensures WritesBy(s.log + [w], j) == WritesBy(s.log, j) + if j == id then 1 else 0 {
      WritesBySnoc(s.log, w, j);
    }
    forall j | j in s.calls ensures CallOk(store, |s.log| + 1, s.calls[j]) {
      WriteKeepsCalls(s.store, store, |s.log|, s.calls[j]);
    }
    DoneOk(store, |s.log| + 1, c.req, c.lost, result);
    SetLogOk(CommitOf(s, id, c), id, Done(c.req, c.attempt + 1, c.lost, result));
  }

  lemma DoneOk(s: Store, n: nat, req: Request, lost: seq<Loss>, result: Result)
    requires n > 0 && LostOk(lost, n - 1) && |lost| <= 2 && result != Deadline
    ensures CallOk(s, n, Done(req, |lost| + 1, lost, result))
  {
  }

  lemma SetLogOk(s: State, id: nat, c: Call)
    requires LogOk(s)
    ensures LogOk(Set(s, id, c))
  {
    hide Val;
    var t := Set(s, id, c);
    forall i | 0 <= i < |t.log| ensures WriteOk(t, i) { assert WriteOk(s, i); }
    forall j | j in t.jobs ensures JobOk(t, t.jobs[j]) { assert JobOk(s, s.jobs[j]); }
  }

  lemma SetInv(s: State, id: nat, c: Call)
    requires Inv(s) && CallOk(s.store, |s.log|, c) && CountOk(WritesBy(s.log, id), c)
    ensures Inv(Set(s, id, c))
  {
    hide WritesBy, CallOk, CountOk, LogOk;
    SetLogOk(s, id, c);
  }

  lemma InvFacts(s: State, id: nat)
    requires Inv(s)
    ensures StoreOk(s.store)
    ensures id in s.calls ==>
              CallOk(s.store, |s.log|, s.calls[id]) && CountOk(WritesBy(s.log, id), s.calls[id])
    ensures id !in s.calls ==> WritesBy(s.log, id) == 0
  {
    hide LogOk;
  }

  lemma CallInv(s: State, step: Step)
    requires Inv(s) && CallNext(s, step).Some?
    ensures Inv(CallNext(s, step).value)
  {
    hide ApplySwap, WritesBy, Inv;
    InvFacts(s, step.id);
    match step
    case Begin(id, req) => SetInv(s, id, Reading(req, 0, []));
    case Get(id) =>
      var c, next := s.calls[id], ApplySwap(s.store.value, s.calls[id].req);
      if next.None? { SetInv(s, id, Done(c.req, c.attempt, c.lost, Failed)); }
      else { SetInv(s, id, Computed(c.req, c.attempt, c.lost, |s.log|, s.store.modRev, s.store.value, next.value)); }
    case GetFails(id) => SetInv(s, id, Done(s.calls[id].req, s.calls[id].attempt, s.calls[id].lost, Failed));
    case Txn(id) =>
      var c := s.calls[id];
      var lost := c.lost + [Loss(c.at, |s.log|)];
      if c.rev == s.store.modRev { CommitInv(s, id, c, Nil); }
      else if c.attempt >= 2 { SetInv(s, id, Done(c.req, c.attempt + 1, lost, Deadline)); }
      else { SetInv(s, id, Reading(c.req, c.attempt + 1, lost)); }
    case TxnErrs(id, applied) =>
      var c := s.calls[id];
      if applied && c.rev == s.store.modRev { CommitInv(s, id, c, Failed); }
      else { SetInv(s, id, Done(c.req, c.attempt + 1, c.lost, Failed)); }
  }

  lemma JobsInv(s: State, jobs: map<nat, Job>)
    requires Inv(s) && forall j :: j in jobs ==> JobOk(s, jobs[j])
    ensures Inv(s.(jobs := jobs))
  {
    hide Val;
    var t := s.(jobs := jobs);
    forall i | 0 <= i < |t.log| ensures WriteOk(t, i) { assert WriteOk(s, i); }
    forall j | j in t.jobs ensures JobOk(t, t.jobs[j]) { assert JobOk(s, jobs[j]); }
  }

  lemma RawInv(s: State, store: Store, w: Write)
    requires Inv(s) && w.Raw? && w.value == store.value
    requires store == Store(None, 0, s.store.rev + 1) || (store.value.Some? && store == Put(s.store, store.value.value))
    ensures Inv(WriteTo(s, store, w))
  {
    ValSnoc(s.start, s.log, w);
    hide Val, CallsOk, LogOk;
    WriteLogOk(s, store, w);
    WriteCallsOk(s, store, w);
  }

  lemma JobPutInv(s: State, j: nat)
    requires Inv(s) && BlindNext(s, SyncPut(j)).Some?
    ensures Inv(BlindNext(s, SyncPut(j)).value)
  {
    var job := s.jobs[j];
    var doc, w := Modify(job.base, job.change).value, ByJob(j, job.from, job.change);
    var store := Put(s.store, Parsed(doc));
    assert JobOk(s, job);
    ValSnoc(s.start, s.log, w);
    hide Val, Modify;
    WriteLogOk(s, store, w);
    WriteCallsOk(s, store, w);
    hide CallsOk, WriteOk, StoreOk;
    var t := WriteTo(s, store, w);
    assert forall k :: k in s.jobs - {j} ==> JobOk(t, s.jobs[k]);
    JobsInv(t, s.jobs - {j});
  }

  lemma BlindInv(s: State, step: Step)
    requires Inv(s) && BlindNext(s, step).Some?
    ensures Inv(BlindNext(s, step).value)
  {
    hide CallsOk, WriteOk, Val;
    match step
    case SyncGet(j, change) =>
      if s.store.value != Some(Garbage) {
        assert s.log[..|s.log|] == s.log;
        JobsInv(s, s.jobs[j := Job(|s.log|, s.store.value, change)]);
      }
    case SyncPut(j) => JobPutInv(s, j);
    case SyncDrops(j) => JobsInv(s, s.jobs - {j});
    case BlindPut(v) => RawInv(s, Put(s.store, v), Raw(Some(v)));
    case Delete => RawInv(s, Store(None, 0, s.store.rev + 1), Raw(None));
  }

  /**
   Over every interleaving of compare-and-put calls, sync jobs, raw writes and
   lost answers: each compare-and-put replaced the value current at that moment
   by its transform, each job's put replaced it by the change of the value the
   job had read; a call that returned nil wrote exactly once; one that gave up
   never did, and had lost three compares, each to a write between its get and
   its put.
   */
  lemma {:induction false} RunInv(v: Option<Value>, steps: seq<Step>)
    requires Run(v, steps).Some?
    ensures Inv(Run(v, steps).value) && Run(v, steps).value.start == v
    decreases |steps|
  {
    if steps == [] {
      assert Inv(Initial(v));
    } else {
      var s, step := Run(v, steps[..|steps| - 1]).value, steps[|steps| - 1];
      RunInv(v, steps[..|steps| - 1]);
      KeepsStart(s, step);
      hide Inv, CallNext, BlindNext;
      if OfCall(step) { CallInv(s, step); } else { BlindInv(s, step); }
    }
  }

  lemma KeepsStart(s: State, step: Step)
    requires Next(s, step).Some?
    ensures Next(s, step).value.start == s.start
  {
    hide ApplySwap, Modify;
  }

  // ---- giving up and coming through ----------------------------------------

  /** A call gives up only after three attempts, with a write of another between the get and the put of each. */
  lemma GivesUpAfterThree(v: Option<Value>, steps: seq<Step>, id: nat)
    requires Run(v, steps).Some? && id in Run(v, steps).value.calls
    requires Run(v, steps).value.calls[id].Done? && Run(v, steps).value.calls[id].result == Deadline
    ensures var s := Run(v, steps).value; var c := s.calls[id];
            && c.tries == 3 && |c.lost| == 3
            && c.lost[0].from < c.lost[0].to <= c.lost[1].from < c.lost[1].to <= c.lost[2].from < c.lost[2].to
            && c.lost[2].to <= |s.log|
            && forall i :: 0 <= i < |s.log| && s.log[i].ByCall? ==> s.log[i].id != id
  {
    RunInv(v, steps);
    var s := Run(v, steps).value;
    InvFacts(s, id);
    forall i | 0 <= i < |s.log| && s.log[i].ByCall? ensures s.log[i].id != id { NoWrite(s.log, id, i); }
  }

  lemma {:induction false} NoWrite(log: seq<Write>, id: nat, i: nat)
    requires WritesBy(log, id) == 0 && i < |log| && log[i].ByCall?
    ensures log[i].id != id
    decreases |log|
  {
    if i < |log| - 1 { NoWrite(log[..|log| - 1], id, i); }
  }

  /** A call that nobody writes in front of commits: its put returns nil. */
  lemma UncontendedCommits(v: Option<Value>, steps: seq<Step>, id: nat)
    requires Run(v, steps).Some? && id in Run(v, steps).value.calls
    requires Run(v, steps).value.calls[id].Computed?
    requires Run(v, steps).value.calls[id].at == |Run(v, steps).value.log|
    ensures var s, r := Run(v, steps).value, Run(v, steps + [Txn(id)]);
            && r.Some? && id in r.value.calls && r.value.calls[id].Done? && r.value.calls[id].result == Nil
            && r.value.log == s.log + [ByCall(id, s.calls[id].req)]
  {
    RunInv(v, steps);
    InvFacts(Run(v, steps).value, id);
    assert (steps + [Txn(id)])[..|steps|] == steps;
  }

  lemma RunSnoc(v: Option<Value>, steps: seq<Step>, step: Step)
    requires Run(v, steps).Some?
    ensures Run(v, steps + [step]) == Next(Run(v, steps).value, step)
  {
    hide Next;
    assert (steps + [step])[..|steps|] == steps;
  }

  const TWO_READ := [Begin(0, NOTHING)] + [Begin(1, NOTHING)] + [Get(0)] + [Get(1)]
  const NOTHING := Request("P", [], false)

  lemma TwoRead(d: Doc, next: Doc)
    requires ApplySwap(Some(Parsed(d)), NOTHING) == Some(next)
    ensures var r := Run(Some(Parsed(d)), TWO_READ);
            && r.Some? && r.value.log == [] && r.value.store == Store(Some(Parsed(d)), 1, 1)
            && 0 in r.value.calls && 1 in r.value.calls
            && r.value.calls[0] == r.value.calls[1] == Computed(NOTHING, 0, [], 0, 1, Some(Parsed(d)), next)
  {
    var v := Some(Parsed(d));
    assert Run(v, []) == Some(Initial(v));
    hide Run, ApplySwap;
    RunSnoc(v, [], Begin(0, NOTHING));
    assert [] + [Begin(0, NOTHING)] == [Begin(0, NOTHING)];
    RunSnoc(v, [Begin(0, NOTHING)], Begin(1, NOTHING));
    RunSnoc(v, [Begin(0, NOTHING)] + [Begin(1, NOTHING)], Get(0));
    RunSnoc(v, [Begin(0, NOTHING)] + [Begin(1, NOTHING)] + [Get(0)], Get(1));
  }

  /** Two calls read the same revision: the one that puts second reads again and comes through at its second try. */
  lemma RetryComesThrough(d: Doc)
    ensures var r := Run(Some(Parsed(d)), TWO_READ + [Txn(1)] + [Txn(0)] + [Get(0)] + [Txn(0)]);
            && r.Some? && 0 in r.value.calls && 1 in r.value.calls
            && r.value.calls[1] == Done(NOTHING, 1, [], Nil)
            && r.value.calls[0] == Done(NOTHING, 2, [Loss(0, 1)], Nil)
            && r.value.log == [ByCall(1, NOTHING), ByCall(0, NOTHING)]
  {
    var v := Some(Parsed(d));
    var next := ApplySwap(v, NOTHING).value;
    var again := ApplySwap(Some(Parsed(next)), NOTHING);
    assert again.Some?;
    TwoRead(d, next);
    hide Run, ApplySwap;
    RunSnoc(v, TWO_READ, Txn(1));
    RunSnoc(v, TWO_READ + [Txn(1)], Txn(0));
    RunSnoc(v, TWO_READ + [Txn(1)] + [Txn(0)], Get(0));
    RunSnoc(v, TWO_READ + [Txn(1)] + [Txn(0)] + [Get(0)], Txn(0));
  }
}
