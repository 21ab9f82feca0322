/** Publishing a batch, halving it as long as the publisher calls it too long. */
module FlushSplitting {

  datatype Outcome = Sent | TooLong | OtherError

  /** The publisher: the outcome of the n-th call on a batch. */
  type Publisher<!T> = (nat, seq<T>) -> Outcome

  datatype Log<T> = Log(calls: nat, published: seq<seq<T>>, dropped: seq<T>, ok: nat, err: nat)

  function FlushSplit<T>(pub: Publisher<T>, l: Log<T>, envs: seq<T>): Log<T>
    decreases |envs|
  {
    if envs == [] then l
    else
      var o, m := pub(l.calls, envs), l.(calls := l.calls + 1);
      if o.Sent? then m.(published := m.published + [envs], ok := m.ok + |envs|)
      else if o.TooLong? && |envs| > 1 then
        var mid := |envs| / 2;
        FlushSplit(pub, FlushSplit(pub, m, envs[..mid]), envs[mid..])
      else m.(dropped := m.dropped + envs, err := m.err + |envs|)
  }

  /** The worker's counters and what went out, changed in place. */
  class Worker<T> {
    const pub: Publisher<T>
    var calls: nat
    ghost var published: seq<seq<T>>
    ghost var dropped: seq<T>
    var totalPubOK: nat
    var totalPubErr: nat

    ghost function Abs(): Log<T>
      reads this
    {
      Log(calls, published, dropped, totalPubOK, totalPubErr)
    }

    constructor (pub: Publisher<T>)
      ensures this.pub == pub && Abs() == Log(0, [], [], 0, 0)
    {
      this.pub := pub;
      calls, totalPubOK, totalPubErr := 0, 0, 0;
      published, dropped := [], [];
    }

    /** One publish call; counts the batch when it went out. */
    method PublishOne(envs: seq<T>) returns (o: Outcome)
      modifies this
      ensures o == pub(old(calls), envs)
      ensures var m := old(Abs()).(calls := old(calls) + 1);
              Abs() == if o.Sent? then m.(published := m.published + [envs], ok := m.ok + |envs|) else m
    {
      o := pub(calls, envs);
      calls := calls + 1;
      if o.Sent? {
        totalPubOK := totalPubOK + |envs|;
        published := published + [envs];
      }
    }

    method Flush(envs: seq<T>)
      modifies this
      ensures Abs() == FlushSplit(pub, old(Abs()), envs)
      decreases |envs|
    {
      if |envs| == 0 {
        return;
      }
      var o := PublishOne(envs);
      if o.Sent? {
        return;
      }
      if o.TooLong? && |envs| > 1 {
        var mid := |envs| / 2;
        Flush(envs[..mid]);
        Flush(envs[mid..]);
        return;
      }
      totalPubErr := totalPubErr + |envs|;
      dropped := dropped + envs;
    }
  }

  // ---- any publisher -------------------------------------------------------

  function Flat<T>(bs: seq<seq<T>>): seq<T> {
    if bs == [] then [] else Flat(bs[..|bs| - 1]) + bs[|bs| - 1]
  }

  lemma FlatSnoc<T>(bs: seq<seq<T>>, b: seq<T>)
    ensures Flat(bs + [b]) == Flat(bs) + b
  {
    assert (bs + [b])[..|bs|] == bs;
  }

  /** Unfolding of a split. */
  lemma FlushHalves<T>(pub: Publisher<T>, l: Log<T>, envs: seq<T>)
    requires |envs| > 1 && pub(l.calls, envs).TooLong?
    ensures var mid := |envs| / 2;
            FlushSplit(pub, l, envs)
            == FlushSplit(pub, FlushSplit(pub, l.(calls := l.calls + 1), envs[..mid]), envs[mid..])
  {
  }

  lemma FlushWhole<T>(pub: Publisher<T>, l: Log<T>, envs: seq<T>)
    requires envs != [] && (|envs| == 1 || !pub(l.calls, envs).TooLong?)
    ensures var m := l.(calls := l.calls + 1);
            FlushSplit(pub, l, envs)
            == if pub(l.calls, envs).Sent? then m.(published := m.published + [envs], ok := m.ok + |envs|)
               else m.(dropped := m.dropped + envs, err := m.err + |envs|)
  {
  }

  /** At most 2n - 1 calls; the two counters together rise by exactly n. */
  lemma {:induction false} FlushCounts<T>(pub: Publisher<T>, l: Log<T>, envs: seq<T>)
    ensures var r := FlushSplit(pub, l, envs);
            && r.ok + r.err == l.ok + l.err + |envs|
            && r.calls <= l.calls + (if envs == [] then 0 else 2 * |envs| - 1)
    decreases |envs|
  {
    if envs == [] {
    } else if pub(l.calls, envs).TooLong? && |envs| > 1 {
      var a, b := envs[..|envs| / 2], envs[|envs| / 2..];
      FlushHalves(pub, l, envs);
      hide FlushSplit;
      FlushCounts(pub, l.(calls := l.calls + 1), a);
      FlushCounts(pub, FlushSplit(pub, l.(calls := l.calls + 1), a), b);
    } else {
      FlushWhole(pub, l, envs);
    }
  }

  /** What has left the worker, either way. */
  ghost function Out<T>(l: Log<T>): multiset<T> { multiset(Flat(l.published)) + multiset(l.dropped) }

  /** Whatever the publisher answers, every envelope is published or dropped, and only once. */
  lemma {:induction false} FlushConserves<T>(pub: Publisher<T>, l: Log<T>, envs: seq<T>)
    ensures Out(FlushSplit(pub, l, envs)) == Out(l) + multiset(envs)
    decreases |envs|
  {
    if envs == [] {
    } else if pub(l.calls, envs).TooLong? && |envs| > 1 {
      var a, b := envs[..|envs| / 2], envs[|envs| / 2..];
      FlushHalves(pub, l, envs);
      hide FlushSplit, Flat;
      FlushConserves(pub, l.(calls := l.calls + 1), a);
      FlushConserves(pub, FlushSplit(pub, l.(calls := l.calls + 1), a), b);
      assert envs == a + b;
    } else {
      FlushWhole(pub, l, envs);
      WholeOut(l, FlushSplit(pub, l, envs), envs);
    }
  }

  lemma WholeOut<T>(l: Log<T>, r: Log<T>, envs: seq<T>)
    requires (r.published == l.published + [envs] && r.dropped == l.dropped)
          || (r.published == l.published && r.dropped == l.dropped + envs)
    ensures Out(r) == Out(l) + multiset(envs)
  {
    FlatSnoc(l.published, envs);
  }

  // ---- a publisher limited by size -----------------------------------------

  /** A batch is refused, as too long, exactly when its size exceeds the limit. */
  ghost predicate SizeLimited<T(!new)>(pub: Publisher<T>, size: seq<T> -> nat, limit: nat) {
    forall n, envs :: pub(n, envs) == if size(envs) > limit then TooLong else Sent
  }

  /** A part of a batch is no larger than the batch. */
  ghost predicate Monotone<T(!new)>(size: seq<T> -> nat) {
    forall a, b, c {:trigger size(b), a + b + c} :: b != [] ==> size(b) <= size(a + b + c)
  }

  function Pick<T>(size: seq<T> -> nat, limit: nat, e: T, fits: bool): seq<T> {
    if (size([e]) <= limit) == fits then [e] else []
  }

  /** The envelopes that fit alone, or those that do not, in order. */
  function Fitting<T>(size: seq<T> -> nat, limit: nat, envs: seq<T>, fits: bool): seq<T> {
    if envs == [] then [] else Pick(size, limit, envs[0], fits) + Fitting(size, limit, envs[1..], fits)
  }

  lemma {:induction false} FittingConcat<T>(size: seq<T> -> nat, limit: nat, a: seq<T>, b: seq<T>, fits: bool)
    ensures Fitting(size, limit, a + b, fits) == Fitting(size, limit, a, fits) + Fitting(size, limit, b, fits)
    decreases |a|
  {
    hide Pick;
    if a == [] {
      assert a + b == b;
    } else {
      assert (a + b)[1..] == a[1..] + b;
      FittingConcat(size, limit, a[1..], b, fits);
      var h, x, y := Pick(size, limit, a[0], fits), Fitting(size, limit, a[1..], fits), Fitting(size, limit, b, fits);
      assert h + (x + y) == (h + x) + y;
    }
  }

  /** In a batch that fits, every envelope fits. */
  lemma {:induction false} AllFit<T(!new)>(size: seq<T> -> nat, limit: nat, before: seq<T>, envs: seq<T>)
    requires Monotone(size) && size(before + envs) <= limit
    ensures Fitting(size, limit, envs, true) == envs && Fitting(size, limit, envs, false) == []
    decreases |envs|
  {
    if envs != [] {
      var e := [envs[0]];
      assert before + e + envs[1..] == before + envs;
      assert size(e) <= size(before + e + envs[1..]);
      assert (before + e) + envs[1..] == before + envs;
      AllFit(size, limit, before + e, envs[1..]);
      assert e + envs[1..] == envs;
    }
  }

  /** From `l` to `r`, the fitting ones of `envs` went out in order and the others were dropped. */
  ghost predicate Exactly<T>(size: seq<T> -> nat, limit: nat, l: Log<T>, r: Log<T>, envs: seq<T>) {
    && Flat(r.published) == Flat(l.published) + Fitting(size, limit, envs, true)
    && r.dropped == l.dropped + Fitting(size, limit, envs, false)
    && r.ok == l.ok + |Fitting(size, limit, envs, true)|
    && r.err == l.err + |Fitting(size, limit, envs, false)|
  }

  lemma ExactlyJoin<T>(size: seq<T> -> nat, limit: nat, l: Log<T>, m: Log<T>, r: Log<T>, a: seq<T>, b: seq<T>)
    requires Exactly(size, limit, l, m, a) && Exactly(size, limit, m, r, b)
    ensures Exactly(size, limit, l, r, a + b)
  {
    FittingConcat(size, limit, a, b, true);
    FittingConcat(size, limit, a, b, false);
    hide Fitting, Flat;
    var x, y := Fitting(size, limit, a, true), Fitting(size, limit, b, true);
    assert (Flat(l.published) + x) + y == Flat(l.published) + (x + y);
    var v, w := Fitting(size, limit, a, false), Fitting(size, limit, b, false);
    assert (l.dropped + v) + w == l.dropped + (v + w);
  }

  lemma ExactlySent<T>(size: seq<T> -> nat, limit: nat, l: Log<T>, r: Log<T>, envs: seq<T>)
    requires Fitting(size, limit, envs, true) == envs && Fitting(size, limit, envs, false) == []
    requires r == Log(r.calls, l.published + [envs], l.dropped, l.ok + |envs|, l.err)
    ensures Exactly(size, limit, l, r, envs)
  {
    FlatSnoc(l.published, envs);
  }

  lemma ExactlyDropped<T>(size: seq<T> -> nat, limit: nat, l: Log<T>, r: Log<T>, envs: seq<T>)
    requires Fitting(size, limit, envs, true) == [] && Fitting(size, limit, envs, false) == envs
    requires r == Log(r.calls, l.published, l.dropped + envs, l.ok, l.err + |envs|)
    ensures Exactly(size, limit, l, r, envs)
  {
  }

  lemma ExactWhole<T(!new)>(pub: Publisher<T>, size: seq<T> -> nat, limit: nat, l: Log<T>, envs: seq<T>)
    requires SizeLimited(pub, size, limit) && Monotone(size) && envs != [] && (size(envs) <= limit || |envs| == 1)
    ensures Exactly(size, limit, l, FlushSplit(pub, l, envs), envs)
  {
    hide Monotone, Exactly;
    FlushWhole(pub, l, envs);
    if size(envs) <= limit {
      assert [] + envs == envs;
      AllFit(size, limit, [], envs);
      ExactlySent(size, limit, l, FlushSplit(pub, l, envs), envs);
    } else {
      OneTooBig(size, limit, envs);
      ExactlyDropped(size, limit, l, FlushSplit(pub, l, envs), envs);
    }
  }

  /**
   Under a size limit, splitting publishes every envelope that fits alone,
   once and in the original order, and drops exactly the others.
   */
  lemma {:induction false} FlushExact<T(!new)>(pub: Publisher<T>, size: seq<T> -> nat, limit: nat,
                                               l: Log<T>, envs: seq<T>)
    requires SizeLimited(pub, size, limit) && Monotone(size)
    ensures Exactly(size, limit, l, FlushSplit(pub, l, envs), envs)
    decreases |envs|
  {
    if envs == [] {
    } else if size(envs) > limit && |envs| > 1 {
      FlushHalves(pub, l, envs);
      hide FlushSplit, Monotone, SizeLimited, Fitting, Flat;
      var a, b := envs[..|envs| / 2], envs[|envs| / 2..];
      var m := l.(calls := l.calls + 1);
      var h := FlushSplit(pub, m, a);
      FlushExact(pub, size, limit, m, a);
      FlushExact(pub, size, limit, h, b);
      assert envs == a + b;
      assert Exactly(size, limit, l, h, a);
      ExactlyJoin(size, limit, l, h, FlushSplit(pub, h, b), a, b);
    } else {
      ExactWhole(pub, size, limit, l, envs);
    }
  }

  lemma OneTooBig<T>(size: seq<T> -> nat, limit: nat, envs: seq<T>)
    requires |envs| == 1 && size(envs) > limit
    ensures Fitting(size, limit, envs, true) == [] && Fitting(size, limit, envs, false) == envs
  {
    assert envs == [envs[0]] && envs[1..] == [];
    assert Fitting(size, limit, envs[1..], true) == [] && Fitting(size, limit, envs[1..], false) == [];
  }

  // ---- the broker's encoding -----------------------------------------------

  const MAX_PUSH_LEN := 1512

  function Sum<T>(len: T -> nat, envs: seq<T>): nat {
    if envs == [] then 0 else len(envs[0]) + Sum(len, envs[1..])
  }

  lemma {:induction false} SumConcat<T>(len: T -> nat, a: seq<T>, b: seq<T>)
    ensures Sum(len, a + b) == Sum(len, a) + Sum(len, b)
    decreases |a|
  {
    if a == [] {
      assert a + b == b;
    } else {
      assert (a + b)[1..] == a[1..] + b;
      SumConcat(len, a[1..], b);
    }
  }

  /** Bytes of the payload: one JSON object alone, or several as a JSON array. */
  function PayloadSize<T>(len: T -> nat, envs: seq<T>): nat {
    if |envs| == 1 then len(envs[0]) else Sum(len, envs) + |envs| + 1
  }

  /** The payload of several envelopes: their JSON texts between brackets, separated by commas. */
  function BatchText(texts: seq<string>): string
    requires texts != []
  {
    if |texts| == 1 then texts[0] else "[" + Joined(texts) + "]"
  }

  function Joined(texts: seq<string>): string
    requires texts != []
  {
    if |texts| == 1 then texts[0] else texts[0] + "," + Joined(texts[1..])
  }

  lemma {:induction false} JoinedSize(texts: seq<string>)
    requires texts != []
    ensures |Joined(texts)| == Sum((t: string) => |t|, texts) + |texts| - 1
    decreases |texts|
  {
    if |texts| > 1 { JoinedSize(texts[1..]); } else { assert texts[1..] == []; }
  }

  /** The payload size is the length of that text. */
  lemma PayloadIsText(texts: seq<string>)
    requires texts != []
    ensures PayloadSize((t: string) => |t|, texts) == |BatchText(texts)|
  {
    JoinedSize(texts);
  }

  lemma PayloadMonotone<T>(len: T -> nat, a: seq<T>, b: seq<T>, c: seq<T>)
    requires b != []
    ensures PayloadSize(len, b) <= PayloadSize(len, a + b + c)
  {
    SumConcat(len, a + b, c);
    SumConcat(len, a, b);
    if |b| == 1 {
      assert b == [b[0]] && b[1..] == [];
      assert Sum(len, b) == len(b[0]);
      if |a + b + c| == 1 { assert a + b + c == b; }
    }
  }

  function BrokerSize<T>(len: T -> nat): seq<T> -> nat { envs => PayloadSize(len, envs) }

  /** The broker publisher while the broker takes what it is given. */
  function Broker<T>(len: T -> nat): Publisher<T> {
    (_, envs) => if PayloadSize(len, envs) > MAX_PUSH_LEN then TooLong else Sent
  }

  /** The broker publisher refuses as too long exactly what exceeds the message, and parts are no larger. */
  lemma BrokerLimited<T(!new)>(len: T -> nat)
    ensures Monotone(BrokerSize(len)) && SizeLimited(Broker(len), BrokerSize(len), MAX_PUSH_LEN)
  {
    forall a: seq<T>, b: seq<T>, c: seq<T> | b != []
      ensures BrokerSize(len)(b) <= BrokerSize(len)(a + b + c)
    {
      PayloadMonotone(len, a, b, c);
    }
  }

  /** So over the broker exactly the envelopes of at most 1512 bytes go out, in order, and exactly the others drop. */
  lemma BrokerExact<T(!new)>(len: T -> nat, l: Log<T>, envs: seq<T>)
    ensures var r := FlushSplit(Broker(len), l, envs);
            && Flat(r.published) == Flat(l.published) + Fitting(BrokerSize(len), MAX_PUSH_LEN, envs, true)
            && r.dropped == l.dropped + Fitting(BrokerSize(len), MAX_PUSH_LEN, envs, false)
    ensures forall e :: e in Fitting(BrokerSize(len), MAX_PUSH_LEN, envs, true) <==> e in envs && len(e) <= 1512
  {
    BrokerLimited(len);
    FlushExact(Broker(len), BrokerSize(len), MAX_PUSH_LEN, l, envs);
    FittingElems(BrokerSize(len), MAX_PUSH_LEN, envs);
    forall e ensures BrokerSize(len)([e]) == len(e) {}
  }

  lemma {:induction false} FittingElems<T(!new)>(size: seq<T> -> nat, limit: nat, envs: seq<T>)
    ensures forall e :: e in Fitting(size, limit, envs, true) <==> e in envs && size([e]) <= limit
    decreases |envs|
  {
    if envs != [] {
      FittingElems(size, limit, envs[1..]);
      assert envs == [envs[0]] + envs[1..];
    }
  }
}
