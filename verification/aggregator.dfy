/** The aggregator object: a map of open bars, changed by ticks and sweeps, with a close callback. */
module BarAggregator {
  import opened Options
  import opened Bars
  import opened Aggregation

  datatype SymbolEntry = SymbolEntry(pair: Pair, active: bool)
  datatype RawTick = RawTick(symbol: string, body: string, received: int)
  datatype BidAsk = BidAsk(bid: real, ask: real)
  type Decoder = string -> Option<BidAsk>

  function KeyOf(b: Bar): BarKey { BarKey(b.pair, b.tf) }

  /** The bars of one key among those handed to the callback. */
  function LogOf(log: seq<Bar>, k: BarKey): seq<Bar> {
    if log == [] then []
    else
      var rest, b := LogOf(log[..|log| - 1], k), log[|log| - 1];
      if KeyOf(b) == k then rest + [b] else rest
  }

  lemma LogOfSnoc(log: seq<Bar>, b: Bar, k: BarKey)
    ensures LogOf(log + [b], k) == LogOf(log, k) + if KeyOf(b) == k then [b] else []
  {
    assert (log + [b])[..|log|] == log;
  }

  lemma OneMoreTimeframe(i: nat)
    requires i < |ALL_TIMEFRAMES|
    ensures ALL_TIMEFRAMES[..i + 1] == ALL_TIMEFRAMES[..i] + [ALL_TIMEFRAMES[i]]
    ensures ALL_TIMEFRAMES[i] !in ALL_TIMEFRAMES[..i]
  {
  }

  lemma EveryTimeframe()
    ensures forall tf :: tf in ALL_TIMEFRAMES
    ensures ALL_TIMEFRAMES[..|ALL_TIMEFRAMES|] == ALL_TIMEFRAMES
  {
    forall tf: Timeframe ensures tf in ALL_TIMEFRAMES {
      var i := match tf
        case TF1s => 0 case TF30s => 1 case TF1m => 2 case TF5m => 3
        case TF15m => 4 case TF1h => 5 case TF4h => 6 case TF1d => 7;
      assert ALL_TIMEFRAMES[i] == tf;
    }
  }

  class Aggregator {
    var symbols: map<string, SymbolEntry>
    const decoder: Option<Decoder>
    var bars: map<BarKey, Bar>
    /** Calls of the close callback, in order. */
    ghost var emitted: seq<Bar>
    /** The accepted ticks and the sweeps so far. */
    ghost var history: seq<Event>

    ghost function View(k: BarKey): KeyState
      reads this`bars, this`emitted
    {
      KeyState(LogOf(emitted, k), if k in bars then Some(bars[k]) else None)
    }

    ghost predicate KeysMatch()
      reads this`bars
    {
      forall k :: k in bars ==> KeyOf(bars[k]) == k
    }

    /** The object's state is that of the key machine run on the history, for every key. */
    ghost predicate Valid()
      reads this
    {
      KeysMatch() && forall k :: View(k) == RunKey(k, history)
    }

    constructor (symbols: map<string, SymbolEntry>, decoder: Option<Decoder>)
      ensures Valid() && history == [] && this.symbols == symbols && this.decoder == decoder
    {
      this.symbols, this.decoder := symbols, decoder;
      bars, emitted, history := map[], [], [];
    }

    /**
     The quote a tick stands for; None for a nil tick, a missing decoder, an
     unknown or inactive symbol, an undecodable body.
     */
    function Accepted(t: Option<RawTick>): Option<Quote>
      reads this
    {
      if t.None? || decoder.None? || t.value.symbol !in symbols || !symbols[t.value.symbol].active then None
      else
        var px := decoder.value(t.value.body);
        if px.None? then None
        else Some(Quote(symbols[t.value.symbol].pair, px.value.bid, px.value.ask, t.value.received))
    }

    /** Calls the callback with the closed bar of key `k`. */
    ghost method Emit(k: BarKey)
      requires k in bars && KeysMatch()
      modifies this`emitted
      ensures emitted == old(emitted) + [Close(bars[k])]
      ensures forall j :: LogOf(emitted, j) == LogOf(old(emitted), j) + if j == k then [Close(bars[k])] else []
    {
      forall j
        ensures LogOf(emitted + [Close(bars[k])], j) == LogOf(emitted, j) + if j == k then [Close(bars[k])] else []
      {
        LogOfSnoc(emitted, Close(bars[k]), j);
      }
      emitted := emitted + [Close(bars[k])];
    }

    method ApplyToKey(tf: Timeframe, q: Quote)
      requires KeysMatch()
      modifies this`bars, this`emitted
      ensures KeysMatch()
      ensures forall k :: View(k) == if k == BarKey(q.pair, tf) then ApplyTo(tf, old(View(k)), q) else old(View(k))
    {
      var key := BarKey(q.pair, tf);
      if key !in bars {
        bars := bars[key := NewBar(tf, q)];
        return;
      }
      var cur := bars[key];
      if Contains(cur, q.ts) {
        bars := bars[key := Update(cur, q)];
        return;
      }
      Emit(key);
      bars := bars[key := NewBar(tf, q)];
    }

    /** The tick is applied to its pair under every timeframe. */
    method ApplyToAll(q: Quote)
      requires KeysMatch()
      modifies this`bars, this`emitted
      ensures KeysMatch()
      ensures forall k :: View(k) == KeyStep(k, old(View(k)), Tick(q))
    {
      hide View, KeysMatch, ApplyTo;
      var i := 0;
      while i < |ALL_TIMEFRAMES|
        invariant 0 <= i <= |ALL_TIMEFRAMES| && KeysMatch()
        invariant forall k :: View(k) == if k.pair == q.pair && k.tf in ALL_TIMEFRAMES[..i]
                                         then ApplyTo(k.tf, old(View(k)), q) else old(View(k))
      {
        OneMoreTimeframe(i);
        ApplyToKey(ALL_TIMEFRAMES[i], q);
        i := i + 1;
      }
      EveryTimeframe();
    }

    method OnTick(t: Option<RawTick>)
      requires Valid()
      modifies this`bars, this`emitted, this`history
      ensures Valid()
      ensures history == old(history) + if Accepted(t).Some? then [Tick(Accepted(t).value)] else []
      ensures (t.None? || decoder.None? || t.value.symbol !in symbols || !symbols[t.value.symbol].active
               || decoder.value(t.value.body).None?) ==> history == old(history)
      ensures t.Some? && decoder.Some? && t.value.symbol in symbols && symbols[t.value.symbol].active
              && decoder.value(t.value.body).Some? ==>
                var px := decoder.value(t.value.body).value;
                history == old(history)
                           + [Tick(Quote(symbols[t.value.symbol].pair, px.bid, px.ask, t.value.received))]
    {
      if t.None? || decoder.None? {
        return;
      }
      if t.value.symbol !in symbols || !symbols[t.value.symbol].active {
        return;
      }
      var px := decoder.value(t.value.body);
      if px.None? {
        return;
      }
      hide View, KeysMatch, KeyStep;
      ApplyToAll(Quote(symbols[t.value.symbol].pair, px.value.bid, px.value.ask, t.value.received));
      history := history + [Tick(Accepted(t).value)];
      assert history[..|history| - 1] == old(history);
    }

    /** Closes the bar of `k` if its window has ended. */
    method SweepOne(k: BarKey, now: int)
      requires KeysMatch() && k in bars
      modifies this`bars, this`emitted
      ensures KeysMatch() && bars.Keys >= old(bars.Keys) - {k}
      ensures forall j :: View(j) == if j == k then SweepKey(old(View(j)), now) else old(View(j))
    {
      if now >= End(bars[k]) {
        Emit(k);
        bars := bars - {k};
      }
    }

    method Sweep(now: int)
      requires Valid()
      modifies this`bars, this`emitted, this`history
      ensures Valid()
      ensures history == old(history) + [Event.Sweep(now)]
    {
      var todo := bars.Keys;
      assert forall k :: k !in bars ==> SweepKey(View(k), now) == View(k);
      hide View, KeysMatch, SweepKey;
      while todo != {}
        invariant todo <= bars.Keys && KeysMatch() && history == old(history)
        invariant forall k :: View(k) == if k in todo then old(View(k)) else SweepKey(old(View(k)), now)
        decreases |todo|
      {
        var k :| k in todo;
        todo := todo - {k};
        SweepOne(k, now);
      }
      history := history + [Event.Sweep(now)];
      assert history[..|history| - 1] == old(history);
    }

    /** Snapshot of the bars still open, one per key. */
    method OpenBars() returns (out: seq<Bar>)
      requires Valid()
      ensures |out| == |bars|
      ensures forall k :: k in bars ==> bars[k] in out
      ensures forall b :: b in out ==> KeyOf(b) in bars && bars[KeyOf(b)] == b
    {
      out := [];
      var todo := bars.Keys;
      while todo != {}
        invariant todo <= bars.Keys && |out| + |todo| == |bars.Keys|
        invariant forall k :: k in bars && k !in todo ==> bars[k] in out
        invariant forall b :: b in out ==> KeyOf(b) in bars && bars[KeyOf(b)] == b
        decreases |todo|
      {
        var k :| k in todo;
        todo := todo - {k};
        out := out + [bars[k]];
      }
    }
  }
}
