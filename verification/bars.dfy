/** Timeframes, quotes and OHLC bars. Instants are nanoseconds; buckets are aligned to the zero instant. */
module Bars {
  import opened Options

  datatype Timeframe = TF1s | TF30s | TF1m | TF5m | TF15m | TF1h | TF4h | TF1d

  const SECOND: int := 1_000_000_000
  const ALL_TIMEFRAMES := [TF1s, TF30s, TF1m, TF5m, TF15m, TF1h, TF4h, TF1d]

  function Duration(tf: Timeframe): (d: int)
    ensures d >= SECOND
  {
    match tf
    case TF1s => SECOND
    case TF30s => 30 * SECOND
    case TF1m => 60 * SECOND
    case TF5m => 300 * SECOND
    case TF15m => 900 * SECOND
    case TF1h => 3600 * SECOND
    case TF4h => 14400 * SECOND
    case TF1d => 86400 * SECOND
  }

  /** Bars of a minute or longer are stored, shorter ones only shown. */
  predicate Persistent(tf: Timeframe) { tf != TF1s && tf != TF30s }

  /** The eight timeframes in nanoseconds. */
  lemma Durations()
    ensures Duration(TF1s) == 1_000_000_000 && Duration(TF30s) == 30_000_000_000
    ensures Duration(TF1m) == 60_000_000_000 && Duration(TF5m) == 300_000_000_000
    ensures Duration(TF15m) == 900_000_000_000 && Duration(TF1h) == 3_600_000_000_000
    ensures Duration(TF4h) == 14_400_000_000_000 && Duration(TF1d) == 86_400_000_000_000
  {
  }

  /** What is stored is what lasts a minute or longer. */
  lemma PersistentIff(tf: Timeframe)
    ensures Persistent(tf) <==> Duration(tf) >= 60_000_000_000
  {
  }

  lemma MulAtLeast(k: int, d: int)
    requires k >= 1 && d > 0
    ensures k * d >= d
  {
  }

  lemma DivUnique(x: int, d: int, q: int)
    requires d > 0 && q * d <= x < q * d + d
    ensures x % d == x - q * d
  {
    var p := x / d;
    assert x == p * d + x % d;
    if q > p { MulAtLeast(q - p, d); } else if q < p { MulAtLeast(p - q, d); }
  }

  lemma RoundedDown(x: int, d: int)
    requires d > 0
    ensures (x - x % d) % d == 0
  {
    assert x - x % d == (x / d) * d;
    DivUnique(x - x % d, d, x / d);
  }

  /** Start of the bucket an instant falls into: the multiple of the duration whose window holds it. */
  function BucketStart(tf: Timeframe, ts: int): (b: int)
    ensures b <= ts < b + Duration(tf) && b % Duration(tf) == 0
  {
    RoundedDown(ts, Duration(tf));
    ts - ts % Duration(tf)
  }

  /** There is only one such multiple. */
  lemma BucketExact(tf: Timeframe, b: int, ts: int)
    ensures b == BucketStart(tf, ts) <==> b % Duration(tf) == 0 && b <= ts < b + Duration(tf)
  {
    var d := Duration(tf);
    if b % d == 0 && b <= ts < b + d {
      assert b == (b / d) * d;
      DivUnique(ts, d, b / d);
    }
  }

  /** An instant inside the window of a bucket start has that bucket start. */
  lemma BucketOf(tf: Timeframe, start: int, ts: int)
    requires BucketStart(tf, start) == start && start <= ts < start + Duration(tf)
    ensures BucketStart(tf, ts) == start
  {
    var d := Duration(tf);
    assert start == (start / d) * d;
    DivUnique(ts, d, start / d);
  }

  lemma BucketIdempotent(tf: Timeframe, ts: int)
    ensures BucketStart(tf, BucketStart(tf, ts)) == BucketStart(tf, ts)
  {
    var d := Duration(tf);
    assert ts - ts % d == (ts / d) * d;
    DivUnique(ts - ts % d, d, ts / d);
  }

  /** An instant at or after the end of a bucket lies in a later bucket. */
  lemma BucketAfter(tf: Timeframe, start: int, ts: int)
    requires BucketStart(tf, start) == start && start + Duration(tf) <= ts
    ensures BucketStart(tf, ts) > start
  {
  }

  type Pair = string

  datatype Quote = Quote(pair: Pair, bid: real, ask: real, ts: int)

  datatype Bar = Bar(pair: Pair, tf: Timeframe, openedAt: int, closedAt: Option<int>,
                     openBid: real, openAsk: real, highBid: real, highAsk: real,
                     lowBid: real, lowAsk: real, closeBid: real, closeAsk: real, tickCount: nat)

  function NewBar(tf: Timeframe, q: Quote): Bar {
    Bar(q.pair, tf, BucketStart(tf, q.ts), None, q.bid, q.ask, q.bid, q.ask, q.bid, q.ask, q.bid, q.ask, 1)
  }

  function Max(a: real, b: real): real { if b > a then b else a }
  function Min(a: real, b: real): real { if b < a then b else a }

  function Update(b: Bar, q: Quote): Bar {
    b.(highBid := Max(b.highBid, q.bid), lowBid := Min(b.lowBid, q.bid),
       highAsk := Max(b.highAsk, q.ask), lowAsk := Min(b.lowAsk, q.ask),
       closeBid := q.bid, closeAsk := q.ask, tickCount := b.tickCount + 1)
  }

  function End(b: Bar): int { b.openedAt + Duration(b.tf) }

  function Close(b: Bar): Bar { b.(closedAt := Some(End(b))) }

  predicate Contains(b: Bar, ts: int) { b.openedAt <= ts < End(b) }

  /** The bar of a non-empty run of ticks: opened by the first, updated by the others. */
  function FoldBar(tf: Timeframe, qs: seq<Quote>): (b: Bar)
    requires qs != []
    ensures b.tf == tf && b.pair == qs[0].pair && b.openedAt == BucketStart(tf, qs[0].ts) && b.closedAt == None
  {
    if |qs| == 1 then NewBar(tf, qs[0]) else Update(FoldBar(tf, qs[..|qs| - 1]), qs[|qs| - 1])
  }

  lemma FoldBarSnoc(tf: Timeframe, qs: seq<Quote>, q: Quote)
    requires qs != []
    ensures FoldBar(tf, qs + [q]) == Update(FoldBar(tf, qs), q)
  {
    assert (qs + [q])[..|qs|] == qs;
  }

  ghost predicate IsMax(x: real, xs: seq<real>) { x in xs && forall i :: 0 <= i < |xs| ==> xs[i] <= x }
  ghost predicate IsMin(x: real, xs: seq<real>) { x in xs && forall i :: 0 <= i < |xs| ==> xs[i] >= x }

  function Bids(qs: seq<Quote>): seq<real> { seq(|qs|, i requires 0 <= i < |qs| => qs[i].bid) }
  function Asks(qs: seq<Quote>): seq<real> { seq(|qs|, i requires 0 <= i < |qs| => qs[i].ask) }

  lemma ExtremesSnoc(xs: seq<real>, hi: real, lo: real, x: real)
    requires IsMax(hi, xs) && IsMin(lo, xs)
    ensures IsMax(Max(hi, x), xs + [x]) && IsMin(Min(lo, x), xs + [x])
  {
    var ys := xs + [x];
    assert ys[|xs|] == x;
    assert forall y :: y in xs ==> y in ys;
  }

  /** Open, high, low, close and count of a bar are those of its ticks. */
  lemma {:induction false} FoldBarMeaning(tf: Timeframe, qs: seq<Quote>)
    requires qs != []
    ensures var b, n := FoldBar(tf, qs), |qs|;
            && b.openBid == qs[0].bid && b.openAsk == qs[0].ask
            && b.closeBid == qs[n - 1].bid && b.closeAsk == qs[n - 1].ask
            && IsMax(b.highBid, Bids(qs)) && IsMin(b.lowBid, Bids(qs))
            && IsMax(b.highAsk, Asks(qs)) && IsMin(b.lowAsk, Asks(qs))
            && b.tickCount == n
    decreases |qs|
  {
    if |qs| == 1 {
      assert Bids(qs) == [qs[0].bid] && Asks(qs) == [qs[0].ask];
    } else {
      var init, q := qs[..|qs| - 1], qs[|qs| - 1];
      FoldBarMeaning(tf, init);
      assert Bids(qs) == Bids(init) + [q.bid] && Asks(qs) == Asks(init) + [q.ask];
      var b := FoldBar(tf, init);
      ExtremesSnoc(Bids(init), b.highBid, b.lowBid, q.bid);
      ExtremesSnoc(Asks(init), b.highAsk, b.lowAsk, q.ask);
    }
  }
}
