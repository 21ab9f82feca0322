/** Grouping ticks by bucket, stated without any order of events. */
module GroupBy {
  import opened Options
  import opened Bars

  /** The ticks of one bucket, in arrival order. */
  function TicksIn(tf: Timeframe, qs: seq<Quote>, bucket: int): (r: seq<Quote>)
    ensures forall i :: 0 <= i < |r| ==> r[i] in qs && BucketStart(tf, r[i].ts) == bucket
  {
    if qs == [] then []
    else
      var rest := TicksIn(tf, qs[..|qs| - 1], bucket);
      var q := qs[|qs| - 1];
      if BucketStart(tf, q.ts) == bucket then rest + [q] else rest
  }

  lemma TicksInSnoc(tf: Timeframe, qs: seq<Quote>, q: Quote, bucket: int)
    ensures TicksIn(tf, qs + [q], bucket)
         == TicksIn(tf, qs, bucket) + if BucketStart(tf, q.ts) == bucket then [q] else []
  {
    assert (qs + [q])[..|qs|] == qs;
  }

  lemma {:induction false} TicksInEmpty(tf: Timeframe, qs: seq<Quote>, bucket: int)
    requires forall i :: 0 <= i < |qs| ==> BucketStart(tf, qs[i].ts) != bucket
    ensures TicksIn(tf, qs, bucket) == []
  {
    if qs != [] { TicksInEmpty(tf, qs[..|qs| - 1], bucket); }
  }

  /** `bar` is the closed bar of exactly its bucket's ticks. */
  ghost predicate IsBucketBar(tf: Timeframe, qs: seq<Quote>, bar: Bar) {
    var ticks := TicksIn(tf, qs, bar.openedAt);
    ticks != [] && bar == Close(FoldBar(tf, ticks))
  }

  ghost predicate Increasing(bars: seq<Bar>) {
    forall i, j :: 0 <= i < j < |bars| ==> bars[i].openedAt < bars[j].openedAt
  }

  ghost predicate HasBucket(bars: seq<Bar>, bucket: int) {
    exists i :: 0 <= i < |bars| && bars[i].openedAt == bucket
  }

  /** One bar per bucket that has a tick, in strictly increasing bucket order. */
  ghost predicate IsGroupBy(tf: Timeframe, qs: seq<Quote>, bars: seq<Bar>) {
    && Increasing(bars)
    && (forall i :: 0 <= i < |bars| ==> IsBucketBar(tf, qs, bars[i]))
    && (forall i :: 0 <= i < |qs| ==> HasBucket(bars, BucketStart(tf, qs[i].ts)))
  }

  lemma BucketBarAligned(tf: Timeframe, qs: seq<Quote>, bar: Bar)
    requires IsBucketBar(tf, qs, bar)
    ensures bar.tf == tf && BucketStart(tf, bar.openedAt) == bar.openedAt
  {
    var ticks := TicksIn(tf, qs, bar.openedAt);
    BucketIdempotent(tf, ticks[0].ts);
  }

  lemma BarsKeepBuckets(bars: seq<Bar>, more: seq<Bar>, bucket: int)
    requires |bars| <= |more| && forall i :: 0 <= i < |bars| ==> more[i].openedAt == bars[i].openedAt
    requires HasBucket(bars, bucket)
    ensures HasBucket(more, bucket)
  {
    var i :| 0 <= i < |bars| && bars[i].openedAt == bucket;
    assert more[i].openedAt == bucket;
  }

  lemma NewBucketBar(tf: Timeframe, qs: seq<Quote>, q: Quote)
    requires forall i :: 0 <= i < |qs| ==> BucketStart(tf, qs[i].ts) != BucketStart(tf, q.ts)
    ensures IsBucketBar(tf, qs + [q], Close(NewBar(tf, q)))
  {
    TicksInEmpty(tf, qs, BucketStart(tf, q.ts));
    TicksInSnoc(tf, qs, q, BucketStart(tf, q.ts));
  }

  /** A tick in a bucket later than all bars starts a new bar. */
  lemma GroupByNew(tf: Timeframe, qs: seq<Quote>, bars: seq<Bar>, q: Quote)
    requires IsGroupBy(tf, qs, bars)
    requires forall i :: 0 <= i < |bars| ==> bars[i].openedAt < BucketStart(tf, q.ts)
    ensures IsGroupBy(tf, qs + [q], bars + [Close(NewBar(tf, q))])
  {
    hide IsBucketBar, BucketStart;
    var b := BucketStart(tf, q.ts);
    var qs', bars' := qs + [q], bars + [Close(NewBar(tf, q))];
    forall i | 0 <= i < |bars| ensures IsBucketBar(tf, qs', bars[i]) {
      OtherBars(tf, qs, q, bars[i]);
    }
    forall i | 0 <= i < |qs| ensures BucketStart(tf, qs[i].ts) != b {
      var k :| 0 <= k < |bars| && bars[k].openedAt == BucketStart(tf, qs[i].ts);
    }
    NewBucketBar(tf, qs, q);
    forall i | 0 <= i < |qs'| ensures HasBucket(bars', BucketStart(tf, qs'[i].ts)) {
      if i < |qs| { BarsKeepBuckets(bars, bars', BucketStart(tf, qs[i].ts)); }
      else { assert bars'[|bars|].openedAt == b; }
    }
  }

  /** Bars of other buckets do not see the tick. */
  lemma OtherBars(tf: Timeframe, qs: seq<Quote>, q: Quote, bar: Bar)
    requires IsBucketBar(tf, qs, bar) && bar.openedAt != BucketStart(tf, q.ts)
    ensures IsBucketBar(tf, qs + [q], bar)
  {
    TicksInSnoc(tf, qs, q, bar.openedAt);
  }

  /** The open bar of a bucket, updated, is the bar of the bucket's ticks with the new one. */
  lemma SameBar(tf: Timeframe, qs: seq<Quote>, open: Bar, q: Quote)
    requires IsBucketBar(tf, qs, Close(open)) && open.closedAt == None && BucketStart(tf, q.ts) == open.openedAt
    ensures IsBucketBar(tf, qs + [q], Close(Update(open, q)))
  {
    var ticks := TicksIn(tf, qs, open.openedAt);
    assert open == FoldBar(tf, ticks);
    TicksInSnoc(tf, qs, q, open.openedAt);
    FoldBarSnoc(tf, ticks, q);
  }

  /** A tick in the last bar's bucket updates that bar. */
  lemma GroupBySame(tf: Timeframe, qs: seq<Quote>, bars: seq<Bar>, open: Bar, q: Quote)
    requires IsGroupBy(tf, qs, bars + [Close(open)]) && open.closedAt == None
    requires BucketStart(tf, q.ts) == open.openedAt
    ensures IsGroupBy(tf, qs + [q], bars + [Close(Update(open, q))])
  {
    hide IsBucketBar, BucketStart, HasBucket;
    var was, now := bars + [Close(open)], bars + [Close(Update(open, q))];
    var qs' := qs + [q];
    assert was[|bars|] == Close(open) && now[|bars|] == Close(Update(open, q));
    SameBar(tf, qs, open, q);
    forall i | 0 <= i < |now| ensures IsBucketBar(tf, qs', now[i]) {
      if i < |bars| {
        assert was[i] == bars[i] == now[i];
        OtherBars(tf, qs, q, bars[i]);
      }
    }
    assert forall i :: 0 <= i < |now| ==> now[i].openedAt == was[i].openedAt;
    forall i | 0 <= i < |qs'| ensures HasBucket(now, BucketStart(tf, qs'[i].ts)) {
      if i < |qs| { BarsKeepBuckets(was, now, BucketStart(tf, qs[i].ts)); } else { LastHasBucket(now); }
    }
  }

  lemma LastHasBucket(bars: seq<Bar>)
    requires bars != []
    ensures HasBucket(bars, bars[|bars| - 1].openedAt)
  {
  }

  /** The grouping is determined by the ticks alone. */
  lemma {:induction false} GroupByUnique(tf: Timeframe, qs: seq<Quote>, a: seq<Bar>, b: seq<Bar>)
    requires IsGroupBy(tf, qs, a) && IsGroupBy(tf, qs, b)
    ensures a == b
  {
    forall i | 0 <= i < |a| ensures HasBucket(b, a[i].openedAt) { BucketCovered(tf, qs, a, i, b); }
    forall i | 0 <= i < |b| ensures HasBucket(a, b[i].openedAt) { BucketCovered(tf, qs, b, i, a); }
    SameBuckets(a, b);
    forall i | 0 <= i < |a| ensures a[i] == b[i] {
      assert IsBucketBar(tf, qs, a[i]) && IsBucketBar(tf, qs, b[i]);
    }
  }

  lemma BucketCovered(tf: Timeframe, qs: seq<Quote>, a: seq<Bar>, i: nat, b: seq<Bar>)
    requires IsGroupBy(tf, qs, a) && IsGroupBy(tf, qs, b) && i < |a|
    ensures HasBucket(b, a[i].openedAt)
  {
    assert IsBucketBar(tf, qs, a[i]);
    var ticks := TicksIn(tf, qs, a[i].openedAt);
    assert ticks[0] in qs;
  }

  ghost predicate Covers(b: seq<Bar>, a: seq<Bar>) {
    forall i :: 0 <= i < |a| ==> HasBucket(b, a[i].openedAt)
  }

  /** Two increasing sequences over the same buckets have the same buckets position by position. */
  lemma {:induction false} SameBuckets(a: seq<Bar>, b: seq<Bar>)
    requires Increasing(a) && Increasing(b) && Covers(b, a) && Covers(a, b)
    ensures |a| == |b| && forall i :: 0 <= i < |a| ==> a[i].openedAt == b[i].openedAt
    decreases |a|
  {
    hide HasBucket;
    CoversNonEmpty(a, b);
    CoversNonEmpty(b, a);
    if a != [] {
      var a', b' := a[..|a| - 1], b[..|b| - 1];
      LastBucket(a, b);
      LastBucket(b, a);
      DropLast(a, b);
      DropLast(b, a);
      SameBuckets(a', b');
      assert forall i :: 0 <= i < |a'| ==> a'[i] == a[i] && b'[i] == b[i];
    }
  }

  lemma CoversNonEmpty(a: seq<Bar>, b: seq<Bar>)
    requires Covers(b, a)
    ensures a != [] ==> b != []
  {
    if a != [] { assert HasBucket(b, a[0].openedAt); }
  }

  lemma DropLast(a: seq<Bar>, b: seq<Bar>)
    requires a != [] && b != [] && Increasing(a) && a[|a| - 1].openedAt == b[|b| - 1].openedAt && Covers(b, a)
    ensures Covers(b[..|b| - 1], a[..|a| - 1])
  {
    var a', b' := a[..|a| - 1], b[..|b| - 1];
    forall i | 0 <= i < |a'| ensures HasBucket(b', a'[i].openedAt) {
      assert HasBucket(b, a[i].openedAt) && a'[i] == a[i];
      var k :| 0 <= k < |b| && b[k].openedAt == a[i].openedAt;
      assert k < |b'| && b'[k].openedAt == a[i].openedAt;
    }
  }

  lemma LastBucket(a: seq<Bar>, b: seq<Bar>)
    requires a != [] && b != [] && Increasing(b) && Covers(b, a)
    ensures a[|a| - 1].openedAt <= b[|b| - 1].openedAt
  {
    assert HasBucket(b, a[|a| - 1].openedAt);
    var k :| 0 <= k < |b| && b[k].openedAt == a[|a| - 1].openedAt;
  }
}
