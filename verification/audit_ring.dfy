/** The audit log's ring buffer and its Redis list. */
module AuditRing {
  type Entry = string

  const DEFAULT_CAP := 200
  const DEFAULT_MAX_LEN := 1000

  /** The last n entries, newest first. */
  function Newest(h: seq<Entry>, n: nat): (r: seq<Entry>)
    requires n <= |h|
    ensures |r| == n
    ensures forall k :: 0 <= k < n ==> r[k] == h[|h| - 1 - k]
  {
    if n == 0 then [] else [h[|h| - 1]] + Newest(h[..|h| - 1], n - 1)
  }

  /** A size that is not positive stands for the default. */
  function OrDefault(size: int, default_: nat): nat { if size <= 0 then default_ else size }

  function Min(a: nat, b: nat): nat { if a < b then a else b }

  /** A positive limit cuts, any other does not. */
  function Cut(n: nat, limit: int): nat { if limit > 0 && limit < n then limit else n }

  // ---- the Redis list ------------------------------------------------------

  function LPush(list: seq<Entry>, e: Entry): seq<Entry> { [e] + list }

  /** Keeps indices 0 to stop. */
  function LTrim(list: seq<Entry>, stop: int): seq<Entry> {
    if stop < 0 then [] else list[..Min(stop + 1, |list|)]
  }

  /** Indices 0 to stop; -1 is the last. */
  function LRange(list: seq<Entry>, stop: int): seq<Entry> {
    if stop == -1 then list else LTrim(list, stop)
  }

  function PushRedis(list: seq<Entry>, maxLen: nat, e: Entry): seq<Entry> { LTrim(LPush(list, e), maxLen - 1) }

  function PushAll(h: seq<Entry>, maxLen: nat): seq<Entry> {
    if h == [] then [] else PushRedis(PushAll(h[..|h| - 1], maxLen), maxLen, h[|h| - 1])
  }

  /** Pushing and trimming keeps the newest entries. */
  lemma {:induction false} PushAllNewest(h: seq<Entry>, maxLen: nat)
    requires maxLen > 0
    ensures PushAll(h, maxLen) == Newest(h, Min(|h|, maxLen))
    decreases |h|
  {
    if h != [] {
      var init := h[..|h| - 1];
      PushAllNewest(init, maxLen);
      var r := Newest(h, Min(|h|, maxLen));
      var p := PushRedis(PushAll(init, maxLen), maxLen, h[|h| - 1]);
      assert |p| == |r|;
      assert forall k :: 0 <= k < |p| ==> p[k] == r[k];
    }
  }

  // ---- the ring ------------------------------------------------------------

  class Ring {
    const cap: nat
    const buf: array<Entry>
    var next: nat
    var full: bool
    ghost var history: seq<Entry>

    ghost function Stored(): nat
      reads this
    {
      if full then cap else next
    }

    /** The slot k places before the next one, going round. */
    ghost function SlotOf(k: nat): int
      reads this
    {
      if next - 1 - k >= 0 then next - 1 - k else next - 1 - k + cap
    }

    ghost predicate Valid()
      reads this, buf
    {
      && cap > 0 && buf.Length == cap && next < cap
      && Stored() == Min(|history|, cap)
      && (forall k :: 0 <= k < Stored() ==> 0 <= SlotOf(k) < cap && buf[SlotOf(k)] == history[|history| - 1 - k])
    }

    constructor (capacity: int)
      ensures Valid() && fresh(buf) && history == [] && cap == if capacity <= 0 then 200 else capacity
    {
      var n := if capacity <= 0 then DEFAULT_CAP else capacity;
      cap := n;
      buf := new Entry[n](_ => "");
      next, full, history := 0, false, [];
    }

    method Push(e: Entry)
      requires Valid()
      modifies this, buf
      ensures Valid() && history == old(history) + [e]
    {
      buf[next] := e;
      next := next + 1;
      if next >= cap {
        next := 0;
        full := true;
      }
      history := history + [e];
      assert SlotOf(0) == old(next);
      forall k | 1 <= k < Stored()
        ensures 0 <= SlotOf(k) < cap && buf[SlotOf(k)] == history[|history| - 1 - k]
      {
        assert SlotOf(k) == old(SlotOf(k - 1)) && k - 1 < old(Stored());
      }
    }

    method List(limit: int) returns (out: seq<Entry>)
      requires Valid()
      ensures out == Newest(history, Cut(Min(|history|, cap), limit))
    {
      var n := cap;
      if !full {
        n := next;
      }
      out := [];
      if n == 0 {
        return;
      }
      var idx := next - 1;
      if idx < 0 {
        idx := cap - 1;
      }
      var i := 0;
      while i < n
        invariant 0 <= i <= n && |out| == i && (limit > 0 ==> i < limit)
        invariant i < n ==> idx == SlotOf(i)
        invariant forall k :: 0 <= k < i ==> out[k] == history[|history| - 1 - k]
      {
        out := out + [buf[idx]];
        if limit > 0 && |out| >= limit {
          assert out == Newest(history, |out|);
          return;
        }
        idx := idx - 1;
        if idx < 0 {
          idx := cap - 1;
        }
        i := i + 1;
      }
      assert out == Newest(history, n);
    }

    method Len() returns (n: nat)
      requires Valid()
      ensures n == Min(|history|, cap)
    {
      if full {
        return cap;
      }
      return next;
    }
  }

  function ListRedis(list: seq<Entry>, limit: int): seq<Entry> {
    LRange(list, if limit > 0 then limit - 1 else -1)
  }

  lemma RedisNewest(h: seq<Entry>, maxLen: nat, limit: int)
    requires maxLen > 0
    ensures ListRedis(PushAll(h, maxLen), limit) == Newest(h, Cut(Min(|h|, maxLen), limit))
  {
    PushAllNewest(h, maxLen);
    hide PushAll;
  }

  /**
   After any pushes, whatever sizes are configured, the list backend and the
   ring answer alike on as many entries as both keep, and each answer is the
   newest entries, newest first.
   */
  lemma BackendsAgree(h: seq<Entry>, capacity: int, redisLen: int, limit: int)
    ensures var maxLen := if redisLen <= 0 then 1000 else redisLen;
            ListRedis(PushAll(h, maxLen), limit) == Newest(h, Cut(Min(|h|, maxLen), limit))
    ensures var cap, maxLen := (if capacity <= 0 then 200 else capacity), if redisLen <= 0 then 1000 else redisLen;
            var ring := Newest(h, Cut(Min(|h|, cap), limit));
            var redis := ListRedis(PushAll(h, maxLen), limit);
            var m := Min(Min(cap, maxLen), Min(|ring|, |redis|));
            ring[..m] == redis[..m] && m == Cut(Min(|h|, Min(cap, maxLen)), limit)
  {
    hide PushAll, ListRedis, Newest;
    RedisNewest(h, OrDefault(redisLen, DEFAULT_MAX_LEN), limit);
  }
}
