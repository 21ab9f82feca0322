/** The chart service's websocket subscribers and the hub that fans bars out to them. */
module ChartHub {
  type Payload = string

  /** A subscriber's filters (an empty one passes everything), bounded queue and closed flag. */
  datatype Sub = Sub(pairs: set<string>, tfs: set<string>, cap: nat, queue: seq<Payload>, closed: bool)

  const DEFAULT_QUEUE := 256
  const EMPTY_SUB := Sub({}, {}, DEFAULT_QUEUE, [], false)

  function Capacity(configured: int): nat { if configured <= 0 then DEFAULT_QUEUE else configured }

  predicate Passes(s: Sub, pair: string, tf: string) {
    (s.pairs == {} || pair in s.pairs) && (s.tfs == {} || tf in s.tfs)
  }

  /** A filter set from a list passes what the list names, or everything if it names nothing. */
  lemma FilterMeaning(s: Sub, ps: seq<string>, ts: seq<string>, pair: string, tf: string)
    ensures Passes(s.(pairs := (set p | p in ps), tfs := (set t | t in ts)), pair, tf)
       <==> (ps == [] || pair in ps) && (ts == [] || tf in ts)
  {
    var pairs := set p | p in ps;
    var tfs := set t | t in ts;
    assert ps != [] ==> ps[0] in pairs;
    assert ts != [] ==> ts[0] in tfs;
  }

  predicate Full(s: Sub) { |s.queue| >= s.cap }

  predicate Takes(s: Sub) { !s.closed && !Full(s) }

  predicate Overflows(s: Sub) { !s.closed && Full(s) }

  /** What one delivery attempt of the hub leaves: queued, or closed because the queue was full. */
  function AfterSend(s: Sub, p: Payload): Sub {
    if s.closed then s else if Full(s) then s.(closed := true) else s.(queue := s.queue + [p])
  }

  /** The registered subscribers a publication matches. */
  function Matched(all: map<nat, Sub>, registered: set<nat>, pair: string, tf: string): set<nat> {
    set i | i in registered && i in all && Passes(all[i], pair, tf)
  }

  function Taking(all: map<nat, Sub>, ids: set<nat>): set<nat> {
    set i | i in ids && i in all && Takes(all[i])
  }

  function Overflowing(all: map<nat, Sub>, ids: set<nat>): set<nat> {
    set i | i in ids && i in all && Overflows(all[i])
  }

  /** One attempt for each of them. */
  function SentTo(all: map<nat, Sub>, ids: set<nat>, p: Payload): map<nat, Sub> {
    map i | i in all :: if i in ids then AfterSend(all[i], p) else all[i]
  }

  lemma NoneSent(all: map<nat, Sub>, p: Payload)
    ensures SentTo(all, {}, p) == all && Taking(all, {}) == {} && Overflowing(all, {}) == {}
  {
  }

  lemma OneMoreSent(all: map<nat, Sub>, ids: set<nat>, i: nat, p: Payload)
    requires i in all && i !in ids
    ensures SentTo(all, ids + {i}, p) == SentTo(all, ids, p)[i := AfterSend(all[i], p)]
    ensures i in SentTo(all, ids, p) && SentTo(all, ids, p)[i] == all[i]
  {
    hide AfterSend;
  }

  lemma OneMoreTaking(all: map<nat, Sub>, ids: set<nat>, i: nat)
    requires i in all && i !in ids
    ensures |Taking(all, ids + {i})| == |Taking(all, ids)| + if Takes(all[i]) then 1 else 0
  {
    hide Takes;
    if Takes(all[i]) {
      assert Taking(all, ids + {i}) == Taking(all, ids) + {i};
    } else {
      assert Taking(all, ids + {i}) == Taking(all, ids);
    }
  }

  lemma OneMoreOverflowing(all: map<nat, Sub>, ids: set<nat>, i: nat)
    requires i in all
    ensures Overflowing(all, ids + {i}) == Overflowing(all, ids) + if Overflows(all[i]) then {i} else {}
  {
    hide Overflows;
  }

  lemma OneMore(all: map<nat, Sub>, ids: set<nat>, i: nat, p: Payload)
    requires i in all && i !in ids
    ensures SentTo(all, ids + {i}, p) == SentTo(all, ids, p)[i := AfterSend(all[i], p)]
    ensures i in SentTo(all, ids, p) && SentTo(all, ids, p)[i] == all[i]
    ensures |Taking(all, ids + {i})| == |Taking(all, ids)| + if Takes(all[i]) then 1 else 0
    ensures Overflowing(all, ids + {i}) == Overflowing(all, ids) + if Overflows(all[i]) then {i} else {}
  {
    hide SentTo, Taking, Overflowing;
    OneMoreSent(all, ids, i, p);
    OneMoreTaking(all, ids, i);
    OneMoreOverflowing(all, ids, i);
  }

  datatype SendError = NoError | SubClosed | QueueFull

  /** The subscribers of the service by id, those in the hub, and the hub's totals. */
  class Hub {
    var all: map<nat, Sub>
    var registered: set<nat>
    var totalSent: nat
    var totalDrop: nat

    ghost predicate Valid()
      reads this`all, this`registered
    {
      registered <= all.Keys
    }

    constructor ()
      ensures Valid() && all == map[] && registered == {} && totalSent == totalDrop == 0
    {
      all, registered, totalSent, totalDrop := map[], {}, 0, 0;
    }

    method NewSubscriber(id: nat, queueSize: int)
      requires Valid() && id !in all
      modifies this`all
      ensures Valid() && all == old(all)[id := Sub({}, {}, if queueSize <= 0 then 256 else queueSize, [], false)]
    {
      var size := queueSize;
      if size <= 0 {
        size := DEFAULT_QUEUE;
      }
      all := all[id := Sub({}, {}, size, [], false)];
    }

    method SetFilters(id: nat, pairs: seq<string>, tfs: seq<string>)
      requires Valid() && id in all
      modifies this`all
      ensures Valid()
      ensures all == old(all)[id := old(all)[id].(pairs := (set p | p in pairs), tfs := (set t | t in tfs))]
    {
      var ps := ToSet(pairs);
      var ts := ToSet(tfs);
      all := all[id := all[id].(pairs := ps, tfs := ts)];
    }

    static method ToSet(items: seq<string>) returns (s: set<string>)
      ensures s == set x | x in items
    {
      s := {};
      for i := 0 to |items|
        invariant forall x :: x in s <==> x in items[..i]
      {
        s := s + {items[i]};
      }
    }

    method Matches(id: nat, pair: string, tf: string) returns (b: bool)
      requires id in all
      ensures b <==> (all[id].pairs == {} || pair in all[id].pairs) && (all[id].tfs == {} || tf in all[id].tfs)
    {
      var s := all[id];
      if |s.pairs| > 0 {
        if pair !in s.pairs {
          return false;
        }
      }
      if |s.tfs| > 0 {
        if tf !in s.tfs {
          return false;
        }
      }
      return true;
    }

    method Send(id: nat, p: Payload) returns (err: SendError)
      requires Valid() && id in all
      modifies this`all
      ensures Valid()
      ensures err == if old(all)[id].closed then SubClosed else if Full(old(all)[id]) then QueueFull else NoError
      ensures all == if err == NoError then old(all)[id := old(all)[id].(queue := old(all)[id].queue + [p])]
                     else old(all)
    {
      if all[id].closed {
        return SubClosed;
      }
      if |all[id].queue| < all[id].cap {
        all := all[id := all[id].(queue := all[id].queue + [p])];
        return NoError;
      }
      return QueueFull;
    }

    method Add(id: nat)
      requires Valid() && id in all
      modifies this`registered
      ensures Valid() && registered == old(registered) + {id}
    {
      registered := registered + {id};
    }

    method Remove(id: nat)
      requires Valid()
      modifies this`registered
      ensures Valid() && registered == old(registered) - {id}
    {
      registered := registered - {id};
    }

    /** Only the first close runs the callback, which takes the subscriber out of the hub. */
    method Close(id: nat)
      requires Valid() && id in all
      modifies this`all, this`registered
      ensures Valid() && all == old(all)[id := old(all)[id].(closed := true)]
      ensures registered == if old(all)[id].closed then old(registered) else old(registered) - {id}
    {
      if !all[id].closed {
        all := all[id := all[id].(closed := true)];
        Remove(id);
      } else {
        assert all[id].(closed := true) == all[id];
      }
    }

    method Snapshot(pair: string, tf: string) returns (snapshot: set<nat>)
      requires Valid()
      ensures snapshot == Matched(all, registered, pair, tf)
    {
      snapshot := {};
      var left := registered;
      while left != {}
        invariant left <= registered
        invariant snapshot == Matched(all, registered - left, pair, tf)
        decreases |left|
      {
        var i :| i in left;
        var b := Matches(i, pair, tf);
        if b {
          snapshot := snapshot + {i};
        }
        left := left - {i};
      }
      assert registered - left == registered;
    }

    /** One attempt: a full subscriber is closed. */
    method Deliver(id: nat, p: Payload) returns (ok: bool)
      requires Valid() && id in all
      modifies this`all, this`registered
      ensures Valid() && all == old(all)[id := AfterSend(old(all)[id], p)]
      ensures ok == Takes(old(all)[id])
      ensures registered == if Overflows(old(all)[id]) then old(registered) - {id} else old(registered)
    {
      var err := Send(id, p);
      if err == QueueFull {
        Close(id);
      } else {
        assert err == SubClosed ==> all == old(all)[id := AfterSend(old(all)[id], p)];
      }
      return err == NoError;
    }

    method DeliverAll(ids: set<nat>, p: Payload) returns (sent: nat, dropped: nat)
      requires Valid() && ids <= all.Keys
      modifies this`all, this`registered
      ensures Valid() && all == SentTo(old(all), ids, p)
      ensures registered == old(registered) - Overflowing(old(all), ids)
      ensures sent == |Taking(old(all), ids)| && sent + dropped == |ids|
    {
      hide AfterSend, Takes, Overflows, SentTo, Taking, Overflowing;
      sent, dropped := 0, 0;
      var left := ids;
      NoneSent(all, p);
      assert ids - left == {};
      while left != {}
        invariant left <= ids && Valid() && all == SentTo(old(all), ids - left, p)
        invariant registered == old(registered) - Overflowing(old(all), ids - left)
        invariant sent == |Taking(old(all), ids - left)| && sent + dropped == |ids| - |left|
        decreases |left|
      {
        var i :| i in left;
        OneMore(old(all), ids - left, i, p);
        var ok := Deliver(i, p);
        assert ids - (left - {i}) == (ids - left) + {i};
        left := left - {i};
        if ok {
          sent := sent + 1;
        } else {
          dropped := dropped + 1;
        }
      }
      assert ids - left == ids;
    }

    /**
     Without interference every matching subscriber gets the payload or is
     closed, the others are untouched, exactly the ones closed now leave the
     hub, and sent and dropped count the two outcomes over the matches.
     */
    method Publish(pair: string, tf: string, p: Payload) returns (sent: nat, dropped: nat)
      requires Valid()
      modifies this
      ensures Valid()
      ensures var ids := Matched(old(all), old(registered), pair, tf);
              && all == SentTo(old(all), ids, p)
              && registered == old(registered) - Overflowing(old(all), ids)
              && sent == |Taking(old(all), ids)| && sent + dropped == |ids|
      ensures totalSent == old(totalSent) + sent && totalDrop == old(totalDrop) + dropped
      ensures forall i :: i in old(all) ==> i in all
      ensures forall i :: i in old(all) && i !in old(registered) ==> all[i] == old(all)[i]
      ensures forall i :: i in old(all) && old(all)[i].pairs != {} && pair !in old(all)[i].pairs ==>
                all[i] == old(all)[i]
      ensures forall i :: i in old(all) && old(all)[i].tfs != {} && tf !in old(all)[i].tfs ==>
                all[i] == old(all)[i]
      ensures forall i ::
                (&& i in old(registered) && !old(all)[i].closed
                 && (old(all)[i].pairs == {} || pair in old(all)[i].pairs)
                 && (old(all)[i].tfs == {} || tf in old(all)[i].tfs)) ==>
                  if |old(all)[i].queue| < old(all)[i].cap
                  then all[i] == old(all)[i].(queue := old(all)[i].queue + [p]) && i in registered
                  else all[i] == old(all)[i].(closed := true) && i !in registered
    {
      var snapshot := Snapshot(pair, tf);
      sent, dropped := DeliverAll(snapshot, p);
      totalSent := totalSent + sent;
      totalDrop := totalDrop + dropped;
    }
  }
}
