/** The shared pricing document and the manual swap point update applied to it. */
module PricingDoc {
  import opened Options

  datatype SwapEntry = SwapEntry(pair: string, tenor: string, bid: real, ask: real, skew: real, spread: real)
  datatype SwapUpdate = SwapUpdate(tenor: string, bid: real, ask: real)

  /** The swap layer, the version, and the other layers as one value. */
  datatype Doc = Doc(version: int, swaps: seq<SwapEntry>, layers: string)
  const EMPTY_DOC := Doc(0, [], "")

  /** What the key holds: a document, or text that does not parse as one. */
  datatype Value = Parsed(doc: Doc) | Garbage

  datatype Request = Request(pair: string, updates: seq<SwapUpdate>, clear: bool)

  function Fresh(pair: string, u: SwapUpdate): SwapEntry { SwapEntry(pair, u.tenor, u.bid, u.ask, 0.0, 0.0) }

  /** An update moves the bid and the ask and keeps the skew and the spread. */
  function Moved(e: SwapEntry, u: SwapUpdate): SwapEntry { e.(bid := u.bid, ask := u.ask) }

  /** Moves the first entry of that pair and tenor, or appends one. */
  function Upsert(swaps: seq<SwapEntry>, pair: string, u: SwapUpdate): seq<SwapEntry> {
    if swaps == [] then [Fresh(pair, u)]
    else if swaps[0].pair == pair && swaps[0].tenor == u.tenor then [Moved(swaps[0], u)] + swaps[1..]
    else [swaps[0]] + Upsert(swaps[1..], pair, u)
  }

  function UpsertAll(swaps: seq<SwapEntry>, pair: string, us: seq<SwapUpdate>): seq<SwapEntry> {
    if us == [] then swaps else Upsert(UpsertAll(swaps, pair, us[..|us| - 1]), pair, us[|us| - 1])
  }

  function Without(swaps: seq<SwapEntry>, pair: string): seq<SwapEntry> {
    if swaps == [] then []
    else (if swaps[0].pair == pair then [] else [swaps[0]]) + Without(swaps[1..], pair)
  }

  /** The new document; None when the stored text does not parse. */
  function ApplySwap(cur: Option<Value>, r: Request): Option<Doc> {
    if cur == Some(Garbage) then None
    else
      var d := if cur.None? then EMPTY_DOC else cur.value.doc;
      Some(d.(swaps := if r.clear then Without(d.swaps, r.pair) else UpsertAll(d.swaps, r.pair, r.updates),
              version := d.version + 1))
  }

  method ApplySwapToDoc(cur: Option<Value>, r: Request) returns (next: Option<Doc>)
    ensures next == ApplySwap(cur, r)
  {
    hide Without, UpsertAll;
    var doc := EMPTY_DOC;
    if cur.Some? {
      if cur.value.Garbage? {
        return None;
      }
      doc := cur.value.doc;
    }
    var swaps;
    if r.clear {
      swaps := KeepOthers(doc.swaps, r.pair);
    } else {
      swaps := UpsertEach(doc.swaps, r.pair, r.updates);
    }
    return Some(doc.(swaps := swaps, version := doc.version + 1));
  }

  lemma WithoutStep(swaps: seq<SwapEntry>, pair: string, i: nat)
    requires i < |swaps|
    ensures Without(swaps[i..], pair)
         == (if swaps[i].pair == pair then [] else [swaps[i]]) + Without(swaps[i + 1..], pair)
  {
    assert swaps[i..][0] == swaps[i] && swaps[i..][1..] == swaps[i + 1..];
  }

  lemma WithoutEnds(swaps: seq<SwapEntry>, pair: string)
    ensures swaps[0..] == swaps && Without(swaps[|swaps|..], pair) == []
  {
  }

  method KeepOthers(swaps: seq<SwapEntry>, pair: string) returns (kept: seq<SwapEntry>)
    ensures kept == Without(swaps, pair)
  {
    hide Without;
    WithoutEnds(swaps, pair);
    kept := [];
    var i := 0;
    while i < |swaps|
      invariant 0 <= i <= |swaps|
      invariant Without(swaps, pair) == kept + Without(swaps[i..], pair)
    {
      WithoutStep(swaps, pair, i);
      if swaps[i].pair != pair {
        Assoc(kept, [swaps[i]], Without(swaps[i + 1..], pair));
        kept := kept + [swaps[i]];
      }
      i := i + 1;
    }
  }

  method UpsertEach(swaps: seq<SwapEntry>, pair: string, us: seq<SwapUpdate>) returns (out: seq<SwapEntry>)
    ensures out == UpsertAll(swaps, pair, us)
  {
    hide Upsert;
    out := swaps;
    var k := 0;
    while k < |us|
      invariant 0 <= k <= |us|
      invariant out == UpsertAll(swaps, pair, us[..k])
    {
      assert us[..k + 1][..k] == us[..k];
      out := UpsertOne(out, pair, us[k]);
      k := k + 1;
    }
    assert us[..|us|] == us;
  }

  lemma Assoc(a: seq<SwapEntry>, b: seq<SwapEntry>, c: seq<SwapEntry>)
    ensures (a + b) + c == a + (b + c) && [] + c == c
  {
  }

  lemma UpsertStep(swaps: seq<SwapEntry>, pair: string, u: SwapUpdate, i: nat)
    requires i < |swaps|
    ensures Upsert(swaps[i..], pair, u)
         == if swaps[i].pair == pair && swaps[i].tenor == u.tenor then [Moved(swaps[i], u)] + swaps[i + 1..]
            else [swaps[i]] + Upsert(swaps[i + 1..], pair, u)
  {
    assert swaps[i..][0] == swaps[i] && swaps[i..][1..] == swaps[i + 1..];
  }

  lemma UpsertEnds(swaps: seq<SwapEntry>, pair: string, u: SwapUpdate)
    ensures swaps[0..] == swaps && Upsert(swaps[|swaps|..], pair, u) == [Fresh(pair, u)]
  {
  }

  method UpsertOne(swaps: seq<SwapEntry>, pair: string, u: SwapUpdate) returns (out: seq<SwapEntry>)
    ensures out == Upsert(swaps, pair, u)
  {
    hide Upsert;
    UpsertEnds(swaps, pair, u);
    var i := 0;
    while i < |swaps|
      invariant 0 <= i <= |swaps|
      invariant Upsert(swaps, pair, u) == swaps[..i] + Upsert(swaps[i..], pair, u)
    {
      UpsertStep(swaps, pair, u, i);
      if swaps[i].pair == pair && swaps[i].tenor == u.tenor {
        assert swaps[i := Moved(swaps[i], u)] == swaps[..i] + ([Moved(swaps[i], u)] + swaps[i + 1..]);
        return swaps[i := Moved(swaps[i], u)];
      }
      assert swaps[..i + 1] == swaps[..i] + [swaps[i]];
      Assoc(swaps[..i], [swaps[i]], Upsert(swaps[i + 1..], pair, u));
      i := i + 1;
    }
    assert swaps[..i] == swaps;
    return swaps + [Fresh(pair, u)];
  }

  // ---- meaning -------------------------------------------------------------

  /** The rate the document gives for a pair and tenor: its first entry. */
  function Rate(swaps: seq<SwapEntry>, pair: string, tenor: string): Option<SwapEntry> {
    if swaps == [] then None
    else if swaps[0].pair == pair && swaps[0].tenor == tenor then Some(swaps[0])
    else Rate(swaps[1..], pair, tenor)
  }

  /** What an update makes of a rate, present or not. */
  function Updated(rate: Option<SwapEntry>, pair: string, u: SwapUpdate): Option<SwapEntry> {
    Some(if rate.None? then Fresh(pair, u) else Moved(rate.value, u))
  }

  lemma {:induction false} UpsertRate(swaps: seq<SwapEntry>, pair: string, u: SwapUpdate, p: string, t: string)
    ensures Rate(Upsert(swaps, pair, u), p, t)
         == if p == pair && t == u.tenor then Updated(Rate(swaps, p, t), pair, u) else Rate(swaps, p, t)
    decreases |swaps|
  {
    if swaps != [] {
      UpsertRate(swaps[1..], pair, u, p, t);
      var r := Upsert(swaps, pair, u);
      if swaps[0].pair == pair && swaps[0].tenor == u.tenor {
        assert r[1..] == swaps[1..];
      } else {
        assert r[1..] == Upsert(swaps[1..], pair, u);
      }
    } else {
      assert Upsert(swaps, pair, u)[1..] == [];
    }
  }

  /** The last update of a tenor. */
  function LastUpdate(us: seq<SwapUpdate>, tenor: string): Option<SwapUpdate> {
    if us == [] then None
    else if us[|us| - 1].tenor == tenor then Some(us[|us| - 1])
    else LastUpdate(us[..|us| - 1], tenor)
  }

  lemma {:induction false} UpsertAllRate(swaps: seq<SwapEntry>, pair: string, us: seq<SwapUpdate>, p: string, t: string)
    ensures Rate(UpsertAll(swaps, pair, us), p, t)
         == if p == pair && LastUpdate(us, t).Some? then Updated(Rate(swaps, p, t), pair, LastUpdate(us, t).value)
            else Rate(swaps, p, t)
    decreases |us|
  {
    if us != [] {
      var init := us[..|us| - 1];
      UpsertAllRate(swaps, pair, init, p, t);
      UpsertRate(UpsertAll(swaps, pair, init), pair, us[|us| - 1], p, t);
      assert LastUpdate(init, t).Some? ==> LastUpdate(init, t).value.tenor == t by { LastUpdateTenor(init, t); }
      RateKey(swaps, p, t);
    }
  }

  lemma {:induction false} LastUpdateTenor(us: seq<SwapUpdate>, t: string)
    ensures LastUpdate(us, t).Some? ==> LastUpdate(us, t).value in us && LastUpdate(us, t).value.tenor == t
    decreases |us|
  {
    if us != [] { LastUpdateTenor(us[..|us| - 1], t); }
  }

  lemma {:induction false} RateKey(swaps: seq<SwapEntry>, p: string, t: string)
    ensures Rate(swaps, p, t).Some? ==> Rate(swaps, p, t).value.pair == p && Rate(swaps, p, t).value.tenor == t
    decreases |swaps|
  {
    if swaps != [] { RateKey(swaps[1..], p, t); }
  }

  lemma {:induction false} WithoutRate(swaps: seq<SwapEntry>, pair: string, p: string, t: string)
    ensures Rate(Without(swaps, pair), p, t) == if p == pair then None else Rate(swaps, p, t)
    decreases |swaps|
  {
    if swaps != [] {
      WithoutRate(swaps[1..], pair, p, t);
      if swaps[0].pair != pair {
        assert Without(swaps, pair)[1..] == Without(swaps[1..], pair);
      } else {
        assert Without(swaps, pair) == Without(swaps[1..], pair);
      }
    }
  }

  function DocOf(cur: Option<Value>): Doc
    requires cur != Some(Garbage)
  {
    if cur.None? then EMPTY_DOC else cur.value.doc
  }

  /**
   An update changes exactly the rates it names: the last update of each tenor
   for its pair, keeping skew and spread, or nothing left of the pair when it
   clears; every other rate and every other layer stays, and the version rises by one.
   */
  lemma ApplySwapMeaning(cur: Option<Value>, r: Request, p: string, t: string)
    requires cur != Some(Garbage)
    ensures var d, n := DocOf(cur), ApplySwap(cur, r).value;
            && n.version == d.version + 1 && n.layers == d.layers
            && Rate(n.swaps, p, t)
               == if p != r.pair then Rate(d.swaps, p, t)
                  else if r.clear then None
                  else if LastUpdate(r.updates, t).Some?
                  then Updated(Rate(d.swaps, p, t), p, LastUpdate(r.updates, t).value)
                  else Rate(d.swaps, p, t)
    ensures var d, n := DocOf(cur), ApplySwap(cur, r).value;
            p == r.pair && !r.clear && LastUpdate(r.updates, t).Some? ==>
              var u, was, now := LastUpdate(r.updates, t).value, Rate(d.swaps, p, t), Rate(n.swaps, p, t);
              && u in r.updates && u.tenor == t
              && now.Some? && now.value.pair == p && now.value.tenor == t
              && now.value.bid == u.bid && now.value.ask == u.ask
              && now.value.skew == (if was.Some? then was.value.skew else 0.0)
              && now.value.spread == (if was.Some? then was.value.spread else 0.0)
  {
    var d := DocOf(cur);
    LastUpdateTenor(r.updates, t);
    RateKey(d.swaps, p, t);
    WithoutRate(d.swaps, r.pair, p, t);
    UpsertAllRate(d.swaps, r.pair, r.updates, p, t);
  }
}
