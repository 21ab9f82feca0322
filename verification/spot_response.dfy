/**
 `wtg_price_get_spot` from the response body on: table version, the spots
 array, the missing array. The first half states what the pointer code computes
 on any text, the second half what that is on grammatical texts.
 */
module SpotResponse {
  import opened CText
  import opened Options
  import opened JsonGrammar
  import opened JsonWalk
  import opened JsonScan
  import opened JsonStrings

  const MAX_PAIRS := 16
  const MAX_MISSING := 16
  const PAIR_LEN := 16
  const SOURCE_LEN := 8

  /** The C library's number readers, as functions of the run of token characters they look at. */
  datatype Numbers = Numbers(real_: string -> Option<real>, whole: string -> Option<int>)

  datatype SpotEntry = SpotEntry(pair: string, bid: real, ask: real, rawBid: real, rawAsk: real, source: string)

  datatype List<T> = Items(items: seq<T>) | ParseError | Oversize

  /** Return code of the call, with the result on success. */
  datatype Reply = Good(version: int, spots: seq<SpotEntry>, missing: seq<string>) | Parse | TooMany

  // ---- on any text ---------------------------------------------------------

  function Token(s: string, p: nat): (t: string)
    requires p <= |s|
    ensures p + |t| <= |s|
    decreases |s| - p
  {
    if IsAtomChar(At(s, p)) then [s[p]] + Token(s, p + 1) else []
  }

  function Find(s: string, ctx: nat, key: string): (r: Option<nat>)
    requires ctx <= |s|
    ensures r.Some? ==> ctx < r.value <= |s|
  {
    Scan(s, key, Entry(s, ctx), Flat(0))
  }

  /** A string field of at most `cap - 1` characters. */
  function StringField(s: string, ctx: nat, key: string, cap: nat): Option<string>
    requires ctx <= |s|
  {
    var v := Find(s, ctx, key);
    if v.Some? && At(s, v.value) == '"' && At(s, StringEnd(s, v.value + 1)) == '"' && |Chars(s, v.value + 1)| < cap
    then Some(Chars(s, v.value + 1)) else None
  }

  /** What a zeroed buffer of `cap` characters holds after that field was read, accepted or not. */
  function StringLeft(s: string, ctx: nat, key: string, cap: nat): string
    requires ctx <= |s| && cap > 0
  {
    var v := Find(s, ctx, key);
    if v.Some? && At(s, v.value) == '"'
    then Chars(s, v.value + 1)[..Min(|Chars(s, v.value + 1)|, cap - 1)] else ""
  }

  function NumberField<T>(read: string -> Option<T>, s: string, ctx: nat, key: string): Option<T>
    requires ctx <= |s|
  {
    var v := Find(s, ctx, key);
    if v.None? || Token(s, v.value) == [] then None else read(Token(s, v.value))
  }

  /** The entry whose members start at `ctx`. */
  function EntryAt(lib: Numbers, s: string, ctx: nat): Option<SpotEntry>
    requires ctx <= |s|
  {
    var pair := StringField(s, ctx, "pair", PAIR_LEN);
    var bid := NumberField(lib.real_, s, ctx, "bid");
    var ask := NumberField(lib.real_, s, ctx, "ask");
    var rawBid := NumberField(lib.real_, s, ctx, "raw_bid");
    var rawAsk := NumberField(lib.real_, s, ctx, "raw_ask");
    if pair.None? || bid.None? || ask.None? || rawBid.None? || rawAsk.None? then None
    else Some(SpotEntry(pair.value, bid.value, ask.value, rawBid.value, rawAsk.value,
                        StringLeft(s, ctx, "source", SOURCE_LEN)))
  }

  function Prepend<T>(x: T, l: List<T>): List<T> {
    if l.Items? then Items([x] + l.items) else l
  }

  /** Start of the next array element at or after `cur`: blanks, at most one comma, blanks. */
  function NextElem(s: string, cur: nat): (p: nat)
    requires cur <= |s|
    ensures cur <= p <= |s|
  {
    var c := SkipWs(s, cur);
    if At(s, c) == ',' then SkipWs(s, c + 1) else c
  }

  /** One turn of an array loop: the array ends, the text is wrong, the store is full, or one item is read. */
  datatype Pull<T> = End | Stuck | Excess | Got(item: T, next: nat)

  function SpotPull(lib: Numbers, s: string, cur: nat, n: nat): (r: Pull<SpotEntry>)
    requires cur <= |s|
    ensures r.Got? ==> cur < r.next <= |s| && n < MAX_PAIRS
  {
    var p := NextElem(s, cur);
    if At(s, SkipWs(s, cur)) == ']' then End
    else if At(s, p) != '{' then Stuck
    else if n >= MAX_PAIRS then Excess
    else
      var e, next := EntryAt(lib, s, p + 1), BodyEnd(s, p + 1, Flat(0));
      if e.None? || next.None? then Stuck else Got(e.value, next.value)
  }

  function MissingPull(s: string, cur: nat, n: nat): (r: Pull<string>)
    requires cur <= |s|
    ensures r.Got? ==> cur < r.next <= |s| && n < MAX_MISSING
  {
    var p := NextElem(s, cur);
    if At(s, SkipWs(s, cur)) == ']' then End
    else if At(s, p) != '"' then Stuck
    else if n >= MAX_MISSING then Excess
    else
      var e := StringEnd(s, p + 1);
      if At(s, e) != '"' || |Chars(s, p + 1)| >= PAIR_LEN then Stuck else Got(Chars(s, p + 1), e + 1)
  }

  /** The spots loop at `cur`, with `n` entries already stored. */
  function SpotsFrom(lib: Numbers, s: string, cur: nat, n: nat): List<SpotEntry>
    requires cur <= |s|
    decreases |s| - cur
  {
    match SpotPull(lib, s, cur, n)
    case End => Items([])
    case Stuck => ParseError
    case Excess => Oversize
    case Got(e, next) => Prepend(e, SpotsFrom(lib, s, next, n + 1))
  }

  /** The missing loop at `cur`, with `n` names already stored. */
  function MissingFrom(s: string, cur: nat, n: nat): List<string>
    requires cur <= |s|
    decreases |s| - cur
  {
    match MissingPull(s, cur, n)
    case End => Items([])
    case Stuck => ParseError
    case Excess => Oversize
    case Got(name, next) => Prepend(name, MissingFrom(s, next, n + 1))
  }

  /** The reply from its three parts; an absent or non-array `missing` counts as empty. */
  function Assemble(version: Option<int>, spots: Option<List<SpotEntry>>, missing: Option<List<string>>): Reply {
    if version.None? || spots.None? || spots.value.ParseError? then Parse
    else if spots.value.Oversize? then TooMany
    else if missing.None? then Good(version.value, spots.value.items, [])
    else if missing.value.ParseError? then Parse
    else if missing.value.Oversize? then TooMany
    else Good(version.value, spots.value.items, missing.value.items)
  }

  function SpotsField(lib: Numbers, s: string, b: nat): Option<List<SpotEntry>>
    requires b <= |s|
  {
    var v := Find(s, b, "spots");
    if v.None? || At(s, v.value) != '[' then None else Some(SpotsFrom(lib, s, v.value + 1, 0))
  }

  function MissingField(s: string, b: nat): Option<List<string>>
    requires b <= |s|
  {
    var v := Find(s, b, "missing");
    if v.None? || At(s, v.value) != '[' then None else Some(MissingFrom(s, v.value + 1, 0))
  }

  /** The whole extraction from the body at `b`. */
  function SpotText(lib: Numbers, s: string, b: nat): Reply
    requires b <= |s|
  {
    Assemble(NumberField(lib.whole, s, b, "table_version"), SpotsField(lib, s, b), MissingField(s, b))
  }

  // ---- the code ------------------------------------------------------------

  method ExtractString(s: string, ctx: nat, key: string, cap: nat) returns (ok: bool, text: string)
    requires ctx <= |s| && cap > 0
    ensures ok <==> StringField(s, ctx, key, cap).Some?
    ensures ok ==> text == StringField(s, ctx, key, cap).value
    ensures text == StringLeft(s, ctx, key, cap)
  {
    var v := FindKey(s, ctx, key);
    if v.None? {
      return false, "";
    }
    var buf := new char[cap](_ => NUL);
    var n;
    ok, n := ReadString(s, v.value, buf);
    text := buf[..n];
  }

  method ReadToken(s: string, p: nat) returns (t: string)
    requires p <= |s|
    ensures t == Token(s, p)
  {
    var q := p;
    t := [];
    while IsAtomChar(At(s, q))
      invariant p <= q <= |s| && t + Token(s, q) == Token(s, p)
      decreases |s| - q
    {
      t := t + [s[q]];
      q := q + 1;
    }
  }

  method ExtractNumber<T>(read: string -> Option<T>, s: string, ctx: nat, key: string) returns (r: Option<T>)
    requires ctx <= |s|
    ensures r == NumberField(read, s, ctx, key)
  {
    var v := FindKey(s, ctx, key);
    if v.None? {
      return None;
    }
    var tok := ReadToken(s, v.value);
    r := if tok == [] then None else read(tok);
  }

  method ExtractEntry(lib: Numbers, s: string, inside: nat) returns (e: Option<SpotEntry>)
    requires inside <= |s|
    ensures e == EntryAt(lib, s, inside)
  {
    var ok, pair := ExtractString(s, inside, "pair", PAIR_LEN);
    if !ok { return None; }
    var bid := ExtractNumber(lib.real_, s, inside, "bid");
    if bid.None? { return None; }
    var ask := ExtractNumber(lib.real_, s, inside, "ask");
    if ask.None? { return None; }
    var rawBid := ExtractNumber(lib.real_, s, inside, "raw_bid");
    if rawBid.None? { return None; }
    var rawAsk := ExtractNumber(lib.real_, s, inside, "raw_ask");
    if rawAsk.None? { return None; }
    var _, source := ExtractString(s, inside, "source", SOURCE_LEN);
    return Some(SpotEntry(pair, bid.value, ask.value, rawBid.value, rawAsk.value, source));
  }

  method ReadNextElem(s: string, cur: nat) returns (p: nat)
    requires cur <= |s|
    ensures p == NextElem(s, cur)
  {
    p := SkipWhitespace(s, cur);
    if At(s, p) == ',' {
      p := SkipWhitespace(s, p + 1);
    }
  }

  method PullSpot(lib: Numbers, s: string, cur: nat, n: nat) returns (r: Pull<SpotEntry>)
    requires cur <= |s|
    ensures r == SpotPull(lib, s, cur, n)
  {
    var c := SkipWhitespace(s, cur);
    if At(s, c) == ']' { return End; }
    var p := ReadNextElem(s, cur);
    if At(s, p) != '{' { return Stuck; }
    if n >= MAX_PAIRS { return Excess; }
    var e := ExtractEntry(lib, s, p + 1);
    if e.None? { return Stuck; }
    var next := SkipObjectBody(s, p + 1);
    if next.None? { return Stuck; }
    return Got(e.value, next.value);
  }

  method PullMissing(s: string, cur: nat, n: nat) returns (r: Pull<string>)
    requires cur <= |s|
    ensures r == MissingPull(s, cur, n)
  {
    var c := SkipWhitespace(s, cur);
    if At(s, c) == ']' { return End; }
    var p := ReadNextElem(s, cur);
    if At(s, p) != '"' { return Stuck; }
    if n >= MAX_MISSING { return Excess; }
    var buf := new char[PAIR_LEN];
    var ok, len := ReadString(s, p, buf);
    if !ok { return Stuck; }
    var next := SkipStringBody(s, p + 1);
    assert buf[..len] == Chars(s, p + 1);
    return Got(buf[..len], next.value);
  }

  /** What is stored already in front of what the rest of the loop gives. */
  function Joined<T>(done: seq<T>, rest: List<T>): List<T> {
    if rest.Items? then Items(done + rest.items) else rest
  }

  lemma JoinedStep<T>(done: seq<T>, e: T, rest: List<T>)
    ensures Joined(done, Prepend(e, rest)) == Joined(done + [e], rest)
  {
    if rest.Items? { assert done + ([e] + rest.items) == (done + [e]) + rest.items; }
  }

  lemma JoinedEnds<T>(done: seq<T>, rest: List<T>)
    ensures Joined([], rest) == rest && Joined(done, Items([])) == Items(done)
    ensures Joined(done, ParseError) == ParseError && Joined(done, Oversize) == Oversize
  {
    if rest.Items? { assert [] + rest.items == rest.items; }
    assert done + [] == done;
  }

  method ReadSpots(lib: Numbers, s: string, start: nat, out: array<SpotEntry>) returns (r: List<SpotEntry>)
    requires start <= |s| && out.Length == MAX_PAIRS
    modifies out
    ensures r == SpotsFrom(lib, s, start, 0)
    ensures r.Items? ==> |r.items| <= out.Length && out[..|r.items|] == r.items
  {
    hide SpotPull, Joined, Prepend;
    var cur, n := start, 0;
    assert out[..0] == [];
    JoinedEnds(out[..0], SpotsFrom(lib, s, start, 0));
    while true
      invariant cur <= |s| && 0 <= n <= out.Length
      invariant SpotsFrom(lib, s, start, 0) == Joined(out[..n], SpotsFrom(lib, s, cur, n))
      decreases |s| - cur
    {
      JoinedEnds(out[..n], SpotsFrom(lib, s, cur, n));
      var turn := PullSpot(lib, s, cur, n);
      match turn
      case End => return Items(out[..n]);
      case Stuck => return ParseError;
      case Excess => return Oversize;
      case Got(e, next) =>
        ghost var before := out[..n];
        out[n] := e;
        assert out[..n + 1] == before + [e];
        JoinedStep(before, e, SpotsFrom(lib, s, next, n + 1));
        n, cur := n + 1, next;
    }
  }

  method ReadMissing(s: string, start: nat, out: array<string>) returns (r: List<string>)
    requires start <= |s| && out.Length == MAX_MISSING
    modifies out
    ensures r == MissingFrom(s, start, 0)
    ensures r.Items? ==> |r.items| <= out.Length && out[..|r.items|] == r.items
  {
    hide MissingPull, Joined, Prepend;
    var cur, n := start, 0;
    assert out[..0] == [];
    JoinedEnds(out[..0], MissingFrom(s, start, 0));
    while true
      invariant cur <= |s| && 0 <= n <= out.Length
      invariant MissingFrom(s, start, 0) == Joined(out[..n], MissingFrom(s, cur, n))
      decreases |s| - cur
    {
      JoinedEnds(out[..n], MissingFrom(s, cur, n));
      var turn := PullMissing(s, cur, n);
      match turn
      case End => return Items(out[..n]);
      case Stuck => return ParseError;
      case Excess => return Oversize;
      case Got(name, next) =>
        ghost var before := out[..n];
        out[n] := name;
        assert out[..n + 1] == before + [name];
        JoinedStep(before, name, MissingFrom(s, next, n + 1));
        n, cur := n + 1, next;
    }
  }

  method GetSpot(lib: Numbers, s: string, body: nat) returns (r: Reply)
    requires body <= |s|
    ensures r == SpotText(lib, s, body)
  {
    hide NumberField, Scan, SpotsFrom, MissingFrom;
    var version := ExtractNumber(lib.whole, s, body, "table_version");
    if version.None? { return Parse; }
    var spotsAt := FindKey(s, body, "spots");
    if spotsAt.None? || At(s, spotsAt.value) != '[' { return Parse; }
    var store := new SpotEntry[MAX_PAIRS](_ => SpotEntry("", 0.0, 0.0, 0.0, 0.0, ""));
    var spots := ReadSpots(lib, s, spotsAt.value + 1, store);
    if !spots.Items? {
      return if spots.ParseError? then Parse else TooMany;
    }
    var missingAt := FindKey(s, body, "missing");
    if missingAt.None? || At(s, missingAt.value) != '[' {
      return Good(version.value, spots.items, []);
    }
    var names := new string[MAX_MISSING](_ => "");
    var missing := ReadMissing(s, missingAt.value + 1, names);
    if !missing.Items? {
      return if missing.ParseError? then Parse else TooMany;
    }
    return Good(version.value, spots.items, missing.items);
  }

  // ---- on the tree ---------------------------------------------------------

  function TreeString(ms: Members, key: string, cap: nat): Option<string> {
    var j := LookUp(ms, key);
    if j.Some? && j.value.Str? && |Unescape(j.value.raw)| < cap then Some(Unescape(j.value.raw)) else None
  }

  function TreeLeft(ms: Members, key: string, cap: nat): string
    requires cap > 0
  {
    var j := LookUp(ms, key);
    if j.Some? && j.value.Str?
    then Unescape(j.value.raw)[..Min(|Unescape(j.value.raw)|, cap - 1)] else ""
  }

  function TreeNumber<T>(read: string -> Option<T>, ms: Members, key: string): Option<T> {
    var j := LookUp(ms, key);
    if j.Some? && j.value.Atom? then read(j.value.tok) else None
  }

  function TreeEntry(lib: Numbers, ms: Members): Option<SpotEntry> {
    var pair := TreeString(ms, "pair", PAIR_LEN);
    var bid := TreeNumber(lib.real_, ms, "bid");
    var ask := TreeNumber(lib.real_, ms, "ask");
    var rawBid := TreeNumber(lib.real_, ms, "raw_bid");
    var rawAsk := TreeNumber(lib.real_, ms, "raw_ask");
    if pair.None? || bid.None? || ask.None? || rawBid.None? || rawAsk.None? then None
    else Some(SpotEntry(pair.value, bid.value, ask.value, rawBid.value, rawAsk.value,
                        TreeLeft(ms, "source", SOURCE_LEN)))
  }

  /** The array's elements, in order, up to the first that is no complete entry or does not fit. */
  function TreeSpots(lib: Numbers, es: Elems, n: nat): List<SpotEntry> {
    if es.NoElems? then Items([])
    else if !es.value.Obj? then ParseError
    else if n >= MAX_PAIRS then Oversize
    else
      var e := TreeEntry(lib, es.value.members);
      if e.None? then ParseError else Prepend(e.value, TreeSpots(lib, es.rest, n + 1))
  }

  function TreeMissing(es: Elems, n: nat): List<string> {
    if es.NoElems? then Items([])
    else if !es.value.Str? then ParseError
    else if n >= MAX_MISSING then Oversize
    else if |Unescape(es.value.raw)| >= PAIR_LEN then ParseError
    else Prepend(Unescape(es.value.raw), TreeMissing(es.rest, n + 1))
  }

  function SpotTree(lib: Numbers, ms: Members): Reply {
    var spots, missing := LookUp(ms, "spots"), LookUp(ms, "missing");
    Assemble(TreeNumber(lib.whole, ms, "table_version"),
             if spots.Some? && spots.value.Arr? then Some(TreeSpots(lib, spots.value.elems, 0)) else None,
             if missing.Some? && missing.value.Arr? then Some(TreeMissing(missing.value.elems, 0)) else None)
  }

  // ---- text agrees with tree -----------------------------------------------

  lemma {:induction false} TokenOver(s: string, p: nat, tok: string)
    requires (forall c :: c in tok ==> IsAtomChar(c)) && HasAt(s, p, tok) && !IsAtomChar(At(s, p + |tok|))
    ensures Token(s, p) == tok
    decreases |tok|
  {
    if tok != [] {
      assert tok[0] in tok;
      assert forall c :: c in tok[1..] ==> c in tok;
      TokenOver(s, p + 1, tok[1..]);
      assert tok == [tok[0]] + tok[1..];
    }
  }

  /** A value read as a number or as a string at its printed position. */
  lemma ValueRead(s: string, v: nat, j: Json)
    requires Ok(j) && HasAt(s, v, Print(j)) && !IsAtomChar(At(s, v + |Print(j)|))
    ensures v < |s|
    ensures Token(s, v) == if j.Atom? then j.tok else []
    ensures s[v] == '"' <==> j.Str?
    ensures s[v] == '[' <==> j.Arr?
    ensures j.Str? ==> StringEnd(s, v + 1) == v + 1 + |j.raw| && At(s, StringEnd(s, v + 1)) == '"'
    ensures j.Str? ==> Chars(s, v + 1) == Unescape(j.raw)
  {
    PrintStart(j);
    if j.Atom? {
      TokenOver(s, v, j.tok);
    } else if j.Str? {
      assert Print(j) == "\"" + (j.raw + "\"");
      HasAtSplit(s, v, "\"", j.raw + "\"");
      HasAtSplit(s, v + 1, j.raw, "\"");
      StringEndRaw(s, v + 1, j.raw);
      CharsOfRaw(s, v + 1, j.raw);
    }
  }

  lemma FieldsAgree(s: string, ctx: nat, first: nat, j: Json, key: string, cap: nat)
    requires ctx <= |s| && cap > 0 && j.Obj? && Found(s, Find(s, ctx, key), j, key, first)
    ensures StringField(s, ctx, key, cap) == TreeString(j.members, key, cap)
    ensures StringLeft(s, ctx, key, cap) == TreeLeft(j.members, key, cap)
  {
    var v := Find(s, ctx, key);
    if v.Some? { ValueRead(s, v.value, LookUp(j.members, key).value); }
  }

  lemma NumbersAgree<T>(read: string -> Option<T>, s: string, ctx: nat, first: nat, j: Json, key: string)
    requires ctx <= |s| && j.Obj? && Found(s, Find(s, ctx, key), j, key, first)
    ensures NumberField(read, s, ctx, key) == TreeNumber(read, j.members, key)
  {
    var v := Find(s, ctx, key);
    if v.Some? { ValueRead(s, v.value, LookUp(j.members, key).value); }
  }

  lemma EntryAgrees(lib: Numbers, s: string, p: nat, j: Json)
    requires Ok(j) && j.Obj? && HasAt(s, p, Print(j))
    ensures p + 1 <= |s| && EntryAt(lib, s, p + 1) == TreeEntry(lib, j.members)
  {
    ObjectParts(s, p, j);
    FindKeyInside(s, p + 1, j, "pair");
    FieldsAgree(s, p + 1, p + 1, j, "pair", PAIR_LEN);
    FindKeyInside(s, p + 1, j, "bid");
    NumbersAgree(lib.real_, s, p + 1, p + 1, j, "bid");
    FindKeyInside(s, p + 1, j, "ask");
    NumbersAgree(lib.real_, s, p + 1, p + 1, j, "ask");
    FindKeyInside(s, p + 1, j, "raw_bid");
    NumbersAgree(lib.real_, s, p + 1, p + 1, j, "raw_bid");
    FindKeyInside(s, p + 1, j, "raw_ask");
    NumbersAgree(lib.real_, s, p + 1, p + 1, j, "raw_ask");
    FindKeyInside(s, p + 1, j, "source");
    FieldsAgree(s, p + 1, p + 1, j, "source", SOURCE_LEN);
  }

  /** Behind an element, up to blanks: the comma of the next one or the closing bracket. */
  ghost predicate Behind(s: string, cur: nat, gap: string, rest: Elems) {
    AllWs(gap) && HasAt(s, cur, gap) && HasAt(s, cur + |gap|, ElemsTail(rest) + "]")
  }

  /** The array loops stand in front of `es`: they find its first element next, or the end of the array. */
  ghost predicate InFront(s: string, cur: nat, es: Elems) {
    && cur <= |s|
    && if es.NoElems? then At(s, SkipWs(s, cur)) == ']'
       else
         var p := NextElem(s, cur);
         && At(s, SkipWs(s, cur)) != ']'
         && HasAt(s, p, Print(es.value))
         && Behind(s, p + |Print(es.value)|, es.w1, es.rest)
  }

  lemma ElemParts(s: string, p: nat, es: Elems)
    requires es.Elems? && ElemsOk(es) && HasAt(s, p, PrintElems(es) + "]")
    ensures SkipWs(s, p) == p + |es.w0|
    ensures HasAt(s, p + |es.w0|, Print(es.value))
    ensures Behind(s, p + |es.w0| + |Print(es.value)|, es.w1, es.rest)
  {
    var v := p + |es.w0|;
    var tail := ElemsTail(es.rest) + "]";
    assert PrintElems(es) + "]" == es.w0 + (Print(es.value) + (es.w1 + tail));
    HasAtSplit(s, p, es.w0, Print(es.value) + (es.w1 + tail));
    HasAtSplit(s, v, Print(es.value), es.w1 + tail);
    HasAtSplit(s, v + |Print(es.value)|, es.w1, tail);
    PrintStart(es.value);
    SkipWsOver(s, p, es.w0);
  }

  lemma FirstInFront(s: string, p: nat, es: Elems)
    requires es.Elems? && ElemsOk(es) && HasAt(s, p, PrintElems(es) + "]")
    ensures InFront(s, p, es)
  {
    ElemParts(s, p, es);
    PrintStart(es.value);
  }

  lemma BehindInFront(s: string, cur: nat, gap: string, rest: Elems)
    requires ElemsOk(rest) && Behind(s, cur, gap, rest)
    ensures InFront(s, cur, rest) && !IsAtomChar(At(s, cur))
  {
    var q := cur + |gap|;
    if gap != [] { assert gap[0] in gap; }
    SkipWsOver(s, cur, gap);
    if rest.Elems? {
      assert ElemsTail(rest) + "]" == "," + (PrintElems(rest) + "]");
      HasAtSplit(s, q, ",", PrintElems(rest) + "]");
      ElemParts(s, q + 1, rest);
    } else {
      assert ElemsTail(rest) + "]" == "]";
    }
  }

  /** One turn of the spots loop takes exactly one element of the tree. */
  lemma SpotPullAgrees(lib: Numbers, s: string, cur: nat, es: Elems, n: nat)
    requires ElemsOk(es) && InFront(s, cur, es)
    ensures SpotPull(lib, s, cur, n) ==
              if es.NoElems? then End
              else if !es.value.Obj? then Stuck
              else if n >= MAX_PAIRS then Excess
              else if TreeEntry(lib, es.value.members).None? then Stuck
              else Got(TreeEntry(lib, es.value.members).value, NextElem(s, cur) + |Print(es.value)|)
  {
    hide EntryAt, TreeEntry, BodyEnd;
    if es.Elems? {
      PrintStart(es.value);
      if es.value.Obj? {
        EntryAgrees(lib, s, NextElem(s, cur), es.value);
        SkipObjectExact(s, NextElem(s, cur), es.value);
      }
    }
  }

  lemma {:induction false} SpotsAgree(lib: Numbers, s: string, cur: nat, es: Elems, n: nat)
    requires ElemsOk(es) && InFront(s, cur, es)
    ensures SpotsFrom(lib, s, cur, n) == TreeSpots(lib, es, n)
    decreases es
  {
    hide SpotPull, TreeEntry, NextElem, Behind;
    SpotPullAgrees(lib, s, cur, es, n);
    if es.Elems? && es.value.Obj? && n < MAX_PAIRS {
      var q := NextElem(s, cur) + |Print(es.value)|;
      BehindInFront(s, q, es.w1, es.rest);
      SpotsAgree(lib, s, q, es.rest, n + 1);
    }
  }

  /** One turn of the missing loop takes exactly one element of the tree. */
  lemma MissingPullAgrees(s: string, cur: nat, es: Elems, n: nat)
    requires ElemsOk(es) && InFront(s, cur, es)
    ensures MissingPull(s, cur, n) ==
              if es.NoElems? then End
              else if !es.value.Str? then Stuck
              else if n >= MAX_MISSING then Excess
              else if |Unescape(es.value.raw)| >= PAIR_LEN then Stuck
              else Got(Unescape(es.value.raw), NextElem(s, cur) + |Print(es.value)|)
  {
    hide Chars, StringEnd, Unescape;
    if es.Elems? {
      var p := NextElem(s, cur);
      BehindInFront(s, p + |Print(es.value)|, es.w1, es.rest);
      ValueRead(s, p, es.value);
    }
  }

  lemma {:induction false} MissingAgree(s: string, cur: nat, es: Elems, n: nat)
    requires ElemsOk(es) && InFront(s, cur, es)
    ensures MissingFrom(s, cur, n) == TreeMissing(es, n)
    decreases es
  {
    hide MissingPull, Unescape, NextElem, Behind;
    MissingPullAgrees(s, cur, es, n);
    if es.Elems? && es.value.Str? && n < MAX_MISSING {
      var q := NextElem(s, cur) + |Print(es.value)|;
      BehindInFront(s, q, es.w1, es.rest);
      MissingAgree(s, q, es.rest, n + 1);
    }
  }

  lemma ArrayInFront(s: string, v: nat, j: Json)
    requires Ok(j) && j.Arr? && HasAt(s, v, Print(j))
    ensures v < |s| && InFront(s, v + 1, j.elems)
  {
    assert Print(j) == "[" + (InnerElems(j.pad, j.elems) + "]");
    HasAtSplit(s, v, "[", InnerElems(j.pad, j.elems) + "]");
    if j.elems.NoElems? {
      HasAtSplit(s, v + 1, j.pad, "]");
      SkipWsOver(s, v + 1, j.pad);
    } else {
      FirstInFront(s, v + 1, j.elems);
    }
  }

  lemma ArrayAgrees(lib: Numbers, s: string, v: nat, a: Json)
    requires Ok(a) && HasAt(s, v, Print(a))
    ensures v < |s| && (s[v] == '[' <==> a.Arr?)
    ensures a.Arr? ==> SpotsFrom(lib, s, v + 1, 0) == TreeSpots(lib, a.elems, 0)
    ensures a.Arr? ==> MissingFrom(s, v + 1, 0) == TreeMissing(a.elems, 0)
  {
    PrintStart(a);
    if a.Arr? {
      ArrayInFront(s, v, a);
      SpotsAgree(lib, s, v + 1, a.elems, 0);
      MissingAgree(s, v + 1, a.elems, 0);
    }
  }

  lemma SpotsFieldAgrees(lib: Numbers, s: string, b: nat, first: nat, j: Json)
    requires b <= |s| && j.Obj? && Found(s, Find(s, b, "spots"), j, "spots", first)
    ensures SpotsField(lib, s, b) ==
              var a := LookUp(j.members, "spots");
              if a.Some? && a.value.Arr? then Some(TreeSpots(lib, a.value.elems, 0)) else None
  {
    hide Find, SpotsFrom, TreeSpots;
    var v := Find(s, b, "spots");
    if v.Some? { ArrayAgrees(lib, s, v.value, LookUp(j.members, "spots").value); }
  }

  lemma MissingFieldAgrees(lib: Numbers, s: string, b: nat, first: nat, j: Json)
    requires b <= |s| && j.Obj? && Found(s, Find(s, b, "missing"), j, "missing", first)
    ensures MissingField(s, b) ==
              var a := LookUp(j.members, "missing");
              if a.Some? && a.value.Arr? then Some(TreeMissing(a.value.elems, 0)) else None
  {
    hide Find, MissingFrom, TreeMissing;
    var v := Find(s, b, "missing");
    if v.Some? { ArrayAgrees(lib, s, v.value, LookUp(j.members, "missing").value); }
  }

  /**
   On every grammatical body the pointer code computes the tree extraction:
   it lists the entries of the `spots` array in order, or reports that there
   are too many, or that a required field is absent.
   */
  lemma SpotExact(lib: Numbers, s: string, b: nat, lead: string, j: Json)
    requires Ok(j) && j.Obj? && AllWs(lead) && HasAt(s, b, lead) && HasAt(s, b + |lead|, Print(j))
    ensures SpotText(lib, s, b) == SpotTree(lib, j.members)
  {
    hide Found, SpotsField, MissingField, NumberField, TreeNumber, LookUp, Assemble;
    var first := b + |lead| + 1;
    FindKeyExact(s, b, lead, j, "table_version");
    NumbersAgree(lib.whole, s, b, first, j, "table_version");
    FindKeyExact(s, b, lead, j, "spots");
    SpotsFieldAgrees(lib, s, b, first, j);
    FindKeyExact(s, b, lead, j, "missing");
    MissingFieldAgrees(lib, s, b, first, j);
  }

  /** An entry needs its pair, as a string of at most fifteen bytes, and its four prices as numbers. */
  lemma EntryNeeds(lib: Numbers, ms: Members)
    ensures TreeEntry(lib, ms).Some? <==>
              && (var p := LookUp(ms, "pair"); p.Some? && p.value.Str? && |Unescape(p.value.raw)| <= 15)
              && (forall key :: key in ["bid", "ask", "raw_bid", "raw_ask"] ==>
                    LookUp(ms, key).Some? && LookUp(ms, key).value.Atom? && lib.real_(LookUp(ms, key).value.tok).Some?)
  {
    hide LookUp, Unescape;
    var keys := ["bid", "ask", "raw_bid", "raw_ask"];
    assert keys[0] in keys && keys[1] in keys && keys[2] in keys && keys[3] in keys;
  }

  /**
   Every grammatical body without a readable version or without an array of
   spots is a parse error; one whose missing names are absent or no array gives
   the spots alone.
   */
  lemma BodyNeeds(lib: Numbers, s: string, b: nat, lead: string, j: Json)
    requires Ok(j) && j.Obj? && AllWs(lead) && HasAt(s, b, lead) && HasAt(s, b + |lead|, Print(j))
    ensures var version, spots := LookUp(j.members, "table_version"), LookUp(j.members, "spots");
            (version.None? || !version.value.Atom? || lib.whole(version.value.tok).None?
             || spots.None? || !spots.value.Arr?) ==> SpotText(lib, s, b) == Parse
    ensures var version, spots := LookUp(j.members, "table_version"), LookUp(j.members, "spots");
            var missing := LookUp(j.members, "missing");
            version.Some? && version.value.Atom? && lib.whole(version.value.tok).Some?
            && spots.Some? && spots.value.Arr? && (missing.None? || !missing.value.Arr?) ==>
              var list := TreeSpots(lib, spots.value.elems, 0);
              SpotText(lib, s, b) == if list.Items? then Good(lib.whole(version.value.tok).value, list.items, [])
                                     else if list.Oversize? then TooMany else Parse
  {
    hide SpotText, LookUp, TreeSpots, TreeMissing, Print, Ok;
    SpotExact(lib, s, b, lead, j);
  }
}
