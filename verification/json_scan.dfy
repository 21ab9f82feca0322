/**
 The key search and the two span skippers of the C price client, and what they
 compute on grammatical texts.
 */
module JsonScan {
  import opened CText
  import opened Options
  import opened JsonGrammar
  import opened JsonWalk

  // ---- strings -------------------------------------------------------------

  /** End of the string body at `p`: the closing quote, or the end of the text. */
  function StringEnd(s: string, p: nat): (q: nat)
    requires p <= |s|
    ensures p <= q <= |s|
    ensures At(s, q) == '"' || At(s, q) == NUL
    decreases |s| - p
  {
    if At(s, p) == NUL || At(s, p) == '"' then p
    else if At(s, p) == '\\' && At(s, p + 1) != NUL then StringEnd(s, p + 2)
    else StringEnd(s, p + 1)
  }

  lemma {:induction false} StringEndRaw(s: string, p: nat, raw: string)
    requires RawOk(raw) && HasAt(s, p, raw + "\"")
    ensures StringEnd(s, p) == p + |raw|
    decreases |raw|
  {
    if raw == [] {
    } else if raw[0] == '\\' {
      assert (raw + "\"")[1..] == raw[1..] + "\"";
      assert (raw[1..] + "\"")[1..] == raw[2..] + "\"";
      StringEndRaw(s, p + 2, raw[2..]);
    } else {
      assert (raw + "\"")[1..] == raw[1..] + "\"";
      StringEndRaw(s, p + 1, raw[1..]);
    }
  }

  /** Position after the closing quote of the string whose body starts at `p`. */
  method SkipStringBody(s: string, p: nat) returns (r: Option<nat>)
    requires p <= |s|
    ensures r == if At(s, StringEnd(s, p)) == '"' then Some(StringEnd(s, p) + 1) else None
    ensures r.Some? ==> r.value <= |s|
  {
    var q := p;
    while At(s, q) != NUL
      invariant p <= q <= |s| && StringEnd(s, q) == StringEnd(s, p)
      decreases |s| - q
    {
      if At(s, q) == '\\' && At(s, q + 1) != NUL {
        q := q + 2;
        continue;
      }
      if At(s, q) == '"' {
        return Some(q + 1);
      }
      q := q + 1;
    }
    return None;
  }

  // ---- object spans --------------------------------------------------------

  /** Position after the bracket that closes the one left open before `p`. */
  function BodyEnd(s: string, p: nat, m: Mode): (r: Option<nat>)
    requires p <= |s|
    ensures r.Some? ==> p < r.value <= |s|
    decreases |s| - p
  {
    if At(s, p) == NUL then None
    else
      var n := Step(s[p], m);
      if n.None? then Some(p + 1) else BodyEnd(s, p + 1, n.value)
  }

  lemma {:induction false} BodyEndOver(s: string, p: nat, w: string, m: Mode)
    requires HasAt(s, p, w) && Walk(w, m).Some?
    ensures BodyEnd(s, p, m) == BodyEnd(s, p + |w|, Walk(w, m).value)
    decreases |w|
  {
    if w != [] {
      BodyEndOver(s, p + 1, w[1..], Step(w[0], m).value);
    }
  }

  method SkipObjectBody(s: string, p: nat) returns (r: Option<nat>)
    requires p <= |s|
    ensures r == BodyEnd(s, p, Flat(0))
  {
    var q, depth, inStr, esc := p, 0, false, false;
    while At(s, q) != NUL
      invariant p <= q <= |s| && depth >= 0 && (esc ==> inStr)
      invariant BodyEnd(s, q, Mode(depth, inStr, esc)) == BodyEnd(s, p, Flat(0))
      decreases |s| - q
    {
      if esc {
        esc := false;
        q := q + 1;
        continue;
      }
      if inStr {
        if s[q] == '\\' { esc := true; } else if s[q] == '"' { inStr := false; }
        q := q + 1;
        continue;
      }
      if s[q] == '"' {
        inStr := true;
      } else if IsOpen(s[q]) {
        depth := depth + 1;
      } else if IsClose(s[q]) {
        if depth == 0 {
          return Some(q + 1);
        }
        depth := depth - 1;
      }
      q := q + 1;
    }
    return None;
  }

  /**
   From just behind the opening brace of any grammatical object, the skipper
   lands just behind its own closing brace, whatever the object contains.
   */
  lemma SkipObjectExact(s: string, p: nat, j: Json)
    requires Ok(j) && j.Obj? && HasAt(s, p, Print(j))
    ensures BodyEnd(s, p + 1, Flat(0)) == Some(p + |Print(j)|)
  {
    var inner := Inner(j.pad, j.members);
    HasAtSplit(s, p, "{" + inner, "}");
    HasAtSplit(s, p, "{", inner);
    WalkInner(j.pad, j.members, 0);
    BodyEndOver(s, p + 1, inner, Flat(0));
  }

  // ---- key search ----------------------------------------------------------

  /** What follows a matched key: its value, if a colon comes next. */
  function AfterKey(s: string, p: nat): (r: Option<nat>)
    requires p <= |s|
    ensures r.Some? ==> p < r.value <= |s|
  {
    var q := SkipWs(s, p);
    if At(s, q) != ':' then None else Some(SkipWs(s, q + 1))
  }

  /** A string met at the object's own level: the search ends here, or goes on behind it. */
  datatype Hit = Stop(found: Option<nat>) | Miss(next: nat)

  function TryKey(s: string, key: string, p: nat): (h: Hit)
    requires p < |s|
    ensures h.Stop? && h.found.Some? ==> p < h.found.value <= |s|
    ensures h.Miss? ==> p < h.next <= |s|
  {
    var e := StringEnd(s, p + 1);
    if At(s, e) != '"' then Stop(None)
    else if s[p + 1..e] == key then Stop(AfterKey(s, e + 1))
    else Miss(e + 1)
  }

  /** The search loop from position `p` in machine mode `m`. */
  function Scan(s: string, key: string, p: nat, m: Mode): (r: Option<nat>)
    requires p <= |s|
    ensures r.Some? ==> p < r.value <= |s|
    decreases |s| - p
  {
    if At(s, p) == NUL then None
    else if m == Flat(0) && s[p] == '"' then
      var h := TryKey(s, key, p);
      if h.Stop? then h.found else Scan(s, key, h.next, Flat(0))
    else
      var n := Step(s[p], m);
      if n.None? then None else Scan(s, key, p + 1, n.value)
  }

  /** Entry of the search: blanks and one opening brace are passed over. */
  function Entry(s: string, body: nat): (p: nat)
    requires body <= |s|
    ensures body <= p <= |s|
  {
    var p := SkipWs(s, body);
    if At(s, p) == '{' then p + 1 else p
  }

  method FindKey(s: string, body: nat, key: string) returns (r: Option<nat>)
    requires body <= |s|
    ensures r == Scan(s, key, Entry(s, body), Flat(0))
  {
    var p := SkipWhitespace(s, body);
    if At(s, p) == '{' { p := p + 1; }
    ghost var goal := Scan(s, key, p, Flat(0));
    var depth, inStr, esc := 0, false, false;
    while At(s, p) != NUL
      invariant 0 <= p <= |s| && depth >= 0 && (esc ==> inStr) && (inStr ==> depth > 0)
      invariant Scan(s, key, p, Mode(depth, inStr, esc)) == goal
      decreases |s| - p
    {
      if esc {
        esc := false;
        p := p + 1;
        continue;
      }
      if inStr {
        if s[p] == '\\' { esc := true; } else if s[p] == '"' { inStr := false; }
        p := p + 1;
        continue;
      }
      if s[p] == '"' {
        if depth == 0 {
          var h := ReadKey(s, key, p);
          if h.Stop? {
            return h.found;
          }
          p := h.next;
          continue;
        }
        inStr := true;
      } else if IsOpen(s[p]) {
        depth := depth + 1;
      } else if IsClose(s[p]) {
        if depth == 0 {
          return None;
        }
        depth := depth - 1;
      }
      p := p + 1;
    }
    return None;
  }

  /** Key candidate at the quote `p`: compare, then expect blanks, a colon, blanks. */
  method ReadKey(s: string, key: string, p: nat) returns (h: Hit)
    requires p < |s|
    ensures h == TryKey(s, key, p)
  {
    var kend := KeyEnd(s, p + 1);
    if At(s, kend) != '"' {
      return Stop(None);
    }
    if s[p + 1..kend] == key {
      var q := SkipWhitespace(s, kend + 1);
      if At(s, q) != ':' {
        return Stop(None);
      }
      q := SkipWhitespace(s, q + 1);
      return Stop(Some(q));
    }
    return Miss(kend + 1);
  }

  method KeyEnd(s: string, p: nat) returns (q: nat)
    requires p <= |s|
    ensures q == StringEnd(s, p)
  {
    q := p;
    while At(s, q) != NUL && At(s, q) != '"'
      invariant p <= q <= |s| && StringEnd(s, q) == StringEnd(s, p)
      decreases |s| - q
    {
      if At(s, q) == '\\' && At(s, q + 1) != NUL { q := q + 2; } else { q := q + 1; }
    }
  }

  // ---- the search on grammatical objects -----------------------------------

  /**
   The search on the tree: the first member called `key`, unless an earlier
   member holds the string `key` as its value.
   */
  function LookUp(ms: Members, key: string): Option<Json> {
    if ms.NoMembers? then None
    else if ms.name == key then Some(ms.value)
    else if ms.value == Str(key) then None
    else LookUp(ms.rest, key)
  }

  /** Where that value starts when the members are printed at `p`. */
  function LookUpAt(ms: Members, key: string, p: nat): Option<nat> {
    if ms.NoMembers? then None
    else if ms.name == key then Some(p + |Label(ms)|)
    else if ms.value == Str(key) then None
    else LookUpAt(ms.rest, key, p + |Label(ms)| + |Print(ms.value)| + |ms.w3| + 1)
  }

  /** Nested text is passed over: the search only reacts at its own level. */
  lemma {:induction false} ScanOver(s: string, key: string, p: nat, w: string, m: Mode)
    requires HasAt(s, p, w) && Walk(w, m).Some?
    ensures Scan(s, key, p, m.(depth := m.depth + 1))
         == var n := Walk(w, m).value; Scan(s, key, p + |w|, n.(depth := n.depth + 1))
    decreases |w|
  {
    if w != [] {
      var n := Step(w[0], m).value;
      assert Step(w[0], m.(depth := m.depth + 1)) == Some(n.(depth := n.depth + 1));
      ScanOver(s, key, p + 1, w[1..], n);
    }
  }

  lemma {:induction false} ScanPlain(s: string, key: string, p: nat, w: string)
    requires HasAt(s, p, w) && AllPlain(w)
    ensures Scan(s, key, p, Flat(0)) == Scan(s, key, p + |w|, Flat(0))
    decreases |w|
  {
    if w != [] {
      assert w[0] in w;
      ScanPlain(s, key, p + 1, w[1..]);
    }
  }

  lemma ScanQuoted(s: string, key: string, p: nat, raw: string)
    requires RawOk(raw) && HasAt(s, p, Quoted(raw))
    ensures Scan(s, key, p, Flat(0))
         == if raw == key then AfterKey(s, p + |Quoted(raw)|) else Scan(s, key, p + |Quoted(raw)|, Flat(0))
  {
    assert Quoted(raw) == "\"" + (raw + "\"");
    HasAtSplit(s, p, "\"", raw + "\"");
    StringEndRaw(s, p + 1, raw);
    HasAtSplit(s, p + 1, raw, "\"");
    HasAtSlice(s, p + 1, raw);
  }

  /** A value other than the string `key` is passed over. */
  lemma ScanValue(s: string, key: string, p: nat, j: Json)
    requires Ok(j) && j != Str(key) && HasAt(s, p, Print(j))
    ensures Scan(s, key, p, Flat(0)) == Scan(s, key, p + |Print(j)|, Flat(0))
  {
    match j
    case Str(raw) => ScanQuoted(s, key, p, raw);
    case Atom(tok) => ScanPlain(s, key, p, tok);
    case Obj(pad, ms) =>
      WalkInner(pad, ms, 0);
      ScanBracketed(s, key, p, '{', Inner(pad, ms), '}');
    case Arr(pad, es) =>
      if es.NoElems? { WalkWs(pad, 0); } else { WalkElems(es, 0); }
      ScanBracketed(s, key, p, '[', InnerElems(pad, es), ']');
  }

  lemma ScanBracketed(s: string, key: string, p: nat, open: char, inner: string, close: char)
    requires IsOpen(open) && IsClose(close) && HasAt(s, p, [open] + inner + [close])
    requires Walk(inner, Flat(0)) == Some(Flat(0))
    ensures Scan(s, key, p, Flat(0)) == Scan(s, key, p + |inner| + 2, Flat(0))
  {
    HasAtSplit(s, p, [open] + inner, [close]);
    HasAtSplit(s, p, [open], inner);
    ScanOver(s, key, p + 1, inner, Flat(0));
  }

  /** Blanks, a colon and blanks between a name and its value. */
  ghost predicate GapAt(s: string, q: nat, w1: string, w2: string) {
    && AllWs(w1) && AllWs(w2)
    && HasAt(s, q, w1) && HasAt(s, q + |w1|, ":") && HasAt(s, q + |w1| + 1, w2)
  }

  lemma AfterKeyOver(s: string, q: nat, w1: string, w2: string)
    requires GapAt(s, q, w1, w2) && !IsWs(At(s, q + |w1| + 1 + |w2|))
    ensures AfterKey(s, q) == Some(q + |w1| + 1 + |w2|)
  {
    SkipWsOver(s, q, w1);
    SkipWsOver(s, q + |w1| + 1, w2);
  }

  lemma ScanGap(s: string, key: string, q: nat, w1: string, w2: string)
    requires GapAt(s, q, w1, w2)
    ensures Scan(s, key, q, Flat(0)) == Scan(s, key, q + |w1| + 1 + |w2|, Flat(0))
  {
    ScanPlain(s, key, q, w1);
    ScanPlain(s, key, q + |w1| + 1, w2);
  }

  /** A label: either its value is found here, or the search goes on at the value. */
  lemma ScanLabelText(s: string, key: string, p: nat, w0: string, name: string, w1: string, w2: string)
    requires AllWs(w0) && RawOk(name) && HasAt(s, p, w0)
    requires HasAt(s, p + |w0|, Quoted(name)) && GapAt(s, p + |w0| + |name| + 2, w1, w2)
    requires !IsWs(At(s, p + |w0| + |name| + 2 + |w1| + 1 + |w2|))
    ensures var v := p + |w0| + |name| + 2 + |w1| + 1 + |w2|;
            Scan(s, key, p, Flat(0)) == if name == key then Some(v) else Scan(s, key, v, Flat(0))
  {
    var q := p + |w0| + |name| + 2;
    ScanPlain(s, key, p, w0);
    ScanQuoted(s, key, p + |w0|, name);
    if name == key { AfterKeyOver(s, q, w1, w2); } else { ScanGap(s, key, q, w1, w2); }
  }

  lemma LabelParts(s: string, p: nat, ms: Members)
    requires ms.Members? && MembersOk(ms) && HasAt(s, p, Label(ms))
    ensures HasAt(s, p, ms.w0) && HasAt(s, p + |ms.w0|, Quoted(ms.name))
    ensures GapAt(s, p + |ms.w0| + |ms.name| + 2, ms.w1, ms.w2)
    ensures |Label(ms)| == |ms.w0| + |ms.name| + 2 + |ms.w1| + 1 + |ms.w2|
  {
    var q := p + |ms.w0| + |Quoted(ms.name)|;
    HasAtSplit(s, p, ms.w0 + Quoted(ms.name), ms.w1 + (":" + ms.w2));
    HasAtSplit(s, p, ms.w0, Quoted(ms.name));
    HasAtSplit(s, q, ms.w1, ":" + ms.w2);
    HasAtSplit(s, q + |ms.w1|, ":", ms.w2);
  }

  lemma ScanLabel(s: string, key: string, p: nat, ms: Members)
    requires MembersOk(ms) && ms.Members? && HasAt(s, p, Label(ms)) && HasAt(s, p + |Label(ms)|, Print(ms.value))
    ensures Scan(s, key, p, Flat(0))
         == if ms.name == key then Some(p + |Label(ms)|) else Scan(s, key, p + |Label(ms)|, Flat(0))
  {
    LabelParts(s, p, ms);
    PrintStart(ms.value);
    ScanLabelText(s, key, p, ms.w0, ms.name, ms.w1, ms.w2);
  }

  /** The text behind a member's value starts, after blanks, with a comma or the closing brace. */
  lemma TailStart(s: string, p: nat, ms: Members)
    requires MembersOk(ms) && ms.Members? && HasAt(s, p, PrintMembers(ms) + "}")
    ensures HasAt(s, p, Label(ms)) && HasAt(s, p + |Label(ms)|, Print(ms.value))
    ensures var q := p + |Label(ms)| + |Print(ms.value)|;
            && HasAt(s, q, ms.w3)
            && q + |ms.w3| < |s|
            && s[q + |ms.w3|] == (if ms.rest.NoMembers? then '}' else ',')
            && (ms.rest.Members? ==> HasAt(s, q + |ms.w3| + 1, PrintMembers(ms.rest) + "}"))
  {
    var q := p + |Label(ms)| + |Print(ms.value)|;
    var tail := MembersTail(ms.rest) + "}";
    assert PrintMembers(ms) + "}" == (Label(ms) + Print(ms.value)) + (ms.w3 + tail);
    HasAtSplit(s, p, Label(ms) + Print(ms.value), ms.w3 + tail);
    HasAtSplit(s, p, Label(ms), Print(ms.value));
    HasAtSplit(s, q, ms.w3, tail);
    if ms.rest.Members? {
      assert tail[1..] == PrintMembers(ms.rest) + "}";
    }
  }

  lemma ScanDelimiter(s: string, key: string, q: nat)
    requires q < |s| && (s[q] == ',' || s[q] == '}')
    ensures Scan(s, key, q, Flat(0)) == if s[q] == '}' then None else Scan(s, key, q + 1, Flat(0))
    ensures SkipWs(s, q) == q && AfterKey(s, q) == None
  {
  }

  lemma ScanPastKeyString(s: string, key: string, v: nat, w3: string)
    requires RawOk(key) && AllWs(w3) && HasAt(s, v, Quoted(key)) && HasAt(s, v + |Quoted(key)|, w3)
    requires var q := v + |Quoted(key)| + |w3|; q < |s| && (s[q] == ',' || s[q] == '}')
    ensures Scan(s, key, v, Flat(0)) == None
  {
    hide Scan;
    var e := v + |Quoted(key)|;
    ScanQuoted(s, key, v, key);
    SkipWsOver(s, e, w3);
    ScanDelimiter(s, key, e + |w3|);
  }

  /** Behind a value that is not the answer, the search reaches the next member or the closing brace. */
  lemma ScanPastValue(s: string, key: string, v: nat, j: Json, w3: string)
    requires Ok(j) && AllWs(w3) && HasAt(s, v, Print(j)) && HasAt(s, v + |Print(j)|, w3)
    requires var q := v + |Print(j)| + |w3|; q < |s| && (s[q] == ',' || s[q] == '}')
    ensures var q := v + |Print(j)| + |w3|;
            Scan(s, key, v, Flat(0))
            == if j == Str(key) || s[q] == '}' then None else Scan(s, key, q + 1, Flat(0))
  {
    hide Scan, HasAt;
    var e := v + |Print(j)|;
    if j == Str(key) {
      ScanPastKeyString(s, key, v, w3);
    } else {
      ScanValue(s, key, v, j);
      ScanPlain(s, key, e, w3);
      ScanDelimiter(s, key, e + |w3|);
    }
  }

  lemma {:induction false} ScanMembers(s: string, key: string, p: nat, ms: Members)
    requires MembersOk(ms) && ms.Members? && HasAt(s, p, PrintMembers(ms) + "}")
    ensures Scan(s, key, p, Flat(0)) == LookUpAt(ms, key, p)
    decreases ms
  {
    hide Scan, HasAt, Print, PrintMembers;
    TailStart(s, p, ms);
    ScanLabel(s, key, p, ms);
    if ms.name != key {
      var v := p + |Label(ms)|;
      ScanPastValue(s, key, v, ms.value, ms.w3);
      if ms.rest.Members? {
        ScanMembers(s, key, v + |Print(ms.value)| + |ms.w3| + 1, ms.rest);
      }
    }
  }

  /** Where the tree search finds a value, that value is printed, with a delimiter behind it. */
  lemma {:induction false} LookUpPrinted(s: string, key: string, p: nat, ms: Members)
    requires MembersOk(ms) && ms.Members? && HasAt(s, p, PrintMembers(ms) + "}")
    ensures LookUpAt(ms, key, p).Some? <==> LookUp(ms, key).Some?
    ensures LookUp(ms, key).Some? ==>
              var j, v := LookUp(ms, key).value, LookUpAt(ms, key, p).value;
              Ok(j) && HasAt(s, v, Print(j)) && !IsAtomChar(At(s, v + |Print(j)|))
    decreases ms
  {
    hide Print, PrintMembers;
    TailStart(s, p, ms);
    var q := p + |Label(ms)| + |Print(ms.value)|;
    if ms.name == key {
      if ms.w3 != [] {
        assert ms.w3[0] in ms.w3;
      }
    } else if ms.value != Str(key) && ms.rest.Members? {
      LookUpPrinted(s, key, q + |ms.w3| + 1, ms.rest);
    }
  }

  /** The object's text split at its braces. */
  lemma ObjectParts(s: string, open: nat, j: Json)
    requires j.Obj? && HasAt(s, open, Print(j))
    ensures s[open] == '{' && HasAt(s, open + 1, Inner(j.pad, j.members) + "}")
  {
    assert Print(j) == "{" + (Inner(j.pad, j.members) + "}");
    HasAtSplit(s, open, "{", Inner(j.pad, j.members) + "}");
  }

  /** What a search for `key` from `p` must return to be right about the object `j` opened before `first`. */
  ghost predicate Found(s: string, r: Option<nat>, j: Json, key: string, first: nat)
    requires j.Obj?
  {
    && r == LookUpAt(j.members, key, first)
    && (r.Some? <==> LookUp(j.members, key).Some?)
    && (r.Some? ==> var v := LookUp(j.members, key).value;
                    Ok(v) && HasAt(s, r.value, Print(v)) && !IsAtomChar(At(s, r.value + |Print(v)|)))
  }

  lemma ScanObject(s: string, key: string, open: nat, j: Json)
    requires Ok(j) && j.Obj? && HasAt(s, open, Print(j))
    ensures Found(s, Scan(s, key, open + 1, Flat(0)), j, key, open + 1)
  {
    hide Scan, PrintMembers;
    ObjectParts(s, open, j);
    if j.members.NoMembers? {
      HasAtSplit(s, open + 1, j.pad, "}");
      ScanPlain(s, key, open + 1, j.pad);
      ScanDelimiter(s, key, open + 1 + |j.pad|);
    } else {
      ScanMembers(s, key, open + 1, j.members);
      LookUpPrinted(s, key, open + 1, j.members);
    }
  }

  /** The first character that counts behind the opening brace is never another brace. */
  lemma InsideStart(s: string, open: nat, j: Json)
    requires Ok(j) && j.Obj? && HasAt(s, open, Print(j))
    ensures At(s, SkipWs(s, open + 1)) != '{'
  {
    ObjectParts(s, open, j);
    if j.members.NoMembers? {
      HasAtSplit(s, open + 1, j.pad, "}");
      SkipWsOver(s, open + 1, j.pad);
    } else {
      TailStart(s, open + 1, j.members);
      LabelParts(s, open + 1, j.members);
      SkipWsOver(s, open + 1, j.members.w0);
    }
  }

  lemma {:induction false} ScanFromText(s: string, key: string, p: nat)
    requires p <= |s|
    ensures Scan(s, key, p, Flat(0)) == Scan(s, key, SkipWs(s, p), Flat(0))
    decreases |s| - p
  {
    if IsWs(At(s, p)) { ScanFromText(s, key, p + 1); }
  }

  /**
   Key search on any grammatical object, entered at its opening brace with
   blanks before it allowed.
   */
  lemma FindKeyExact(s: string, body: nat, lead: string, j: Json, key: string)
    requires Ok(j) && j.Obj? && AllWs(lead) && HasAt(s, body, lead) && HasAt(s, body + |lead|, Print(j))
    ensures Found(s, Scan(s, key, Entry(s, body), Flat(0)), j, key, body + |lead| + 1)
  {
    ObjectParts(s, body + |lead|, j);
    SkipWsOver(s, body, lead);
    ScanObject(s, key, body + |lead|, j);
  }

  /** The same search entered just behind the opening brace. */
  lemma FindKeyInside(s: string, body: nat, j: Json, key: string)
    requires Ok(j) && j.Obj? && body > 0 && HasAt(s, body - 1, Print(j))
    ensures Found(s, Scan(s, key, Entry(s, body), Flat(0)), j, key, body)
  {
    ObjectParts(s, body - 1, j);
    InsideStart(s, body - 1, j);
    ScanFromText(s, key, body);
    ScanObject(s, key, body - 1, j);
  }

  // ---- when the search is right --------------------------------------------

  /** The value an object lookup should give: that of the first member called `key`. */
  function FirstNamed(ms: Members, key: string): Option<Json> {
    if ms.NoMembers? then None
    else if ms.name == key then Some(ms.value)
    else FirstNamed(ms.rest, key)
  }

  /** The member called `key` comes after one whose value is the string `key`. */
  predicate Shadowed(ms: Members, key: string) {
    ms.Members? && ms.name != key &&
    ((ms.value == Str(key) && FirstNamed(ms.rest, key).Some?) || Shadowed(ms.rest, key))
  }

  /** The search finds the first member of that name exactly when no earlier string value shadows it. */
  lemma {:induction false} LookUpRight(ms: Members, key: string)
    ensures LookUp(ms, key) == FirstNamed(ms, key) <==> !Shadowed(ms, key)
    ensures LookUp(ms, key).Some? ==> FirstNamed(ms, key).Some?
  {
    if ms.Members? && ms.name != key {
      LookUpRight(ms.rest, key);
      if ms.value == Str(key) && FirstNamed(ms.rest, key).None? { NotShadowed(ms.rest, key); }
    }
  }

  lemma {:induction false} NotShadowed(ms: Members, key: string)
    requires FirstNamed(ms, key).None?
    ensures !Shadowed(ms, key)
  {
    if ms.Members? { NotShadowed(ms.rest, key); }
  }

  /** In `{"a":"b","b":1}` the key `b` is present and is not found. */
  lemma ShadowedKeyIsLost()
    ensures var ms := Members("", "a", "", "", Str("b"), "", Members("", "b", "", "", Atom("1"), "", NoMembers));
            var text := Print(Obj("", ms));
            FirstNamed(ms, "b") == Some(Atom("1")) && Scan(text, "b", Entry(text, 0), Flat(0)) == None
  {
    hide Scan, Entry, Print;
    var tail := Members("", "b", "", "", Atom("1"), "", NoMembers);
    var ms := Members("", "a", "", "", Str("b"), "", tail);
    var text := Print(Obj("", ms));
    HasAtSlice(text, 0, text);
    assert RawOk("a") && RawOk("b") && AtomOk("1");
    assert MembersOk(tail);
    FindKeyExact(text, 0, "", Obj("", ms), "b");
  }
}
