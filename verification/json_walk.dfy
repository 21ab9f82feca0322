/**
 The bracket machine both C scanners share: a depth counter with an in-string
 and an escape flag. Its one theorem is that the text of any grammatical value
 leaves the machine exactly as it found it.
 */
module JsonWalk {
  import opened CText
  import opened Options
  import opened JsonGrammar

  datatype Mode = Mode(depth: nat, inStr: bool, esc: bool)

  /** Outside strings, `depth` brackets deep. */
  function Flat(depth: nat): Mode { Mode(depth, false, false) }

  /** One character; None when the text ends or a bracket closes below depth 0. */
  function Step(c: char, m: Mode): Option<Mode> {
    if c == NUL then None
    else if m.esc then Some(m.(esc := false))
    else if m.inStr then Some(m.(inStr := c != '"', esc := c == '\\'))
    else if c == '"' then Some(m.(inStr := true))
    else if IsOpen(c) then Some(m.(depth := m.depth + 1))
    else if IsClose(c) then (if m.depth == 0 then None else Some(m.(depth := m.depth - 1)))
    else Some(m)
  }

  function Walk(w: string, m: Mode): Option<Mode> {
    if w == [] then Some(m)
    else
      var n := Step(w[0], m);
      if n.None? then None else Walk(w[1..], n.value)
  }

  lemma {:induction false} WalkConcat(a: string, b: string, m: Mode)
    ensures Walk(a + b, m) == if Walk(a, m).None? then None else Walk(b, Walk(a, m).value)
    decreases |a|
  {
    if a == [] {
      assert a + b == b;
    } else {
      assert (a + b)[1..] == a[1..] + b;
      var n := Step(a[0], m);
      if n.Some? { WalkConcat(a[1..], b, n.value); }
    }
  }

  lemma {:induction false} WalkPlain(w: string, d: nat)
    requires AllPlain(w)
    ensures Walk(w, Flat(d)) == Some(Flat(d))
    decreases |w|
  {
    if w != [] {
      assert w[0] in w;
      WalkPlain(w[1..], d);
    }
  }

  lemma WalkWs(w: string, d: nat)
    requires AllWs(w)
    ensures Walk(w, Flat(d)) == Some(Flat(d))
  {
    WalkPlain(w, d);
  }

  lemma {:induction false} WalkRaw(raw: string, d: nat)
    requires RawOk(raw)
    ensures Walk(raw, Mode(d, true, false)) == Some(Mode(d, true, false))
    decreases |raw|
  {
    if raw == [] {
    } else if raw[0] == '\\' {
      assert raw[1..][1..] == raw[2..];
      assert Step(raw[0], Mode(d, true, false)) == Some(Mode(d, true, true));
      assert Step(raw[1], Mode(d, true, true)) == Some(Mode(d, true, false));
      WalkRaw(raw[2..], d);
      assert Walk(raw[1..], Mode(d, true, true)) == Walk(raw[2..], Mode(d, true, false));
    } else {
      WalkRaw(raw[1..], d);
    }
  }

  lemma WalkOne(c: char, m: Mode)
    ensures Walk([c], m) == Step(c, m)
  {
    var n := Step(c, m);
    if n.Some? { assert Walk([c][1..], n.value) == n; }
  }

  lemma WalkQuoted(raw: string, d: nat)
    requires RawOk(raw)
    ensures Walk(Quoted(raw), Flat(d)) == Some(Flat(d))
  {
    var q := Mode(d, true, false);
    WalkOne('"', Flat(d));
    WalkRaw(raw, d);
    WalkOne('"', q);
    WalkConcat("\"", raw, Flat(d));
    WalkConcat("\"" + raw, "\"", Flat(d));
  }

  /** Two texts that leave the machine alone leave it alone together. */
  lemma WalkJoin(a: string, b: string, d: nat)
    requires Walk(a, Flat(d)) == Some(Flat(d)) && Walk(b, Flat(d)) == Some(Flat(d))
    ensures Walk(a + b, Flat(d)) == Some(Flat(d))
  {
    WalkConcat(a, b, Flat(d));
  }

  lemma WalkBracketed(open: char, inner: string, close: char, d: nat)
    requires IsOpen(open) && IsClose(close)
    requires Walk(inner, Flat(d + 1)) == Some(Flat(d + 1))
    ensures Walk([open] + inner + [close], Flat(d)) == Some(Flat(d))
  {
    WalkOne(open, Flat(d));
    WalkOne(close, Flat(d + 1));
    WalkConcat([open], inner, Flat(d));
    WalkConcat([open] + inner, [close], Flat(d));
  }

  /** Every grammatical value is invisible to the bracket machine. */
  lemma {:induction false} WalkJson(j: Json, d: nat)
    requires Ok(j)
    ensures Walk(Print(j), Flat(d)) == Some(Flat(d))
    decreases j
  {
    match j
    case Str(raw) => WalkQuoted(raw, d);
    case Atom(tok) => WalkPlain(tok, d);
    case Obj(pad, ms) =>
      WalkInner(pad, ms, d + 1);
      WalkBracketed('{', Inner(pad, ms), '}', d);
    case Arr(pad, es) =>
      if es.NoElems? { WalkWs(pad, d + 1); } else { WalkElems(es, d + 1); }
      WalkBracketed('[', InnerElems(pad, es), ']', d);
  }

  lemma WalkInner(pad: string, ms: Members, d: nat)
    requires AllWs(pad) && MembersOk(ms)
    ensures Walk(Inner(pad, ms), Flat(d)) == Some(Flat(d))
    decreases ms, 1
  {
    if ms.NoMembers? { WalkWs(pad, d); } else { WalkMembers(ms, d); }
  }

  lemma WalkLabel(ms: Members, d: nat)
    requires MembersOk(ms) && ms.Members?
    ensures Walk(Label(ms), Flat(d)) == Some(Flat(d))
  {
    WalkWs(ms.w0, d);
    WalkQuoted(ms.name, d);
    WalkJoin(ms.w0, Quoted(ms.name), d);
    WalkWs(ms.w1, d);
    WalkPlain(":", d);
    WalkWs(ms.w2, d);
    WalkJoin(":", ms.w2, d);
    WalkJoin(ms.w1, ":" + ms.w2, d);
    WalkJoin(ms.w0 + Quoted(ms.name), ms.w1 + (":" + ms.w2), d);
  }

  lemma {:induction false} WalkMembers(ms: Members, d: nat)
    requires MembersOk(ms) && ms.Members?
    ensures Walk(PrintMembers(ms), Flat(d)) == Some(Flat(d))
    decreases ms, 0
  {
    WalkLabel(ms, d);
    WalkJson(ms.value, d);
    WalkWs(ms.w3, d);
    if ms.rest.Members? {
      WalkMembers(ms.rest, d);
      WalkPlain(",", d);
      WalkJoin(",", PrintMembers(ms.rest), d);
    }
    WalkJoin(ms.w3, MembersTail(ms.rest), d);
    WalkJoin(Print(ms.value), ms.w3 + MembersTail(ms.rest), d);
    WalkJoin(Label(ms), Print(ms.value) + (ms.w3 + MembersTail(ms.rest)), d);
  }

  lemma {:induction false} WalkElems(es: Elems, d: nat)
    requires ElemsOk(es) && es.Elems?
    ensures Walk(PrintElems(es), Flat(d)) == Some(Flat(d))
    decreases es
  {
    WalkWs(es.w0, d);
    WalkJson(es.value, d);
    WalkWs(es.w1, d);
    if es.rest.Elems? {
      WalkElems(es.rest, d);
      WalkPlain(",", d);
      WalkJoin(",", PrintElems(es.rest), d);
    }
    WalkJoin(es.w1, ElemsTail(es.rest), d);
    WalkJoin(Print(es.value), es.w1 + ElemsTail(es.rest), d);
    WalkJoin(es.w0, Print(es.value) + (es.w1 + ElemsTail(es.rest)), d);
  }
}
