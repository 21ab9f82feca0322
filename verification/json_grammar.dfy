/**
 JSON texts by the recursive grammar of sections 2, 4, 5 and 7 of RFC 8259,
 as concrete syntax trees that keep every optional blank. Tokens are taken a
 little wider than the RFC: a string body is any text in which `\` guards the
 character after it, an atom is any run of non-structural characters.
 */
module JsonGrammar {
  import opened CText

  datatype Json =
    | Str(raw: string)
    | Atom(tok: string)
    | Obj(pad: string, members: Members)
    | Arr(pad: string, elems: Elems)

  /** `w0 "name" w1 : w2 value w3`, separated by commas. */
  datatype Members =
    | NoMembers
    | Members(w0: string, name: string, w1: string, w2: string, value: Json, w3: string, rest: Members)

  /** `w0 value w1`, separated by commas. */
  datatype Elems =
    | NoElems
    | Elems(w0: string, value: Json, w1: string, rest: Elems)

  predicate IsOpen(c: char) { c == '{' || c == '[' }
  predicate IsClose(c: char) { c == '}' || c == ']' }

  /** A character no scanner reacts to outside a string. */
  predicate IsPlain(c: char) {
    c != NUL && c != '"' && !IsOpen(c) && !IsClose(c)
  }

  ghost predicate AllPlain(w: string) {
    forall c :: c in w ==> IsPlain(c)
  }

  /** A string body: no bare quote, and every backslash guards one character. */
  predicate RawOk(raw: string)
  {
    raw == [] ||
    (if raw[0] == '\\' then |raw| >= 2 && raw[1] != NUL && RawOk(raw[2..])
     else raw[0] != NUL && raw[0] != '"' && RawOk(raw[1..]))
  }

  predicate IsAtomChar(c: char) {
    IsPlain(c) && !IsWs(c) && c != ',' && c != ':'
  }

  ghost predicate AtomOk(tok: string) {
    tok != [] && forall c :: c in tok ==> IsAtomChar(c)
  }

  ghost predicate Ok(j: Json) {
    match j
    case Str(raw) => RawOk(raw)
    case Atom(tok) => AtomOk(tok)
    case Obj(pad, ms) => AllWs(pad) && MembersOk(ms)
    case Arr(pad, es) => AllWs(pad) && ElemsOk(es)
  }

  ghost predicate MembersOk(ms: Members) {
    match ms
    case NoMembers => true
    case Members(w0, name, w1, w2, value, w3, rest) =>
      AllWs(w0) && RawOk(name) && AllWs(w1) && AllWs(w2) && Ok(value) && AllWs(w3) && MembersOk(rest)
  }

  ghost predicate ElemsOk(es: Elems) {
    match es
    case NoElems => true
    case Elems(w0, value, w1, rest) => AllWs(w0) && Ok(value) && AllWs(w1) && ElemsOk(rest)
  }

  function Quoted(raw: string): string { "\"" + raw + "\"" }

  function Print(j: Json): string {
    match j
    case Str(raw) => Quoted(raw)
    case Atom(tok) => tok
    case Obj(pad, ms) => "{" + Inner(pad, ms) + "}"
    case Arr(pad, es) => "[" + InnerElems(pad, es) + "]"
  }

  /** What stands between the braces of an object. */
  function Inner(pad: string, ms: Members): string
    decreases ms, 1
  {
    if ms.NoMembers? then pad else PrintMembers(ms)
  }

  function InnerElems(pad: string, es: Elems): string
    decreases es, 1
  {
    if es.NoElems? then pad else PrintElems(es)
  }

  /** The part of a member in front of its value. */
  function Label(ms: Members): string
    requires ms.Members?
  {
    ms.w0 + Quoted(ms.name) + (ms.w1 + (":" + ms.w2))
  }

  function PrintMembers(ms: Members): string
    requires ms.Members?
    decreases ms, 0
  {
    Label(ms) + (Print(ms.value) + (ms.w3 + MembersTail(ms.rest)))
  }

  function MembersTail(ms: Members): string
    decreases ms, 1
  {
    if ms.NoMembers? then "" else "," + PrintMembers(ms)
  }

  function PrintElems(es: Elems): string
    requires es.Elems?
    decreases es, 0
  {
    es.w0 + (Print(es.value) + (es.w1 + ElemsTail(es.rest)))
  }

  function ElemsTail(es: Elems): string
    decreases es, 1
  {
    if es.NoElems? then "" else "," + PrintElems(es)
  }

  lemma PrintStart(j: Json)
    requires Ok(j)
    ensures Print(j) != [] && !IsWs(Print(j)[0]) && Print(j)[0] != NUL
    ensures Print(j)[0] != ',' && Print(j)[0] != ']' && Print(j)[0] != ':'
    ensures Print(j)[0] == '{' <==> j.Obj?
    ensures Print(j)[0] == '[' <==> j.Arr?
    ensures Print(j)[0] == '"' <==> j.Str?
  {
    if j.Atom? {
      assert j.tok[0] in j.tok;
    }
  }
}
