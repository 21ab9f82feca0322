/**
 The fixed-width spot enquiries of the legacy wire: W9501S02 for one pair,
 W9501S03 for many, each with or without a 512-byte common header. Bytes are
 characters.
 */
module BulkCodec {
  import opened Options

  type Bytes = seq<char>

  const COMHDR_LEN := 512
  const EFLG := 182
  const NREC_LEN := 6
  const IN_LEN := 64
  const OUT_LEN := 546
  const MAX_REC := 1000

  // ---- text ----------------------------------------------------------------

  predicate IsSpace(c: char) { c == ' ' || '\t' <= c <= '\r' }

  function TrimLeft(s: Bytes): Bytes { if s != [] && IsSpace(s[0]) then TrimLeft(s[1..]) else s }

  function TrimRight(s: Bytes): Bytes {
    if s != [] && IsSpace(s[|s| - 1]) then TrimRight(s[..|s| - 1]) else s
  }

  function Trim(s: Bytes): Bytes { TrimRight(TrimLeft(s)) }

  predicate IsDigit(c: char) { '0' <= c <= '9' }

  function Digits(s: Bytes): Option<nat> {
    if s == [] then Some(0)
    else
      var n := Digits(s[..|s| - 1]);
      var c := s[|s| - 1];
      if n.None? || !IsDigit(c) then None else Some(n.value * 10 + (c as int - '0' as int))
  }

  /** A decimal integer with an optional sign. */
  function Atoi(s: Bytes): Option<int> {
    var body := if s != [] && (s[0] == '+' || s[0] == '-') then s[1..] else s;
    if body == [] || Digits(body).None? then None
    else
      var n: int := Digits(body).value;
      Some(if s[0] == '-' then -n else n)
  }

  function ParseNrec(b: Bytes, off: nat): Option<nat> {
    if off + NREC_LEN > |b| then None
    else
      var s := Trim(b[off..off + NREC_LEN]);
      var n := Atoi(s);
      if s == [] || n.None? || n.value < 0 || n.value > MAX_REC then None else Some(n.value)
  }

  // ---- frames --------------------------------------------------------------

  datatype Split = Split(hdr: Option<Bytes>, body: Bytes)

  function SplitComhdr(b: Bytes, inLen: nat): Split {
    if |b| >= COMHDR_LEN + inLen then Split(Some(b[..COMHDR_LEN]), b[COMHDR_LEN..]) else Split(None, b)
  }

  /** A count at that offset that accounts for the whole length. */
  predicate Fits(b: Bytes, off: nat) {
    var n := ParseNrec(b, off); n.Some? && |b| == off + NREC_LEN + n.value * IN_LEN
  }

  function SplitComhdrS03(b: Bytes): Split {
    if Fits(b, 0) then Split(None, b)
    else if |b| >= COMHDR_LEN + NREC_LEN && Fits(b, COMHDR_LEN) then Split(Some(b[..COMHDR_LEN]), b[COMHDR_LEN..])
    else if |b| >= COMHDR_LEN + NREC_LEN then Split(Some(b[..COMHDR_LEN]), b[COMHDR_LEN..])
    else Split(None, b)
  }

  /** A count field and exactly that many records are taken whole, whatever the records hold. */
  lemma RawFrame(field: Bytes, n: nat, recs: Bytes)
    requires |field| == NREC_LEN && ParseNrec(field, 0) == Some(n) && |recs| == n * IN_LEN
    ensures Fits(field + recs, 0) && SplitComhdrS03(field + recs) == Split(None, field + recs)
  {
    ParseNrecPrefix(field, recs);
  }

  lemma ParseNrecShift(hdr: Bytes, b: Bytes, off: nat)
    ensures ParseNrec(hdr + b, |hdr| + off) == ParseNrec(b, off)
  {
    if off + NREC_LEN <= |b| {
      assert (hdr + b)[|hdr| + off..|hdr| + off + NREC_LEN] == b[off..off + NREC_LEN];
    }
  }

  lemma ParseNrecPrefix(hdr: Bytes, b: Bytes)
    requires |hdr| >= NREC_LEN
    ensures ParseNrec(hdr + b, 0) == ParseNrec(hdr, 0)
  {
    assert (hdr + b)[0..NREC_LEN] == hdr[0..NREC_LEN];
  }

  /**
   A header in front of a fitting body of m records is split off if and only if
   the header's first six bytes do not read as the number m + 8.
   */
  lemma HeaderSplitIff(hdr: Bytes, body: Bytes)
    requires |hdr| == 512 && Fits(body, 0)
    ensures SplitComhdrS03(hdr + body) == Split(Some(hdr), body)
       <==> ParseNrec(hdr, 0) != Some(ParseNrec(body, 0).value + 8)
  {
    ParseNrecPrefix(hdr, body);
    ParseNrecShift(hdr, body, 0);
    hide ParseNrec;
    assert (hdr + body)[..COMHDR_LEN] == hdr && (hdr + body)[COMHDR_LEN..] == body;
    assert Fits(hdr + body, COMHDR_LEN);
  }

  // ---- one record ----------------------------------------------------------

  datatype Request = Request(exnm: Bytes, symb: Bytes, pair: Bytes, payYmd: Bytes, expYmd: Bytes)
  datatype Quote = Quote(bid: real, ask: real, source: Bytes)
  const ZERO_QUOTE := Quote(0.0, 0.0, "")

  /** The price lookup and the number format, five decimals in the source. */
  datatype Env = Env(spot: Bytes -> Option<Quote>, show: real -> Bytes)

  function Field(b: Bytes, off: nat): Bytes
    requires off + 16 <= |b|
  {
    Trim(b[off..off + 16])
  }

  function SymbToPair(symb: Bytes): Bytes {
    if |symb| == 6 && '/' !in symb then symb[..3] + "/" + symb[3..] else symb
  }

  function ParseS02(b: Bytes): Option<Request> {
    if |b| < IN_LEN then None
    else
      var symb := Field(b, 16);
      if symb == [] then None
      else Some(Request(Field(b, 0), symb, if '/' in symb then symb else SymbToPair(symb), Field(b, 32), Field(b, 48)))
  }

  /** The text of each sixteen-byte cell of the reply. */
  function CellText(r: Request, bid: Bytes, ask: Bytes, cell: nat): Bytes {
    match cell
    case 0 => r.exnm
    case 1 => r.symb
    case 4 => r.payYmd
    case 5 => r.expYmd
    case 17 => bid
    case 19 => ask
    case 28 => bid
    case 29 => ask
    case _ => []
  }

  function TextAt(v: Bytes, k: nat): char { if k < |v| then v[k] else ' ' }

  function Source(q: Quote): char { if q.source == [] then 'B' else q.source[0] }

  /** Byte k of a reply: thirty cells, two source bytes, four blank cells. */
  function ReplyAt(r: Request, bid: Bytes, ask: Bytes, src: char, k: nat): char {
    if k < 480 then TextAt(CellText(r, bid, ask, k / 16), k % 16)
    else if k < 482 then src
    else ' '
  }

  function S02Reply(r: Request, q: Quote, show: real -> Bytes): (out: Bytes)
    ensures |out| == OUT_LEN
  {
    seq(OUT_LEN, k requires 0 <= k < OUT_LEN => ReplyAt(r, show(q.bid), show(q.ask), Source(q), k))
  }

  predicate Written(cells: set<nat>, r: Request, bid: Bytes, ask: Bytes, s: Bytes) {
    && |s| == OUT_LEN
    && (forall k :: 480 <= k < OUT_LEN ==> s[k] == ' ')
    && (forall k :: 0 <= k < 480 ==>
          s[k] == if k / 16 in cells then TextAt(CellText(r, bid, ask, k / 16), k % 16) else ' ')
  }

  /** Copies a text into a blank cell, cut to its width. */
  method Put16(out: array<char>, idx: nat, v: Bytes,
               ghost cells: set<nat>, ghost r: Request, ghost bid: Bytes, ghost ask: Bytes)
    requires idx < 30 && idx !in cells && v == CellText(r, bid, ask, idx) && Written(cells, r, bid, ask, out[..])
    modifies out
    ensures Written(cells + {idx}, r, bid, ask, out[..])
  {
    ghost var before := out[..];
    var n := if |v| < 16 then |v| else 16;
    var i := 0;
    while i < n
      invariant 0 <= i <= n
      invariant forall k :: 0 <= k < OUT_LEN ==>
                  out[k] == if idx * 16 <= k < idx * 16 + i then v[k - idx * 16] else before[k]
    {
      out[idx * 16 + i] := v[i];
      i := i + 1;
    }
    forall k | 0 <= k < 480
      ensures out[k] == if k / 16 in cells + {idx} then TextAt(CellText(r, bid, ask, k / 16), k % 16) else ' '
    {
      hide CellText;
      assert k == k / 16 * 16 + k % 16;
      assert k / 16 == idx <==> idx * 16 <= k < idx * 16 + 16;
    }
  }

  method BuildS02Reply(r: Request, q: Quote, env: Env) returns (reply: Bytes)
    ensures reply == S02Reply(r, q, env.show)
  {
    var bid, ask := env.show(q.bid), env.show(q.ask);
    var out := new char[OUT_LEN](_ => ' ');
    assert Written({}, r, bid, ask, out[..]);
    hide Written;
    Put16(out, 0, r.exnm, {}, r, bid, ask);
    Put16(out, 1, r.symb, {} + {0}, r, bid, ask);
    Put16(out, 4, r.payYmd, {} + {0} + {1}, r, bid, ask);
    Put16(out, 5, r.expYmd, {} + {0} + {1} + {4}, r, bid, ask);
    Put16(out, 17, bid, {} + {0} + {1} + {4} + {5}, r, bid, ask);
    Put16(out, 19, ask, {} + {0} + {1} + {4} + {5} + {17}, r, bid, ask);
    Put16(out, 28, bid, {} + {0} + {1} + {4} + {5} + {17} + {19}, r, bid, ask);
    Put16(out, 29, ask, {} + {0} + {1} + {4} + {5} + {17} + {19} + {28}, r, bid, ask);
    var src := 'B';
    if q.source != "" {
      src := q.source[0];
    }
    AllWritten({} + {0} + {1} + {4} + {5} + {17} + {19} + {28} + {29}, r, q, env, out[..]);
    out[480] := src;
    out[481] := src;
    return out[..];
  }

  lemma AllWritten(cells: set<nat>, r: Request, q: Quote, env: Env, s: Bytes)
    requires cells == {0, 1, 4, 5, 17, 19, 28, 29}
    requires Written(cells, r, env.show(q.bid), env.show(q.ask), s)
    ensures |s| == OUT_LEN && s[480 := Source(q)][481 := Source(q)] == S02Reply(r, q, env.show)
  {
    var bid, ask := env.show(q.bid), env.show(q.ask);
    forall k | 0 <= k < OUT_LEN
      ensures s[480 := Source(q)][481 := Source(q)][k] == ReplyAt(r, bid, ask, Source(q), k)
    {
      if k < 480 && k / 16 !in cells { assert CellText(r, bid, ask, k / 16) == []; }
    }
  }
}
