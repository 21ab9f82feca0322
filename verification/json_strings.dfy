/**
 Reading and writing of JSON strings in fixed buffers, and percent-encoding of
 query values (section 2.1 of RFC 3986), as the C price client does them.
 */
module JsonStrings {
  import opened CText
  import opened JsonGrammar
  import opened JsonScan

  // ---- reading -------------------------------------------------------------

  /** The character a backslash pair stands for; every unknown pair stands for its own second half. */
  function EscapedChar(c: char): char {
    if c == 'n' then '\n' else if c == 't' then '\t' else if c == 'r' then '\r' else c
  }

  function Unescape(raw: string): string {
    if raw == [] then []
    else if raw[0] == '\\' && |raw| >= 2 then [EscapedChar(raw[1])] + Unescape(raw[2..])
    else [raw[0]] + Unescape(raw[1..])
  }

  /** The characters read from `p` up to the closing quote or the end of the text. */
  function Chars(s: string, p: nat): (t: string)
    requires p <= |s|
    decreases |s| - p
  {
    if At(s, p) == NUL || At(s, p) == '"' then []
    else if At(s, p) == '\\' && At(s, p + 1) != NUL then [EscapedChar(s[p + 1])] + Chars(s, p + 2)
    else [s[p]] + Chars(s, p + 1)
  }

  lemma {:induction false} CharsOfRaw(s: string, p: nat, raw: string)
    requires RawOk(raw) && HasAt(s, p, raw + "\"")
    ensures Chars(s, p) == Unescape(raw)
    decreases |raw|
  {
    if raw == [] {
    } else if raw[0] == '\\' {
      assert (raw + "\"")[1..] == raw[1..] + "\"";
      assert (raw[1..] + "\"")[1..] == raw[2..] + "\"";
      CharsOfRaw(s, p + 2, raw[2..]);
    } else {
      assert (raw + "\"")[1..] == raw[1..] + "\"";
      CharsOfRaw(s, p + 1, raw[1..]);
    }
  }

  function Min(a: int, b: int): int { if a < b then a else b }

  /** One character of a string body, and where the next one starts. */
  method ReadChar(s: string, q: nat) returns (c: char, next: nat)
    requires q <= |s| && At(s, q) != NUL && At(s, q) != '"'
    ensures q < next <= |s|
    ensures Chars(s, q) == [c] + Chars(s, next) && StringEnd(s, q) == StringEnd(s, next)
  {
    if At(s, q) == '\\' && At(s, q + 1) != NUL {
      return EscapedChar(s[q + 1]), q + 2;
    }
    return s[q], q + 1;
  }

  lemma CharsAt(s: string, q: nat)
    requires q <= |s|
    ensures At(s, q) == NUL || At(s, q) == '"' ==> Chars(s, q) == [] && StringEnd(s, q) == q
    ensures At(s, q) != NUL && At(s, q) != '"' ==> |Chars(s, q)| > 0
  {
  }

  /**
   Reads the string value at `val` into `out`. `n` characters are stored; the
   value is accepted exactly when it is a closed string that leaves room for
   the terminator, and a value that is too long leaves its first part behind.
   */
  method ReadString(s: string, val: nat, out: array<char>) returns (ok: bool, n: nat)
    requires val <= |s| && out.Length > 0
    modifies out
    ensures n < out.Length
    ensures At(s, val) != '"' ==> !ok && n == 0
    ensures At(s, val) == '"' ==>
              && n == Min(|Chars(s, val + 1)|, out.Length - 1)
              && (ok <==> At(s, StringEnd(s, val + 1)) == '"' && |Chars(s, val + 1)| < out.Length)
              && out[..n] == Chars(s, val + 1)[..n]
    ensures ok ==> out[n] == NUL && out[n + 1..] == old(out[n + 1..])
    ensures !ok ==> out[n..] == old(out[n..])
  {
    hide Chars, StringEnd;
    n := 0;
    if At(s, val) != '"' {
      return false, 0;
    }
    ghost var full := Chars(s, val + 1);
    var q := val + 1;
    while At(s, q) != NUL && At(s, q) != '"'
      invariant val < q <= |s| && n < out.Length
      invariant StringEnd(s, q) == StringEnd(s, val + 1)
      invariant full == out[..n] + Chars(s, q)
      invariant out[n..] == old(out[n..])
      decreases |s| - q
    {
      CharsAt(s, q);
      if n + 1 >= out.Length {
        return false, n;
      }
      ghost var before, after := out[..n], out[n..];
      out[n], q := ReadChar(s, q);
      assert out[..n + 1] == before + [out[n]];
      assert out[n + 1..] == after[1..];
      n := n + 1;
    }
    CharsAt(s, q);
    if At(s, q) != '"' {
      return false, n;
    }
    ghost var before, after := out[..n], out[n..];
    out[n] := NUL;
    assert out[..n] == before && out[n + 1..] == after[1..];
    return true, n;
  }

  // ---- writing -------------------------------------------------------------

  function LowerHex(d: nat): char
    requires d < 16
  {
    if d < 10 then (48 + d) as char else (87 + d) as char
  }

  predicate IsControl(c: char) { c as int < 0x20 }

  function EscapeChar(c: char): string {
    if c == '"' || c == '\\' then ['\\', c]
    else if IsControl(c) then "\\u00" + [LowerHex(c as int / 16), LowerHex(c as int % 16)]
    else [c]
  }

  function Escape(t: string): string {
    if t == [] then [] else EscapeChar(t[0]) + Escape(t[1..])
  }

  predicate Unreserved(c: char) {
    'A' <= c <= 'Z' || 'a' <= c <= 'z' || '0' <= c <= '9' ||
    c == '-' || c == '.' || c == '_' || c == '~' || c == ',' || c == '/'
  }

  function UpperHex(d: nat): char
    requires d < 16
  {
    if d < 10 then (48 + d) as char else (55 + d) as char
  }

  /** A byte, as C's `char` is. */
  type Byte = c: char | c as int < 256 witness 'a'

  function PercentByte(c: Byte): string {
    if Unreserved(c) then [c] else ['%', UpperHex(c as int / 16), UpperHex(c as int % 16)]
  }

  function PercentEncode(t: seq<Byte>): string {
    if t == [] then [] else PercentByte(t[0]) + PercentEncode(t[1..])
  }

  /** `piece` behind the first `i` characters of `dst`, if a terminator still fits behind it. */
  method Append(dst: array<char>, i: nat, piece: string) returns (ok: bool)
    requires i < dst.Length
    modifies dst
    ensures ok <==> i + |piece| < dst.Length
    ensures ok ==> dst[..i + |piece|] == old(dst[..i]) + piece
  {
    if i + |piece| >= dst.Length {
      return false;
    }
    var k := 0;
    while k < |piece|
      invariant 0 <= k <= |piece|
      invariant dst[..i + k] == old(dst[..i]) + piece[..k]
    {
      ghost var before := dst[..i + k];
      dst[i + k] := piece[k];
      assert dst[..i + k + 1] == before + [piece[k]];
      k := k + 1;
    }
    return true;
  }

  lemma EscapeNothing(t: string)
    ensures Escape(t[|t|..]) == [] && t[0..] == t
  {
  }

  lemma EscapeStep(t: string, j: nat)
    requires j < |t|
    ensures Escape(t[j..]) == EscapeChar(t[j]) + Escape(t[j + 1..])
  {
    hide EscapeChar;
    assert t[j..][1..] == t[j + 1..];
  }

  lemma EscapeFrom(t: string, done: string, j: nat)
    requires j < |t| && Escape(t) == done + Escape(t[j..])
    ensures Escape(t) == (done + EscapeChar(t[j])) + Escape(t[j + 1..])
  {
    hide Escape, EscapeChar;
    EscapeStep(t, j);
    assert done + (EscapeChar(t[j]) + Escape(t[j + 1..])) == (done + EscapeChar(t[j])) + Escape(t[j + 1..]);
  }

  /** Succeeds exactly when the escaped text is shorter than the buffer. */
  method EscapeInto(dst: array<char>, src: string) returns (ok: bool)
    requires NUL !in src && dst.Length > 0
    modifies dst
    ensures ok <==> |Escape(src)| < dst.Length
    ensures ok ==> dst[..|Escape(src)|] == Escape(src) && dst[|Escape(src)|] == NUL
  {
    hide Escape, EscapeChar;
    assert Escape(src[|src|..]) == [] && src[0..] == src by { EscapeNothing(src); }
    var i, j := 0, 0;
    while j < |src|
      invariant 0 <= j <= |src| && 0 <= i < dst.Length
      invariant Escape(src) == dst[..i] + Escape(src[j..])
    {
      var piece := EscapeChar(src[j]);
      ghost var done := dst[..i];
      EscapeFrom(src, done, j);
      var fits := Append(dst, i, piece);
      if !fits {
        return false;
      }
      i := i + |piece|;
      j := j + 1;
    }
    ghost var done := dst[..i];
    dst[i] := NUL;
    assert dst[..i] == done;
    return true;
  }

  lemma PercentEncodeNothing(t: seq<Byte>)
    ensures PercentEncode(t[|t|..]) == [] && t[0..] == t
  {
  }

  lemma PercentEncodeStep(t: seq<Byte>, j: nat)
    requires j < |t|
    ensures PercentEncode(t[j..]) == PercentByte(t[j]) + PercentEncode(t[j + 1..])
  {
    hide PercentByte;
    assert t[j..][1..] == t[j + 1..];
  }

  lemma PercentEncodeFrom(t: seq<Byte>, done: string, j: nat)
    requires j < |t| && PercentEncode(t) == done + PercentEncode(t[j..])
    ensures PercentEncode(t) == (done + PercentByte(t[j])) + PercentEncode(t[j + 1..])
  {
    hide PercentEncode, PercentByte;
    PercentEncodeStep(t, j);
    assert done + (PercentByte(t[j]) + PercentEncode(t[j + 1..]))
        == (done + PercentByte(t[j])) + PercentEncode(t[j + 1..]);
  }

  /** Succeeds exactly when the encoded text is shorter than the buffer. */
  method PercentEncodeInto(dst: array<char>, src: seq<Byte>) returns (ok: bool)
    requires NUL !in src && dst.Length > 0
    modifies dst
    ensures ok <==> |PercentEncode(src)| < dst.Length
    ensures ok ==> dst[..|PercentEncode(src)|] == PercentEncode(src) && dst[|PercentEncode(src)|] == NUL
  {
    hide PercentEncode, PercentByte;
    assert PercentEncode(src[|src|..]) == [] && src[0..] == src by { PercentEncodeNothing(src); }
    var i, j := 0, 0;
    while j < |src|
      invariant 0 <= j <= |src| && 0 <= i < dst.Length
      invariant PercentEncode(src) == dst[..i] + PercentEncode(src[j..])
    {
      var piece := PercentByte(src[j]);
      ghost var done := dst[..i];
      PercentEncodeFrom(src, done, j);
      var fits := Append(dst, i, piece);
      if !fits {
        return false;
      }
      i := i + |piece|;
      j := j + 1;
    }
    ghost var done := dst[..i];
    dst[i] := NUL;
    assert dst[..i] == done;
    return true;
  }

  // ---- round trips ---------------------------------------------------------

  function Controls(t: string): nat {
    if t == [] then 0 else (if IsControl(t[0]) then 1 else 0) + Controls(t[1..])
  }

  lemma UnescapePlain(c: char, rest: string)
    requires c != '\\'
    ensures Unescape([c] + rest) == [c] + Unescape(rest)
  {
    assert ([c] + rest)[1..] == rest;
  }

  lemma UnescapePair(c: char, rest: string)
    ensures Unescape(['\\', c] + rest) == [EscapedChar(c)] + Unescape(rest)
  {
    assert (['\\', c] + rest)[2..] == rest;
  }

  /** A control byte is written as a six-character escape that is read back as five characters. */
  lemma UnescapeControl(c: char, rest: string)
    requires IsControl(c)
    ensures |Unescape(EscapeChar(c) + rest)| == 5 + |Unescape(rest)|
  {
    var h, l := LowerHex(c as int / 16), LowerHex(c as int % 16);
    assert EscapeChar(c) + rest == ['\\', 'u'] + (['0'] + (['0'] + ([h] + ([l] + rest))));
    UnescapePair('u', ['0'] + (['0'] + ([h] + ([l] + rest))));
    UnescapePlain('0', ['0'] + ([h] + ([l] + rest)));
    UnescapePlain('0', [h] + ([l] + rest));
    UnescapePlain(h, [l] + rest);
    UnescapePlain(l, rest);
  }

  lemma {:induction false} UnescapeEscape(t: string)
    ensures |Unescape(Escape(t))| == |t| + 4 * Controls(t)
    ensures Controls(t) == 0 ==> Unescape(Escape(t)) == t
  {
    if t != [] {
      UnescapeEscape(t[1..]);
      var c, rest := t[0], Escape(t[1..]);
      if c == '"' || c == '\\' {
        UnescapePair(c, rest);
      } else if IsControl(c) {
        UnescapeControl(c, rest);
      } else {
        UnescapePlain(c, rest);
      }
      assert t == [c] + t[1..];
    }
  }

  lemma {:induction false} NoControls(t: string)
    ensures Controls(t) == 0 <==> forall i :: 0 <= i < |t| ==> t[i] as int >= 0x20
  {
    if t != [] {
      NoControls(t[1..]);
      assert t == [t[0]] + t[1..];
    }
  }

  /** Reading back an escaped text yields the text itself exactly when it holds no control byte. */
  lemma {:induction false} EscapeRoundTrip(t: string)
    ensures Unescape(Escape(t)) == t <==> Controls(t) == 0
    ensures Unescape(Escape(t)) == t <==> forall i :: 0 <= i < |t| ==> t[i] as int >= 0x20
  {
    UnescapeEscape(t);
    NoControls(t);
  }

  lemma {:induction false} RawOkPlain(w: string, rest: string)
    requires RawOk(rest) && forall c :: c in w ==> c != NUL && c != '"' && c != '\\'
    ensures RawOk(w + rest)
    decreases |w|
  {
    if w == [] {
      assert w + rest == rest;
    } else {
      assert w[0] in w;
      assert (w + rest)[1..] == w[1..] + rest;
      assert forall c :: c in w[1..] ==> c in w;
      RawOkPlain(w[1..], rest);
    }
  }

  /** An escaped text is a legal string body. */
  lemma {:induction false} EscapeRawOk(t: string)
    requires NUL !in t
    ensures RawOk(Escape(t))
  {
    if t != [] {
      EscapeRawOk(t[1..]);
      var c, rest := t[0], Escape(t[1..]);
      if c == '"' || c == '\\' {
        assert (['\\', c] + rest)[2..] == rest;
      } else if IsControl(c) {
        var h, l := LowerHex(c as int / 16), LowerHex(c as int % 16);
        RawOkPlain(['0', '0', h, l], rest);
        assert EscapeChar(c) + rest == ['\\', 'u'] + (['0', '0', h, l] + rest);
        assert (EscapeChar(c) + rest)[2..] == ['0', '0', h, l] + rest;
      } else {
        RawOkPlain([c], rest);
      }
    }
  }

  /** What the writer puts between quotes, the reader reads back: on text, for every text without control bytes. */
  lemma WriteThenRead(t: string, s: string, p: nat)
    requires NUL !in t && HasAt(s, p, Quoted(Escape(t)))
    ensures At(s, p) == '"' && At(s, StringEnd(s, p + 1)) == '"'
    ensures Chars(s, p + 1) == t <==> Controls(t) == 0
  {
    EscapeRawOk(t);
    assert Quoted(Escape(t)) == "\"" + (Escape(t) + "\"");
    HasAtSplit(s, p, "\"", Escape(t) + "\"");
    HasAtSplit(s, p + 1, Escape(t), "\"");
    StringEndRaw(s, p + 1, Escape(t));
    CharsOfRaw(s, p + 1, Escape(t));
    EscapeRoundTrip(t);
  }

  /** Value of an upper-case hexadecimal digit. */
  function HexValue(c: char): (v: int)
    ensures v < 16
  {
    if '0' <= c <= '9' then c as int - 48
    else if 'A' <= c <= 'F' then c as int - 55
    else -1
  }

  /** Percent-decoding as section 2.1 of RFC 3986 defines it; anything else stands for itself. */
  function PercentDecode(t: string): string {
    if t == [] then []
    else if |t| >= 3 && t[0] == '%' && HexValue(t[1]) >= 0 && HexValue(t[2]) >= 0 then
      [(16 * HexValue(t[1]) + HexValue(t[2])) as char] + PercentDecode(t[3..])
    else [t[0]] + PercentDecode(t[1..])
  }

  lemma PercentByteBack(c: Byte, rest: string)
    ensures PercentDecode(PercentByte(c) + rest) == [c] + PercentDecode(rest)
  {
    var t := PercentByte(c) + rest;
    if Unreserved(c) {
      assert t[1..] == rest;
    } else {
      assert t[3..] == rest;
      assert HexValue(t[1]) == c as int / 16 && HexValue(t[2]) == c as int % 16;
    }
  }

  /** Percent-decoding undoes percent-encoding on every byte string. */
  lemma {:induction false} PercentRoundTrip(t: seq<Byte>)
    ensures PercentDecode(PercentEncode(t)) == t
  {
    if t != [] {
      PercentRoundTrip(t[1..]);
      PercentByteBack(t[0], PercentEncode(t[1..]));
      assert t == [t[0]] + t[1..];
    }
  }

  /** An encoded value can neither end the query parameter nor the request line it is put into. */
  lemma {:induction false} PercentClean(t: seq<Byte>, c: char)
    requires c in PercentEncode(t)
    ensures Unreserved(c) || c == '%'
    ensures c != '&' && c != '=' && c != '#' && c != '+' && c != '?' && c != ';' && c != ' ' && c != '"'
    ensures 0x20 < c as int < 0x7f
  {
    if c !in PercentByte(t[0]) { PercentClean(t[1..], c); }
  }
}
