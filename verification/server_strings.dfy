/**
 JSON strings as the server's encoder writes them, with HTML escaping on, and
 what the C client makes of them. Texts are bytes; beyond ASCII the encoder
 takes them as UTF-8 (section 4 of RFC 3629).
 */
module ServerStrings {
  import opened CText
  import opened JsonGrammar
  import opened JsonStrings

  function Code(t: string, i: nat): int { if i < |t| then t[i] as int else -1 }

  predicate Between(x: int, lo: int, hi: int) { lo <= x <= hi }

  predicate Continues(t: string, i: nat) { Between(Code(t, i), 0x80, 0xBF) }

  /** The least and greatest second byte of a sequence of three or four. */
  function SecondMin(lead: int): int { if lead == 0xE0 then 0xA0 else if lead == 0xF0 then 0x90 else 0x80 }
  function SecondMax(lead: int): int { if lead == 0xED then 0x9F else if lead == 0xF4 then 0x8F else 0xBF }

  /** Bytes of the well-formed multi-byte character `t` starts with; 0 if it starts with none. */
  function Utf8Len(t: string): (n: nat)
    ensures n <= |t| && (n == 0 || 2 <= n <= 4)
    ensures forall i :: 0 <= i < n ==> 0x80 <= t[i] as int
  {
    var lead := Code(t, 0);
    if Between(lead, 0xC2, 0xDF) then (if Continues(t, 1) then 2 else 0)
    else if !Between(lead, 0xE0, 0xF4) || !Between(Code(t, 1), SecondMin(lead), SecondMax(lead)) then 0
    else if lead < 0xF0 then (if Continues(t, 2) then 3 else 0)
    else if Continues(t, 2) && Continues(t, 3) then 4 else 0
  }

  /** U+2028 or U+2029. */
  predicate IsSeparator(t: string) {
    Code(t, 0) == 0xE2 && Code(t, 1) == 0x80 && (Code(t, 2) == 0xA8 || Code(t, 2) == 0xA9)
  }

  /** Bytes of the first character; an ill-formed byte stands alone. */
  function CharLen(t: string): (n: nat)
    requires t != []
    ensures 1 <= n <= |t|
  {
    if Utf8Len(t) == 0 then 1 else Utf8Len(t)
  }

  function HexByte(c: char): string
    requires c as int < 0x80
  {
    "\\u00" + [LowerHex(c as int / 16), LowerHex(c as int % 16)]
  }

  /** The first character as the encoder writes it. */
  function Written(t: string): string
    requires t != []
  {
    var c := t[0];
    if c == '"' || c == '\\' then ['\\', c]
    else if c == '\n' then "\\n" else if c == '\r' then "\\r" else if c == '\t' then "\\t"
    else if c as int == 8 then "\\b" else if c as int == 12 then "\\f"
    else if c as int < 0x20 || c == '<' || c == '>' || c == '&' then HexByte(c)
    else if c as int < 0x80 then [c]
    else if Utf8Len(t) == 0 then "\\ufffd"
    else if IsSeparator(t) then "\\u202" + [if Code(t, 2) == 0xA8 then '8' else '9']
    else t[..Utf8Len(t)]
  }

  function ServerEscape(t: string): string {
    if t == [] then [] else Written(t) + ServerEscape(t[CharLen(t)..])
  }

  /** The first character is written literally, or as a pair that the client knows. */
  predicate Kept(t: string)
    requires t != []
  {
    var c := t[0];
    if c as int < 0x80
    then c == '\n' || c == '\r' || c == '\t' || (c as int >= 0x20 && c != '<' && c != '>' && c != '&')
    else Utf8Len(t) > 0 && !IsSeparator(t)
  }

  /**
   No character is a control byte other than newline, return and tab, none is
   `<`, `>` or `&`, none is a line or paragraph separator, and all is UTF-8.
   */
  predicate Readable(t: string) {
    t == [] || (Kept(t) && Readable(t[CharLen(t)..]))
  }

  /** For ASCII texts that is: every byte is printable and none of three, or newline, return or tab. */
  lemma {:induction false} ReadableAscii(t: string)
    requires forall i :: 0 <= i < |t| ==> t[i] as int < 0x80
    ensures Readable(t) <==>
              forall i :: 0 <= i < |t| ==>
                t[i] in "\n\r\t" || (t[i] as int >= 0x20 && t[i] != '<' && t[i] != '>' && t[i] != '&')
    decreases |t|
  {
    if t != [] {
      assert CharLen(t) == 1;
      ReadableAscii(t[1..]);
      assert t == [t[0]] + t[1..];
    }
  }

  /** What the client reads where the server wrote `t`. */
  function Seen(t: string): string { Unescape(ServerEscape(t)) }

  lemma {:induction false} UnescapeLiteral(w: string, rest: string)
    requires '\\' !in w
    ensures Unescape(w + rest) == w + Unescape(rest)
    decreases |w|
  {
    if w == [] {
      assert w + rest == rest;
    } else {
      assert w + rest == [w[0]] + (w[1..] + rest);
      UnescapePlain(w[0], w[1..] + rest);
      UnescapeLiteral(w[1..], rest);
      assert w == [w[0]] + w[1..];
    }
  }

  /** A kept character comes back as its own bytes. */
  lemma KeptBack(t: string, rest: string)
    requires t != [] && Kept(t)
    ensures Unescape(Written(t) + rest) == t[..CharLen(t)] + Unescape(rest)
  {
    hide Unescape;
    var c, w := t[0], Written(t);
    if c as int >= 0x80 {
      assert w == t[..CharLen(t)];
      UnescapeLiteral(w, rest);
    } else {
      assert t[..CharLen(t)] == [c];
      if c == '"' || c == '\\' {
        UnescapePair(c, rest);
      } else if c == '\n' {
        UnescapePair('n', rest);
      } else if c == '\r' {
        UnescapePair('r', rest);
      } else if c == '\t' {
        UnescapePair('t', rest);
      } else {
        UnescapePlain(c, rest);
      }
    }
  }

  /** Any other comes back with a different first byte. */
  lemma OtherLost(t: string, rest: string)
    requires t != [] && !Kept(t)
    ensures var u := Unescape(Written(t) + rest); u != [] && u[0] != t[0]
  {
    var w := Written(t);
    assert |w| >= 2 && w[0] == '\\' && (w[1] == 'u' || w[1] == 'b' || w[1] == 'f');
    assert w + rest == ['\\', w[1]] + (w[2..] + rest);
    UnescapePair(w[1], w[2..] + rest);
  }

  lemma SeenStep(t: string)
    requires t != []
    ensures Kept(t) ==> Seen(t) == t[..CharLen(t)] + Seen(t[CharLen(t)..])
    ensures !Kept(t) ==> Seen(t) != [] && Seen(t)[0] != t[0]
  {
    hide Unescape, Written, Kept, CharLen;
    var rest := ServerEscape(t[CharLen(t)..]);
    if Kept(t) { KeptBack(t, rest); } else { OtherLost(t, rest); }
  }

  lemma PrefixRest(t: string, n: nat, rest: string)
    requires n <= |t|
    ensures t[..n] + t[n..] == t
    ensures t <= t[..n] + rest ==> t[n..] <= rest
  {
    var u := t[..n] + rest;
    assert u[n..] == rest;
    if t <= u { assert t[n..] == u[..|t|][n..] == rest[..|t| - n]; }
  }

  lemma FirstDiffers(t: string, u: string)
    requires t != [] && u != [] && u[0] != t[0]
    ensures !(t <= u)
  {
  }

  /** A readable text is read back; any other is not even the beginning of what is read. */
  lemma {:induction false} SeenExact(t: string)
    ensures Readable(t) ==> Seen(t) == t
    ensures !Readable(t) ==> !(t <= Seen(t))
    decreases |t|
  {
    if t == [] {
      UnescapeNothing();
    } else {
      hide Seen, Kept, CharLen;
      var n := CharLen(t);
      SeenStep(t);
      SeenExact(t[n..]);
      if Kept(t) { PrefixRest(t, n, Seen(t[n..])); } else { FirstDiffers(t, Seen(t)); }
    }
  }

  /** A text the server writes is read back by the client if and only if every character is kept. */
  lemma ServerRoundTrip(t: string)
    ensures Seen(t) == t <==> Readable(t)
  {
    SeenExact(t);
  }

  /** So is one of which the client keeps only the first bytes, if and only if it is also short enough. */
  lemma CutRoundTrip(t: string, cap: nat)
    ensures Seen(t)[..Min(|Seen(t)|, cap)] == t <==> Readable(t) && |t| <= cap
  {
    SeenExact(t);
    hide Seen, Readable;
    var u := Seen(t);
    if u[..Min(|u|, cap)] == t { assert t <= u; }
    if u == t && |t| <= cap { assert u[..|u|] == u; }
  }

  lemma WrittenRawOk(t: string, rest: string)
    requires t != [] && RawOk(rest)
    ensures RawOk(Written(t) + rest)
  {
    var w := Written(t);
    assert w != [] && (w[0] == '\\' ==> |w| >= 2 && w[1] != NUL);
    assert w[0] != '\\' ==> forall x :: x in w ==> x != NUL && x != '"' && x != '\\';
    assert w[0] == '\\' ==> forall x :: x in w[2..] ==> x != NUL && x != '"' && x != '\\';
    hide Written;
    if w[0] == '\\' {
      assert forall x :: x in w[2..] ==> x != NUL && x != '"' && x != '\\';
      RawOkPlain(w[2..], rest);
      assert (w + rest)[2..] == w[2..] + rest;
    } else {
      RawOkPlain(w, rest);
    }
  }

  /** What the server writes is a legal string body, whatever the text. */
  lemma {:induction false} ServerRawOk(t: string)
    ensures RawOk(ServerEscape(t))
    decreases |t|
  {
    if t != [] {
      ServerRawOk(t[CharLen(t)..]);
      WrittenRawOk(t, ServerEscape(t[CharLen(t)..]));
    }
  }

  lemma AmpersandWritten()
    ensures ServerEscape("A&B") == "A\\u0026B"
  {
    var t := "A&B";
    assert t[1..] == "&B" && "&B"[1..] == "B" && "B"[1..] == "";
    assert ServerEscape("B") == "B";
    assert Written("&B") == "\\u0026";
    assert ServerEscape("&B") == "\\u0026" + "B";
  }

  /** An ampersand comes back as five other characters. */
  lemma AmpersandSeen()
    ensures Seen("A&B") == "Au0026B" && !Readable("A&B")
  {
    hide ServerEscape, Readable, Unescape;
    AmpersandWritten();
    assert "A\\u0026B" == ['A'] + (['\\', 'u'] + ("0026B" + ""));
    UnescapePlain('A', ['\\', 'u'] + ("0026B" + ""));
    UnescapePair('u', "0026B" + "");
    UnescapeLiteral("0026B", "");
    assert Unescape("") == "" by { UnescapeNothing(); }
    assert ['A'] + (['u'] + ("0026B" + "")) == "Au0026B";
    ServerRoundTrip("A&B");
  }

  lemma UnescapeNothing()
    ensures Unescape("") == ""
  {
  }
}
