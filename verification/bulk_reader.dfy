/** The fixed-width messages read by offset: what a client that knows the layout gets. */
module BulkReader {
  import opened Options
  import opened BulkCodec
  import opened BulkReply

  /** A text that fits a cell and neither begins nor ends with white space. */
  predicate Neat(v: Bytes) {
    |v| <= 16 && (v == [] || (!IsSpace(v[0]) && !IsSpace(v[|v| - 1])))
  }

  function Pad(v: Bytes): (p: Bytes)
    requires |v| <= 16
    ensures |p| == 16
  {
    v + Blank(16 - |v|)
  }

  /** White space is what Go trims from ASCII text. */
  lemma Spaces(c: char)
    ensures IsSpace(c) <==> c as int == 32 || 9 <= c as int <= 13
  {
  }

  lemma {:induction false} TrimLeftBlank(k: nat)
    ensures TrimLeft(Blank(k)) == []
  {
    if k > 0 {
      assert Blank(k)[1..] == Blank(k - 1);
      TrimLeftBlank(k - 1);
    }
  }

  lemma PadTrims(v: Bytes)
    requires Neat(v)
    ensures Trim(Pad(v)) == v
  {
    if v == [] {
      TrimLeftBlank(16);
      assert Pad(v) == Blank(16);
    } else {
      TrimRightBlank(v, 16 - |v|);
      hide Blank, TrimRight;
      assert Pad(v)[0] == v[0];
      assert TrimLeft(Pad(v)) == Pad(v);
    }
  }

  // ---- the reply -----------------------------------------------------------

  lemma CellIs(r: Request, q: Quote, show: real -> Bytes, idx: nat)
    requires idx < 30 && |CellText(r, show(q.bid), show(q.ask), idx)| <= 16
    ensures S02Reply(r, q, show)[idx * 16..idx * 16 + 16] == Pad(CellText(r, show(q.bid), show(q.ask), idx))
  {
    hide CellText;
    var out, v := S02Reply(r, q, show), CellText(r, show(q.bid), show(q.ask), idx);
    forall k | 0 <= k < 16 ensures out[idx * 16 + k] == Pad(v)[k] {
      assert (idx * 16 + k) / 16 == idx && (idx * 16 + k) % 16 == k;
    }
  }

  lemma CellReads(r: Request, q: Quote, show: real -> Bytes, idx: nat)
    requires idx < 30 && Neat(CellText(r, show(q.bid), show(q.ask), idx))
    ensures Trim(S02Reply(r, q, show)[idx * 16..idx * 16 + 16]) == CellText(r, show(q.bid), show(q.ask), idx)
  {
    hide CellText, S02Reply, Trim;
    CellIs(r, q, show, idx);
    PadTrims(CellText(r, show(q.bid), show(q.ask), idx));
  }

  /** The texts a client trims from a reply, by byte offset. */
  ghost predicate Reads(out: Bytes, exnm: Bytes, symb: Bytes, payYmd: Bytes, expYmd: Bytes,
                        bid: Bytes, ask: Bytes, src: char) {
    && |out| == 546
    && Trim(out[0..16]) == exnm && Trim(out[16..32]) == symb
    && Trim(out[64..80]) == payYmd && Trim(out[80..96]) == expYmd
    && Trim(out[272..288]) == bid && Trim(out[304..320]) == ask
    && Trim(out[448..464]) == bid && Trim(out[464..480]) == ask
    && out[480] == src && out[481] == src
  }

  /** Everything else is blank. */
  ghost predicate BlankElsewhere(out: Bytes) {
    && |out| == 546
    && (forall k :: 32 <= k < 64 || 96 <= k < 272 || 288 <= k < 304 || 320 <= k < 448 || 482 <= k < 546 ==>
          out[k] == ' ')
  }

  lemma ReplyBlanks(r: Request, q: Quote, show: real -> Bytes)
    ensures BlankElsewhere(S02Reply(r, q, show))
  {
  }

  /** A reply gives back the request's texts, the bid and the ask where the layout has them, and the source twice. */
  lemma ReplyReads(r: Request, q: Quote, show: real -> Bytes)
    requires Neat(r.exnm) && Neat(r.symb) && Neat(r.payYmd) && Neat(r.expYmd)
    requires Neat(show(q.bid)) && Neat(show(q.ask))
    ensures Reads(S02Reply(r, q, show), r.exnm, r.symb, r.payYmd, r.expYmd, show(q.bid), show(q.ask),
                  if q.source == [] then 'B' else q.source[0])
    ensures BlankElsewhere(S02Reply(r, q, show))
  {
    ReplyBlanks(r, q, show);
    assert S02Reply(r, q, show)[480] == S02Reply(r, q, show)[481] == Source(q);
    hide S02Reply, Trim, Neat, BlankElsewhere;
    CellReads(r, q, show, 0);
    CellReads(r, q, show, 1);
    CellReads(r, q, show, 4);
    CellReads(r, q, show, 5);
    CellReads(r, q, show, 17);
    CellReads(r, q, show, 19);
    CellReads(r, q, show, 28);
    CellReads(r, q, show, 29);
  }

  // ---- the enquiry ---------------------------------------------------------

  /** Four padded texts: exchange name, symbol, payment and expiry dates. */
  function Enquiry(exnm: Bytes, symb: Bytes, payYmd: Bytes, expYmd: Bytes): (b: Bytes)
    requires |exnm| <= 16 && |symb| <= 16 && |payYmd| <= 16 && |expYmd| <= 16
    ensures |b| == 64
  {
    Pad(exnm) + Pad(symb) + Pad(payYmd) + Pad(expYmd)
  }

  /** A six-letter symbol names the pair of its halves; any other names itself. */
  function PairOf(symb: Bytes): Bytes {
    if '/' !in symb && |symb| == 6
    then [symb[0], symb[1], symb[2], '/', symb[3], symb[4], symb[5]] else symb
  }

  lemma EnquiryParses(exnm: Bytes, symb: Bytes, payYmd: Bytes, expYmd: Bytes)
    requires Neat(exnm) && Neat(symb) && Neat(payYmd) && Neat(expYmd)
    ensures ParseS02(Enquiry(exnm, symb, payYmd, expYmd))
         == if symb == [] then None else Some(Request(exnm, symb, PairOf(symb), payYmd, expYmd))
  {
    var b := Enquiry(exnm, symb, payYmd, expYmd);
    assert b[0..16] == Pad(exnm) && b[16..32] == Pad(symb) && b[32..48] == Pad(payYmd) && b[48..64] == Pad(expYmd);
    PadTrims(exnm);
    PadTrims(symb);
    PadTrims(payYmd);
    PadTrims(expYmd);
    hide Trim, Pad;
    assert |symb| == 6 ==> symb[..3] + "/" + symb[3..] == [symb[0], symb[1], symb[2], '/', symb[3], symb[4], symb[5]];
  }

  /**
   From texts to texts through the single enquiry: refused without a symbol or
   a price, else a reply in which the layout's offsets give the request back
   with the bid, the ask and the source.
   */
  lemma EnquiryAnswered(env: Env, exnm: Bytes, symb: Bytes, payYmd: Bytes, expYmd: Bytes)
    requires Neat(exnm) && Neat(symb) && Neat(payYmd) && Neat(expYmd)
    ensures var r := Single(Enquiry(exnm, symb, payYmd, expYmd), env);
            var q := env.spot(PairOf(symb));
            if symb == [] || q.None? then r == Refused
            else
              && r.Replied?
              && (Neat(env.show(q.value.bid)) && Neat(env.show(q.value.ask)) ==>
                    && Reads(r.body, exnm, symb, payYmd, expYmd, env.show(q.value.bid), env.show(q.value.ask),
                             if q.value.source == [] then 'B' else q.value.source[0])
                    && BlankElsewhere(r.body))
  {
    EnquiryParses(exnm, symb, payYmd, expYmd);
    hide ParseS02, Enquiry, S02Reply, Neat, Reads, BlankElsewhere;
    var q := env.spot(PairOf(symb));
    if symb != [] && q.Some? && Neat(env.show(q.value.bid)) && Neat(env.show(q.value.ask)) {
      ReplyReads(Request(exnm, symb, PairOf(symb), payYmd, expYmd), q.value, env.show);
    }
  }

  /** Behind a 512-byte header the answer is the same, after the header with byte 182 set to '0'. */
  lemma HeaderAnswered(env: Env, hdr: Bytes, input: Bytes)
    requires |hdr| == 512 && |input| == 64
    ensures Single(hdr + input, env)
         == if Single(input, env).Replied? then Replied(hdr[182 := '0'] + Single(input, env).body) else Refused
  {
    hide ParseS02, S02Reply;
    assert (hdr + input)[..512] == hdr && (hdr + input)[512..] == input;
  }

  // ---- counts --------------------------------------------------------------

  /** A count of up to six digits reads back if and only if it is at most a thousand. */
  lemma CountReadsIff(n: nat, rest: Bytes)
    requires |ShowNat(n)| <= 6
    ensures ParseNrec(NrecField(n) + rest, 0) == Some(n) <==> n <= 1000
    ensures n > 1000 ==> ParseNrec(NrecField(n) + rest, 0) == None
  {
    ShowNatDigits(n);
    var s := ShowNat(n);
    assert IsDigit(s[0]) && IsDigit(s[|s| - 1]);
    FieldTrims(s, 6 - |s|);
    assert |s| == 6 ==> s + Blank(0) == s;
    assert Atoi(s) == Some(n) by { hide ShowNat, Trim, Blank, Digits; }
    hide ShowNat, Trim, Digits, Blank, Atoi;
    assert (NrecField(n) + rest)[0..6] == NrecField(n);
  }
}
