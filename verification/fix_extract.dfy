/**
 From a market data message to a two-sided quote: the slow path over parsed
 entries, the single-scan hot path, and where the two differ.
 */
module FixExtract {
  import opened Options
  import opened FixWire
  import opened FixQuote

  datatype V1 = V1(sym: string, bid: real, ask: real)

  // ---- slow path -----------------------------------------------------------

  /** Price of the first entry of the side with a positive price; 0 if there is none. */
  function FirstPositive(es: seq<MdEntry>, side: string): (x: real)
    ensures x >= 0.0
  {
    if es == [] then 0.0
    else if es[0].typ == side && es[0].px > 0.0 then es[0].px
    else FirstPositive(es[1..], side)
  }

  /** The entries that supply the prices: the first positive bid and the first positive ask, in order. */
  function Chosen(es: seq<MdEntry>, wantBid: bool, wantAsk: bool): seq<MdEntry> {
    if es == [] then []
    else if wantBid && es[0].typ == "bid" && es[0].px > 0.0 then [es[0]] + Chosen(es[1..], false, wantAsk)
    else if wantAsk && es[0].typ == "ask" && es[0].px > 0.0 then [es[0]] + Chosen(es[1..], wantBid, false)
    else Chosen(es[1..], wantBid, wantAsk)
  }

  /** The first symbol that is not empty, or `last`. */
  function FirstSymbol(es: seq<MdEntry>, last: string): string {
    if es == [] then last else if es[0].symbol != "" then es[0].symbol else FirstSymbol(es[1..], last)
  }

  function V1Of(env: Envelope): Option<V1> {
    var bid, ask := FirstPositive(env.entries, "bid"), FirstPositive(env.entries, "ask");
    var sym := FirstSymbol(Chosen(env.entries, true, true), env.symbol);
    if sym == "" || bid <= 0.0 || ask <= 0.0 || ask < bid then None else Some(V1(sym, bid, ask))
  }

  lemma {:induction false} NothingWanted(es: seq<MdEntry>)
    ensures Chosen(es, false, false) == []
  {
    if es != [] { NothingWanted(es[1..]); }
  }

  method ExtractV1(env: Envelope) returns (r: Option<V1>)
    ensures r == V1Of(env)
  {
    var sym, bid, ask := "", 0.0, 0.0;
    var es := env.entries;
    var i := 0;
    while i < |es|
      invariant 0 <= i <= |es| && bid >= 0.0 && ask >= 0.0
      invariant FirstPositive(es, "bid") == if bid > 0.0 then bid else FirstPositive(es[i..], "bid")
      invariant FirstPositive(es, "ask") == if ask > 0.0 then ask else FirstPositive(es[i..], "ask")
      invariant FirstSymbol(Chosen(es, true, true), env.symbol)
             == if sym != "" then sym else FirstSymbol(Chosen(es[i..], bid == 0.0, ask == 0.0), env.symbol)
    {
      var e := es[i];
      assert es[i..][0] == e && es[i..][1..] == es[i + 1..];
      if e.typ == "bid" {
        if bid == 0.0 && e.px > 0.0 {
          bid := e.px;
          if sym == "" { sym := e.symbol; }
        }
      } else if e.typ == "ask" {
        if ask == 0.0 && e.px > 0.0 {
          ask := e.px;
          if sym == "" { sym := e.symbol; }
        }
      }
      i := i + 1;
      if bid > 0.0 && ask > 0.0 {
        NothingWanted(es[i..]);
        break;
      }
    }
    if sym == "" { sym := env.symbol; }
    if sym == "" || bid <= 0.0 || ask <= 0.0 || ask < bid {
      return None;
    }
    return Some(V1(sym, bid, ask));
  }

  /** Without per-entry symbols the common one is used. */
  lemma {:induction false} CommonSymbol(es: seq<MdEntry>, wantBid: bool, wantAsk: bool, last: string)
    requires forall i :: 0 <= i < |es| ==> es[i].symbol == ""
    ensures FirstSymbol(Chosen(es, wantBid, wantAsk), last) == last
    decreases |es|
  {
    if es != [] {
      CommonSymbol(es[1..], false, wantAsk, last);
      CommonSymbol(es[1..], wantBid, false, last);
      CommonSymbol(es[1..], wantBid, wantAsk, last);
      var c := Chosen(es, wantBid, wantAsk);
      if c != [] && c[0] == es[0] {
        assert c[1..] == Chosen(es[1..], false, wantAsk) || c[1..] == Chosen(es[1..], wantBid, false)
            || c == Chosen(es[1..], wantBid, wantAsk);
      }
    }
  }

  // ---- hot path ------------------------------------------------------------

  datatype Snap = Snap(sym: string, bid: real, ask: real, last: real,
                       lastQty: real, bidSize: real, askSize: real, entryType: char)
  const NO_TYPE := '\0'
  const SNAP_START := Snap("", 0.0, 0.0, 0.0, 0.0, 0.0, 0.0, NO_TYPE)

  function KeepFirst(old_: real, x: real): real { if old_ == 0.0 then x else old_ }

  function SnapPx(s: Snap, x: real): Snap {
    if s.entryType == '0' then s.(bid := KeepFirst(s.bid, x))
    else if s.entryType == '1' then s.(ask := KeepFirst(s.ask, x))
    else if s.entryType == '2' then s.(last := KeepFirst(s.last, x))
    else s
  }

  function SnapQty(s: Snap, x: real): Snap {
    if s.entryType == '0' then s.(bidSize := KeepFirst(s.bidSize, x))
    else if s.entryType == '1' then s.(askSize := KeepFirst(s.askSize, x))
    else if s.entryType == '2' then s.(lastQty := KeepFirst(s.lastQty, x))
    else s
  }

  function SnapStep(parse: string -> Option<real>, s: Snap, f: Field): Snap {
    if f.tag == "55" then (if s.sym == "" then s.(sym := f.val) else s)
    else if f.tag == "269" then (if |f.val| >= 1 then s.(entryType := f.val[0]) else s)
    else if f.tag == "270" then (if parse(f.val).Some? then SnapPx(s, parse(f.val).value) else s)
    else if f.tag == "271" then (if parse(f.val).Some? then SnapQty(s, parse(f.val).value) else s)
    else s
  }

  function SnapFold(parse: string -> Option<real>, s: Snap, fs: seq<Field>): Snap
    decreases |fs|
  {
    if fs == [] then s else SnapFold(parse, SnapStep(parse, s, fs[0]), fs[1..])
  }

  function SnapOf(parse: string -> Option<real>, buf: string): Snap { SnapFold(parse, SNAP_START, FixFields(buf)) }

  predicate SnapOk(s: Snap) { s.sym != "" && s.bid > 0.0 && s.ask >= s.bid }

  lemma {:induction false} SplitLast(w: string)
    requires SOH !in w
    ensures Split(w) == [w]
    decreases |w|
  {
    if w != [] {
      SplitLast(w[1..]);
      assert [w[0]] + w[1..] == w;
    }
  }

  /** The part up to `i`, read as a field if it is one, in front of the fields behind it. */
  lemma NextField(buf: string, start: nat, i: nat)
    requires start <= i <= |buf| && SOH !in buf[start..i] && (i < |buf| ==> buf[i] == SOH)
    ensures var f, rest := FieldOf(buf[start..i]), if i < |buf| then FixFields(buf[i + 1..]) else [];
            FixFields(buf[start..]) == if f.Some? then [f.value] + rest else rest
  {
    hide Split, FieldOf;
    var field := buf[start..i];
    if i < |buf| {
      assert buf[start..] == field + [SOH] + buf[i + 1..];
      SplitPart(field, buf[i + 1..]);
      assert ([field] + Split(buf[i + 1..]))[1..] == Split(buf[i + 1..]);
    } else {
      assert buf[start..] == field;
      SplitLast(field);
      assert FieldsOf([field][1..]) == FieldsOf([]) == [];
    }
  }

  lemma SnapDone(parse: string -> Option<real>, s: Snap)
    ensures SnapFold(parse, s, []) == s
  {
  }

  /** The scan over the buffer: one field at each SOH and one at the end. */
  method ParseSnapshot(parse: string -> Option<real>, buf: string) returns (s: Snap, ok: bool)
    ensures s == SnapOf(parse, buf) && ok == SnapOk(s)
  {
    hide EqualsAt, SnapStep, SnapFold, FixFields;
    s := SNAP_START;
    var start, i := 0, 0;
    ghost var goal := SnapOf(parse, buf);
    assert buf[0..] == buf;
    while i <= |buf|
      invariant 0 <= start <= i <= |buf| + 1
      invariant i <= |buf| ==> SOH !in buf[start..i] && goal == SnapFold(parse, s, FixFields(buf[start..]))
      invariant i == |buf| + 1 ==> goal == s
    {
      if i < |buf| && buf[i] != SOH {
        assert buf[start..i + 1] == buf[start..i] + [buf[i]];
        i := i + 1;
        continue;
      }
      var field := buf[start..i];
      NextField(buf, start, i);
      ghost var rest := if i < |buf| then FixFields(buf[i + 1..]) else [];
      start, i := i + 1, i + 1;
      var eq := EqualsAt(field);
      SnapDone(parse, s);
      if eq >= 1 {
        var f := Field(field[..eq], field[eq + 1..]);
        SnapFoldOne(parse, s, f, rest);
        s := SnapStep(parse, s, f);
        SnapDone(parse, s);
      }
    }
    ok := SnapOk(s);
  }

  // ---- hot path against slow path ------------------------------------------

  /** `ParseFloat` with its error ignored. */
  function Atof(parse: string -> Option<real>): string -> real {
    t => if parse(t).Some? then parse(t).value else 0.0
  }

  /** Price of the first entry of the side whose price is not zero; 0 if there is none. */
  function FirstNonZero(es: seq<MdEntry>, side: string): real {
    if es == [] then 0.0
    else if es[0].typ == side && es[0].px != 0.0 then es[0].px
    else FirstNonZero(es[1..], side)
  }

  /** Quantity of the first entry of the side whose quantity is not zero; 0 if there is none. */
  function FirstSize(es: seq<MdEntry>, side: string): real {
    if es == [] then 0.0
    else if es[0].typ == side && es[0].qty != 0.0 then es[0].qty
    else FirstSize(es[1..], side)
  }

  lemma {:induction false} SnapFoldConcat(parse: string -> Option<real>, s: Snap, a: seq<Field>, b: seq<Field>)
    ensures SnapFold(parse, s, a + b) == SnapFold(parse, SnapFold(parse, s, a), b)
    decreases |a|
  {
    if a == [] {
      assert a + b == b;
    } else {
      assert (a + b)[1..] == a[1..] + b;
      SnapFoldConcat(parse, SnapStep(parse, s, a[0]), a[1..], b);
    }
  }

  predicate Unseen(f: Field) { f.tag != "55" && f.tag != "269" && f.tag != "270" && f.tag != "271" }

  lemma {:induction false} UnseenFields(parse: string -> Option<real>, s: Snap, fs: seq<Field>)
    requires forall i :: 0 <= i < |fs| ==> Unseen(fs[i])
    ensures SnapFold(parse, s, fs) == s
    decreases |fs|
  {
    if fs != [] { UnseenFields(parse, s, fs[1..]); }
  }

  ghost predicate FullGroup(g: Group) { g.Full? && AllInert(g.extra) }
  ghost predicate FullGroups(gs: seq<Group>) { forall i :: 0 <= i < |gs| ==> FullGroup(gs[i]) }

  /** The type the hot path uses: the first character of the code, or the one before if the code is empty. */
  function HotType(prev: char, code: string): char { if code == "" then prev else code[0] }

  function Recoded(g: Group, c: char): Group {
    match g
    case Full(_, px, qty, extra) => Full([c], px, qty, extra)
    case Incremental(action, _, sym, px, qty, extra) => Incremental(action, [c], sym, px, qty, extra)
  }

  /** The groups as the hot path takes them. */
  function HotGroups(prev: char, gs: seq<Group>): seq<Group>
    decreases |gs|
  {
    if gs == [] then []
    else
      var c := HotType(prev, gs[0].code);
      [Recoded(gs[0], c)] + HotGroups(c, gs[1..])
  }

  lemma SnapGroup(parse: string -> Option<real>, s: Snap, g: Group)
    requires FullGroup(g)
    ensures SnapFold(parse, s, GroupFields(g))
         == var t := s.(entryType := HotType(s.entryType, g.code));
            var u := if parse(g.px).Some? then SnapPx(t, parse(g.px).value) else t;
            if parse(g.qty).Some? then SnapQty(u, parse(g.qty).value) else u
  {
    var a, b, c := Field("269", g.code), Field("270", g.px), Field("271", g.qty);
    assert GroupFields(g) == [a] + ([b] + ([c] + g.extra));
    SnapFoldOne(parse, s, a, [b] + ([c] + g.extra));
    var t := SnapStep(parse, s, a);
    SnapFoldOne(parse, t, b, [c] + g.extra);
    var u := SnapStep(parse, t, b);
    SnapFoldOne(parse, u, c, g.extra);
    UnseenFields(parse, SnapStep(parse, u, c), g.extra);
  }

  lemma SnapFoldOne(parse: string -> Option<real>, s: Snap, f: Field, fs: seq<Field>)
    ensures SnapFold(parse, s, [f] + fs) == SnapFold(parse, SnapStep(parse, s, f), fs)
  {
    assert ([f] + fs)[1..] == fs;
  }

  lemma LabelCode(code: string)
    requires |code| == 1
    ensures EntryTypeLabel(code) == "bid" <==> code[0] == '0'
    ensures EntryTypeLabel(code) == "ask" <==> code[0] == '1'
    ensures EntryTypeLabel(code) == "trade" <==> code[0] == '2'
  {
    assert code == [code[0]];
    var l := EntryTypeLabel(code);
    if l == "type" + code { assert l[0] == 't' && l[1] == 'y'; }
  }

  /** A snapshot holds, on top of an earlier one, the first price and the first size of each side that is not zero. */
  ghost predicate Holds(r: Snap, s: Snap, es: seq<MdEntry>) {
    && r.sym == s.sym
    && r.bid == KeepFirst(s.bid, FirstNonZero(es, "bid"))
    && r.ask == KeepFirst(s.ask, FirstNonZero(es, "ask"))
    && r.last == KeepFirst(s.last, FirstNonZero(es, "trade"))
    && r.bidSize == KeepFirst(s.bidSize, FirstSize(es, "bid"))
    && r.askSize == KeepFirst(s.askSize, FirstSize(es, "ask"))
    && r.lastQty == KeepFirst(s.lastQty, FirstSize(es, "trade"))
  }

  lemma HoldsMore(r: Snap, t: Snap, s: Snap, e: MdEntry, es: seq<MdEntry>)
    requires Holds(r, t, es) && Holds(t, s, [e])
    ensures Holds(r, s, [e] + es)
  {
    assert [e] + [] == [e];
    FirstCons(e, [], "bid"); FirstCons(e, es, "bid");
    FirstCons(e, [], "ask"); FirstCons(e, es, "ask");
    FirstCons(e, [], "trade"); FirstCons(e, es, "trade");
    hide FirstNonZero, FirstSize;
  }

  lemma FirstCons(e: MdEntry, es: seq<MdEntry>, side: string)
    ensures FirstNonZero([e] + es, side) == if e.typ == side && e.px != 0.0 then e.px else FirstNonZero(es, side)
    ensures FirstSize([e] + es, side) == if e.typ == side && e.qty != 0.0 then e.qty else FirstSize(es, side)
    ensures FirstNonZero([], side) == FirstSize([], side) == 0.0
  {
    assert ([e] + es)[1..] == es;
  }

  /** The hot path keeps, per side, the first price and size that are not zero. */
  lemma {:induction false} SnapGroups(parse: string -> Option<real>, s: Snap, gs: seq<Group>)
    requires FullGroups(gs)
    ensures Holds(SnapFold(parse, s, GroupsFields(gs)), s, EntriesOf(Atof(parse), HotGroups(s.entryType, gs)))
    decreases |gs|
  {
    hide Holds;
    if gs == [] {
      HoldsNone(s);
    } else {
      hide SnapFold, GroupFields;
      var g, c := gs[0], HotType(s.entryType, gs[0].code);
      SnapFoldConcat(parse, s, GroupFields(g), GroupsFields(gs[1..]));
      var t := SnapFold(parse, s, GroupFields(g));
      SnapEntry(parse, s, g);
      SnapGroups(parse, t, gs[1..]);
      var e, es := EntryOf(Atof(parse), Recoded(g, c)), EntriesOf(Atof(parse), HotGroups(c, gs[1..]));
      var hot := HotGroups(s.entryType, gs);
      assert hot[0] == Recoded(g, c) && hot[1..] == HotGroups(c, gs[1..]);
      assert EntriesOf(Atof(parse), hot) == [e] + es;
      HoldsMore(SnapFold(parse, t, GroupsFields(gs[1..])), t, s, e, es);
    }
  }

  lemma HoldsNone(s: Snap)
    ensures Holds(s, s, [])
  {
  }

  lemma SnapEntry(parse: string -> Option<real>, s: Snap, g: Group)
    requires FullGroup(g)
    ensures var t := SnapFold(parse, s, GroupFields(g));
            var c := HotType(s.entryType, g.code);
            t.entryType == c && Holds(t, s, [EntryOf(Atof(parse), Recoded(g, c))])
  {
    SnapGroup(parse, s, g);
    hide SnapFold, GroupFields, EntryTypeLabel;
    var c := HotType(s.entryType, g.code);
    LabelCode([c]);
    var e := EntryOf(Atof(parse), Recoded(g, c));
    assert [e] + [] == [e];
    FirstCons(e, [], "bid");
    FirstCons(e, [], "ask");
    FirstCons(e, [], "trade");
    hide FirstNonZero, FirstSize;
  }

  lemma SnapHeader(parse: string -> Option<real>, m: Message)
    requires MessageOk(m)
    ensures SnapFold(parse, SNAP_START, HeaderFields(m)) == SNAP_START.(sym := TopSymbol(m))
  {
    var ids := [Field("35", m.kind), Field("49", m.sender), Field("56", m.target)];
    var sym := if m.symbol.Some? then [Field("55", m.symbol.value)] else [];
    SnapFoldConcat(parse, SNAP_START, m.before, ids + (sym + m.after));
    UnseenFields(parse, SNAP_START, m.before);
    SnapFoldConcat(parse, SNAP_START, ids, sym + m.after);
    UnseenFields(parse, SNAP_START, ids);
    SnapFoldConcat(parse, SNAP_START, sym, m.after);
    UnseenFields(parse, SNAP_START.(sym := TopSymbol(m)), m.after);
  }

  /** The entries of a message as the hot path takes them. */
  function HotEntries(parse: string -> Option<real>, m: Message): seq<MdEntry> {
    EntriesOf(Atof(parse), HotGroups(NO_TYPE, m.groups))
  }

  lemma SnapMessage(parse: string -> Option<real>, m: Message)
    requires MessageOk(m) && FullGroups(m.groups)
    ensures var s := SnapFold(parse, SNAP_START, MessageFields(m));
            var es := HotEntries(parse, m);
            && s.sym == TopSymbol(m)
            && s.bid == FirstNonZero(es, "bid") && s.ask == FirstNonZero(es, "ask")
            && s.last == FirstNonZero(es, "trade")
            && s.bidSize == FirstSize(es, "bid") && s.askSize == FirstSize(es, "ask")
            && s.lastQty == FirstSize(es, "trade")
  {
    hide SnapFold, HeaderFields, GroupsFields, EntriesOf, FirstNonZero, FirstSize, HotGroups;
    SnapHeader(parse, m);
    var h := SNAP_START.(sym := TopSymbol(m));
    SnapFoldConcat(parse, SNAP_START, HeaderFields(m), GroupsFields(m.groups) + m.trailer);
    SnapFoldConcat(parse, h, GroupsFields(m.groups), m.trailer);
    SnapGroups(parse, h, m.groups);
    UnseenFields(parse, SnapFold(parse, h, GroupsFields(m.groups)), m.trailer);
  }

  lemma {:induction false} PositiveNonZero(es: seq<MdEntry>, side: string)
    ensures FirstNonZero(es, side) > 0.0 ==> FirstPositive(es, side) == FirstNonZero(es, side)
    ensures FirstPositive(es, side) > 0.0 ==> FirstNonZero(es, side) != 0.0
  {
    if es != [] { PositiveNonZero(es[1..], side); }
  }

  lemma {:induction false} FullHasNoSymbol(atof: string -> real, gs: seq<Group>)
    requires FullGroups(gs)
    ensures forall i :: 0 <= i < |gs| ==> EntriesOf(atof, gs)[i].symbol == ""
  {
    if gs != [] { FullHasNoSymbol(atof, gs[1..]); }
  }

  /** A quote is passed on only for a named pair with 0 < bid <= ask. */
  function QuoteOf(sym: string, bid: real, ask: real): Option<V1> {
    if sym != "" && 0.0 < bid <= ask then Some(V1(sym, bid, ask)) else None
  }

  function Fast(parse: string -> Option<real>, buf: string): Option<V1> {
    var s := SnapOf(parse, buf);
    if SnapOk(s) then Some(V1(s.sym, s.bid, s.ask)) else None
  }

  function Slow(parse: string -> Option<real>, buf: string): Option<V1> { V1Of(ParseQuote(Atof(parse), buf)) }

  /**
   What each path makes of any snapshot message: the slow one takes the first
   positive price of each side; the hot one the first that is not zero, with
   only the first character of each type code, or the type before an empty one.
   */
  lemma TwoPaths(parse: string -> Option<real>, m: Message)
    requires MessageOk(m) && FullGroups(m.groups) && FieldsOk(MessageFields(m))
    ensures var buf := Wire(MessageFields(m));
            var hot, es := HotEntries(parse, m), EntriesOf(Atof(parse), m.groups);
            && Fast(parse, buf) == QuoteOf(TopSymbol(m), FirstNonZero(hot, "bid"), FirstNonZero(hot, "ask"))
            && Slow(parse, buf) == QuoteOf(TopSymbol(m), FirstPositive(es, "bid"), FirstPositive(es, "ask"))
  {
    hide SnapFold, FixFields, Wire, MessageFields, ParseQuote, EntriesOf, HotEntries;
    hide FirstNonZero, FirstSize, FirstPositive, Chosen, FirstSymbol, TopSymbol;
    var es := EntriesOf(Atof(parse), m.groups);
    WireBack(MessageFields(m));
    SnapMessage(parse, m);
    ParseQuoteBack(Atof(parse), m);
    FullHasNoSymbol(Atof(parse), m.groups);
    CommonSymbol(es, true, true, TopSymbol(m));
  }

  /** The first entry that is a bid or an ask with a positive price. */
  function FirstQuoted(es: seq<MdEntry>): Option<MdEntry> {
    if es == [] then None
    else if (es[0].typ == "bid" || es[0].typ == "ask") && es[0].px > 0.0 then Some(es[0])
    else FirstQuoted(es[1..])
  }

  lemma {:induction false} FirstChosen(es: seq<MdEntry>)
    ensures FirstQuoted(es).None? ==> Chosen(es, true, true) == [] && FirstPositive(es, "bid") == 0.0
    ensures FirstQuoted(es).Some? ==>
              Chosen(es, true, true) != [] && Chosen(es, true, true)[0] == FirstQuoted(es).value
    ensures FirstQuoted(es).Some? ==> FirstQuoted(es).value in es
  {
    if es != [] { FirstChosen(es[1..]); }
  }

  ghost predicate Named(gs: seq<Group>) { forall i :: 0 <= i < |gs| ==> gs[i].Incremental? && gs[i].sym != "" }

  lemma {:induction false} NamedEntries(atof: string -> real, gs: seq<Group>)
    requires Named(gs)
    ensures forall i :: 0 <= i < |gs| ==> EntriesOf(atof, gs)[i].symbol == gs[i].sym
  {
    if gs != [] { NamedEntries(atof, gs[1..]); }
  }

  /** With a symbol in every entry of an incremental message, the quote has that of the first entry that counts. */
  lemma IncrementalPath(parse: string -> Option<real>, m: Message)
    requires MessageOk(m) && Named(m.groups) && FieldsOk(MessageFields(m))
    ensures var buf, es := Wire(MessageFields(m)), EntriesOf(Atof(parse), m.groups);
            var first := FirstQuoted(es);
            Slow(parse, buf) == if first.None? then None
                                else QuoteOf(first.value.symbol, FirstPositive(es, "bid"), FirstPositive(es, "ask"))
  {
    hide FixFields, Wire, MessageFields, ParseQuote, EntriesOf, FirstPositive, Chosen, FirstQuoted;
    var es := EntriesOf(Atof(parse), m.groups);
    ParseQuoteBack(Atof(parse), m);
    NamedEntries(Atof(parse), m.groups);
    FirstChosen(es);
  }

  /** Every type code is one character, as FIX 4.4 has them. */
  ghost predicate OneCharCodes(gs: seq<Group>) { forall i :: 0 <= i < |gs| ==> |gs[i].code| == 1 }

  lemma {:induction false} HotIsPlain(prev: char, gs: seq<Group>)
    requires OneCharCodes(gs)
    ensures HotGroups(prev, gs) == gs
    decreases |gs|
  {
    if gs != [] {
      assert gs[0].code == [gs[0].code[0]];
      HotIsPlain(gs[0].code[0], gs[1..]);
      assert gs == [gs[0]] + gs[1..];
    }
  }

  /**
   On every snapshot message with one-character codes the hot path accepts
   exactly the quotes the slow path accepts, with the same symbol and prices,
   except when on some side a negative price stands before the first positive
   one: then it rejects.
   */
  lemma FastAgainstSlow(parse: string -> Option<real>, m: Message)
    requires MessageOk(m) && FullGroups(m.groups) && OneCharCodes(m.groups) && FieldsOk(MessageFields(m))
    ensures var buf := Wire(MessageFields(m));
            var es := EntriesOf(Atof(parse), m.groups);
            Fast(parse, buf)
            == if FirstNonZero(es, "bid") > 0.0 && FirstNonZero(es, "ask") > 0.0 then Slow(parse, buf) else None
  {
    var es := EntriesOf(Atof(parse), m.groups);
    TwoPaths(parse, m);
    HotIsPlain(NO_TYPE, m.groups);
    hide Fast, Slow, FieldsOk, MessageOk, MessageFields, Wire, EntriesOf, FirstNonZero, FirstPositive, FullGroups;
    PositiveNonZero(es, "bid");
    PositiveNonZero(es, "ask");
  }

  const NEGATIVE_FIRST := [Full("0", "-1", "1", []), Full("0", "1", "1", []), Full("1", "2", "1", [])]

  lemma NegativeFirstPrices(parse: string -> Option<real>)
    requires parse("-1") == Some(-1.0) && parse("1") == Some(1.0) && parse("2") == Some(2.0)
    ensures var es := EntriesOf(Atof(parse), NEGATIVE_FIRST);
            FirstPositive(es, "bid") == 1.0 && FirstPositive(es, "ask") == 2.0 && !(FirstNonZero(es, "bid") > 0.0)
  {
    var gs := NEGATIVE_FIRST;
    var atof := Atof(parse);
    var a, b, c := EntryOf(atof, gs[0]), EntryOf(atof, gs[1]), EntryOf(atof, gs[2]);
    assert gs[1..][1..] == [gs[2]] && [gs[2]][1..] == [];
    assert EntriesOf(atof, gs[1..][1..]) == [c];
    var es := EntriesOf(atof, gs);
    assert es == [a, b, c] && es[1..] == [b, c] && es[1..][1..] == [c] && [c][1..] == [];
    assert FirstPositive(es, "bid") == FirstPositive([b, c], "bid") == 1.0;
    assert FirstPositive(es, "ask") == FirstPositive([b, c], "ask") == FirstPositive([c], "ask") == 2.0;
  }

  // ---- the mock liquidity provider -----------------------------------------

  datatype MockQuote = MockQuote(lp: string, pair: string, bid: real, ask: real, last: real, lastQty: real)

  /** The mock's 35=W message; the trade entry is there only for a positive last price. */
  function MockMessage(fmt: real -> string, q: MockQuote): Message {
    Message("W", q.lp, "WTG", Some(q.pair), [Field("8", "FIX.4.4"), Field("9", "0")],
            [Field("268", if q.last > 0.0 then "3" else "2")],
            [Full("0", fmt(q.bid), "1000000", []), Full("1", fmt(q.ask), "1000000", [])]
            + (if q.last > 0.0 then [Full("2", fmt(q.last), fmt(q.lastQty), [Field("278", "MOCK")])] else []),
            [Field("10", "000")])
  }

  function BuildSnapshot(fmt: real -> string, q: MockQuote): string { Wire(MessageFields(MockMessage(fmt, q))) }

  /** The numbers this quote prints read back and hold no separator. */
  ghost predicate PrintParse(fmt: real -> string, parse: string -> Option<real>, q: MockQuote) {
    && parse(fmt(q.bid)) == Some(q.bid) && SOH !in fmt(q.bid)
    && parse(fmt(q.ask)) == Some(q.ask) && SOH !in fmt(q.ask)
    && (q.last > 0.0 ==> parse(fmt(q.last)) == Some(q.last) && SOH !in fmt(q.last) && SOH !in fmt(q.lastQty))
  }

  lemma MockPrices(fmt: real -> string, parse: string -> Option<real>, q: MockQuote)
    requires PrintParse(fmt, parse, q)
    ensures var es := HotEntries(parse, MockMessage(fmt, q));
            && FirstNonZero(es, "bid") == q.bid && FirstNonZero(es, "ask") == q.ask
            && FirstNonZero(es, "trade") == (if q.last > 0.0 then q.last else 0.0)
  {
    HotIsPlain(NO_TYPE, MockMessage(fmt, q).groups);
    var gs, atof := MockMessage(fmt, q).groups, Atof(parse);
    LabelCode("0");
    LabelCode("1");
    LabelCode("2");
    hide EntryTypeLabel;
    var a, b := EntryOf(atof, gs[0]), EntryOf(atof, gs[1]);
    var tail := gs[2..];
    assert gs == [gs[0], gs[1]] + tail && gs[1..][1..] == tail;
    var es := EntriesOf(atof, gs);
    var rest := EntriesOf(atof, tail);
    assert es == [a] + EntriesOf(atof, gs[1..]) && EntriesOf(atof, gs[1..]) == [b] + rest;
    assert es[1..] == [b] + rest && ([b] + rest)[1..] == rest;
    if q.last > 0.0 {
      assert tail == [gs[2]] && tail[1..] == [];
      assert rest == [EntryOf(atof, gs[2])] && rest[1..] == [];
      assert rest[0].typ == "trade" && rest[0].px == q.last;
      assert FirstNonZero(rest[1..], "bid") == 0.0 && FirstNonZero(rest[1..], "ask") == 0.0;
    } else {
      assert tail == [] && rest == [];
    }
    assert FirstNonZero(rest, "bid") == 0.0 && FirstNonZero(rest, "ask") == 0.0;
    assert FirstNonZero(es, "trade") == FirstNonZero([b] + rest, "trade") == FirstNonZero(rest, "trade");
  }

  lemma FieldsOkJoin(a: seq<Field>, b: seq<Field>)
    requires FieldsOk(a) && FieldsOk(b)
    ensures FieldsOk(a + b)
  {
  }

  ghost predicate GroupTextOk(g: Group) {
    g.Full? && SOH !in g.code && SOH !in g.px && SOH !in g.qty && FieldsOk(g.extra)
  }

  ghost predicate GroupsTextOk(gs: seq<Group>) { forall i :: 0 <= i < |gs| ==> GroupTextOk(gs[i]) }

  lemma {:induction false} GroupsFieldsOk(gs: seq<Group>)
    requires GroupsTextOk(gs)
    ensures FieldsOk(GroupsFields(gs))
  {
    if gs != [] {
      GroupsFieldsOk(gs[1..]);
      FieldsOkJoin([Field("269", gs[0].code), Field("270", gs[0].px), Field("271", gs[0].qty)], gs[0].extra);
      FieldsOkJoin(GroupFields(gs[0]), GroupsFields(gs[1..]));
    }
  }

  /** The paths do differ: a negative bid in front of a good one hides the quote from the hot path. */
  lemma NegativeBidHidesQuote(parse: string -> Option<real>)
    requires parse("-1") == Some(-1.0) && parse("1") == Some(1.0) && parse("2") == Some(2.0)
    ensures var buf := Wire(MessageFields(Message("W", "L", "T", Some("S"), [], [], NEGATIVE_FIRST, [])));
            Slow(parse, buf) == Some(V1("S", 1.0, 2.0)) && Fast(parse, buf) == None
  {
    var m := Message("W", "L", "T", Some("S"), [], [], NEGATIVE_FIRST, []);
    assert GroupsTextOk(NEGATIVE_FIRST) && OneCharCodes(NEGATIVE_FIRST) && FullGroups(NEGATIVE_FIRST);
    BareMessageOk(NEGATIVE_FIRST);
    FastAgainstSlow(parse, m);
    TwoPaths(parse, m);
    hide Fast, Slow, Wire, MessageFields, MessageOk, FieldsOk, EntriesOf, FirstNonZero, FirstPositive;
    NegativeFirstPrices(parse);
  }

  /** A message of nothing but a header and entries. */
  lemma BareMessageOk(gs: seq<Group>)
    requires GroupsTextOk(gs) && FullGroups(gs)
    ensures var m := Message("W", "L", "T", Some("S"), [], [], gs, []);
            MessageOk(m) && FieldsOk(MessageFields(m))
  {
    var m := Message("W", "L", "T", Some("S"), [], [], gs, []);
    GroupsFieldsOk(gs);
    assert FieldsOk(HeaderFields(m));
    hide GroupsFields, HeaderFields, FieldsOk;
    assert FieldsOk([]) by { FieldsOkNone(); }
    FieldsOkJoin(GroupsFields(m.groups), m.trailer);
    FieldsOkJoin(HeaderFields(m), GroupsFields(m.groups) + m.trailer);
  }

  const LONG_CODE := [Full("0x", "1", "1", []), Full("1", "2", "1", [])]

  /** And a longer type code is a bid for the hot path only. */
  lemma LongCodeIsBidOnHotPath(parse: string -> Option<real>)
    requires parse("1") == Some(1.0) && parse("2") == Some(2.0)
    ensures var buf := Wire(MessageFields(Message("W", "L", "T", Some("S"), [], [], LONG_CODE, [])));
            Fast(parse, buf) == Some(V1("S", 1.0, 2.0)) && Slow(parse, buf) == None
  {
    var m := Message("W", "L", "T", Some("S"), [], [], LONG_CODE, []);
    assert GroupsTextOk(LONG_CODE) && FullGroups(LONG_CODE);
    BareMessageOk(LONG_CODE);
    TwoPaths(parse, m);
    hide Fast, Slow, Wire, MessageFields, MessageOk, FieldsOk;
    LongCodePrices(parse);
  }

  lemma LongCodePrices(parse: string -> Option<real>)
    requires parse("1") == Some(1.0) && parse("2") == Some(2.0)
    ensures var hot, es := EntriesOf(Atof(parse), HotGroups(NO_TYPE, LONG_CODE)), EntriesOf(Atof(parse), LONG_CODE);
            && FirstNonZero(hot, "bid") == 1.0 && FirstNonZero(hot, "ask") == 2.0
            && FirstPositive(es, "bid") == 0.0
  {
    var atof, b := Atof(parse), Full("1", "2", "1", []);
    var x, y, z := EntryOf(atof, Full("0", "1", "1", [])), EntryOf(atof, b), EntryOf(atof, LONG_CODE[0]);
    assert LONG_CODE[1..] == [b] && [b][1..] == [];
    assert HotGroups('0', [b]) == [b] + [] == [b];
    assert HotGroups(NO_TYPE, LONG_CODE) == [Full("0", "1", "1", [])] + [b];
    assert EntriesOf(atof, [b]) == [y];
    assert ([Full("0", "1", "1", [])] + [b])[1..] == [b];
    assert EntriesOf(atof, HotGroups(NO_TYPE, LONG_CODE)) == [x] + [y] && EntriesOf(atof, LONG_CODE) == [z] + [y];
    assert ([x] + [y])[1..] == [y] && ([z] + [y])[1..] == [y] && [y][1..] == [];
    assert z.typ == "type0x" && x.typ == "bid" && y.typ == "ask";
    assert z.typ[0] == 't' && FirstPositive([y], "bid") == 0.0;
  }

  lemma FieldsOkNone()
    ensures FieldsOk([])
  {
  }

  lemma MockHeaderOk(fmt: real -> string, q: MockQuote)
    requires SOH !in q.lp && SOH !in q.pair
    ensures FieldsOk(HeaderFields(MockMessage(fmt, q))) && FieldsOk(MockMessage(fmt, q).trailer)
  {
    var m := MockMessage(fmt, q);
    var ids, sym := [Field("35", m.kind), Field("49", m.sender), Field("56", m.target)], [Field("55", q.pair)];
    FieldsOkJoin(sym, m.after);
    FieldsOkJoin(ids, sym + m.after);
    FieldsOkJoin(m.before, ids + (sym + m.after));
  }

  lemma MockFieldsOk(fmt: real -> string, parse: string -> Option<real>, q: MockQuote)
    requires PrintParse(fmt, parse, q) && SOH !in q.lp && SOH !in q.pair
    ensures FieldsOk(MessageFields(MockMessage(fmt, q)))
  {
    var m := MockMessage(fmt, q);
    GroupsFieldsOk(m.groups);
    MockHeaderOk(fmt, q);
    hide GroupsFields, HeaderFields, FieldsOk, MockMessage;
    FieldsOkJoin(GroupsFields(m.groups), m.trailer);
    FieldsOkJoin(HeaderFields(m), GroupsFields(m.groups) + m.trailer);
  }

  /** What the mock sends, the hot path reads back: accepted exactly for a named pair with 0 < bid <= ask. */
  lemma MockSnapshotReadBack(fmt: real -> string, parse: string -> Option<real>, q: MockQuote)
    requires PrintParse(fmt, parse, q) && SOH !in q.lp && SOH !in q.pair
    ensures var s := SnapOf(parse, BuildSnapshot(fmt, q));
            && s.sym == q.pair && s.bid == q.bid && s.ask == q.ask
            && s.last == (if q.last > 0.0 then q.last else 0.0)
            && (SnapOk(s) <==> q.pair != "" && 0.0 < q.bid <= q.ask)
  {
    hide SnapFold, FixFields, Wire, MessageFields, EntriesOf, FirstNonZero;
    var m := MockMessage(fmt, q);
    MockFieldsOk(fmt, parse, q);
    WireBack(MessageFields(m));
    SnapMessage(parse, m);
    MockPrices(fmt, parse, q);
  }
}
