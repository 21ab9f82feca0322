/** The market data parser of the forwarder: repeating groups of 35=W and 35=X messages. */
module FixQuote {
  import opened Options
  import opened FixWire

  datatype MdEntry = MdEntry(action: string, typ: string, symbol: string, px: real, qty: real)
  const BLANK := MdEntry("", "", "", 0.0, 0.0)

  datatype Envelope = Envelope(msgType: string, symbol: string, sender: string, target: string,
                               entries: seq<MdEntry>, raw: string)

  function EntryTypeLabel(v: string): (l: string)
    ensures l != ""
  {
    if v == "0" then "bid" else if v == "1" then "ask" else if v == "2" then "trade"
    else if v == "4" then "open" else if v == "5" then "close" else if v == "6" then "settle"
    else if v == "7" then "high" else if v == "8" then "low" else if v == "B" then "vwap"
    else "type" + v
  }

  function ActionLabel(v: string): string {
    if v == "0" then "new" else if v == "1" then "change" else if v == "2" then "delete" else v
  }

  function MsgTypeLabel(v: string): string {
    if v == "W" then "snapshot" else if v == "X" then "incremental" else "msgtype-" + v
  }

  /** The labels of the known codes; any other code keeps its text. */
  lemma Labels()
    ensures EntryTypeLabel("0") == "bid" && EntryTypeLabel("1") == "ask" && EntryTypeLabel("2") == "trade"
    ensures EntryTypeLabel("4") == "open" && EntryTypeLabel("5") == "close" && EntryTypeLabel("6") == "settle"
    ensures EntryTypeLabel("7") == "high" && EntryTypeLabel("8") == "low" && EntryTypeLabel("B") == "vwap"
    ensures EntryTypeLabel("3") == "type3"
    ensures ActionLabel("0") == "new" && ActionLabel("1") == "change" && ActionLabel("2") == "delete"
    ensures MsgTypeLabel("W") == "snapshot" && MsgTypeLabel("X") == "incremental" && MsgTypeLabel("8") == "msgtype-8"
  {
  }

  /** The parser between two fields. */
  datatype Parse = Parse(msgType: string, sender: string, target: string, top: string,
                         cur: Option<MdEntry>, entries: seq<MdEntry>)
  const START := Parse("", "", "", "", None, [])

  /** The entries once the current one is flushed. */
  function Flushed(p: Parse): seq<MdEntry> {
    if p.cur.Some? then p.entries + [p.cur.value] else p.entries
  }

  function CurOrBlank(p: Parse): MdEntry { if p.cur.Some? then p.cur.value else BLANK }

  function Step(atof: string -> real, p: Parse, f: Field): Parse {
    if f.tag == "35" then p.(msgType := MsgTypeLabel(f.val))
    else if f.tag == "49" then p.(sender := f.val)
    else if f.tag == "56" then p.(target := f.val)
    else if f.tag == "55" then
      if p.cur.Some? then p.(cur := Some(p.cur.value.(symbol := f.val))) else p.(top := f.val)
    else if f.tag == "279" then
      p.(entries := Flushed(p), cur := Some(BLANK.(action := ActionLabel(f.val))))
    else if f.tag == "269" then
      if p.cur.None? || p.cur.value.typ != "" then
        p.(entries := Flushed(p), cur := Some(BLANK.(typ := EntryTypeLabel(f.val))))
      else p.(cur := Some(p.cur.value.(typ := EntryTypeLabel(f.val))))
    else if f.tag == "270" then p.(cur := Some(CurOrBlank(p).(px := atof(f.val))))
    else if f.tag == "271" then p.(cur := Some(CurOrBlank(p).(qty := atof(f.val))))
    else p
  }

  function Fold(atof: string -> real, p: Parse, fs: seq<Field>): Parse
    decreases |fs|
  {
    if fs == [] then p else Fold(atof, Step(atof, p, fs[0]), fs[1..])
  }

  lemma {:induction false} FoldConcat(atof: string -> real, p: Parse, a: seq<Field>, b: seq<Field>)
    ensures Fold(atof, p, a + b) == Fold(atof, Fold(atof, p, a), b)
    decreases |a|
  {
    if a == [] {
      assert a + b == b;
    } else {
      assert (a + b)[1..] == a[1..] + b;
      FoldConcat(atof, Step(atof, p, a[0]), a[1..], b);
    }
  }

  function ParseFields(atof: string -> real, fs: seq<Field>): Envelope {
    var p := Fold(atof, START, fs);
    Envelope(p.msgType, p.top, p.sender, p.target, Flushed(p), "")
  }

  function ParseQuote(atof: string -> real, buf: string): Envelope {
    var fs := FixFields(buf);
    if fs == [] then Envelope("unknown", "", "", "", [], buf) else ParseFields(atof, fs)
  }

  method ReadQuote(atof: string -> real, buf: string) returns (env: Envelope)
    ensures env == ParseQuote(atof, buf)
  {
    var fs := ReadFields(buf);
    if |fs| == 0 {
      return Envelope("unknown", "", "", "", [], buf);
    }
    var p := ReadGroups(atof, fs);
    return Envelope(p.msgType, p.top, p.sender, p.target, Flushed(p), "");
  }

  /** The field loop with its local variables; the current entry is kept apart until it is flushed. */
  method ReadGroups(atof: string -> real, fs: seq<Field>) returns (p: Parse)
    ensures p == Fold(atof, START, fs)
  {
    var msgType, sender, target, top := "", "", "", "";
    var cur: Option<MdEntry> := None;
    var entries: seq<MdEntry> := [];
    var i := 0;
    while i < |fs|
      invariant 0 <= i <= |fs|
      invariant Fold(atof, Parse(msgType, sender, target, top, cur, entries), fs[i..]) == Fold(atof, START, fs)
    {
      assert fs[i..][1..] == fs[i + 1..];
      var tag, val := fs[i].tag, fs[i].val;
      if tag == "35" {
        msgType := MsgTypeLabel(val);
      } else if tag == "49" {
        sender := val;
      } else if tag == "56" {
        target := val;
      } else if tag == "55" {
        if cur.Some? { cur := Some(cur.value.(symbol := val)); } else { top := val; }
      } else if tag == "279" {
        if cur.Some? { entries := entries + [cur.value]; }
        cur := Some(BLANK.(action := ActionLabel(val)));
      } else if tag == "269" {
        if cur.None? || cur.value.typ != "" {
          if cur.Some? { entries := entries + [cur.value]; }
          cur := Some(BLANK);
        }
        cur := Some(cur.value.(typ := EntryTypeLabel(val)));
      } else if tag == "270" {
        if cur.None? { cur := Some(BLANK); }
        cur := Some(cur.value.(px := atof(val)));
      } else if tag == "271" {
        if cur.None? { cur := Some(BLANK); }
        cur := Some(cur.value.(qty := atof(val)));
      }
      i := i + 1;
    }
    return Parse(msgType, sender, target, top, cur, entries);
  }

  // ---- printed groups ------------------------------------------------------

  predicate IsInert(f: Field) {
    f.tag != "35" && f.tag != "49" && f.tag != "56" && f.tag != "55" &&
    f.tag != "279" && f.tag != "269" && f.tag != "270" && f.tag != "271"
  }

  ghost predicate AllInert(fs: seq<Field>) { forall i :: 0 <= i < |fs| ==> IsInert(fs[i]) }

  /** One entry on the wire; `extra` are further fields of the entry that the parser does not use. */
  datatype Group =
    | Full(code: string, px: string, qty: string, extra: seq<Field>)
    | Incremental(action: string, code: string, sym: string, px: string, qty: string, extra: seq<Field>)

  function GroupFields(g: Group): seq<Field> {
    match g
    case Full(code, px, qty, extra) => [Field("269", code), Field("270", px), Field("271", qty)] + extra
    case Incremental(action, code, sym, px, qty, extra) =>
      [Field("279", action), Field("269", code), Field("55", sym), Field("270", px), Field("271", qty)] + extra
  }

  function GroupsFields(gs: seq<Group>): seq<Field> {
    if gs == [] then [] else GroupFields(gs[0]) + GroupsFields(gs[1..])
  }

  /** The entry a group stands for. */
  function EntryOf(atof: string -> real, g: Group): MdEntry {
    match g
    case Full(code, px, qty, _) => MdEntry("", EntryTypeLabel(code), "", atof(px), atof(qty))
    case Incremental(action, code, sym, px, qty, _) =>
      MdEntry(ActionLabel(action), EntryTypeLabel(code), sym, atof(px), atof(qty))
  }

  function EntriesOf(atof: string -> real, gs: seq<Group>): (es: seq<MdEntry>)
    ensures |es| == |gs|
  {
    if gs == [] then [] else [EntryOf(atof, gs[0])] + EntriesOf(atof, gs[1..])
  }

  /** No entry, or one whose type has been read. */
  predicate Settled(p: Parse) { p.cur.Some? ==> p.cur.value.typ != "" }

  lemma {:induction false} InertFields(atof: string -> real, p: Parse, fs: seq<Field>)
    requires AllInert(fs)
    ensures Fold(atof, p, fs) == p
    decreases |fs|
  {
    if fs != [] { InertFields(atof, p, fs[1..]); }
  }

  lemma FoldOne(atof: string -> real, p: Parse, f: Field, fs: seq<Field>)
    ensures Fold(atof, p, [f] + fs) == Fold(atof, Step(atof, p, f), fs)
  {
    assert ([f] + fs)[1..] == fs;
  }

  lemma Fold3(atof: string -> real, p: Parse, a: Field, b: Field, c: Field, fs: seq<Field>)
    ensures Fold(atof, p, [a, b, c] + fs) == Fold(atof, Step(atof, Step(atof, Step(atof, p, a), b), c), fs)
  {
    hide Step, Fold;
    assert [a, b, c] + fs == [a] + ([b] + ([c] + fs));
    FoldOne(atof, p, a, [b] + ([c] + fs));
    FoldOne(atof, Step(atof, p, a), b, [c] + fs);
    FoldOne(atof, Step(atof, Step(atof, p, a), b), c, fs);
  }

  /** Reading one printed entry adds exactly that entry and touches nothing else. */
  lemma OneGroup(atof: string -> real, p: Parse, g: Group)
    requires Settled(p) && AllInert(g.extra)
    ensures Fold(atof, p, GroupFields(g)) == p.(entries := Flushed(p), cur := Some(EntryOf(atof, g)))
  {
    hide Fold, EntryTypeLabel, ActionLabel;
    match g
    case Full(code, px, qty, extra) =>
      Fold3(atof, p, Field("269", code), Field("270", px), Field("271", qty), extra);
      InertFields(atof, p.(entries := Flushed(p), cur := Some(EntryOf(atof, g))), extra);
    case Incremental(action, code, sym, px, qty, extra) =>
      var a, b, rest := Field("279", action), Field("269", code),
                        [Field("55", sym), Field("270", px), Field("271", qty)] + extra;
      assert GroupFields(g) == [a] + ([b] + rest);
      FoldOne(atof, p, a, [b] + rest);
      var q := Step(atof, p, a);
      FoldOne(atof, q, b, rest);
      Fold3(atof, Step(atof, q, b), Field("55", sym), Field("270", px), Field("271", qty), extra);
      InertFields(atof, p.(entries := Flushed(p), cur := Some(EntryOf(atof, g))), extra);
  }

  lemma EntryTyped(atof: string -> real, g: Group)
    ensures EntryOf(atof, g).typ != ""
  {
  }

  ghost predicate GroupsOk(gs: seq<Group>) { forall i :: 0 <= i < |gs| ==> AllInert(gs[i].extra) }

  /** Reading printed entries, of either kind in any mix, yields those entries in order. */
  lemma {:induction false} GroupsBack(atof: string -> real, p: Parse, gs: seq<Group>)
    requires Settled(p) && GroupsOk(gs)
    ensures var r := Fold(atof, p, GroupsFields(gs));
            && Flushed(r) == Flushed(p) + EntriesOf(atof, gs)
            && r.(cur := None, entries := []) == p.(cur := None, entries := [])
    decreases |gs|
  {
    hide Fold, GroupFields, EntryOf;
    if gs == [] {
      InertFields(atof, p, []);
    } else {
      OneGroup(atof, p, gs[0]);
      EntryTyped(atof, gs[0]);
      FoldConcat(atof, p, GroupFields(gs[0]), GroupsFields(gs[1..]));
      var q := p.(entries := Flushed(p), cur := Some(EntryOf(atof, gs[0])));
      GroupsBack(atof, q, gs[1..]);
      hide GroupsFields, AllInert;
      assert Flushed(q) + EntriesOf(atof, gs[1..]) == Flushed(p) + ([EntryOf(atof, gs[0])] + EntriesOf(atof, gs[1..]));
    }
  }

  /**
   A message: header with the message type, sender, target and (if any) the
   common symbol, then entries, then a trailer.
   */
  datatype Message = Message(kind: string, sender: string, target: string, symbol: Option<string>,
                             before: seq<Field>, after: seq<Field>, groups: seq<Group>, trailer: seq<Field>)

  function HeaderFields(m: Message): seq<Field> {
    m.before + ([Field("35", m.kind), Field("49", m.sender), Field("56", m.target)]
    + ((if m.symbol.Some? then [Field("55", m.symbol.value)] else []) + m.after))
  }

  function MessageFields(m: Message): seq<Field> {
    HeaderFields(m) + (GroupsFields(m.groups) + m.trailer)
  }

  ghost predicate MessageOk(m: Message) {
    AllInert(m.before) && AllInert(m.after) && AllInert(m.trailer) && GroupsOk(m.groups)
  }

  function TopSymbol(m: Message): string { if m.symbol.Some? then m.symbol.value else "" }

  lemma HeaderBack(atof: string -> real, m: Message)
    requires MessageOk(m)
    ensures Fold(atof, START, HeaderFields(m))
         == Parse(MsgTypeLabel(m.kind), m.sender, m.target, TopSymbol(m), None, [])
  {
    var ids := [Field("35", m.kind), Field("49", m.sender), Field("56", m.target)];
    var sym := if m.symbol.Some? then [Field("55", m.symbol.value)] else [];
    FoldConcat(atof, START, m.before, ids + (sym + m.after));
    InertFields(atof, START, m.before);
    FoldConcat(atof, START, ids, sym + m.after);
    Fold3(atof, START, ids[0], ids[1], ids[2], []);
    assert ids + [] == ids;
    var p := START.(msgType := MsgTypeLabel(m.kind), sender := m.sender, target := m.target);
    FoldConcat(atof, p, sym, m.after);
    assert Fold(atof, p, sym) == p.(top := TopSymbol(m));
    InertFields(atof, p.(top := TopSymbol(m)), m.after);
  }

  lemma ParseFieldsBack(atof: string -> real, m: Message)
    requires MessageOk(m)
    ensures ParseFields(atof, MessageFields(m))
         == Envelope(MsgTypeLabel(m.kind), TopSymbol(m), m.sender, m.target, EntriesOf(atof, m.groups), "")
  {
    hide GroupsFields, HeaderFields, EntriesOf, MsgTypeLabel;
    HeaderBack(atof, m);
    var p := Fold(atof, START, HeaderFields(m));
    FoldConcat(atof, START, HeaderFields(m), GroupsFields(m.groups) + m.trailer);
    FoldConcat(atof, p, GroupsFields(m.groups), m.trailer);
    GroupsBack(atof, p, m.groups);
    InertFields(atof, Fold(atof, p, GroupsFields(m.groups)), m.trailer);
    assert [] + EntriesOf(atof, m.groups) == EntriesOf(atof, m.groups);
  }

  /**
   For every list of entries, printed as snapshot or incremental groups,
   splitting and parsing the wire text recovers the header and exactly those
   entries, in order, with the common or the per-entry symbol.
   */
  lemma ParseQuoteBack(atof: string -> real, m: Message)
    requires MessageOk(m) && FieldsOk(MessageFields(m))
    ensures ParseQuote(atof, Wire(MessageFields(m)))
         == Envelope(MsgTypeLabel(m.kind), TopSymbol(m), m.sender, m.target, EntriesOf(atof, m.groups), "")
  {
    hide ParseFields, Wire, FixFields;
    WireBack(MessageFields(m));
    ParseFieldsBack(atof, m);
    assert Field("35", m.kind) in HeaderFields(m);
  }
}
