/**
 The spot snapshot as the price server prints it, read by the C client. Numbers
 go through an abstract printer and reader.
 */
module SpotPrint {
  import opened CText
  import opened Options
  import opened JsonGrammar
  import opened JsonScan
  import opened JsonStrings
  import opened ServerStrings
  import opened SpotResponse

  datatype Field = Field(name: string, value: Json)

  /** An object's members without blanks. */
  function FromFields(fs: seq<Field>): Members {
    if fs == [] then NoMembers
    else Members("", fs[0].name, "", "", fs[0].value, "", FromFields(fs[1..]))
  }

  function Text(name: string, t: string): Field { Field(name, Str(ServerEscape(t))) }

  /** The server's fields of one entry, in the server's order; the two spreads are not read by the client. */
  function EntryFields(fmt: real -> string, e: SpotEntry): seq<Field> {
    [ Text("pair", e.pair),
      Field("bid", Atom(fmt(e.bid))), Field("ask", Atom(fmt(e.ask))),
      Field("raw_bid", Atom(fmt(e.rawBid))), Field("raw_ask", Atom(fmt(e.rawAsk))),
      Field("spread", Atom(fmt(e.ask - e.bid))), Field("raw_spread", Atom(fmt(e.rawAsk - e.rawBid))),
      Text("source", e.source) ]
  }

  function EntryTree(fmt: real -> string, e: SpotEntry): Members { FromFields(EntryFields(fmt, e)) }

  function SpotElems(fmt: real -> string, es: seq<SpotEntry>): Elems {
    if es == [] then NoElems else Elems("", Obj("", EntryTree(fmt, es[0])), "", SpotElems(fmt, es[1..]))
  }

  function NameElems(names: seq<string>): Elems {
    if names == [] then NoElems else Elems("", Str(ServerEscape(names[0])), "", NameElems(names[1..]))
  }

  datatype Snapshot = Snapshot(profile: string, customer: Option<string>, version: int, ts: string,
                               spots: seq<SpotEntry>, missing: seq<string>)

  function SnapshotFields(fmt: real -> string, fmtInt: int -> string, r: Snapshot): seq<Field> {
    [Text("profile", r.profile)]
    + (if r.customer.None? then [] else [Text("customer_id", r.customer.value)])
    + [Field("table_version", Atom(fmtInt(r.version))), Text("snapshot_ts", r.ts),
       Field("spots", Arr("", SpotElems(fmt, r.spots)))]
    + (if r.missing == [] then [] else [Field("missing", Arr("", NameElems(r.missing)))])
  }

  function SnapshotTree(fmt: real -> string, fmtInt: int -> string, r: Snapshot): Members {
    FromFields(SnapshotFields(fmt, fmtInt, r))
  }

  /** The body the server sends: the object and a newline. */
  function SnapshotText(fmt: real -> string, fmtInt: int -> string, r: Snapshot): string {
    Print(Obj("", SnapshotTree(fmt, fmtInt, r))) + "\n"
  }

  /** The pair as the client sees it fits its field, and does not read like a later key. */
  ghost predicate EntryFits(e: SpotEntry) {
    |Seen(e.pair)| <= 15 && ServerEscape(e.pair) !in ["bid", "ask", "raw_bid", "raw_ask", "source"]
  }

  ghost predicate SnapshotFits(r: Snapshot) {
    var keys := ["table_version", "spots", "missing"];
    && ServerEscape(r.profile) !in keys
    && (r.customer.Some? ==> ServerEscape(r.customer.value) !in keys)
    && ServerEscape(r.ts) !in keys
    && (forall i :: 0 <= i < |r.spots| ==> EntryFits(r.spots[i]))
    && (forall i :: 0 <= i < |r.missing| ==> |Seen(r.missing[i])| <= 15)
  }

  /** What the server prints for this number, the client's reader reads back. */
  ghost predicate Inverse(lib: Numbers, fmt: real -> string, x: real) {
    AtomOk(fmt(x)) && lib.real_(fmt(x)) == Some(x)
  }

  ghost predicate EntryInverse(lib: Numbers, fmt: real -> string, e: SpotEntry) {
    && Inverse(lib, fmt, e.bid) && Inverse(lib, fmt, e.ask)
    && Inverse(lib, fmt, e.rawBid) && Inverse(lib, fmt, e.rawAsk)
    && AtomOk(fmt(e.ask - e.bid)) && AtomOk(fmt(e.rawAsk - e.rawBid))
  }

  /** The numbers this snapshot prints read back; the spreads need only be tokens. */
  ghost predicate NumbersBack(lib: Numbers, fmt: real -> string, fmtInt: int -> string, r: Snapshot) {
    && AtomOk(fmtInt(r.version)) && lib.whole(fmtInt(r.version)) == Some(r.version)
    && (forall i :: 0 <= i < |r.spots| ==> EntryInverse(lib, fmt, r.spots[i]))
  }

  /** The entry in the client's hands; a source that is too long is cut. */
  function SeenEntry(e: SpotEntry): SpotEntry {
    e.(pair := Seen(e.pair), source := Seen(e.source)[..Min(|Seen(e.source)|, SOURCE_LEN - 1)])
  }

  function SeenEntries(es: seq<SpotEntry>): (r: seq<SpotEntry>)
    ensures |r| == |es| && forall i :: 0 <= i < |es| ==> r[i] == SeenEntry(es[i])
  {
    if es == [] then [] else [SeenEntry(es[0])] + SeenEntries(es[1..])
  }

  function SeenNames(names: seq<string>): (r: seq<string>)
    ensures |r| == |names| && forall i :: 0 <= i < |names| ==> r[i] == Seen(names[i])
  {
    if names == [] then [] else [Seen(names[0])] + SeenNames(names[1..])
  }

  // ---- on trees ------------------------------------------------------------

  /** No field before index `i` is called `key` or holds the string `key`. */
  ghost predicate Past(fs: seq<Field>, i: nat, key: string)
    requires i <= |fs|
  {
    forall k :: 0 <= k < i ==> fs[k].name != key && fs[k].value != Str(key)
  }

  lemma {:induction false} LookUpField(fs: seq<Field>, i: nat, key: string)
    requires i <= |fs| && Past(fs, i, key) && (i < |fs| ==> fs[i].name == key)
    ensures LookUp(FromFields(fs), key) == if i < |fs| then Some(fs[i].value) else None
  {
    if i > 0 {
      assert forall k :: 0 <= k < i - 1 ==> fs[1..][k] == fs[k + 1];
      LookUpField(fs[1..], i - 1, key);
    }
  }

  lemma EntryLookUps(fmt: real -> string, e: SpotEntry)
    requires EntryFits(e)
    ensures var ms := EntryTree(fmt, e);
            && LookUp(ms, "pair") == Some(Str(ServerEscape(e.pair)))
            && LookUp(ms, "bid") == Some(Atom(fmt(e.bid)))
            && LookUp(ms, "ask") == Some(Atom(fmt(e.ask)))
            && LookUp(ms, "raw_bid") == Some(Atom(fmt(e.rawBid)))
            && LookUp(ms, "raw_ask") == Some(Atom(fmt(e.rawAsk)))
            && LookUp(ms, "source") == Some(Str(ServerEscape(e.source)))
  {
    hide LookUp, ServerEscape, FromFields, Seen;
    var fs := EntryFields(fmt, e);
    LookUpField(fs, 0, "pair");
    LookUpField(fs, 1, "bid");
    LookUpField(fs, 2, "ask");
    LookUpField(fs, 3, "raw_bid");
    LookUpField(fs, 4, "raw_ask");
    LookUpField(fs, 7, "source");
  }

  lemma EntryRead(lib: Numbers, fmt: real -> string, e: SpotEntry)
    requires EntryInverse(lib, fmt, e) && EntryFits(e)
    ensures TreeEntry(lib, EntryTree(fmt, e)) == Some(SeenEntry(e))
  {
    hide LookUp, ServerEscape, Unescape, EntryTree;
    EntryLookUps(fmt, e);
  }

  lemma {:induction false} SpotsRead(lib: Numbers, fmt: real -> string, es: seq<SpotEntry>, n: nat)
    requires n <= MAX_PAIRS
    requires forall i :: 0 <= i < |es| ==> EntryInverse(lib, fmt, es[i]) && EntryFits(es[i])
    ensures TreeSpots(lib, SpotElems(fmt, es), n)
         == if n + |es| <= MAX_PAIRS then Items(SeenEntries(es)) else Oversize
    decreases |es|
  {
    hide TreeEntry, EntryTree, EntryFits, EntryInverse, SeenEntry;
    if es != [] && n < MAX_PAIRS {
      EntryRead(lib, fmt, es[0]);
      SpotsRead(lib, fmt, es[1..], n + 1);
    }
  }

  lemma {:induction false} MissingRead(names: seq<string>, n: nat)
    requires n <= MAX_MISSING && forall i :: 0 <= i < |names| ==> |Seen(names[i])| < PAIR_LEN
    ensures TreeMissing(NameElems(names), n)
         == if n + |names| <= MAX_MISSING then Items(SeenNames(names)) else Oversize
    decreases |names|
  {
    hide Unescape, ServerEscape;
    if names != [] && n < MAX_MISSING {
      MissingRead(names[1..], n + 1);
    }
  }

  lemma SnapshotLookUps(fmt: real -> string, fmtInt: int -> string, r: Snapshot)
    requires SnapshotFits(r)
    ensures var ms := SnapshotTree(fmt, fmtInt, r);
            && LookUp(ms, "table_version") == Some(Atom(fmtInt(r.version)))
            && LookUp(ms, "spots") == Some(Arr("", SpotElems(fmt, r.spots)))
            && LookUp(ms, "missing") == if r.missing == [] then None else Some(Arr("", NameElems(r.missing)))
  {
    hide SpotElems, NameElems, ServerEscape, Seen, LookUp, FromFields, EntryFits;
    var fs := SnapshotFields(fmt, fmtInt, r);
    var base := if r.customer.None? then 1 else 2;
    LookUpField(fs, base, "table_version");
    LookUpField(fs, base + 2, "spots");
    LookUpField(fs, base + 3, "missing");
  }

  /** What the client makes of the snapshot. */
  function SeenReply(r: Snapshot): Reply {
    if |r.spots| > MAX_PAIRS || |r.missing| > MAX_MISSING then TooMany
    else Good(r.version, SeenEntries(r.spots), SeenNames(r.missing))
  }

  /** On the printed tree the extraction gives the snapshot as seen, or reports a list beyond the client's arrays. */
  lemma SnapshotRead(lib: Numbers, fmt: real -> string, fmtInt: int -> string, r: Snapshot)
    requires NumbersBack(lib, fmt, fmtInt, r) && SnapshotFits(r)
    ensures SpotTree(lib, SnapshotTree(fmt, fmtInt, r)) == SeenReply(r)
  {
    hide TreeSpots, TreeMissing, SnapshotTree, SpotElems, NameElems, LookUp, EntryFits, EntryInverse, Seen, SeenEntry;
    SnapshotLookUps(fmt, fmtInt, r);
    SpotsRead(lib, fmt, r.spots, 0);
    MissingRead(r.missing, 0);
  }

  // ---- the printed text is grammatical -------------------------------------

  ghost predicate FieldsOk(fs: seq<Field>) {
    forall k :: 0 <= k < |fs| ==> RawOk(fs[k].name) && Ok(fs[k].value)
  }

  lemma {:induction false} FieldsMembersOk(fs: seq<Field>)
    requires FieldsOk(fs)
    ensures MembersOk(FromFields(fs))
  {
    if fs != [] { FieldsMembersOk(fs[1..]); }
  }

  /** A name without quotes and backslashes is a legal string body. */
  lemma NameOk(w: string)
    requires forall c :: c in w ==> c != NUL && c != '"' && c != '\\'
    ensures RawOk(w)
  {
    RawOkPlain(w, "");
    assert w + "" == w;
  }

  lemma EntryNamesOk()
    ensures RawOk("pair") && RawOk("bid") && RawOk("ask") && RawOk("raw_bid") && RawOk("raw_ask")
    ensures RawOk("spread") && RawOk("raw_spread") && RawOk("source")
  {
    hide RawOk;
    NameOk("pair"); NameOk("bid"); NameOk("ask"); NameOk("raw_bid"); NameOk("raw_ask");
    NameOk("spread"); NameOk("raw_spread"); NameOk("source");
  }

  lemma SnapshotNamesOk()
    ensures RawOk("profile") && RawOk("customer_id") && RawOk("table_version") && RawOk("snapshot_ts")
    ensures RawOk("spots") && RawOk("missing")
  {
    hide RawOk;
    NameOk("profile"); NameOk("customer_id"); NameOk("table_version"); NameOk("snapshot_ts");
    NameOk("spots"); NameOk("missing");
  }

  lemma EntryOk(lib: Numbers, fmt: real -> string, e: SpotEntry)
    requires EntryInverse(lib, fmt, e)
    ensures MembersOk(EntryTree(fmt, e))
  {
    hide RawOk, AtomOk, FromFields, MembersOk, ServerEscape;
    ServerRawOk(e.pair);
    ServerRawOk(e.source);
    EntryNamesOk();
    FieldsMembersOk(EntryFields(fmt, e));
  }

  lemma {:induction false} SpotElemsOk(lib: Numbers, fmt: real -> string, es: seq<SpotEntry>)
    requires forall i :: 0 <= i < |es| ==> EntryInverse(lib, fmt, es[i])
    ensures ElemsOk(SpotElems(fmt, es))
  {
    hide EntryTree, EntryInverse;
    if es != [] {
      EntryOk(lib, fmt, es[0]);
      SpotElemsOk(lib, fmt, es[1..]);
    }
  }

  lemma {:induction false} NameElemsOk(names: seq<string>)
    ensures ElemsOk(NameElems(names))
  {
    if names != [] {
      ServerRawOk(names[0]);
      NameElemsOk(names[1..]);
    }
  }

  lemma SnapshotOk(lib: Numbers, fmt: real -> string, fmtInt: int -> string, r: Snapshot)
    requires NumbersBack(lib, fmt, fmtInt, r)
    ensures MembersOk(SnapshotTree(fmt, fmtInt, r))
  {
    hide RawOk, AtomOk, FromFields, MembersOk, ElemsOk, SpotElems, NameElems, EntryInverse, ServerEscape;
    SpotElemsOk(lib, fmt, r.spots);
    NameElemsOk(r.missing);
    ServerRawOk(r.profile);
    ServerRawOk(r.ts);
    if r.customer.Some? { ServerRawOk(r.customer.value); }
    SnapshotNamesOk();
    FieldsMembersOk(SnapshotFields(fmt, fmtInt, r));
  }

  // ---- end to end ----------------------------------------------------------

  /**
   On text: the client given the server's body returns the version, the spots
   and the missing names in order, each text as it is seen, and the size error
   exactly when one of the lists is longer than the client's arrays.
   */
  lemma PrintedSnapshotRead(lib: Numbers, fmt: real -> string, fmtInt: int -> string, r: Snapshot)
    requires NumbersBack(lib, fmt, fmtInt, r) && SnapshotFits(r)
    ensures SpotText(lib, SnapshotText(fmt, fmtInt, r), 0) == SeenReply(r)
  {
    hide SpotText, SpotTree, Print, SnapshotTree, SnapshotFits, NumbersBack, SeenReply;
    var j := Obj("", SnapshotTree(fmt, fmtInt, r));
    var text := SnapshotText(fmt, fmtInt, r);
    SnapshotOk(lib, fmt, fmtInt, r);
    HasAtSlice(text, 0, text);
    HasAtSplit(text, 0, Print(j), "\n");
    SpotExact(lib, text, 0, "", j);
    SnapshotRead(lib, fmt, fmtInt, r);
  }

  ghost predicate AllReadable(r: Snapshot) {
    && (forall i :: 0 <= i < |r.spots| ==>
          Readable(r.spots[i].pair) && Readable(r.spots[i].source) && |r.spots[i].source| <= 7)
    && (forall i :: 0 <= i < |r.missing| ==> Readable(r.missing[i]))
  }

  lemma EntryBack(e: SpotEntry)
    ensures SeenEntry(e) == e <==> Readable(e.pair) && Readable(e.source) && |e.source| < SOURCE_LEN
  {
    hide Seen, Readable;
    ServerRoundTrip(e.pair);
    CutRoundTrip(e.source, SOURCE_LEN - 1);
  }

  lemma NamesBack(names: seq<string>)
    ensures SeenNames(names) == names <==> forall i :: 0 <= i < |names| ==> Readable(names[i])
  {
    hide Seen, Readable;
    var r := SeenNames(names);
    forall i | 0 <= i < |names| ensures r[i] == names[i] <==> Readable(names[i]) { ServerRoundTrip(names[i]); }
  }

  lemma EntriesBack(es: seq<SpotEntry>)
    ensures SeenEntries(es) == es
       <==> forall i :: 0 <= i < |es| ==>
              Readable(es[i].pair) && Readable(es[i].source) && |es[i].source| < SOURCE_LEN
  {
    hide SeenEntry, Readable;
    var r := SeenEntries(es);
    forall i | 0 <= i < |es|
      ensures r[i] == es[i] <==> Readable(es[i].pair) && Readable(es[i].source) && |es[i].source| < SOURCE_LEN
    {
      EntryBack(es[i]);
    }
  }

  /**
   The client gets the server's snapshot back if and only if its lists fit the
   client's arrays and none of its texts holds a character the server writes as
   an escape the client does not know.
   */
  lemma PrintedSnapshotReadBack(lib: Numbers, fmt: real -> string, fmtInt: int -> string, r: Snapshot)
    requires NumbersBack(lib, fmt, fmtInt, r) && SnapshotFits(r)
    ensures SpotText(lib, SnapshotText(fmt, fmtInt, r), 0) == Good(r.version, r.spots, r.missing)
       <==> |r.spots| <= 16 && |r.missing| <= 16 && AllReadable(r)
    ensures SpotText(lib, SnapshotText(fmt, fmtInt, r), 0) == TooMany <==> |r.spots| > 16 || |r.missing| > 16
  {
    hide SpotText, SnapshotText, SnapshotFits, NumbersBack, SeenEntries, SeenNames, Readable, EntryFits, Seen;
    PrintedSnapshotRead(lib, fmt, fmtInt, r);
    EntriesBack(r.spots);
    NamesBack(r.missing);
  }

  /** A missing pair with an ampersand comes back as another name. */
  lemma AmpersandIsLost(lib: Numbers, fmt: real -> string, fmtInt: int -> string)
    requires AtomOk(fmtInt(1)) && lib.whole(fmtInt(1)) == Some(1)
    ensures var r := Snapshot("", None, 1, "", [], ["A&B"]);
            SpotText(lib, SnapshotText(fmt, fmtInt, r), 0) == Good(1, [], ["Au0026B"])
  {
    var r := Snapshot("", None, 1, "", [], ["A&B"]);
    AmpersandSeen();
    assert ServerEscape("") == "";
    hide Seen, ServerEscape, SpotText, SnapshotText;
    assert SnapshotFits(r) && NumbersBack(lib, fmt, fmtInt, r);
    PrintedSnapshotRead(lib, fmt, fmtInt, r);
    assert SeenNames(["A&B"]) == ["Au0026B"];
  }
}
