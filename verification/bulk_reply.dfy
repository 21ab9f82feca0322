/** The handlers of the two enquiries, and the many-record one against the single one. */
module BulkReply {
  import opened Options
  import opened BulkCodec

  datatype Handled = NotMine | Refused | Replied(body: Bytes)

  function Blank(n: nat): (s: Bytes)
    ensures |s| == n
  {
    seq(n, _ => ' ')
  }

  function ShowNat(n: nat): Bytes {
    (if n < 10 then [] else ShowNat(n / 10)) + [('0' as int + n % 10) as char]
  }

  /** The count, left-justified in six bytes, longer when it does not fit. */
  function NrecField(n: nat): Bytes {
    var s := ShowNat(n);
    if |s| < NREC_LEN then s + Blank(NREC_LEN - |s|) else s
  }

  // ---- the count reads back ------------------------------------------------

  lemma {:induction false} ShowNatDigits(n: nat)
    ensures ShowNat(n) != [] && Digits(ShowNat(n)) == Some(n)
    ensures forall i :: 0 <= i < |ShowNat(n)| ==> IsDigit(ShowNat(n)[i])
  {
    var last := ('0' as int + n % 10) as char;
    if n < 10 {
      assert ShowNat(n) == [last];
      assert [last][..0] == [];
    } else {
      ShowNatDigits(n / 10);
      assert ShowNat(n)[..|ShowNat(n)| - 1] == ShowNat(n / 10);
    }
  }

  lemma {:induction false} TrimRightBlank(v: Bytes, k: nat)
    requires v != [] && !IsSpace(v[|v| - 1])
    ensures TrimRight(v + Blank(k)) == v
    decreases k
  {
    if k == 0 {
      assert v + Blank(k) == v;
    } else {
      assert (v + Blank(k))[..|v| + k - 1] == v + Blank(k - 1);
      TrimRightBlank(v, k - 1);
    }
  }

  lemma SmallCountWidth(n: nat)
    requires n <= MAX_REC
    ensures |ShowNat(n)| <= 4
  {
    assert n < 10 ==> |ShowNat(n)| == 1;
    assert n / 10 < 10 ==> |ShowNat(n / 10)| == 1;
    assert n / 10 / 10 < 10 ==> |ShowNat(n / 10 / 10)| == 1;
    assert n / 10 / 10 / 10 < 10;
    assert |ShowNat(n / 10 / 10 / 10)| == 1;
  }

  lemma FieldTrims(s: Bytes, k: nat)
    requires s != [] && IsDigit(s[0]) && IsDigit(s[|s| - 1])
    ensures Trim(s + Blank(k)) == s
  {
    TrimRightBlank(s, k);
    hide TrimRight, Blank;
    assert (s + Blank(k))[0] == s[0];
    assert TrimLeft(s + Blank(k)) == s + Blank(k);
  }

  /** A count the reader accepts reads back from its field. */
  lemma NrecBack(n: nat, rest: Bytes)
    requires n <= MAX_REC
    ensures |NrecField(n)| == NREC_LEN && ParseNrec(NrecField(n) + rest, 0) == Some(n)
  {
    SmallCountWidth(n);
    ShowNatDigits(n);
    var s := ShowNat(n);
    assert IsDigit(s[0]) && IsDigit(s[|s| - 1]);
    FieldTrims(s, NREC_LEN - |s|);
    assert Atoi(s) == Some(n) by { hide ShowNat, Trim, Blank, Digits; }
    hide ShowNat, Trim, Digits, Blank, Atoi;
    assert (NrecField(n) + rest)[0..NREC_LEN] == NrecField(n);
  }

  // ---- one record ----------------------------------------------------------

  /** The header comes back with its error flag cleared. */
  function Echo(hdr: Option<Bytes>, out: Bytes): Bytes
    requires hdr.Some? ==> |hdr.value| == COMHDR_LEN
  {
    if hdr.Some? then hdr.value[EFLG := '0'] + out else out
  }

  function Single(b: Bytes, env: Env): Handled {
    var s := SplitComhdr(b, IN_LEN);
    var req := ParseS02(s.body);
    if req.None? then Refused
    else
      var q := env.spot(req.value.pair);
      if q.None? then Refused else Replied(Echo(s.hdr, S02Reply(req.value, q.value, env.show)))
  }

  method HandleS02(rkey: string, b: Bytes, env: Env) returns (r: Handled)
    ensures r == if rkey == "W9501S02" then Single(b, env) else NotMine
  {
    if rkey != "W9501S02" {
      return NotMine;
    }
    var s := SplitComhdr(b, IN_LEN);
    var req := ParseS02(s.body);
    if req.None? {
      return Refused;
    }
    var q := env.spot(req.value.pair);
    if q.None? {
      return Refused;
    }
    var out := BuildS02Reply(req.value, q.value, env);
    return Replied(Echo(s.hdr, out));
  }

  // ---- many records --------------------------------------------------------

  predicate HasRecord(body: Bytes, i: nat) { NREC_LEN + (i + 1) * IN_LEN <= |body| }

  function Record(body: Bytes, i: nat): Bytes
    requires HasRecord(body, i)
  {
    body[NREC_LEN + i * IN_LEN..NREC_LEN + (i + 1) * IN_LEN]
  }

  /** Slot i of the reply: blank for a missing or unreadable record, a zero quote for an unknown pair. */
  function Slot(body: Bytes, env: Env, i: nat): (s: Bytes)
    ensures |s| == OUT_LEN
  {
    if !HasRecord(body, i) then Blank(OUT_LEN)
    else
      var req := ParseS02(Record(body, i));
      if req.None? then Blank(OUT_LEN)
      else
        var q := env.spot(req.value.pair);
        S02Reply(req.value, if q.None? then ZERO_QUOTE else q.value, env.show)
  }

  function Slots(body: Bytes, env: Env, n: nat): (s: Bytes)
    ensures |s| == n * OUT_LEN
  {
    if n == 0 then [] else Slots(body, env, n - 1) + Slot(body, env, n - 1)
  }

  /** The count again, and a slot for each record. */
  function BulkOut(body: Bytes, env: Env): Bytes
    requires ParseNrec(body, 0).Some?
  {
    var n := ParseNrec(body, 0).value; NrecField(n) + Slots(body, env, n)
  }

  function Bulk(b: Bytes, env: Env): Handled {
    var s := SplitComhdrS03(b);
    var n := ParseNrec(s.body, 0);
    if n.None? then Refused else Replied(Echo(s.hdr, BulkOut(s.body, env)))
  }

  lemma SlotsSucc(body: Bytes, env: Env, n: nat)
    ensures Slots(body, env, n + 1) == Slots(body, env, n) + Slot(body, env, n)
  {
    hide Slot;
  }

  lemma {:induction false} SlotsAt(body: Bytes, env: Env, n: nat, i: nat)
    requires i < n
    ensures Slots(body, env, n)[i * OUT_LEN..(i + 1) * OUT_LEN] == Slot(body, env, i)
    decreases n
  {
    hide Slot;
    var init, last := Slots(body, env, n - 1), Slot(body, env, n - 1);
    if i < n - 1 {
      SlotsAt(body, env, n - 1, i);
      assert (init + last)[i * OUT_LEN..(i + 1) * OUT_LEN] == init[i * OUT_LEN..(i + 1) * OUT_LEN];
    } else {
      assert (init + last)[i * OUT_LEN..(i + 1) * OUT_LEN] == last;
    }
  }

  lemma BlankJoin(a: nat, b: nat)
    ensures Blank(a) + Blank(b) == Blank(a + b)
  {
  }

  lemma NoRecordSlot(body: Bytes, env: Env, i: nat, j: nat)
    requires !HasRecord(body, i) && i <= j
    ensures Slot(body, env, j) == Blank(OUT_LEN)
  {
    hide S02Reply, ParseS02;
  }

  /** From the first missing record on every slot is blank. */
  lemma {:induction false} BlankTail(body: Bytes, env: Env, i: nat, n: nat)
    requires i <= n && !HasRecord(body, i)
    ensures Slots(body, env, n) == Slots(body, env, i) + Blank((n - i) * OUT_LEN)
    decreases n - i
  {
    hide Slot, Slots, Blank, HasRecord;
    if i == n {
      assert Slots(body, env, i) + Blank(0) == Slots(body, env, i);
    } else {
      BlankTail(body, env, i, n - 1);
      NoRecordSlot(body, env, i, n - 1);
      BlankJoin((n - 1 - i) * OUT_LEN, OUT_LEN);
      SlotsSucc(body, env, n - 1);
      Assoc(Slots(body, env, i), Blank((n - 1 - i) * OUT_LEN), Blank(OUT_LEN));
    }
  }

  lemma Assoc(a: Bytes, b: Bytes, c: Bytes)
    ensures a + b + c == a + (b + c)
  {
  }

  method CopyInto(out: array<char>, off: nat, v: Bytes)
    requires off + |v| <= out.Length
    modifies out
    ensures out[..] == old(out[..off]) + v + old(out[off + |v|..])
  {
    for i := 0 to |v|
      invariant out[..] == old(out[..off]) + v[..i] + old(out[off + i..])
    {
      out[off + i] := v[i];
    }
  }

  /** The slots done so far, the rest of the buffer still blank. */
  predicate FilledTo(s: Bytes, body: Bytes, env: Env, i: nat, n: nat) {
    i <= n && s == NrecField(n) + Slots(body, env, i) + Blank((n - i) * OUT_LEN)
  }

  lemma FillOne(s: Bytes, body: Bytes, env: Env, i: nat, n: nat)
    requires i < n <= MAX_REC && FilledTo(s, body, env, i, n)
    ensures |s| == NREC_LEN + n * OUT_LEN
    ensures var off := NREC_LEN + i * OUT_LEN; var v := Slot(body, env, i);
            off + |v| <= |s| && FilledTo(s[..off] + v + s[off + |v|..], body, env, i + 1, n)
    ensures Slot(body, env, i) == Blank(OUT_LEN) ==> FilledTo(s, body, env, i + 1, n)
  {
    hide Slot, NrecField, Slots, Blank, ParseNrec;
    NrecBack(n, []);
    BlankJoin(OUT_LEN, (n - i - 1) * OUT_LEN);
    SlotsSucc(body, env, i);
    Splice(NrecField(n) + Slots(body, env, i), Blank(OUT_LEN), Blank((n - i - 1) * OUT_LEN), Slot(body, env, i));
    Assoc(NrecField(n), Slots(body, env, i), Slot(body, env, i));
  }

  lemma Splice(head: Bytes, hole: Bytes, tail: Bytes, v: Bytes)
    requires |v| == |hole|
    ensures var s := head + (hole + tail);
            s[..|head|] + v + s[|head| + |v|..] == head + v + tail && s == head + hole + tail
  {
    var s := head + (hole + tail);
    assert s[..|head|] == head && s[|head| + |v|..] == tail;
  }

  lemma SlotRead(body: Bytes, env: Env, i: nat)
    requires HasRecord(body, i)
    ensures var req := ParseS02(Record(body, i));
            if req.None? then Slot(body, env, i) == Blank(OUT_LEN)
            else var q := env.spot(req.value.pair);
                 Slot(body, env, i) == S02Reply(req.value, if q.None? then ZERO_QUOTE else q.value, env.show)
  {
  }

  method FillSlots(out: array<char>, body: Bytes, env: Env, n: nat)
    requires n <= MAX_REC && FilledTo(out[..], body, env, 0, n)
    modifies out
    ensures out[..] == NrecField(n) + Slots(body, env, n)
  {
    hide FilledTo, Slot, Slots, Blank, NrecField, ParseS02, S02Reply;
    var i := 0;
    while i < n
      invariant 0 <= i <= n && FilledTo(out[..], body, env, i, n)
    {
      FillOne(out[..], body, env, i, n);
      var inOff := NREC_LEN + i * IN_LEN;
      if inOff + IN_LEN > |body| {
        FilledBlank(out[..], body, env, i, n);
        return;
      }
      SlotRead(body, env, i);
      var req := ParseS02(body[inOff..inOff + IN_LEN]);
      if req.Some? {
        var q := env.spot(req.value.pair);
        var rep := BuildS02Reply(req.value, if q.None? then ZERO_QUOTE else q.value, env);
        CopyInto(out, NREC_LEN + i * OUT_LEN, rep);
      }
      i := i + 1;
    }
    FilledAll(out[..], body, env, n);
  }

  lemma FilledAll(s: Bytes, body: Bytes, env: Env, n: nat)
    requires FilledTo(s, body, env, n, n)
    ensures s == NrecField(n) + Slots(body, env, n)
  {
    hide NrecField, Slots;
    assert Blank(0) == [];
  }

  lemma FilledBlank(s: Bytes, body: Bytes, env: Env, i: nat, n: nat)
    requires FilledTo(s, body, env, i, n) && !HasRecord(body, i)
    ensures s == NrecField(n) + Slots(body, env, n)
  {
    BlankTail(body, env, i, n);
    hide NrecField, Slots, Blank;
    assert NrecField(n) + (Slots(body, env, i) + Blank((n - i) * OUT_LEN))
        == NrecField(n) + Slots(body, env, i) + Blank((n - i) * OUT_LEN);
  }

  method HandleS03(rkey: string, b: Bytes, env: Env) returns (r: Handled)
    ensures r == if rkey == "W9501S03" then Bulk(b, env) else NotMine
  {
    if rkey != "W9501S03" {
      return NotMine;
    }
    var s := SplitComhdrS03(b);
    if |s.body| < NREC_LEN {
      return Refused;
    }
    var nrec := ParseNrec(s.body, 0);
    if nrec.None? {
      return Refused;
    }
    var n := nrec.value;
    var out := new char[NREC_LEN + n * OUT_LEN](_ => ' ');
    NrecBack(n, []);
    CopyInto(out, 0, NrecField(n));
    Started(out[..], s.body, env, n);
    FillSlots(out, s.body, env, n);
    return Replied(Echo(s.hdr, out[..]));
  }

  lemma Started(s: Bytes, body: Bytes, env: Env, n: nat)
    requires n <= MAX_REC && |s| == NREC_LEN + n * OUT_LEN && |NrecField(n)| == NREC_LEN
    requires s[..NREC_LEN] == NrecField(n) && forall k :: NREC_LEN <= k < |s| ==> s[k] == ' '
    ensures FilledTo(s, body, env, 0, n)
  {
    hide NrecField;
    assert s == s[..NREC_LEN] + s[NREC_LEN..];
    assert s[NREC_LEN..] == Blank(n * OUT_LEN);
  }

  // ---- the bulk reply against the single one -------------------------------

  /** What the single enquiry answers for a record, and what the bulk reply puts where it refuses. */
  function SingleOrBlank(record: Bytes, env: Env): Bytes {
    var r := Single(record, env);
    if r.Replied? then r.body
    else
      var req := ParseS02(record);
      if req.None? then Blank(546) else S02Reply(req.value, Quote(0.0, 0.0, ""), env.show)
  }

  function SlotAt(out: Bytes, i: nat): Bytes
    requires 6 + (i + 1) * 546 <= |out|
  {
    out[6 + i * 546..6 + (i + 1) * 546]
  }

  /**
   Every frame is refused when the count cannot be read; any other, whether its
   length fits the count or not, is answered with the same count, 6 + 546 n
   bytes behind the echoed header if it has one, and in slot i exactly the
   single enquiry's answer to record i: blank where the record is missing or
   cannot be read, a zero quote where the price is unknown.
   */
  lemma BulkIsSingles(b: Bytes, env: Env, i: nat)
    ensures var s := SplitComhdrS03(b); var count := ParseNrec(s.body, 0);
            if count.None? then Bulk(b, env) == Refused
            else
              var n, out := count.value, BulkOut(s.body, env);
              && Bulk(b, env) == Replied(Echo(s.hdr, out))
              && |out| == 6 + n * 546 && ParseNrec(out, 0) == Some(n)
              && (i < n ==> SlotAt(out, i)
                            == if HasRecord(s.body, i) then SingleOrBlank(Record(s.body, i), env) else Blank(546))
  {
    hide ParseNrec, NrecField, Slots, Slot, SingleOrBlank, SplitComhdrS03, Record, Blank;
    var body := SplitComhdrS03(b).body;
    var count := ParseNrec(body, 0);
    if count.Some? {
      var n, slots := count.value, Slots(body, env, count.value);
      CountLimit(body);
      NrecBack(n, slots);
      if i < n {
        SlotsAt(body, env, n, i);
        if HasRecord(body, i) { SlotIsSingle(body, env, i); } else { NoRecordSlot(body, env, i, i); }
        SliceShift(NrecField(n), slots, i * OUT_LEN, (i + 1) * OUT_LEN);
      }
    }
  }

  lemma CountLimit(b: Bytes)
    ensures ParseNrec(b, 0).Some? ==> ParseNrec(b, 0).value <= MAX_REC
  {
    hide Atoi, Trim;
  }

  lemma SliceShift(a: Bytes, b: Bytes, i: nat, j: nat)
    requires i <= j <= |b|
    ensures (a + b)[|a| + i..|a| + j] == b[i..j]
  {
  }

  /** An enquiry of n records as a client prints it is never taken to start with a header. */
  lemma PrintedEnquiryIsRaw(n: nat, recs: Bytes)
    requires n <= 1000 && |recs| == n * 64
    ensures SplitComhdrS03(NrecField(n) + recs) == Split(None, NrecField(n) + recs)
    ensures forall i :: 0 <= i < n ==> HasRecord(NrecField(n) + recs, i)
  {
    NrecBack(n, []);
    assert NrecField(n) + [] == NrecField(n);
    hide ParseNrec, NrecField, SplitComhdrS03;
    RawFrame(NrecField(n), n, recs);
  }

  lemma SlotIsSingle(body: Bytes, env: Env, i: nat)
    requires HasRecord(body, i)
    ensures Slot(body, env, i) == SingleOrBlank(Record(body, i), env)
  {
    hide S02Reply, ParseS02;
  }

  /** With a header that is split off, the answer is the raw one behind the echoed header. */
  lemma HeaderIsEchoed(hdr: Bytes, body: Bytes, env: Env)
    requires |hdr| == 512 && Fits(body, 0) && ParseNrec(hdr, 0) != Some(ParseNrec(body, 0).value + 8)
    ensures Bulk(body, env).Replied?
    ensures Bulk(hdr + body, env) == Replied(hdr[182 := '0'] + Bulk(body, env).body)
  {
    HeaderSplitIff(hdr, body);
  }

  /** The header that begins with the number eight swallows an empty enquiry. */
  lemma HeaderTakenForRecords()
    ensures var hdr := NrecField(8) + Blank(506); var body := NrecField(0);
            && |hdr| == 512 && Fits(body, 0)
            && SplitComhdrS03(hdr + body) == Split(None, hdr + body)
  {
    var hdr, body := NrecField(8) + Blank(506), NrecField(0);
    NrecBack(8, Blank(506));
    NrecBack(0, []);
    assert NrecField(0) + [] == NrecField(0);
    ParseNrecPrefix(hdr, body);
    hide ParseNrec, NrecField, Blank;
  }
}
