/** FIX wire text: tag=value fields, each ended by SOH. */
module FixWire {
  import opened Options

  const SOH: char := '\U{0001}'

  datatype Field = Field(tag: string, val: string)

  /** `bytes.Split` at SOH. */
  function Split(buf: string): (parts: seq<string>)
    ensures |parts| >= 1
  {
    if buf == [] then [""]
    else
      var rest := Split(buf[1..]);
      if buf[0] == SOH then [""] + rest else [[buf[0]] + rest[0]] + rest[1..]
  }

  /** `bytes.IndexByte` of the equals sign. */
  function EqualsAt(p: string): (i: int)
    ensures -1 <= i < |p|
    ensures i >= 0 ==> p[i] == '='
  {
    if p == [] then -1
    else if p[0] == '=' then 0
    else
      var i := EqualsAt(p[1..]);
      if i < 0 then -1 else i + 1
  }

  /** A part is a field if it has a non-empty tag in front of an equals sign. */
  function FieldOf(p: string): Option<Field> {
    var eq := EqualsAt(p);
    if eq <= 0 then None else Some(Field(p[..eq], p[eq + 1..]))
  }

  function FieldsOf(parts: seq<string>): seq<Field> {
    if parts == [] then []
    else
      var f, rest := FieldOf(parts[0]), FieldsOf(parts[1..]);
      if f.Some? then [f.value] + rest else rest
  }

  function FixFields(buf: string): seq<Field> { FieldsOf(Split(buf)) }

  method ReadFields(buf: string) returns (out: seq<Field>)
    ensures out == FixFields(buf)
  {
    hide Split, EqualsAt;
    var parts := Split(buf);
    out := [];
    var i := 0;
    while i < |parts|
      invariant 0 <= i <= |parts|
      invariant out + FieldsOf(parts[i..]) == FieldsOf(parts)
    {
      var p := parts[i];
      assert parts[i..][0] == p && parts[i..][1..] == parts[i + 1..];
      i := i + 1;
      if |p| == 0 { continue; }
      var eq := EqualsAt(p);
      if eq <= 0 { continue; }
      out := out + [Field(p[..eq], p[eq + 1..])];
    }
  }

  /** The wire text of a list of fields. */
  function Wire(fs: seq<Field>): string {
    if fs == [] then "" else fs[0].tag + "=" + fs[0].val + [SOH] + Wire(fs[1..])
  }

  ghost predicate FieldOk(f: Field) {
    f.tag != "" && SOH !in f.tag && '=' !in f.tag && SOH !in f.val
  }

  ghost predicate FieldsOk(fs: seq<Field>) { forall i :: 0 <= i < |fs| ==> FieldOk(fs[i]) }

  lemma {:induction false} SplitPart(w: string, rest: string)
    requires SOH !in w
    ensures Split(w + [SOH] + rest) == [w] + Split(rest)
    decreases |w|
  {
    var t := w + [SOH] + rest;
    if w == [] {
      assert t[1..] == rest;
    } else {
      assert t[1..] == w[1..] + [SOH] + rest;
      SplitPart(w[1..], rest);
      assert [w[0]] + w[1..] == w;
    }
  }

  lemma {:induction false} EqualsAfterTag(tag: string, val: string)
    requires '=' !in tag
    ensures EqualsAt(tag + "=" + val) == |tag|
    decreases |tag|
  {
    if tag != [] {
      assert (tag + "=" + val)[1..] == tag[1..] + "=" + val;
      EqualsAfterTag(tag[1..], val);
    }
  }

  lemma FieldBack(f: Field)
    requires FieldOk(f)
    ensures FieldOf(f.tag + "=" + f.val) == Some(f)
  {
    var p := f.tag + "=" + f.val;
    EqualsAfterTag(f.tag, f.val);
    assert p[..|f.tag|] == f.tag && p[|f.tag| + 1..] == f.val;
  }

  lemma FieldThenRest(f: Field, rest: string)
    requires FieldOk(f)
    ensures FixFields(f.tag + "=" + f.val + [SOH] + rest) == [f] + FixFields(rest)
  {
    hide Split, FieldOf;
    var w := f.tag + "=" + f.val;
    SplitPart(w, rest);
    FieldBack(f);
    assert ([w] + Split(rest))[1..] == Split(rest);
  }

  lemma NoFields()
    ensures FixFields("") == []
  {
    assert Split("") == [""];
    assert FieldsOf([""]) == FieldsOf([""][1..]);
  }

  /** Splitting undoes printing. */
  lemma {:induction false} WireBack(fs: seq<Field>)
    requires FieldsOk(fs)
    ensures FixFields(Wire(fs)) == fs
  {
    hide FixFields;
    if fs == [] {
      NoFields();
    } else {
      FieldThenRest(fs[0], Wire(fs[1..]));
      WireBack(fs[1..]);
    }
  }
}
