/**
 NUL-terminated text as the C price client reads it: a pointer is an index
 into a string, and reading at or past the end yields NUL.
 */
module CText {
  const NUL := '\0'

  /** `*p` */
  function At(s: string, p: nat): char {
    if p < |s| then s[p] else NUL
  }

  predicate IsWs(c: char) {
    c == ' ' || c == '\t' || c == '\n' || c == '\r'
  }

  /** The text `w` lies in `s` at position `p`. */
  ghost predicate HasAt(s: string, p: nat, w: string): (b: bool)
    ensures b ==> p + |w| <= |s|
    decreases |w|
  {
    if w == [] then p <= |s| else p < |s| && s[p] == w[0] && HasAt(s, p + 1, w[1..])
  }

  lemma {:induction false} HasAtSplit(s: string, p: nat, a: string, b: string)
    ensures HasAt(s, p, a + b) <==> HasAt(s, p, a) && HasAt(s, p + |a|, b)
    decreases |a|
  {
    if a == [] {
      assert a + b == b;
    } else {
      assert (a + b)[1..] == a[1..] + b;
      HasAtSplit(s, p + 1, a[1..], b);
    }
  }

  lemma {:induction false} HasAtSlice(s: string, p: nat, w: string)
    ensures HasAt(s, p, w) <==> p + |w| <= |s| && s[p..p + |w|] == w
    decreases |w|
  {
    if w != [] {
      HasAtSlice(s, p + 1, w[1..]);
      if p + |w| <= |s| {
        assert s[p..p + |w|] == [s[p]] + s[p + 1..p + |w|];
        assert w == [w[0]] + w[1..];
        assert s[p..p + |w|][1..] == s[p + 1..p + |w|];
      }
    }
  }

  /** First position at or after `p` that holds no white space. */
  function SkipWs(s: string, p: nat): (q: nat)
    requires p <= |s|
    ensures p <= q <= |s|
    ensures !IsWs(At(s, q))
    decreases |s| - p
  {
    if IsWs(At(s, p)) then SkipWs(s, p + 1) else p
  }

  ghost predicate AllWs(w: string) {
    forall c :: c in w ==> IsWs(c)
  }

  /** White space `w` in front of a non-blank character is skipped exactly. */
  lemma {:induction false} SkipWsOver(s: string, p: nat, w: string)
    requires AllWs(w) && HasAt(s, p, w) && !IsWs(At(s, p + |w|))
    ensures SkipWs(s, p) == p + |w|
    decreases |w|
  {
    if w != [] {
      assert w[0] in w;
      SkipWsOver(s, p + 1, w[1..]);
    }
  }

  /** Only blanks, tabs, newlines and returns are passed over, and all of them. */
  lemma {:induction false} SkipWsExact(s: string, p: nat)
    requires p <= |s|
    ensures var q := SkipWs(s, p);
            && (forall i :: p <= i < q ==> s[i] == ' ' || s[i] == '\t' || s[i] == '\n' || s[i] == '\r')
            && At(s, q) != ' ' && At(s, q) != '\t' && At(s, q) != '\n' && At(s, q) != '\r'
    decreases |s| - p
  {
    if IsWs(At(s, p)) { SkipWsExact(s, p + 1); }
  }

  method SkipWhitespace(s: string, p: nat) returns (q: nat)
    requires p <= |s|
    ensures q == SkipWs(s, p)
  {
    q := p;
    while At(s, q) != NUL && IsWs(At(s, q))
      invariant p <= q <= |s|
      invariant SkipWs(s, q) == SkipWs(s, p)
      decreases |s| - q
    {
      q := q + 1;
    }
  }
}
