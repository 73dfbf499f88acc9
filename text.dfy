/** The answer normalisation of server/server.go: `strings.TrimSpace(strings.ToLower(s))`,
    applied to both the submitted and the configured answer before they are compared.
    Lower-casing is modelled on ASCII letters; trimming uses Go's white-space set. */
module Text {

  /** The characters of the Unicode White_Space property, which Go's `unicode.IsSpace` tests. */
  const WhiteSpace: set<char> := {
    '\t', '\n', '\U{000B}', '\U{000C}', '\r', ' ', '\U{0085}', '\U{00A0}', '\U{1680}',
    '\U{2000}', '\U{2001}', '\U{2002}', '\U{2003}', '\U{2004}', '\U{2005}', '\U{2006}',
    '\U{2007}', '\U{2008}', '\U{2009}', '\U{200A}',
    '\U{2028}', '\U{2029}', '\U{202F}', '\U{205F}', '\U{3000}'
  }

  predicate IsSpace(c: char) {
    c in WhiteSpace
  }

  predicate AllSpace(s: string) {
    forall i :: 0 <= i < |s| ==> IsSpace(s[i])
  }

  predicate IsUpper(c: char) {
    'A' <= c <= 'Z'
  }

  function LowerChar(c: char): (d: char)
    ensures !IsUpper(d)
    ensures IsUpper(c) ==> d != c && d as int - c as int == 'a' as int - 'A' as int
    ensures !IsUpper(c) ==> d == c
  {
    if IsUpper(c) then (c as int - 'A' as int + 'a' as int) as char else c
  }

  /** `strings.ToLower`, restricted to ASCII letters. */
  function Lower(s: string): string {
    seq(|s|, i requires 0 <= i < |s| => LowerChar(s[i]))
  }

  /** Number of white-space characters `s` starts with. */
  function SpacePrefix(s: string): (n: nat)
    ensures n <= |s|
    ensures forall i :: 0 <= i < n ==> IsSpace(s[i])
    ensures n == |s| || !IsSpace(s[n])
  {
    if s != [] && IsSpace(s[0]) then 1 + SpacePrefix(s[1..]) else 0
  }

  /** Number of white-space characters `s` ends with. */
  function SpaceSuffix(s: string): (n: nat)
    ensures n <= |s|
    ensures forall i :: |s| - n <= i < |s| ==> IsSpace(s[i])
    ensures n == |s| || !IsSpace(s[|s| - n - 1])
  {
    if s != [] && IsSpace(s[|s| - 1]) then 1 + SpaceSuffix(s[..|s| - 1]) else 0
  }

  /** `strings.TrimSpace`: the part of `s` between its leading and its trailing white space. */
  function TrimSpace(s: string): string {
    var a := SpacePrefix(s);
    var b := |s| - SpaceSuffix(s[a..]);
    s[a..b]
  }

  /** `r` neither starts nor ends with white space. */
  predicate Trimmed(r: string) {
    r == [] || (!IsSpace(r[0]) && !IsSpace(r[|r| - 1]))
  }

  /** `r` is the slice of `s` at offset `a`, and only white space lies outside it. */
  predicate SliceWithSpaceAround(s: string, r: string, a: int) {
    && 0 <= a && a + |r| <= |s|
    && r == s[a..a + |r|]
    && (forall i :: 0 <= i < a ==> IsSpace(s[i]))
    && (forall i :: a + |r| <= i < |s| ==> IsSpace(s[i]))
  }

  /** TrimSpace cuts a slice out of `s`, dropping only white space on either
      side, and the slice neither starts nor ends with white space. */
  lemma TrimSpaceIsTrimmedSlice(s: string)
    ensures SliceWithSpaceAround(s, TrimSpace(s), SpacePrefix(s))
    ensures Trimmed(TrimSpace(s))
  {
    var a := SpacePrefix(s);
    var l := s[a..];
    var n := SpaceSuffix(l);
    var b := |s| - n;
    var r := s[a..b];
    assert TrimSpace(s) == r;
    forall i | b <= i < |s|
      ensures IsSpace(s[i])
    {
      assert s[i] == l[i - a];
    }
    if r != [] {
      assert r[0] == s[a];
      assert r[|r| - 1] == l[|l| - n - 1];
    }
  }

  /** A string has only one trimmed slice with white space around it. */
  lemma TrimmedSliceUnique(s: string, r1: string, a1: int, r2: string, a2: int)
    requires SliceWithSpaceAround(s, r1, a1) && Trimmed(r1)
    requires SliceWithSpaceAround(s, r2, a2) && Trimmed(r2)
    ensures r1 == r2
  {
    if r1 != [] && r2 != [] {
      // each slice starts at the first character of s that is not white space
      assert s[a1] == r1[0] && s[a2] == r2[0];
      assert a1 == a2;
      // and ends at the last such character
      assert s[a1 + |r1| - 1] == r1[|r1| - 1] && s[a2 + |r2| - 1] == r2[|r2| - 1];
      assert |r1| == |r2|;
    }
  }

  /** Padding a string with white space keeps a slice with white space around it as one. */
  lemma PaddedSlice(p: string, s: string, q: string, r: string, a: int)
    requires AllSpace(p) && AllSpace(q) && SliceWithSpaceAround(s, r, a)
    ensures SliceWithSpaceAround(p + s + q, r, |p| + a)
  {
    var t := p + s + q;
    assert t[|p| + a..|p| + a + |r|] == s[a..a + |r|];
    forall i | 0 <= i < |p| + a
      ensures IsSpace(t[i])
    {
      if i >= |p| {
        assert t[i] == s[i - |p|];
      }
    }
    forall i | |p| + a + |r| <= i < |t|
      ensures IsSpace(t[i])
    {
      if i < |p| + |s| {
        assert t[i] == s[i - |p|];
      } else {
        assert t[i] == q[i - |p| - |s|];
      }
    }
  }

  /** White space around a string does not change its trimmed form. */
  lemma TrimSpaceIgnoresPadding(p: string, s: string, q: string)
    requires AllSpace(p) && AllSpace(q)
    ensures TrimSpace(p + s + q) == TrimSpace(s)
  {
    var t := p + s + q;
    TrimSpaceIsTrimmedSlice(s);
    TrimSpaceIsTrimmedSlice(t);
    PaddedSlice(p, s, q, TrimSpace(s), SpacePrefix(s));
    TrimmedSliceUnique(t, TrimSpace(t), SpacePrefix(t), TrimSpace(s), |p| + SpacePrefix(s));
  }

  /** The comparison key of an answer: lower-cased, then trimmed. */
  function Normalize(s: string): string {
    TrimSpace(Lower(s))
  }

  /** A comparison key holds no upper-case ASCII letter and has no white space at either end. */
  lemma NormalizeIsKey(s: string)
    ensures forall i :: 0 <= i < |Normalize(s)| ==> !IsUpper(Normalize(s)[i])
    ensures Trimmed(Normalize(s))
  {
    var l := Lower(s);
    var a := SpacePrefix(l);
    TrimSpaceIsTrimmedSlice(l);
    forall i | 0 <= i < |Normalize(s)|
      ensures !IsUpper(Normalize(s)[i])
    {
      assert Normalize(s)[i] == l[a + i];
    }
  }

  /** A string that is already a comparison key is its own key. */
  lemma NormalizeFixesKeys(s: string)
    requires forall i :: 0 <= i < |s| ==> !IsUpper(s[i])
    requires Trimmed(s)
    ensures Normalize(s) == s
  {
    assert Lower(s) == s;
    TrimSpaceIsTrimmedSlice(s);
    assert SliceWithSpaceAround(s, s, 0);
    TrimmedSliceUnique(s, TrimSpace(s), SpacePrefix(s), s, 0);
  }

  /** `s` and `t` differ at most in the case of ASCII letters. */
  predicate SameIgnoringCase(s: string, t: string) {
    |s| == |t| && forall i :: 0 <= i < |s| ==> LowerChar(s[i]) == LowerChar(t[i])
  }

  lemma LowerOfAllSpace(p: string)
    requires AllSpace(p)
    ensures Lower(p) == p
  {
  }

  lemma LowerConcat(a: string, b: string)
    ensures Lower(a + b) == Lower(a) + Lower(b)
  {
    assert forall i :: 0 <= i < |a + b| ==> Lower(a + b)[i] == (Lower(a) + Lower(b))[i];
  }

  /** Matching ignores surrounding white space. */
  lemma {:induction false} NormalizeIgnoresPadding(p: string, s: string, q: string)
    requires AllSpace(p) && AllSpace(q)
    ensures Normalize(p + s + q) == Normalize(s)
  {
    LowerConcat(p + s, q);
    LowerConcat(p, s);
    LowerOfAllSpace(p);
    LowerOfAllSpace(q);
    TrimSpaceIgnoresPadding(p, Lower(s), q);
  }

  /** Matching ignores the case of ASCII letters. */
  lemma {:induction false} NormalizeIgnoresCase(s: string, t: string)
    requires SameIgnoringCase(s, t)
    ensures Normalize(s) == Normalize(t)
  {
    assert Lower(s) == Lower(t);
  }

  /** Normalising twice is normalising once. */
  lemma {:induction false} NormalizeIdempotent(s: string)
    ensures Normalize(Normalize(s)) == Normalize(s)
  {
    NormalizeIsKey(s);
    NormalizeFixesKeys(Normalize(s));
  }
}
