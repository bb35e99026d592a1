/** The string primitives the classifier relies on: Python's `str.strip()`,
    an ASCII approximation of `str.lower()`, and substring containment
    (`keyword in text`). */
module Text {

  /** The characters for which Python's `str.isspace()` holds: those whose
      bidirectional class is WS, B or S, or whose category is Zs. */
  const Whitespace: set<char> := {
    '\t', '\n', '\U{B}', '\U{C}', '\r', '\U{1C}', '\U{1D}', '\U{1E}', '\U{1F}', ' ',
    '\U{85}', '\U{A0}', '\U{1680}',
    '\U{2000}', '\U{2001}', '\U{2002}', '\U{2003}', '\U{2004}', '\U{2005}',
    '\U{2006}', '\U{2007}', '\U{2008}', '\U{2009}', '\U{200A}',
    '\U{2028}', '\U{2029}', '\U{202F}', '\U{205F}', '\U{3000}'
  }

  predicate IsSpace(c: char)
  {
    c in Whitespace
  }

  /** `r` is what `s.strip()` yields: a contiguous slice of `s`, everything
      cut off on either side is white space, and the slice neither starts
      nor ends with white space. */
  ghost predicate IsStripOf(r: string, s: string)
  {
    exists i :: StrippedAt(r, s, i)
  }

  ghost predicate StrippedAt(r: string, s: string, i: int)
  {
    && 0 <= i && i + |r| <= |s|
    && r == s[i..i + |r|]
    && (forall k :: 0 <= k < i ==> IsSpace(s[k]))
    && (forall k :: i + |r| <= k < |s| ==> IsSpace(s[k]))
    && (|r| > 0 ==> !IsSpace(r[0]) && !IsSpace(r[|r| - 1]))
  }

  /** The index of the first non-space character at or after `i`, or `|s|`
      when there is none. */
  function SkipSpaces(s: string, i: nat): (j: nat)
    requires i <= |s|
    ensures i <= j <= |s|
    ensures forall k :: i <= k < j ==> IsSpace(s[k])
    ensures j < |s| ==> !IsSpace(s[j])
    decreases |s| - i
  {
    if i < |s| && IsSpace(s[i]) then SkipSpaces(s, i + 1) else i
  }

  /** The index just past the last non-space character in `s[lo..j]`, or
      `lo` when there is none. */
  function SkipSpacesBack(s: string, lo: nat, j: nat): (e: nat)
    requires lo <= j <= |s|
    ensures lo <= e <= j
    ensures forall k :: e <= k < j ==> IsSpace(s[k])
    ensures e > lo ==> !IsSpace(s[e - 1])
    decreases j
  {
    if lo < j && IsSpace(s[j - 1]) then SkipSpacesBack(s, lo, j - 1) else j
  }

  /** Python's `s.strip()` with no argument. */
  function Strip(s: string): (r: string)
    ensures IsStripOf(r, s)
  {
    var i := SkipSpaces(s, 0);
    var e := SkipSpacesBack(s, i, |s|);
    var r := s[i..e];
    assert StrippedAt(r, s, i);
    r
  }

  /** The characterisation fixes the stripped string: there is exactly one
      string that `IsStripOf` accepts, so `Strip` is pinned down by its
      contract. */
  lemma StripUnique(r1: string, r2: string, s: string)
    requires IsStripOf(r1, s) && IsStripOf(r2, s)
    ensures r1 == r2
  {
    var i1 :| StrippedAt(r1, s, i1);
    var i2 :| StrippedAt(r2, s, i2);
    StrippedEmpty(r1, s, i1);
    StrippedEmpty(r2, s, i2);
    if |r1| > 0 {
      // both start at the first non-space and end after the last one
      assert s[i1] == r1[0] && s[i2] == r2[0];
      assert i1 == i2;
      assert s[i1 + |r1| - 1] == r1[|r1| - 1];
      assert s[i2 + |r2| - 1] == r2[|r2| - 1];
      assert |r1| == |r2|;
    }
  }

  /** Stripping yields the empty string exactly when the input is all white
      space. */
  lemma StrippedEmpty(r: string, s: string, i: int)
    requires StrippedAt(r, s, i)
    ensures |r| == 0 <==> forall k :: 0 <= k < |s| ==> IsSpace(s[k])
  {
    if |r| > 0 {
      assert s[i] == r[0];
    }
  }

  /** Stripping twice is stripping once. */
  lemma StripIdempotent(s: string)
    ensures Strip(Strip(s)) == Strip(s)
  {
    var r := Strip(s);
    assert StrippedAt(r, r, 0);
    StripUnique(Strip(r), r, r);
  }

  /** ASCII lower-casing of one character: `A`..`Z` become `a`..`z`, every
      other character is left alone. */
  function LowerChar(c: char): char
  {
    if 'A' <= c <= 'Z' then (c as int + 32) as char else c
  }

  predicate IsUpperAscii(c: char)
  {
    'A' <= c <= 'Z'
  }

  /** The model of Python's `str.lower()`, restricted to ASCII letters. */
  function Lower(s: string): (r: string)
    ensures |r| == |s|
    ensures forall i :: 0 <= i < |s| ==> r[i] == LowerChar(s[i])
  {
    seq(|s|, i requires 0 <= i < |s| => LowerChar(s[i]))
  }

  /** Lower-casing leaves no upper-case ASCII letter and keeps every other
      character where it was. */
  lemma LowerSpec(s: string)
    ensures forall i :: 0 <= i < |s| ==> !IsUpperAscii(Lower(s)[i])
    ensures forall i :: 0 <= i < |s| && !IsUpperAscii(s[i]) ==> Lower(s)[i] == s[i]
    ensures forall i :: 0 <= i < |s| && IsUpperAscii(s[i]) ==> Lower(s)[i] as int == s[i] as int + 32
  {
  }

  /** A string without upper-case ASCII letters is its own lower case; in
      particular lower-casing is idempotent. */
  lemma LowerFixed(s: string)
    requires forall i :: 0 <= i < |s| ==> !IsUpperAscii(s[i])
    ensures Lower(s) == s
  {
  }

  lemma LowerIdempotent(s: string)
    ensures Lower(Lower(s)) == Lower(s)
  {
    LowerSpec(s);
    LowerFixed(Lower(s));
  }

  /** `k` occurs in `t` starting at index `i`. */
  ghost predicate OccursAt(k: string, t: string, i: int)
  {
    0 <= i && i + |k| <= |t| && t[i..i + |k|] == k
  }

  /** Python's `k in t` for strings: some slice of `t` equals `k`. The empty
      string occurs in every string. */
  ghost predicate Occurs(k: string, t: string)
  {
    exists i :: OccursAt(k, t, i)
  }

  /** Decides `k in t` by trying every start position from the left. */
  function Contains(t: string, k: string): (b: bool)
    ensures b <==> Occurs(k, t)
    decreases |t|
  {
    if |t| < |k| then
      assert forall i :: !OccursAt(k, t, i);
      false
    else if t[..|k|] == k then
      assert OccursAt(k, t, 0);
      true
    else
      OccursShift(k, t);
      Contains(t[1..], k)
  }

  /** When `k` is not a prefix of `t`, it occurs in `t` exactly when it
      occurs in the tail of `t`. */
  lemma OccursShift(k: string, t: string)
    requires |k| <= |t| && t[..|k|] != k
    ensures Occurs(k, t) <==> Occurs(k, t[1..])
  {
    if Occurs(k, t) {
      var i :| OccursAt(k, t, i);
      assert i != 0;
      assert t[1..][i - 1..i - 1 + |k|] == t[i..i + |k|];
      assert OccursAt(k, t[1..], i - 1);
    }
    if Occurs(k, t[1..]) {
      var i :| OccursAt(k, t[1..], i);
      assert t[1..][i..i + |k|] == t[i + 1..i + 1 + |k|];
      assert OccursAt(k, t, i + 1);
    }
  }

  /** A keyword with a character that `t` lacks cannot occur in `t`. */
  lemma AbsentCharBlocks(k: string, t: string, j: int)
    requires 0 <= j < |k| && k[j] !in t
    ensures !Occurs(k, t)
  {
    forall i | 0 <= i && i + |k| <= |t|
      ensures !OccursAt(k, t, i)
    {
      assert t[i..i + |k|][j] == t[i + j];
    }
  }
}
