/** The few JavaScript string built-ins the core relies on:
    `String.prototype.trim`, `lastIndexOf` on one character, `indexOf` and
    `replace` with a string pattern (which replaces the first occurrence only). */
module JsStrings {

  /** The characters `trim` removes: ECMAScript WhiteSpace and LineTerminator. */
  const JsWhitespace: set<char> := {
    ' ', '\t', '\n', '\r', '\U{B}', '\U{C}', '\U{A0}', '\U{1680}',
    '\U{2000}', '\U{2001}', '\U{2002}', '\U{2003}', '\U{2004}', '\U{2005}',
    '\U{2006}', '\U{2007}', '\U{2008}', '\U{2009}', '\U{200A}',
    '\U{2028}', '\U{2029}', '\U{202F}', '\U{205F}', '\U{3000}', '\U{FEFF}'
  }

  predicate IsJsWhitespace(c: char) {
    c in JsWhitespace
  }

  /** Drops the leading whitespace: what is dropped is all whitespace and what
      remains does not start with whitespace. */
  function TrimStart(s: string): (r: string)
    ensures |r| <= |s| && r == s[|s| - |r|..]
    ensures r == [] || !IsJsWhitespace(r[0])
    ensures forall i :: 0 <= i < |s| - |r| ==> IsJsWhitespace(s[i])
  {
    if s != [] && IsJsWhitespace(s[0]) then TrimStart(s[1..]) else s
  }

  /** Drops the trailing whitespace: what is dropped is all whitespace and what
      remains does not end with whitespace. */
  function TrimEnd(s: string): (r: string)
    ensures |r| <= |s| && r == s[..|r|]
    ensures r == [] || !IsJsWhitespace(r[|r| - 1])
    ensures forall i :: |r| <= i < |s| ==> IsJsWhitespace(s[i])
  {
    if s != [] && IsJsWhitespace(s[|s| - 1]) then TrimEnd(s[..|s| - 1]) else s
  }

  /** `s.trim()`: leading then trailing whitespace dropped; neither end of
      the result is whitespace. */
  function Trim(s: string): (r: string)
    ensures |r| <= |s|
    ensures r == [] || (!IsJsWhitespace(r[0]) && !IsJsWhitespace(r[|r| - 1]))
  {
    TrimEnd(TrimStart(s))
  }

  /** A string without whitespace at either end is left alone by `trim`. */
  lemma TrimKeepsTrimmed(s: string)
    requires s == [] || (!IsJsWhitespace(s[0]) && !IsJsWhitespace(s[|s| - 1]))
    ensures Trim(s) == s
  {
  }

  /** Trimming twice is trimming once. */
  lemma TrimIdempotent(s: string)
    ensures Trim(Trim(s)) == Trim(s)
  {
    var t := Trim(s);
    assert t == [] || (!IsJsWhitespace(t[0]) && !IsJsWhitespace(t[|t| - 1]));
    TrimKeepsTrimmed(t);
  }

  /** `trim` removes whitespace at the two ends of `s` and nothing else: the
      result is the piece of `s` between a whitespace prefix and a whitespace
      suffix. */
  lemma TrimDropsOnlyEnds(s: string)
    ensures exists a :: WhitespaceAround(s, Trim(s), a)
  {
    var u := TrimStart(s);
    var r := Trim(s);
    var a := |s| - |u|;
    assert r == TrimEnd(u) && r == u[..|r|];
    assert u == s[a..];
    assert r == s[a..a + |r|];
    assert forall i :: a + |r| <= i < |s| ==> s[i] == u[i - a];
    assert WhitespaceAround(s, r, a);
  }

  /** `s` is `r` with only whitespace before it (the first `a` characters)
      and only whitespace after it. */
  predicate WhitespaceAround(s: string, r: string, a: int) {
    && 0 <= a <= |s| - |r|
    && r == s[a..a + |r|]
    && (forall i :: 0 <= i < a ==> IsJsWhitespace(s[i]))
    && (forall i :: a + |r| <= i < |s| ==> IsJsWhitespace(s[i]))
  }

  /** `s.lastIndexOf(c)`: the position of the last `c` in `s`, or -1 when
      `s` holds no `c`. */
  function LastIndexOf(s: string, c: char): (r: int)
    ensures -1 <= r < |s|
    ensures r >= 0 ==> s[r] == c
    ensures forall j :: r < j < |s| ==> s[j] != c
  {
    LastIndexOfBefore(s, c, |s|)
  }

  /** The last position below `n` holding `c`, or -1. */
  function LastIndexOfBefore(s: string, c: char, n: nat): (r: int)
    requires n <= |s|
    ensures -1 <= r < n
    ensures r >= 0 ==> s[r] == c
    ensures forall j :: r < j < n ==> s[j] != c
  {
    if n == 0 then -1
    else if s[n - 1] == c then n - 1
    else LastIndexOfBefore(s, c, n - 1)
  }

  /** Nothing after the last `c` is a `c`. */
  lemma AfterLastIndexOf(s: string, c: char)
    ensures c !in s[LastIndexOf(s, c) + 1..]
  {
    NoneInSuffix(s, LastIndexOf(s, c) + 1, c);
  }

  /** A suffix whose every position differs from `c` holds no `c`. */
  lemma NoneInSuffix(s: string, k: nat, c: char)
    requires k <= |s|
    requires forall j :: k <= j < |s| ==> s[j] != c
    ensures c !in s[k..]
  {
    var t := s[k..];
    forall i | 0 <= i < |t| ensures t[i] != c {
      assert t[i] == s[k + i];
    }
  }

  /** A position holding `c` with no `c` after it is the last index of `c`. */
  lemma LastIndexOfIsUnique(s: string, c: char, r: int)
    requires 0 <= r < |s| && s[r] == c
    requires forall j :: r < j < |s| ==> s[j] != c
    ensures LastIndexOf(s, c) == r
  {
    var q := LastIndexOf(s, c);
    assert !(q < r);
    assert !(q > r);
  }

  /** Whether `pat` occurs in `s` starting at position `k`. */
  predicate OccursAt(s: string, pat: string, k: int) {
    0 <= k && k + |pat| <= |s| && s[k..k + |pat|] == pat
  }

  /** `s.indexOf(pat)`: the first position where `pat` occurs, or -1 when it
      occurs nowhere. */
  function IndexOf(s: string, pat: string): (r: int)
    ensures -1 <= r <= |s|
    ensures r >= 0 ==> OccursAt(s, pat, r)
    ensures forall k :: 0 <= k && (r < 0 || k < r) ==> !OccursAt(s, pat, k)
  {
    IndexOfFrom(s, pat, 0)
  }

  /** The first occurrence of `pat` at or after `from`, or -1. */
  function IndexOfFrom(s: string, pat: string, from: nat): (r: int)
    requires from <= |s|
    ensures r == -1 || (from <= r <= |s| && OccursAt(s, pat, r))
    ensures forall k :: from <= k && (r < 0 || k < r) ==> !OccursAt(s, pat, k)
    decreases |s| - from
  {
    if from + |pat| > |s| then -1
    else if s[from..from + |pat|] == pat then from
    else IndexOfFrom(s, pat, from + 1)
  }

  /** Replacing a piece never brings in a character that neither the string
      nor the replacement holds. */
  lemma ReplaceFirstKeepsOut(s: string, pat: string, rep: string, c: char)
    requires c !in s && c !in rep
    ensures c !in ReplaceFirst(s, pat, rep)
  {
    var k := IndexOf(s, pat);
    if k >= 0 {
      assert s == s[..k] + s[k..];
      assert s[k..] == s[k..k + |pat|] + s[k + |pat|..];
    }
  }

  /** `s.replace(pat, rep)` with a string pattern: only the first occurrence
      is replaced. */
  function ReplaceFirst(s: string, pat: string, rep: string): (r: string)
    ensures (forall k :: !OccursAt(s, pat, k)) ==> r == s
    ensures forall k {:trigger OccursAt(s, pat, k)} ::
              OccursAt(s, pat, k) && (forall j :: 0 <= j < k ==> !OccursAt(s, pat, j)) ==>
                r == s[..k] + rep + s[k + |pat|..] && |r| == |s| - |pat| + |rep|
  {
    var k := IndexOf(s, pat);
    if k < 0 then s else s[..k] + rep + s[k + |pat|..]
  }
}
