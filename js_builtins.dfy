/**
 * The few JavaScript built-ins the modelled code leans on, with the semantics
 * of the ECMAScript standard: `slice` on strings and arrays (negative indices
 * count from the end, everything is clamped), `trim`, and `startsWith`.
 */
module JsBuiltins {

  /** How `slice` turns one relative index into a position in `[0, len]`. */
  function RelativeIndex(i: int, len: nat): (r: nat)
    ensures r <= len
    ensures 0 <= i <= len ==> r == i
    ensures i < 0 ==> r == if len + i < 0 then 0 else len + i
    ensures i > len ==> r == len
  {
    if i < 0 then (if len + i < 0 then 0 else len + i)
    else if i > len then len
    else i
  }

  /** `s.slice(start, end)` for a string or an array. */
  function Slice<T>(s: seq<T>, start: int, end: int): (r: seq<T>)
    ensures |r| <= |s|
    ensures 0 <= start <= end <= |s| ==> r == s[start..end]
    ensures 0 <= end <= start ==> r == []
  {
    var from := RelativeIndex(start, |s|);
    var to := RelativeIndex(end, |s|);
    if from < to then s[from..to] else []
  }

  /** An end past the length is clamped to it. */
  lemma SliceToPastEnd<T>(s: seq<T>, start: int, end: int)
    requires 0 <= start <= |s| <= end
    ensures Slice(s, start, end) == s[start..]
  {
  }

  /** `s.startsWith(prefix)`. */
  predicate StartsWith(s: string, prefix: string) {
    |prefix| <= |s| && s[..|prefix|] == prefix
  }

  /**
   * The characters `String.prototype.trim` removes: WhiteSpace (tab, vertical
   * tab, form feed, space, no-break space, byte order mark and the Unicode
   * space separators) and LineTerminator (line feed, carriage return, line and
   * paragraph separators).
   */
  predicate IsJsSpace(c: char) {
    || c == '\t' || c == '\n' || c == '\U{B}' || c == '\U{C}' || c == '\r' || c == ' '
    || c == '\U{A0}' || c == '\U{1680}' || ('\U{2000}' <= c <= '\U{200A}')
    || c == '\U{2028}' || c == '\U{2029}' || c == '\U{202F}' || c == '\U{205F}'
    || c == '\U{3000}' || c == '\U{FEFF}'
  }

  predicate AllSpace(s: string) {
    forall k :: 0 <= k < |s| ==> IsJsSpace(s[k])
  }

  /** Drops leading white space. */
  function TrimStart(s: string): (r: string)
    ensures |r| <= |s| && r == s[|s| - |r|..]
    ensures AllSpace(s[..|s| - |r|])
    ensures r != [] ==> !IsJsSpace(r[0])
  {
    if |s| > 0 && IsJsSpace(s[0]) then
      var r := TrimStart(s[1..]);
      assert s[..|s| - |r|] == [s[0]] + s[1..][..|s[1..]| - |r|];
      r
    else s
  }

  /** Drops trailing white space. */
  function TrimEnd(s: string): (r: string)
    ensures |r| <= |s| && r == s[..|r|]
    ensures AllSpace(s[|r|..])
    ensures r != [] ==> !IsJsSpace(r[|r| - 1])
  {
    if |s| > 0 && IsJsSpace(s[|s| - 1]) then
      var r := TrimEnd(s[..|s| - 1]);
      assert s[|r|..] == s[..|s| - 1][|r|..] + [s[|s| - 1]];
      r
    else s
  }

  /** `s.trim()`: what remains neither starts nor ends with white space. */
  function Trim(s: string): (r: string)
    ensures |r| <= |s|
    ensures r != [] ==> !IsJsSpace(r[0]) && !IsJsSpace(r[|r| - 1])
  {
    var t := TrimStart(s);
    assert TrimEnd(t) != [] ==> TrimEnd(t)[0] == t[0];
    TrimEnd(t)
  }

  /**
   * `Trim(s)` is the part of `s` between a white-space prefix and a
   * white-space suffix.
   */
  lemma TrimIsInfix(s: string)
    ensures exists i, j :: 0 <= i <= j <= |s| && Trim(s) == s[i..j] && AllSpace(s[..i]) && AllSpace(s[j..])
  {
    var t := TrimStart(s);
    var i := |s| - |t|;
    var j := i + |TrimEnd(t)|;
    assert Trim(s) == s[i..j] by {
      assert t == s[i..];
      assert TrimEnd(t) == t[..|TrimEnd(t)|];
    }
    assert AllSpace(s[j..]) by {
      assert s[j..] == t[|TrimEnd(t)|..];
    }
  }

  /** A slice of a slice is a slice of the whole. */
  lemma SliceOfSlice<T>(w: seq<T>, a: int, b: int, i: int, j: int)
    requires 0 <= a <= b <= |w| && 0 <= i <= j <= b - a
    ensures w[a..b][i..j] == w[a + i..a + j]
  {
    assert |w[a..b][i..j]| == |w[a + i..a + j]|;
    forall k | 0 <= k < j - i ensures w[a..b][i..j][k] == w[a + i..a + j][k] {
      assert w[a..b][i..j][k] == w[a..b][i + k] == w[a + i + k];
    }
  }

  /** Where `Trim(s)` lies in `s`: between a white-space prefix and a white-space suffix. */
  lemma TrimBounds(s: string) returns (i: nat, j: nat)
    ensures i <= j <= |s| && Trim(s) == s[i..j] && AllSpace(s[..i]) && AllSpace(s[j..])
  {
    TrimIsInfix(s);
    i, j :| 0 <= i <= j <= |s| && Trim(s) == s[i..j] && AllSpace(s[..i]) && AllSpace(s[j..]);
  }

  /** An infix of a slice between white space is an infix of the whole, between the same white space. */
  lemma SpacedInfixWithin(w: string, a: int, b: int, i: int, j: int)
    requires 0 <= a <= b <= |w| && 0 <= i <= j <= b - a
    requires AllSpace(w[a..b][..i]) && AllSpace(w[a..b][j..])
    ensures w[a..b][i..j] == w[a + i..a + j]
    ensures AllSpace(w[a..a + i]) && AllSpace(w[a + j..b])
  {
    SliceOfSlice(w, a, b, i, j);
    SliceOfSlice(w, a, b, 0, i);
    SliceOfSlice(w, a, b, j, b - a);
    assert w[a..b][..i] == w[a..b][0..i] && w[a..b][j..] == w[a..b][j..b - a];
  }

  /** White space on both sides of a cut is white space throughout. */
  lemma AllSpaceSplit(s: string, i: nat)
    requires i <= |s| && AllSpace(s[..i]) && AllSpace(s[i..])
    ensures AllSpace(s)
  {
    forall k | 0 <= k < |s| ensures IsJsSpace(s[k]) {
      if k < i { assert s[k] == s[..i][k]; } else { assert s[k] == s[i..][k - i]; }
    }
  }

  /** The trimmed text is empty exactly when the text is all white space. */
  lemma TrimEmptyIffAllSpace(s: string)
    ensures Trim(s) == [] <==> AllSpace(s)
  {
    var t := TrimStart(s);
    var i := |s| - |t|;
    var u := TrimEnd(t);
    assert t == s[i..];
    if u == [] {
      assert t[|u|..] == t;
      AllSpaceSplit(s, i);
    } else {
      assert u == t[..|u|];
      assert u[0] == s[i];
    }
  }
}
