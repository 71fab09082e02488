/**
 * Whitespace trimming as performed by ECMAScript's String.prototype.trim:
 * every leading and trailing WhiteSpace or LineTerminator code point is removed,
 * the characters in between are kept as they are.
 */
module Trimming {

  /** What `trim` strips from either end of a string: the ECMAScript
      WhiteSpace code points (TAB, VT, FF, ZWNBSP and the Unicode category Zs)
      and LineTerminator code points (LF, CR, LINE SEPARATOR, PARAGRAPH
      SEPARATOR). */
  predicate IsWhitespace(c: char) {
    // WhiteSpace
    c == '\t' || c == '\U{000B}' || c == '\U{000C}' || c == '\U{FEFF}' ||
    c == ' ' || c == '\U{00A0}' || c == '\U{1680}' ||
    ('\U{2000}' <= c <= '\U{200A}') ||
    c == '\U{202F}' || c == '\U{205F}' || c == '\U{3000}' ||
    // LineTerminator
    c == '\n' || c == '\r' || c == '\U{2028}' || c == '\U{2029}'
  }

  predicate AllWhitespace(s: string) {
    forall i :: 0 <= i < |s| ==> IsWhitespace(s[i])
  }

  /** A string that trimming leaves alone: empty, or neither end is whitespace. */
  predicate IsTrimmed(s: string) {
    s == [] || (!IsWhitespace(s[0]) && !IsWhitespace(s[|s| - 1]))
  }

  /** `s` is `r` with the whitespace `p` before it and the whitespace `q` after it. */
  predicate Framed(s: string, p: string, r: string, q: string) {
    s == p + r + q && AllWhitespace(p) && AllWhitespace(q)
  }

  /** `s.trim()`: whitespace is dropped from the front, then from the back. The
      result is trimmed, no longer than `s`, and empty exactly when `s` is all
      whitespace. */
  function Trim(s: string): (r: string)
    ensures IsTrimmed(r) && |r| <= |s|
    ensures r == [] <==> AllWhitespace(s)
    decreases |s|
  {
    if s != [] && IsWhitespace(s[0]) then
      var r := Trim(s[1..]);
      assert AllWhitespace(s[1..]) ==> AllWhitespace(s) by {
        if AllWhitespace(s[1..]) {
          forall i | 0 < i < |s| ensures IsWhitespace(s[i]) { assert s[i] == s[1..][i - 1]; }
        }
      }
      r
    else if s != [] && IsWhitespace(s[|s| - 1]) then
      // s[0] is not whitespace, so neither s nor s[..|s| - 1] is all whitespace
      assert |s| > 1 ==> s[..|s| - 1][0] == s[0];
      Trim(s[..|s| - 1])
    else
      s
  }

  /** What trimming removes is whitespace, and from the two ends only: `s` is
      its trim with the whitespace `p` in front and the whitespace `q` behind. */
  lemma {:induction false} TrimFramed(s: string) returns (p: string, q: string)
    ensures Framed(s, p, Trim(s), q)
    decreases |s|
  {
    if s != [] && IsWhitespace(s[0]) {
      var p', q' := TrimFramed(s[1..]);
      p, q := [s[0]] + p', q';
      assert s == [s[0]] + s[1..];
    } else if s != [] && IsWhitespace(s[|s| - 1]) {
      var p', q' := TrimFramed(s[..|s| - 1]);
      p, q := p', q' + [s[|s| - 1]];
      assert s == s[..|s| - 1] + [s[|s| - 1]];
    } else {
      p, q := [], [];
    }
  }

  /** Trim is determined by its input's shape: whatever whitespace frames a
      trimmed string, trimming removes exactly that frame. */
  lemma {:induction false} TrimOfPadded(s: string, p: string, r: string, q: string)
    requires Framed(s, p, r, q) && IsTrimmed(r)
    ensures Trim(s) == r
    decreases |s|
  {
    if r == [] {
      assert AllWhitespace(s) by {
        forall i | 0 <= i < |s| ensures IsWhitespace(s[i]) {
          if i < |p| { assert s[i] == p[i]; } else { assert s[i] == q[i - |p|]; }
        }
      }
    } else if p != [] {
      assert s[0] == p[0];
      assert s[1..] == p[1..] + r + q;
      TrimOfPadded(s[1..], p[1..], r, q);
    } else if q != [] {
      assert s[0] == r[0];
      assert s[|s| - 1] == q[|q| - 1];
      assert s[..|s| - 1] == p + r + q[..|q| - 1];
      TrimOfPadded(s[..|s| - 1], p, r, q[..|q| - 1]);
    } else {
      assert s == r;
    }
  }

  /** The strings trimming leaves alone are exactly the trimmed ones. */
  lemma TrimOfTrimmed(r: string)
    ensures Trim(r) == r <==> IsTrimmed(r)
  {
  }

  /** Trimming is idempotent. */
  lemma TrimIdempotent(s: string)
    ensures Trim(Trim(s)) == Trim(s)
  {
  }
}
