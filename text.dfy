/**
 * `String.prototype.trim` as the dialogs use it: it removes leading and
 * trailing white space, where white space is ECMAScript's WhiteSpace and
 * LineTerminator code points.
 */
module Text {

  /** ECMAScript WhiteSpace (TAB, VT, FF, ZWNBSP and the Zs category) and LineTerminator (LF, CR, LS, PS). */
  predicate IsSpace(c: char) {
    || c == '\t' || c == '\n' || c == '\U{000B}' || c == '\U{000C}' || c == '\r'
    || c == ' ' || c == '\U{00A0}' || c == '\U{1680}'
    || ('\U{2000}' <= c <= '\U{200A}')
    || c == '\U{2028}' || c == '\U{2029}' || c == '\U{202F}' || c == '\U{205F}'
    || c == '\U{3000}' || c == '\U{FEFF}'
  }

  /** Every character of `s` is white space (the empty string included). */
  predicate IsBlank(s: string) {
    forall i :: 0 <= i < |s| ==> IsSpace(s[i])
  }

  /** Neither end of `s` is white space. */
  predicate IsTrimmed(s: string) {
    s == [] || (!IsSpace(s[0]) && !IsSpace(s[|s| - 1]))
  }

  /** `s` with its leading white space removed: a suffix of `s`. */
  function TrimStart(s: string): (r: string)
    ensures |r| <= |s| && r == s[|s| - |r|..]
    ensures IsBlank(s[..|s| - |r|])
    ensures r == [] || !IsSpace(r[0])
  {
    if s != [] && IsSpace(s[0]) then TrimStart(s[1..]) else s
  }

  /** `s` with its trailing white space removed: a prefix of `s`. */
  function TrimEnd(s: string): (r: string)
    ensures |r| <= |s| && r == s[..|r|]
    ensures IsBlank(s[|r|..])
    ensures r == [] || !IsSpace(r[|r| - 1])
  {
    if s != [] && IsSpace(s[|s| - 1]) then TrimEnd(s[..|s| - 1]) else s
  }

  /** `s.trim()`: the slice of `s` left once the white space at both ends is cut off. */
  function Trim(s: string): (r: string)
    ensures |r| <= |s|
    ensures IsTrimmed(r)
  {
    TrimEnd(TrimStart(s))
  }

  /** What `Trim` cuts off at either end is blank, and what it keeps is a slice of `s`. */
  lemma TrimIsSlice(s: string) returns (a: nat, b: nat)
    ensures a <= b <= |s| && Trim(s) == s[a..b] && IsBlank(s[..a]) && IsBlank(s[b..])
  {
    var t := TrimStart(s);
    var r := TrimEnd(t);
    a := |s| - |t|;
    b := a + |r|;
    assert r == s[a..b];
    assert s[b..] == t[|r|..];
  }

  /** Removing blank text from the front of a string that does not start with white space gives the string back. */
  lemma {:induction false} TrimStartOfBlankPrefix(p: string, m: string)
    requires IsBlank(p)
    requires m == [] || !IsSpace(m[0])
    ensures TrimStart(p + m) == m
    decreases |p|
  {
    if p == [] {
      assert p + m == m;
    } else {
      assert (p + m)[1..] == p[1..] + m;
      TrimStartOfBlankPrefix(p[1..], m);
    }
  }

  /** Removing blank text from the back of a string that does not end with white space gives the string back. */
  lemma {:induction false} TrimEndOfBlankSuffix(m: string, q: string)
    requires IsBlank(q)
    requires m == [] || !IsSpace(m[|m| - 1])
    ensures TrimEnd(m + q) == m
    decreases |q|
  {
    if q == [] {
      assert m + q == m;
    } else {
      assert (m + q)[..|m + q| - 1] == m + q[..|q| - 1];
      TrimEndOfBlankSuffix(m, q[..|q| - 1]);
    }
  }

  /**
   * `Trim` is determined by its contract: whatever blank text surrounds a
   * string whose ends are not white space, trimming gives that string.
   */
  lemma TrimOfPadded(p: string, m: string, q: string)
    requires IsBlank(p) && IsBlank(q) && IsTrimmed(m)
    ensures Trim(p + m + q) == m
  {
    if m == [] {
      assert p + m + q == p + q;
      assert IsBlank(p + q);
      TrimStartOfBlankPrefix(p + q, []);
      assert p + q + [] == p + q;
      TrimEndOfBlankSuffix([], []);
    } else {
      assert p + m + q == p + (m + q);
      TrimStartOfBlankPrefix(p, m + q);
      TrimEndOfBlankSuffix(m, q);
    }
  }

  /** Trimming twice is trimming once. */
  lemma TrimIdempotent(s: string)
    ensures Trim(Trim(s)) == Trim(s)
  {
    var t := Trim(s);
    assert [] + t + [] == t;
    TrimOfPadded([], t, []);
  }

  /** `!s.trim()` holds exactly when `s` is all white space. */
  lemma TrimEmptyIffBlank(s: string)
    ensures Trim(s) == [] <==> IsBlank(s)
  {
    if IsBlank(s) {
      assert s + [] + [] == s;
      TrimOfPadded(s, [], []);
    } else {
      var i :| 0 <= i < |s| && !IsSpace(s[i]);
      var a, b := TrimIsSlice(s);
    }
  }
}
