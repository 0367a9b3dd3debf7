/**
 * String helpers with the meaning JavaScript gives them: `String.prototype.trim`
 * and the `length` of a string, which counts UTF-16 code units.
 */
module Text {

  /** ECMAScript WhiteSpace and LineTerminator code points: the characters `trim` removes. */
  predicate IsWhitespace(c: char) {
    var n := c as int;
    n == 0x09 || n == 0x0A || n == 0x0B || n == 0x0C || n == 0x0D || n == 0x20
    || n == 0xA0 || n == 0x1680 || (0x2000 <= n <= 0x200A) || n == 0x2028
    || n == 0x2029 || n == 0x202F || n == 0x205F || n == 0x3000 || n == 0xFEFF
  }

  /** The `\d` class of a JavaScript regular expression: ASCII digits only. */
  predicate IsDigit(c: char) {
    '0' <= c <= '9'
  }

  predicate AllWhitespace(s: string) {
    forall i :: 0 <= i < |s| ==> IsWhitespace(s[i])
  }

  /** The number of whitespace characters `s` starts with. */
  function LeadingBlanks(s: string): (n: nat)
    ensures n <= |s| && AllWhitespace(s[..n])
    ensures n < |s| ==> !IsWhitespace(s[n])
  {
    if |s| > 0 && IsWhitespace(s[0]) then 1 + LeadingBlanks(s[1..]) else 0
  }

  /** The number of whitespace characters `s` ends with. */
  function TrailingBlanks(s: string): (n: nat)
    ensures n <= |s| && AllWhitespace(s[|s| - n..])
    ensures n < |s| ==> !IsWhitespace(s[|s| - n - 1])
  {
    if |s| > 0 && IsWhitespace(s[|s| - 1]) then 1 + TrailingBlanks(s[..|s| - 1]) else 0
  }

  /** `String.prototype.trimStart`: drops the leading whitespace of `s`. */
  function TrimStart(s: string): string {
    s[LeadingBlanks(s)..]
  }

  /** A whitespace prefix does not change what `TrimStart` returns. */
  lemma {:induction false} TrimStartSkipsBlank(w: string, s: string)
    requires AllWhitespace(w)
    ensures TrimStart(w + s) == TrimStart(s)
  {
    BlankPrefixCount(w, s);
    assert (w + s)[|w| + LeadingBlanks(s)..] == s[LeadingBlanks(s)..];
  }

  lemma {:induction false} BlankPrefixCount(w: string, s: string)
    requires AllWhitespace(w)
    ensures LeadingBlanks(w + s) == |w| + LeadingBlanks(s)
  {
    if w != [] {
      assert (w + s)[0] == w[0];
      assert (w + s)[1..] == w[1..] + s;
      BlankPrefixCount(w[1..], s);
    } else {
      assert w + s == s;
    }
  }

  /**
   * `r` is the slice `s[a..b]` of `s`, with only whitespace around it, and it
   * begins and ends with a non-blank character.
   */
  predicate TrimsAt(s: string, r: string, a: nat, b: nat) {
    a <= b <= |s| && r == s[a..b]
    && AllWhitespace(s[..a]) && AllWhitespace(s[b..])
    && (r != [] ==> !IsWhitespace(r[0]) && !IsWhitespace(r[|r| - 1]))
  }

  /** `r` is `s` with its whitespace prefix and suffix cut off. */
  ghost predicate IsTrimOf(s: string, r: string) {
    exists a: nat, b: nat :: TrimsAt(s, r, a, b)
  }

  /** `String.prototype.trim`. */
  function Trim(s: string): (r: string)
    ensures IsTrimOf(s, r)
    ensures r == [] <==> AllWhitespace(s)
  {
    var a := LeadingBlanks(s);
    var t := s[a..];
    var b := |t| - TrailingBlanks(t);
    TrimWindow(s, a, t, b);
    t[..b]
  }

  /** Cutting `a` blanks off the front of `s`, giving `t`, and a blank suffix off `t` cuts a trim window. */
  lemma TrimWindow(s: string, a: nat, t: string, b: nat)
    requires a <= |s| && AllWhitespace(s[..a]) && (a < |s| ==> !IsWhitespace(s[a])) && t == s[a..]
    requires b <= |t| && AllWhitespace(t[b..]) && (0 < b ==> !IsWhitespace(t[b - 1]))
    ensures TrimsAt(s, t[..b], a, a + b)
    ensures t[..b] == [] <==> AllWhitespace(s)
  {
    var r := t[..b];
    assert r == s[a..a + b];
    assert s[a + b..] == t[b..];
    if r != [] {
      assert r[0] == s[a];
      assert r[|r| - 1] == t[b - 1];
    } else {
      assert t == [];
      assert s[..a] == s;
    }
  }

  /** A non-blank character at index `k` of `s` lies inside every trim window of `s`. */
  lemma NonBlankInside(s: string, r: string, a: nat, b: nat, k: nat)
    requires TrimsAt(s, r, a, b) && k < |s| && !IsWhitespace(s[k])
    ensures a <= k < b
  {
  }

  /** Two trim windows of `s`, the first non-empty, are the same window. */
  lemma SameWindow(s: string, r1: string, a1: nat, b1: nat, r2: string, a2: nat, b2: nat)
    requires TrimsAt(s, r1, a1, b1) && TrimsAt(s, r2, a2, b2) && r1 != []
    ensures a1 == a2 && b1 == b2
  {
    assert s[a1] == r1[0] && s[b1 - 1] == r1[|r1| - 1];
    NonBlankInside(s, r2, a2, b2, a1);
    NonBlankInside(s, r2, a2, b2, b1 - 1);
    assert s[a2] == r2[0] && s[b2 - 1] == r2[|r2| - 1];
    NonBlankInside(s, r1, a1, b1, a2);
    NonBlankInside(s, r1, a1, b1, b2 - 1);
  }

  /** Only one string is the trim of `s`: `IsTrimOf` is a complete specification of `Trim`. */
  lemma TrimOfIsUnique(s: string, r1: string, r2: string)
    requires IsTrimOf(s, r1) && IsTrimOf(s, r2)
    ensures r1 == r2
  {
    var a1: nat, b1: nat :| TrimsAt(s, r1, a1, b1);
    var a2: nat, b2: nat :| TrimsAt(s, r2, a2, b2);
    if r1 != [] {
      SameWindow(s, r1, a1, b1, r2, a2, b2);
    } else if r2 != [] {
      SameWindow(s, r2, a2, b2, r1, a1, b1);
    }
  }

  /** A string that neither starts nor ends with whitespace is its own trim. */
  lemma TrimOfTrimmed(s: string)
    requires s != [] ==> !IsWhitespace(s[0]) && !IsWhitespace(s[|s| - 1])
    ensures Trim(s) == s
  {
    assert TrimsAt(s, s, 0, |s|) by {
      assert s == s[0..|s|] && s[..0] == [] && s[|s|..] == [];
    }
    TrimOfIsUnique(s, Trim(s), s);
  }

  /** Trimming twice is trimming once. */
  lemma TrimIdempotent(s: string)
    ensures Trim(Trim(s)) == Trim(s)
  {
    var r := Trim(s);
    ghost var a: nat, b: nat :| TrimsAt(s, r, a, b);
    TrimOfTrimmed(r);
  }

  /** Whether `c` is written as a surrogate pair (two UTF-16 code units) in JavaScript. */
  predicate IsAstral(c: char) {
    c as int >= 0x10000
  }

  /** JavaScript's `s.length`: the number of UTF-16 code units of `s`. */
  function Utf16Length(s: string): (n: nat)
    ensures |s| <= n <= 2 * |s|
    ensures n == |s| <==> forall i :: 0 <= i < |s| ==> !IsAstral(s[i])
  {
    if s == [] then 0
    else (if IsAstral(s[0]) then 2 else 1) + Utf16Length(s[1..])
  }

  /** A string of JavaScript length 1 is exactly one character outside the astral planes. */
  lemma Utf16LengthOne(s: string)
    ensures Utf16Length(s) == 1 <==> |s| == 1 && !IsAstral(s[0])
  {
  }
}
