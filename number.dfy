/**
 * JavaScript's `parseFloat` on the strings a price field can hold: leading
 * whitespace is skipped, then an optional sign and the longest prefix of the form
 * `digits`, `digits.digits?` or `.digits` is read; whatever follows is ignored.
 * `None` is NaN. Values are exact rationals, not IEEE doubles.
 */
module Number {
  import opened Wrappers
  import opened Text

  predicate AllDigits(s: string) {
    forall i :: 0 <= i < |s| ==> IsDigit(s[i])
  }

  /** The length of the run of ASCII digits at the start of `s`. */
  function DigitRun(s: string): (n: nat)
    ensures n <= |s| && AllDigits(s[..n])
    ensures n < |s| ==> !IsDigit(s[n])
  {
    if |s| > 0 && IsDigit(s[0]) then 1 + DigitRun(s[1..]) else 0
  }

  function DigitValue(c: char): (d: nat)
    requires IsDigit(c)
    ensures d < 10
  {
    c as int - '0' as int
  }

  /** The number a string of decimal digits denotes, most significant digit first. */
  function DigitsValue(d: string): (v: nat)
    requires AllDigits(d)
    ensures v < Pow10(|d|)
  {
    if d == [] then 0
    else
      var p := DigitsValue(d[..|d| - 1]);
      assert p + 1 <= Pow10(|d| - 1);
      10 * p + DigitValue(d[|d| - 1])
  }

  function Pow10(n: nat): (p: nat)
    ensures p >= 1
  {
    if n == 0 then 1 else 10 * Pow10(n - 1)
  }

  /** The value of the digits after a decimal point: `0.d`. */
  function FractionValue(d: string): (v: real)
    requires AllDigits(d)
    ensures 0.0 <= v < 1.0
  {
    var x, p := DigitsValue(d) as real, Pow10(|d|) as real;
    DivBelowOne(x, p);
    x / p
  }

  /** No digits after the point add nothing. */
  lemma NoFraction()
    ensures FractionValue([]) == 0.0
  {
    assert DigitsValue([]) == 0 && Pow10(0) == 1;
  }

  lemma DivBelowOne(x: real, p: real)
    requires 0.0 <= x < p
    ensures 0.0 <= x / p < 1.0
  {
    assert x / p * p == x;
  }

  /** The string after an optional leading sign. */
  function Unsigned(t: string): (u: string)
    ensures |u| <= |t|
  {
    if |t| > 0 && (t[0] == '+' || t[0] == '-') then t[1..] else t
  }

  predicate HasMinus(t: string) {
    |t| > 0 && t[0] == '-'
  }

  /** Whether a decimal literal starts here: a digit, or a point and a digit. */
  predicate StartsNumber(u: string) {
    (|u| > 0 && IsDigit(u[0])) || (|u| > 1 && u[0] == '.' && IsDigit(u[1]))
  }

  /** The digits at the start of `s`. */
  function DigitPrefix(s: string): (d: string)
    ensures |d| <= |s| && AllDigits(d) && d == s[..|d|]
  {
    s[..DigitRun(s)]
  }

  /** The integer digits and the fraction digits of the literal at the start of `u`. */
  function LiteralParts(u: string): (p: (string, string))
    ensures AllDigits(p.0) && AllDigits(p.1)
  {
    var n := DigitRun(u);
    (u[..n], if n < |u| && u[n] == '.' then DigitPrefix(u[n + 1..]) else [])
  }

  /** Reads the unsigned decimal literal at the start of `u`; `None` when there is none. */
  function ReadLiteral(u: string): (r: Option<real>)
    ensures r.None? <==> !StartsNumber(u)
    ensures r.Some? ==> r.value >= 0.0
  {
    var (whole, frac) := LiteralParts(u);
    if whole == [] && frac == [] then None
    else Some(DigitsValue(whole) as real + FractionValue(frac))
  }

  /** `parseFloat(s)`, with the exponent part and `Infinity` left out. */
  function ParseFloat(s: string): (r: Option<real>)
    ensures r.None? <==> !StartsNumber(Unsigned(TrimStart(s)))
    ensures r.Some? && !HasMinus(TrimStart(s)) ==> r.value >= 0.0
    ensures r.Some? && HasMinus(TrimStart(s)) ==> r.value <= 0.0
  {
    var t := TrimStart(s);
    match ReadLiteral(Unsigned(t))
    case None => None
    case Some(m) => Some(if HasMinus(t) then -m else m)
  }

  /** A run of digits followed by something that is not a digit is read up to its end. */
  lemma {:induction false} DigitRunOf(a: string, g: string)
    requires AllDigits(a) && (g == [] || !IsDigit(g[0]))
    ensures DigitRun(a + g) == |a|
  {
    if a != [] {
      assert (a + g)[1..] == a[1..] + g;
      DigitRunOf(a[1..], g);
    }
  }

  lemma DigitPrefixOf(a: string, g: string)
    requires AllDigits(a) && (g == [] || !IsDigit(g[0]))
    ensures DigitPrefix(a + g) == a
  {
    DigitRunOf(a, g);
    assert (a + g)[..|a|] == a;
  }

  /** A literal that starts with neither blank nor sign is read as it stands. */
  lemma ParseUnsigned(u: string)
    requires u != [] && !IsWhitespace(u[0]) && u[0] != '+' && u[0] != '-'
    ensures ParseFloat(u) == ReadLiteral(u)
  {
    assert TrimStart(u) == u;
  }

  /** Text that starts with a digit or a point is read as it stands. */
  lemma ParseFromDigitOrPoint(u: string)
    requires u != [] && (IsDigit(u[0]) || u[0] == '.')
    ensures ParseFloat(u) == ReadLiteral(u)
  {
    ParseUnsigned(u);
  }

  /** The value read from a literal whose parts are `a` and `d`. */
  lemma ReadParts(u: string, a: string, d: string)
    requires AllDigits(a) && AllDigits(d) && (a != [] || d != [])
    requires LiteralParts(u) == (a, d)
    ensures ReadLiteral(u) == Some(DigitsValue(a) as real + FractionValue(d))
  {
  }

  lemma IntegerParts(a: string, g: string)
    requires AllDigits(a)
    requires g == [] || (!IsDigit(g[0]) && g[0] != '.')
    ensures LiteralParts(a + g) == (a, [])
  {
    DigitPrefixOf(a, g);
  }

  lemma DecimalParts(u: string, a: string, d: string, g: string)
    requires u == a + "." + d + g
    requires AllDigits(a) && AllDigits(d)
    requires g == [] || !IsDigit(g[0])
    ensures LiteralParts(u) == (a, d)
  {
    var rest := "." + d + g;
    assert u == a + rest;
    DigitPrefixOf(a, rest);
    var n := |a|;
    assert u[n] == '.';
    assert u[n + 1..] == d + g;
    DigitPrefixOf(d, g);
  }

  /** Text that starts with a digit or a point is read through its literal's parts. */
  lemma ParseThroughParts(u: string, a: string, d: string)
    requires u != [] && (IsDigit(u[0]) || u[0] == '.')
    requires AllDigits(a) && AllDigits(d) && (a != [] || d != [])
    requires LiteralParts(u) == (a, d)
    ensures ParseFloat(u) == Some(DigitsValue(a) as real + FractionValue(d))
  {
    ReadParts(u, a, d);
    ParseFromDigitOrPoint(u);
  }

  lemma DigitHead(a: string, g: string)
    requires AllDigits(a) && a != []
    ensures a + g != [] && IsDigit((a + g)[0])
  {
    assert (a + g)[0] == a[0];
  }

  /** A literal with no fraction is read as its integer part. */
  lemma ParseWhole(u: string, a: string)
    requires u != [] && IsDigit(u[0])
    requires AllDigits(a) && a != [] && LiteralParts(u) == (a, [])
    ensures ParseFloat(u) == Some(DigitsValue(a) as real)
  {
    var v := DigitsValue(a) as real;
    NoFraction();
    assert v + FractionValue([]) == v;
    ParseThroughParts(u, a, []);
  }

  /** An integer literal followed by text that does not continue it parses to its value. */
  lemma ParseInteger(a: string, g: string)
    requires AllDigits(a) && a != []
    requires g == [] || (!IsDigit(g[0]) && g[0] != '.')
    ensures ParseFloat(a + g) == Some(DigitsValue(a) as real)
  {
    IntegerParts(a, g);
    DigitHead(a, g);
    ParseWhole(a + g, a);
  }

  /** A literal with a decimal point parses to its integer part plus its fraction. */
  lemma ParseDecimal(a: string, d: string, g: string)
    requires AllDigits(a) && AllDigits(d) && (a != [] || d != [])
    requires g == [] || !IsDigit(g[0])
    ensures ParseFloat(a + "." + d + g) == Some(DigitsValue(a) as real + FractionValue(d))
  {
    var u := a + "." + d + g;
    DecimalParts(u, a, d, g);
    if a != [] {
      assert u[0] == a[0];
    } else {
      assert u[0] == '.';
    }
    ParseThroughParts(u, a, d);
  }

  /** Leading whitespace does not change what `parseFloat` reads. */
  lemma ParseSkipsBlank(w: string, s: string)
    requires AllWhitespace(w)
    ensures ParseFloat(w + s) == ParseFloat(s)
  {
    TrimStartSkipsBlank(w, s);
  }

  lemma NoLeadingBlank(s: string)
    requires s != [] && !IsWhitespace(s[0])
    ensures TrimStart(s) == s
  {
    assert LeadingBlanks(s) == 0;
  }

  /** A minus sign in front of an unsigned literal negates it. */
  lemma ParseMinus(x: string)
    requires x != [] && !IsWhitespace(x[0]) && x[0] != '+' && x[0] != '-'
    ensures ParseFloat("-" + x) == if ParseFloat(x).Some? then Some(-ParseFloat(x).value) else None
  {
    var m := "-" + x;
    assert m[0] == '-' && m[1..] == x;
    NoLeadingBlank(m);
    NoLeadingBlank(x);
  }

  /** A plus sign in front of an unsigned literal changes nothing. */
  lemma ParsePlus(x: string)
    requires x != [] && !IsWhitespace(x[0]) && x[0] != '+' && x[0] != '-'
    ensures ParseFloat("+" + x) == ParseFloat(x)
  {
    var m := "+" + x;
    assert m[0] == '+' && m[1..] == x;
    NoLeadingBlank(m);
    NoLeadingBlank(x);
  }
}
