/**
 * The fragment of JavaScript regular expressions that the form's two patterns use:
 * character classes, concatenation, alternation and fixed repetition `{n}`.
 * `Test` models `/^re$/.test(s)`, a match of the whole string.
 */
module Regex {

  /** A character class `[lo-hi...]`, a list of inclusive ranges. */
  datatype CharClass = CharClass(ranges: seq<(char, char)>)

  predicate InClass(c: char, k: CharClass) {
    exists r :: r in k.ranges && r.0 <= c <= r.1
  }

  datatype Re =
    | Empty
    | Class(k: CharClass)
    | Concat(left: Re, right: Re)
    | Alt(left: Re, right: Re)

  /** The one-character class `c`. */
  function Lit(c: char): Re {
    Class(CharClass([(c, c)]))
  }

  /** `re{n}`: `n` copies of `re` one after the other. */
  function Repeat(re: Re, n: nat): Re {
    if n == 0 then Empty else Concat(re, Repeat(re, n - 1))
  }

  /** Whether `re` matches `s[i..j]` exactly. */
  predicate Matches(re: Re, s: string, i: nat, j: nat)
    requires i <= j <= |s|
  {
    match re
    case Empty => i == j
    case Class(k) => j == i + 1 && InClass(s[i], k)
    case Concat(l, r) => exists m :: i <= m <= j && Matches(l, s, i, m) && Matches(r, s, m, j)
    case Alt(l, r) => Matches(l, s, i, j) || Matches(r, s, i, j)
  }

  /** `/^re$/.test(s)`. */
  predicate Test(re: Re, s: string) {
    Matches(re, s, 0, |s|)
  }

  /** Every character of `s[i..j]` lies in class `k`. */
  predicate AllIn(s: string, i: nat, j: nat, k: CharClass)
    requires i <= j <= |s|
  {
    forall p :: i <= p < j ==> InClass(s[p], k)
  }

  /** `[k]re` matches `s[i..j]` exactly when `s[i]` is in `k` and `re` matches the rest. */
  lemma ClassThen(k: CharClass, r: Re, s: string, i: nat, j: nat)
    requires i <= j <= |s|
    ensures Matches(Concat(Class(k), r), s, i, j)
      <==> i < j && InClass(s[i], k) && Matches(r, s, i + 1, j)
  {
    if i < j && InClass(s[i], k) && Matches(r, s, i + 1, j) {
      assert Matches(Class(k), s, i, i + 1);
    }
  }

  /** `[k]{n}` matches `s[i..j]` exactly when `j == i + n` and all of `s[i..j]` is in `k`. */
  lemma {:induction false} RepeatClass(k: CharClass, n: nat, s: string, i: nat, j: nat)
    requires i <= j <= |s|
    ensures Matches(Repeat(Class(k), n), s, i, j) <==> j == i + n && AllIn(s, i, j, k)
  {
    if n > 0 {
      ClassThen(k, Repeat(Class(k), n - 1), s, i, j);
      if i < j {
        RepeatClass(k, n - 1, s, i + 1, j);
      }
    }
  }

  /** `[k]{n}re` matches `s[i..j]` exactly when the `n` characters from `i` are in `k` and `re` matches the rest. */
  lemma RepeatClassThen(k: CharClass, n: nat, r: Re, s: string, i: nat, j: nat)
    requires i <= j <= |s|
    ensures Matches(Concat(Repeat(Class(k), n), r), s, i, j)
      <==> i + n <= j && AllIn(s, i, i + n, k) && Matches(r, s, i + n, j)
  {
    var rep := Repeat(Class(k), n);
    if Matches(Concat(rep, r), s, i, j) {
      assert Matches(Concat(rep, r), s, i, j)
        == exists m :: i <= m <= j && Matches(rep, s, i, m) && Matches(r, s, m, j);
      var m :| i <= m <= j && Matches(rep, s, i, m) && Matches(r, s, m, j);
      RepeatClass(k, n, s, i, m);
    }
    if i + n <= j && AllIn(s, i, i + n, k) && Matches(r, s, i + n, j) {
      RepeatClass(k, n, s, i, i + n);
    }
  }
}
