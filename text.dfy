/** The string operations the player's code relies on, with the JavaScript
    meaning they have there: `split` on one character, `join`, the prefix
    before a separator string, a prefix test, the regular-expression class
    `\s`, and `parseInt(_, 10)` of a run of decimal digits. */
module Text {

  predicate IsDigit(c: char) {
    '0' <= c <= '9'
  }

  /** The characters JavaScript's `\s` matches: white space and line terminators. */
  predicate IsSpace(c: char) {
    || c == ' ' || c == '\t' || c == '\n' || c == '\r' || c == '\U{000B}' || c == '\U{000C}'
    || c == '\U{00A0}' || c == '\U{1680}' || ('\U{2000}' <= c <= '\U{200A}')
    || c == '\U{2028}' || c == '\U{2029}' || c == '\U{202F}' || c == '\U{205F}'
    || c == '\U{3000}' || c == '\U{FEFF}'
  }

  predicate AllDigits(s: string) {
    forall i :: 0 <= i < |s| ==> IsDigit(s[i])
  }

  /** What `/^\s*$/` accepts: a string made only of white space, or empty. */
  predicate IsBlank(s: string) {
    forall i :: 0 <= i < |s| ==> IsSpace(s[i])
  }

  /** `s.split(c)` for a one-character separator: the pieces between the
      occurrences of `c`, empty pieces included. */
  function Split(s: string, c: char): (r: seq<string>)
    ensures |r| >= 1
    decreases |s|
  {
    if s == [] then [""]
    else if s[0] == c then [""] + Split(s[1..], c)
    else
      var t := Split(s[1..], c);
      [[s[0]] + t[0]] + t[1..]
  }

  /** `parts.join(sep)`. */
  function Join(parts: seq<string>, sep: string): string
    decreases |parts|
  {
    if parts == [] then ""
    else if |parts| == 1 then parts[0]
    else parts[0] + sep + Join(parts[1..], sep)
  }

  lemma JoinConsHead(x: string, t: seq<string>, sep: string)
    requires |t| >= 1
    ensures Join([x + t[0]] + t[1..], sep) == x + Join(t, sep)
  {
    var r := [x + t[0]] + t[1..];
    assert r[1..] == t[1..];
  }

  /** Splitting and joining again with the same separator gives back the string. */
  lemma {:induction false} JoinSplit(s: string, c: char)
    ensures Join(Split(s, c), [c]) == s
    decreases |s|
  {
    if s == [] {
    } else if s[0] == c {
      JoinSplit(s[1..], c);
      var r := [""] + Split(s[1..], c);
      assert r[1..] == Split(s[1..], c);
      assert s == [c] + s[1..];
    } else {
      JoinSplit(s[1..], c);
      JoinConsHead([s[0]], Split(s[1..], c), [c]);
      assert s == [s[0]] + s[1..];
    }
  }

  /** No piece of a split contains the separator. */
  lemma {:induction false} SplitPiecesFree(s: string, c: char)
    ensures forall k :: 0 <= k < |Split(s, c)| ==> c !in Split(s, c)[k]
    decreases |s|
  {
    if s != [] {
      SplitPiecesFree(s[1..], c);
    }
  }

  /** A string splits into at least two pieces exactly when it holds the separator. */
  lemma {:induction false} SplitHasTwo(s: string, c: char)
    ensures |Split(s, c)| >= 2 <==> c in s
    decreases |s|
  {
    if s != [] {
      SplitHasTwo(s[1..], c);
      assert s == [s[0]] + s[1..];
    }
  }

  /** A string without the separator is its own only piece. */
  lemma SplitWithout(a: string, c: char)
    requires c !in a
    ensures Split(a, c) == [a]
  {
    SplitHasTwo(a, c);
    var r := Split(a, c);
    JoinSplit(a, c);
  }

  /** The first piece ends at the first separator; the rest is split on its own. */
  lemma {:induction false} SplitAfter(a: string, b: string, c: char)
    requires c !in a
    ensures Split(a + [c] + b, c) == [a] + Split(b, c)
    decreases |a|
  {
    var s := a + [c] + b;
    if a == [] {
      assert s[1..] == b;
    } else {
      assert s[1..] == a[1..] + [c] + b;
      SplitAfter(a[1..], b, c);
      assert [a[0]] + a[1..] == a;
    }
  }

  /** Every newline of `s` replaced by a space. */
  function NewlinesToSpaces(s: string): string {
    seq(|s|, i requires 0 <= i < |s| => if s[i] == '\n' then ' ' else s[i])
  }

  /** Joining the lines of `s` with single spaces turns each newline into a space. */
  lemma {:induction false} JoinLinesWithSpaces(s: string)
    ensures Join(Split(s, '\n'), " ") == NewlinesToSpaces(s)
    decreases |s|
  {
    if s != [] {
      JoinLinesWithSpaces(s[1..]);
      var tail := NewlinesToSpaces(s[1..]);
      assert NewlinesToSpaces(s) == [if s[0] == '\n' then ' ' else s[0]] + tail;
      if s[0] == '\n' {
        var r := [""] + Split(s[1..], '\n');
        assert r[1..] == Split(s[1..], '\n');
      } else {
        JoinConsHead([s[0]], Split(s[1..], '\n'), " ");
      }
    }
  }

  predicate StartsWith(s: string, p: string) {
    |p| <= |s| && s[..|p|] == p
  }

  /** `s.split(pat)[0]`: the part of `s` before the first occurrence of `pat`,
      or all of `s` when `pat` does not occur. */
  function Before(s: string, pat: string): (r: string)
    requires pat != []
    ensures StartsWith(s, r)
    ensures forall k :: 0 <= k < |r| ==> !StartsWith(s[k..], pat)
    ensures |r| == |s| || StartsWith(s[|r|..], pat)
    decreases |s|
  {
    if |s| < |pat| then s
    else if s[..|pat|] == pat then ""
    else
      var t := Before(s[1..], pat);
      assert forall k :: 1 <= k <= |s| ==> s[k..] == s[1..][k - 1..];
      [s[0]] + t
  }

  /** A string that does not begin with the separator's first character
      keeps that character in front of the rest's prefix. */
  lemma BeforeKeepsHead(s: string, pat: string)
    requires pat != [] && |pat| <= |s| && s[0] != pat[0]
    ensures Before(s, pat) == [s[0]] + Before(s[1..], pat)
  {
    assert s[..|pat|][0] == s[0];
  }

  /** A prefix that cannot begin the separator is kept whole. */
  lemma {:induction false} BeforeAppend(x: string, y: string, pat: string)
    requires pat != [] && pat[0] !in x
    ensures Before(x + y, pat) == x + Before(y, pat)
    decreases |x|
  {
    if x != [] {
      var s := x + y;
      assert s[1..] == x[1..] + y;
      BeforeAppend(x[1..], y, pat);
      if |s| < |pat| {
        assert |y| < |pat|;
        assert Before(y, pat) == y;
        assert Before(s, pat) == s;
      } else {
        BeforeKeepsHead(s, pat);
        assert [x[0]] + x[1..] == x;
        assert [x[0]] + (x[1..] + Before(y, pat)) == ([x[0]] + x[1..]) + Before(y, pat);
      }
    } else {
      assert x + y == y;
    }
  }

  function DigitValue(c: char): nat
    requires IsDigit(c)
  {
    c as int - '0' as int
  }

  /** `parseInt(ds, 10)` for a string of decimal digits. */
  function DigitsValue(ds: string): nat
    requires AllDigits(ds)
    decreases |ds|
  {
    if ds == [] then 0
    else DigitsValue(ds[..|ds| - 1]) * 10 + DigitValue(ds[|ds| - 1])
  }

  /** `String(n)` for a natural number: its decimal digits, most significant first. */
  function DecimalString(n: nat): string
    decreases n
  {
    if n < 10 then [('0' as int + n) as char]
    else DecimalString(n / 10) + [('0' as int + n % 10) as char]
  }

  /** Reading the decimal digits of `n` back with `parseInt` (or `Number`) gives `n`. */
  lemma {:induction false} DecimalStringValue(n: nat)
    ensures DecimalString(n) != [] && AllDigits(DecimalString(n))
    ensures DigitsValue(DecimalString(n)) == n
    decreases n
  {
    var s := DecimalString(n);
    if n >= 10 {
      DecimalStringValue(n / 10);
      assert s[..|s| - 1] == DecimalString(n / 10);
    } else {
      assert s[..0] == [];
    }
  }
}
