/**
 * The few pieces of PHP string semantics that the URI signer relies on:
 * the byte-wise ordering used by `ksort(..., SORT_STRING)`, the truthiness
 * of a string, and the rendering and reading of integers in decimal.
 *
 * A PHP string is a sequence of bytes; here each `char` stands for one byte.
 */
module PhpStrings {

  /**
   * The textbook definition of `strcmp` order: `a` is a proper prefix of `b`,
   * or at the first position where they differ `a` has the smaller byte.
   */
  predicate FirstDifferenceBefore(a: string, b: string) {
    a < b || exists i :: 0 <= i < |a| && i < |b| && a[..i] == b[..i] && a[i] < b[i]
  }

  /** Comparing two non-empty strings: their first bytes decide, unless they are equal. */
  lemma FirstDifferenceStep(a: string, b: string)
    requires a != [] && b != []
    ensures FirstDifferenceBefore(a, b)
        <==> a[0] < b[0] || (a[0] == b[0] && FirstDifferenceBefore(a[1..], b[1..]))
  {
    if FirstDifferenceBefore(a, b) {
      if a < b {
        assert a[0] == b[0];
        assert a[1..] == b[1..][..|a| - 1];
      } else {
        var i :| 0 <= i < |a| && i < |b| && a[..i] == b[..i] && a[i] < b[i];
        if i > 0 {
          assert a[0] == a[..i][0] == b[..i][0] == b[0];
          assert a[1..][..i - 1] == a[..i][1..] == b[..i][1..] == b[1..][..i - 1];
          assert a[1..][i - 1] < b[1..][i - 1];
        }
      }
    }
    if a[0] == b[0] && FirstDifferenceBefore(a[1..], b[1..]) {
      if a[1..] < b[1..] {
        assert a == [a[0]] + a[1..] && b[..|a|] == [b[0]] + b[1..][..|a| - 1];
      } else {
        var i :| 0 <= i < |a| - 1 && i < |b| - 1 && a[1..][..i] == b[1..][..i] && a[1..][i] < b[1..][i];
        assert a[..i + 1] == [a[0]] + a[1..][..i] && b[..i + 1] == [b[0]] + b[1..][..i];
        assert a[i + 1] < b[i + 1];
      }
    }
    if a[0] < b[0] {
      assert a[..0] == b[..0];
    }
  }

  /** Byte-wise comparison of `strcmp`, as `ksort(..., SORT_STRING)` uses it: a proper prefix sorts first. */
  predicate Less(a: string, b: string)
    decreases |a|
  {
    if a == [] then b != []
    else if b == [] then false
    else if a[0] != b[0] then a[0] < b[0]
    else Less(a[1..], b[1..])
  }

  /** The byte-by-byte comparison agrees with the first-difference definition. */
  lemma {:induction false} LessIsFirstDifference(a: string, b: string)
    ensures Less(a, b) <==> FirstDifferenceBefore(a, b)
    decreases |a|
  {
    if a != [] && b != [] {
      FirstDifferenceStep(a, b);
      if a[0] == b[0] {
        LessIsFirstDifference(a[1..], b[1..]);
      }
    }
  }

  lemma {:induction false} LessIrreflexive(a: string)
    ensures !Less(a, a)
    decreases |a|
  {
    if a != [] {
      LessIrreflexive(a[1..]);
    }
  }

  lemma {:induction false} LessAsymmetric(a: string, b: string)
    requires Less(a, b)
    ensures !Less(b, a)
    decreases |a|
  {
    if a != [] && b != [] && a[0] == b[0] {
      LessAsymmetric(a[1..], b[1..]);
    }
  }

  lemma {:induction false} LessTransitive(a: string, b: string, c: string)
    requires Less(a, b) && Less(b, c)
    ensures Less(a, c)
    decreases |a|
  {
    if a != [] && a[0] == b[0] && b[0] == c[0] {
      LessTransitive(a[1..], b[1..], c[1..]);
    }
  }

  /** Two different strings are always ordered one way or the other. */
  lemma {:induction false} LessTotal(a: string, b: string)
    requires a != b
    ensures Less(a, b) || Less(b, a)
    decreases |a|
  {
    if a != [] && b != [] && a[0] == b[0] {
      assert a == [a[0]] + a[1..] && b == [b[0]] + b[1..];
      LessTotal(a[1..], b[1..]);
    }
  }

  /** PHP's conversion of a string to bool: only "" and "0" are false. */
  predicate Truthy(s: string)
    ensures |s| >= 2 ==> Truthy(s)
  {
    s != "" && s != "0"
  }

  predicate IsDigit(c: char) {
    '0' <= c <= '9'
  }

  predicate AllDigits(s: string) {
    forall i :: 0 <= i < |s| ==> IsDigit(s[i])
  }

  function DigitChar(d: nat): (c: char)
    requires d < 10
    ensures IsDigit(c) && c as int - '0' as int == d
  {
    (d + '0' as int) as char
  }

  /** Decimal rendering of a natural number, without leading zeros. */
  function NatToString(n: nat): (r: string)
    ensures |r| > 0 && AllDigits(r)
    ensures r[0] == '0' <==> n == 0
    decreases n
  {
    if n < 10 then [DigitChar(n)] else NatToString(n / 10) + [DigitChar(n % 10)]
  }

  /** PHP's rendering of an integer, as when an int is placed in a query string. */
  function IntToString(i: int): (r: string)
    ensures |r| > 0
    ensures r[0] == '-' <==> i < 0
    ensures i >= 0 ==> AllDigits(r)
    ensures i < 0 ==> AllDigits(r[1..]) && |r| >= 2
  {
    if i < 0 then "-" + NatToString(-i) else NatToString(i)
  }

  /** The value of a string of decimal digits. */
  function DigitsValue(d: string): nat
    requires AllDigits(d)
  {
    if d == [] then 0 else DigitsValue(d[..|d| - 1]) * 10 + (d[|d| - 1] as int - '0' as int)
  }

  /** The longest prefix of `s` made of decimal digits. */
  function LeadingDigits(s: string): (r: string)
    ensures r <= s && AllDigits(r)
    ensures r == s || !IsDigit(s[|r|])
  {
    if s != [] && IsDigit(s[0]) then [s[0]] + LeadingDigits(s[1..]) else []
  }

  predicate IsWhitespace(c: char) {
    c == ' ' || c == '\t' || c == '\n' || c == '\r' || c == '\U{B}' || c == '\U{C}'
  }

  function SkipWhitespace(s: string): (r: string)
    ensures |r| <= |s| && r == s[|s| - |r|..]
    ensures r == [] || !IsWhitespace(r[0])
  {
    if s != [] && IsWhitespace(s[0]) then SkipWhitespace(s[1..]) else s
  }

  /**
   * PHP's `(int)` cast of a string: leading whitespace, an optional sign and
   * the longest run of digits that follows; a string with no such digits is 0.
   */
  function ToInt(s: string): (r: int)
    ensures AllDigits(s) ==> r == DigitsValue(s)
    ensures r < 0 ==> '-' in s
  {
    var t := SkipWhitespace(s);
    assert AllDigits(s) ==> t == s && LeadingDigits(t) == t;
    if t != [] && t[0] == '-' then -(DigitsValue(LeadingDigits(t[1..])) as int)
    else if t != [] && t[0] == '+' then DigitsValue(LeadingDigits(t[1..]))
    else DigitsValue(LeadingDigits(t))
  }

  lemma {:induction false} NatToStringValue(n: nat)
    ensures DigitsValue(NatToString(n)) == n
    decreases n
  {
    if n >= 10 {
      NatToStringValue(n / 10);
      var r := NatToString(n);
      assert r[..|r| - 1] == NatToString(n / 10);
    }
  }

  /** Reading back a rendered integer gives the integer: the timestamp round-trips. */
  lemma ToIntOfIntToString(i: int)
    ensures ToInt(IntToString(i)) == i
  {
    var r := IntToString(i);
    if i >= 0 {
      NatToStringValue(i);
    } else {
      assert r[1..] == NatToString(-i) by {
        assert r == "-" + NatToString(-i);
      }
      assert SkipWhitespace(r) == r;
      assert LeadingDigits(r[1..]) == r[1..];
      NatToStringValue(-i);
    }
  }
}
