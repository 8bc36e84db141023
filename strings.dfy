/** The few Python string builtins the core relies on: the `\d` and whitespace
    character classes, `str.strip()`, `re.split` on a one-character pattern,
    `int()` on a string of digits and `str()` on an integer. */
module Strings {

  /** `\d` in a Python 2 byte-string pattern: an ASCII digit. */
  predicate IsDigit(c: char) {
    '0' <= c <= '9'
  }

  /** The characters `str.strip()` removes: space, tab, newline, vertical tab,
      form feed and carriage return. */
  predicate IsSpace(c: char) {
    c == ' ' || '\t' <= c <= '\r'
  }

  predicate AllDigits(s: string) {
    forall i :: 0 <= i < |s| ==> IsDigit(s[i])
  }

  predicate AllSpace(s: string) {
    forall i :: 0 <= i < |s| ==> IsSpace(s[i])
  }

  /** The number of whitespace characters `s` starts with: all of them are
      whitespace and the next one, if any, is not. */
  function LeadingSpace(s: string): (k: nat)
    ensures k <= |s| && forall i :: 0 <= i < k ==> IsSpace(s[i])
    ensures k < |s| ==> !IsSpace(s[k])
  {
    if s != [] && IsSpace(s[0]) then LeadingSpace(s[1..]) + 1 else 0
  }

  /** The number of whitespace characters `s` ends with, the mirror image of
      LeadingSpace. */
  function TrailingSpace(s: string): (k: nat)
    ensures k <= |s| && forall i :: |s| - k <= i < |s| ==> IsSpace(s[i])
    ensures k < |s| ==> !IsSpace(s[|s| - k - 1])
  {
    if s != [] && IsSpace(s[|s| - 1]) then TrailingSpace(s[..|s| - 1]) + 1 else 0
  }

  /** `str.strip()`: the infix of `s` that follows its leading whitespace and
      has only whitespace after it; it neither starts nor ends with whitespace,
      and it is empty exactly when `s` is all whitespace. */
  function Strip(s: string): (r: string)
    ensures var i := LeadingSpace(s);
      i + |r| <= |s| && r == s[i..i + |r|]
      && (forall k :: 0 <= k < i ==> IsSpace(s[k]))
      && (forall k :: i + |r| <= k < |s| ==> IsSpace(s[k]))
    ensures r == [] || (!IsSpace(r[0]) && !IsSpace(r[|r| - 1]))
    ensures r == [] <==> AllSpace(s)
  {
    var i := LeadingSpace(s);
    var j := TrailingSpace(s[i..]);
    var r := s[i..|s| - j];
    assert r != [] ==> r[0] == s[i] && r[|r| - 1] == s[i..][|s| - i - j - 1];
    assert forall k :: i + |r| <= k < |s| ==> s[k] == s[i..][k - i];
    r
  }

  /** A text as `str.strip()` leaves it when it leaves anything: not empty, and
      neither starting nor ending with whitespace. */
  predicate IsStripped(q: string) {
    q != [] && !IsSpace(q[0]) && !IsSpace(q[|q| - 1])
  }

  /** Whitespace in front of a text that starts with something else is
      exactly what LeadingSpace counts. */
  lemma {:induction false} LeadingPadded(a: string, m: string)
    requires AllSpace(a) && m != [] && !IsSpace(m[0])
    ensures LeadingSpace(a + m) == |a|
  {
    if a == [] {
      assert a + m == m;
    } else {
      assert (a + m)[0] == a[0] && (a + m)[1..] == a[1..] + m;
      LeadingPadded(a[1..], m);
    }
  }

  /** The mirror image of LeadingPadded. */
  lemma {:induction false} TrailingPadded(m: string, b: string)
    requires AllSpace(b) && m != [] && !IsSpace(m[|m| - 1])
    ensures TrailingSpace(m + b) == |b|
  {
    if b == [] {
      assert m + b == m;
    } else {
      var s := m + b;
      assert s[|s| - 1] == b[|b| - 1] && s[..|s| - 1] == m + b[..|b| - 1];
      TrailingPadded(m, b[..|b| - 1]);
    }
  }

  /** Stripping removes exactly the whitespace around a stripped text. */
  lemma StripPadded(a: string, m: string, b: string)
    requires AllSpace(a) && AllSpace(b) && IsStripped(m)
    ensures Strip(a + m + b) == m
  {
    var s := a + (m + b);
    assert a + m + b == s;
    LeadingPadded(a, m + b);
    assert s[|a|..] == m + b;
    TrailingPadded(m, b);
    assert (m + b)[..|m|] == m;
    assert Strip(s) == (m + b)[..|m|];
  }

  /** Texts that end alike are equal when what comes before is. */
  lemma CancelRight(x: string, z: string, y: string)
    requires x + y == z + y
    ensures x == z
  {
    assert |x| == |z|;
    assert x == (x + y)[..|x|] && z == (z + y)[..|z|];
  }

  /** The inverse of Split: the parts with the separator between them. */
  function Join(parts: seq<string>, sep: char): string {
    if parts == [] then ""
    else if |parts| == 1 then parts[0]
    else parts[0] + [sep] + Join(parts[1..], sep)
  }

  /** `re.split` on a one-character pattern: the maximal separator-free pieces,
      in order, one more than there are separators. */
  function Split(s: string, sep: char): (parts: seq<string>)
    ensures |parts| >= 1
    ensures forall i :: 0 <= i < |parts| ==> sep !in parts[i]
    ensures Join(parts, sep) == s
  {
    if s == [] then
      [""]
    else
      var rest := Split(s[1..], sep);
      if s[0] == sep then
        assert Join([""] + rest, sep) == [sep] + Join(rest, sep);
        [""] + rest
      else
        var parts := [[s[0]] + rest[0]] + rest[1..];
        assert parts[1..] == rest[1..];
        parts
  }

  function DigitValue(c: char): nat
    requires IsDigit(c)
  {
    c as int - '0' as int
  }

  function DigitChar(d: nat): (c: char)
    requires d < 10
    ensures IsDigit(c) && DigitValue(c) == d
  {
    ('0' as int + d) as char
  }

  /** `int()` applied to a string of decimal digits. */
  function DecimalValue(s: string): nat
    requires AllDigits(s)
  {
    if s == [] then 0 else DecimalValue(s[..|s| - 1]) * 10 + DigitValue(s[|s| - 1])
  }

  /** `str()` / `format()` of a non-negative integer: its decimal digits, with
      no leading zero. */
  function NatToString(n: nat): (s: string)
    ensures |s| >= 1 && AllDigits(s)
    ensures s[0] == '0' ==> n == 0
  {
    if n < 10 then [DigitChar(n)] else NatToString(n / 10) + [DigitChar(n % 10)]
  }

  /** `str()` of any integer. */
  function IntToString(n: int): (s: string)
    ensures n < 0 <==> (|s| > 0 && s[0] == '-')
  {
    if n < 0 then "-" + NatToString(-n) else NatToString(n)
  }

  /** Printing a number and reading it back gives the number. */
  lemma {:induction false} DecimalRoundTrip(n: nat)
    ensures DecimalValue(NatToString(n)) == n
  {
    if n >= 10 {
      var s := NatToString(n / 10);
      DecimalRoundTrip(n / 10);
      var t := s + [DigitChar(n % 10)];
      assert t[..|t| - 1] == s;
    }
  }
}
