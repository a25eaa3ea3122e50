/**
 * The string operations of .NET that the rules depend on: `char.IsWhiteSpace`,
 * `string.IsNullOrWhiteSpace`, `string.Trim`, ordinal (SQLite BINARY collation)
 * comparison and decimal formatting of an `int`.
 */
module Text {

  /**
   * The characters `char.IsWhiteSpace` accepts: the Unicode space separators,
   * the line and paragraph separators, and the control characters
   * U+0009..U+000D and U+0085.
   */
  const WhiteSpace: set<char> := {
    '\U{0009}', '\U{000A}', '\U{000B}', '\U{000C}', '\U{000D}', '\U{0020}', '\U{0085}', '\U{00A0}', '\U{1680}',
    '\U{2000}', '\U{2001}', '\U{2002}', '\U{2003}', '\U{2004}', '\U{2005}', '\U{2006}', '\U{2007}', '\U{2008}',
    '\U{2009}', '\U{200A}', '\U{2028}', '\U{2029}', '\U{202F}', '\U{205F}', '\U{3000}'
  }

  /** `char.IsWhiteSpace`. */
  predicate IsWhiteSpace(c: char) {
    c in WhiteSpace
  }

  /** `string.IsNullOrWhiteSpace` of a non-null string: empty or white space only. */
  predicate IsBlank(s: string) {
    forall i :: 0 <= i < |s| ==> IsWhiteSpace(s[i])
  }

  /** The number of white-space characters `TrimStart()` removes. */
  function LeadingWhiteSpace(s: string): (n: nat)
    ensures n <= |s|
    ensures forall i :: 0 <= i < n ==> IsWhiteSpace(s[i])
    ensures n == |s| || !IsWhiteSpace(s[n])
  {
    if s == [] || !IsWhiteSpace(s[0]) then 0 else 1 + LeadingWhiteSpace(s[1..])
  }

  /** The number of white-space characters `TrimEnd()` removes. */
  function TrailingWhiteSpace(s: string): (n: nat)
    ensures n <= |s|
    ensures forall i :: |s| - n <= i < |s| ==> IsWhiteSpace(s[i])
    ensures n == |s| || !IsWhiteSpace(s[|s| - 1 - n])
  {
    if s == [] || !IsWhiteSpace(s[|s| - 1]) then 0 else 1 + TrailingWhiteSpace(s[..|s| - 1])
  }

  /**
   * The white space `TrimEnd()` removes from the suffix `s[k..]` sits at the
   * end of `s`, just after a character that is not white space.
   */
  lemma TrailingOfSuffix(s: string, k: nat, t: nat)
    requires k <= |s| && t == TrailingWhiteSpace(s[k..])
    ensures k + t <= |s|
    ensures forall i :: |s| - t <= i < |s| ==> IsWhiteSpace(s[i])
    ensures k + t < |s| ==> !IsWhiteSpace(s[|s| - t - 1])
  {
    var rest := s[k..];
    forall i | |s| - t <= i < |s| ensures IsWhiteSpace(s[i]) {
      assert s[i] == rest[i - k];
    }
    if k + t < |s| {
      assert s[|s| - t - 1] == rest[|rest| - 1 - t];
    }
  }

  /** What `Trim()` removes is white space. */
  lemma TrimmedEndsBlank(s: string, k: nat, t: nat)
    requires k == LeadingWhiteSpace(s) && t == TrailingWhiteSpace(s[k..])
    ensures k + t <= |s|
    ensures var r := s[k..|s| - t]; r == s[k..k + |r|] && IsBlank(s[..k]) && IsBlank(s[k + |r|..])
  {
    TrailingOfSuffix(s, k, t);
  }

  /** `Trim()` leaves nothing exactly when the string is blank. */
  lemma TrimmedEmptyIff(s: string, k: nat, t: nat)
    requires k == LeadingWhiteSpace(s) && t == TrailingWhiteSpace(s[k..])
    ensures k + t <= |s|
    ensures k + t == |s| <==> IsBlank(s)
  {
    TrailingOfSuffix(s, k, t);
  }

  /** What `Trim()` leaves, when anything, starts and ends with a character that is not white space. */
  lemma TrimmedEndsNotBlank(s: string, k: nat, t: nat)
    requires k == LeadingWhiteSpace(s) && t == TrailingWhiteSpace(s[k..])
    ensures k + t <= |s|
    ensures var r := s[k..|s| - t]; r != [] ==> !IsWhiteSpace(r[0]) && !IsWhiteSpace(r[|r| - 1])
  {
    TrailingOfSuffix(s, k, t);
    var r := s[k..|s| - t];
    if r != [] {
      assert r[0] == s[k] && r[|r| - 1] == s[|s| - t - 1];
    }
  }

  /**
   * `Trim()`: the infix of `s` left after removing white space at both ends,
   * starting after the leading white space.
   * It is empty exactly when `s` is blank, and otherwise starts and ends with a
   * character that is not white space.
   */
  function Trim(s: string): (r: string)
    ensures |r| <= |s|
    ensures var k := LeadingWhiteSpace(s); k + |r| <= |s| && r == s[k..k + |r|] && IsBlank(s[..k]) && IsBlank(s[k + |r|..])
    ensures r == [] <==> IsBlank(s)
    ensures r != [] ==> !IsWhiteSpace(r[0]) && !IsWhiteSpace(r[|r| - 1])
  {
    var k := LeadingWhiteSpace(s);
    var t := TrailingWhiteSpace(s[k..]);
    TrimmedEndsBlank(s, k, t);
    TrimmedEmptyIff(s, k, t);
    TrimmedEndsNotBlank(s, k, t);
    s[k..|s| - t]
  }

  /**
   * `string.Length`: the number of UTF-16 code units, where a character
   * beyond U+FFFF takes a surrogate pair.
   */
  function Utf16Length(s: string): (n: nat)
    ensures |s| <= n <= 2 * |s|
  {
    if s == [] then 0 else (if s[0] as int >= 0x1_0000 then 2 else 1) + Utf16Length(s[1..])
  }

  lemma {:induction false} Utf16LengthAppend(a: string, b: string)
    ensures Utf16Length(a + b) == Utf16Length(a) + Utf16Length(b)
  {
    if a == [] {
      assert a + b == b;
    } else {
      assert (a + b)[1..] == a[1..] + b;
      Utf16LengthAppend(a[1..], b);
    }
  }

  /** A string within the Basic Multilingual Plane has one code unit per character, and only such a string does. */
  lemma {:induction false} Utf16LengthIsCountIff(s: string)
    ensures Utf16Length(s) == |s| <==> forall i :: 0 <= i < |s| ==> s[i] as int < 0x1_0000
  {
    if s != [] {
      Utf16LengthIsCountIff(s[1..]);
      assert forall i :: 1 <= i < |s| ==> s[i] == s[1..][i - 1];
    }
  }

  /** A string of characters beyond U+FFFF has two code units per character. */
  lemma {:induction false} Utf16LengthAstral(s: string)
    requires forall i :: 0 <= i < |s| ==> s[i] as int >= 0x1_0000
    ensures Utf16Length(s) == 2 * |s|
  {
    if s != [] {
      assert forall i :: 0 <= i < |s[1..]| ==> s[1..][i] == s[i + 1];
      Utf16LengthAstral(s[1..]);
    }
  }

  /** Part of a string has no more code units than the whole. */
  lemma Utf16LengthInfix(s: string, i: nat, j: nat)
    requires i <= j <= |s|
    ensures Utf16Length(s[i..j]) <= Utf16Length(s)
  {
    var front := s[..j];
    assert s == front + s[j..];
    Utf16LengthAppend(front, s[j..]);
    assert front == front[..i] + s[i..j];
    Utf16LengthAppend(front[..i], s[i..j]);
  }

  /** Trimming never lengthens a string. */
  lemma TrimUtf16Length(s: string)
    ensures Utf16Length(Trim(s)) <= Utf16Length(s)
  {
    var k := LeadingWhiteSpace(s);
    Utf16LengthInfix(s, k, k + |Trim(s)|);
  }

  /**
   * Ordinal string order, as SQLite's BINARY collation sorts text: character
   * codes compared left to right, a proper prefix before the longer string.
   */
  predicate OrdinalLeq(a: string, b: string) {
    |a| == 0 || (|b| > 0 && (a[0] < b[0] || (a[0] == b[0] && OrdinalLeq(a[1..], b[1..]))))
  }

  lemma {:induction false} OrdinalTotal(a: string, b: string)
    ensures OrdinalLeq(a, b) || OrdinalLeq(b, a)
  {
    if |a| > 0 && |b| > 0 && a[0] == b[0] {
      OrdinalTotal(a[1..], b[1..]);
    }
  }

  lemma {:induction false} OrdinalTransitive(a: string, b: string, c: string)
    requires OrdinalLeq(a, b) && OrdinalLeq(b, c)
    ensures OrdinalLeq(a, c)
  {
    if |a| > 0 && a[0] == b[0] && b[0] == c[0] {
      OrdinalTransitive(a[1..], b[1..], c[1..]);
    }
  }

  lemma {:induction false} OrdinalAntisymmetric(a: string, b: string)
    requires OrdinalLeq(a, b) && OrdinalLeq(b, a)
    ensures a == b
  {
    if |a| > 0 {
      OrdinalAntisymmetric(a[1..], b[1..]);
    }
  }

  predicate IsDigit(c: char) {
    '0' <= c <= '9'
  }

  function DigitValue(c: char): (d: nat)
    requires IsDigit(c)
    ensures d < 10
  {
    (c as int) - ('0' as int)
  }

  function DigitChar(d: nat): (c: char)
    requires d < 10
    ensures IsDigit(c) && DigitValue(c) == d
  {
    (('0' as int) + d) as char
  }

  /** Invariant-culture decimal digits of a natural number, without leading zeros. */
  function NatToString(n: nat): (r: string)
    ensures |r| >= 1 && forall i :: 0 <= i < |r| ==> IsDigit(r[i])
    ensures r[0] == '0' ==> n == 0
  {
    if n < 10 then [DigitChar(n)] else NatToString(n / 10) + [DigitChar(n % 10)]
  }

  /** The decimal rendering of an `int`, as string interpolation writes it. */
  function IntToString(n: int): (r: string)
    ensures IsIntegerText(r)
    ensures n < 0 <==> r[0] == '-'
  {
    if n < 0 then "-" + NatToString(-n) else NatToString(n)
  }

  /** Reads back a string of decimal digits. */
  function ParseNat(s: string): nat
    requires forall i :: 0 <= i < |s| ==> IsDigit(s[i])
  {
    if s == [] then 0 else 10 * ParseNat(s[..|s| - 1]) + DigitValue(s[|s| - 1])
  }

  /** An optional minus sign followed by decimal digits. */
  predicate IsIntegerText(s: string) {
    && |s| >= 1
    && (s[0] == '-' || IsDigit(s[0]))
    && forall i :: 1 <= i < |s| ==> IsDigit(s[i])
  }

  function ParseInt(s: string): int
    requires IsIntegerText(s)
  {
    if s[0] == '-' then -(ParseNat(s[1..]) as int) else ParseNat(s)
  }

  lemma {:induction false} NatRoundTrip(n: nat)
    ensures ParseNat(NatToString(n)) == n
  {
    if n >= 10 {
      var r := NatToString(n);
      assert r[..|r| - 1] == NatToString(n / 10);
      NatRoundTrip(n / 10);
    }
  }

  /** Formatting an `int` loses nothing: the number can be read back. */
  lemma IntRoundTrip(n: int)
    ensures IsIntegerText(IntToString(n))
    ensures ParseInt(IntToString(n)) == n
  {
    if n < 0 {
      assert IntToString(n)[1..] == NatToString(-n);
      NatRoundTrip(-n);
    } else {
      NatRoundTrip(n);
    }
  }
}
