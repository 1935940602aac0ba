/**
 * Decimal digit strings and Swift's 64-bit `Int`: the rendering `"\(n)"` of a
 * non-negative integer and the conversion `Int(_: String)` on digit strings.
 */
module Decimal {
  import opened Wrappers

  /** `Int.max` and `Int.min` of a 64-bit Swift `Int`. */
  const IntMax: int := 0x7FFF_FFFF_FFFF_FFFF
  const IntMin: int := -0x8000_0000_0000_0000

  /** A value of Swift's `Int`. */
  type SwiftInt = x: int | IntMin <= x <= IntMax

  /** A Swift `Int` that has passed the library's "must be non-negative" precondition. */
  type NonNegInt = x: int | 0 <= x <= IntMax

  predicate IsDigit(c: char) {
    '0' <= c <= '9'
  }

  predicate AllDigits(s: string) {
    forall i :: 0 <= i < |s| ==> IsDigit(s[i])
  }

  /** No superfluous leading zero: `s` is "0" or starts with a non-zero character. */
  predicate NoLeadingZero(s: string) {
    |s| > 0 && (s == "0" || s[0] != '0')
  }

  function DigitValue(c: char): nat
    requires IsDigit(c)
  {
    c as int - '0' as int
  }

  function DigitChar(d: nat): char
    requires d < 10
  {
    ('0' as int + d) as char
  }

  /** The number a run of decimal digits denotes, leading zeros allowed. */
  function ValueOf(s: string): nat
    requires AllDigits(s)
  {
    if s == [] then 0 else ValueOf(s[..|s| - 1]) * 10 + DigitValue(s[|s| - 1])
  }

  /** Swift's rendering of a non-negative `Int` (`"\(n)"`): its shortest decimal digit string. */
  function Render(n: nat): (s: string)
    ensures AllDigits(s) && NoLeadingZero(s)
    ensures ValueOf(s) == n
  {
    if n < 10 then
      [DigitChar(n)]
    else
      var t := Render(n / 10);
      var s := t + [DigitChar(n % 10)];
      assert s[..|s| - 1] == t;
      s
  }

  /** Swift's `Int(_: String)` restricted to digit strings: `nil` on the empty string, on a character
      other than a digit, and on a value past `Int.max`. */
  function ParseInt(s: string): (r: Option<SwiftInt>)
    ensures r.Some? ==> r.value >= 0
    ensures !(|s| > 0 && AllDigits(s)) ==> r.None?
    ensures |s| > 0 && AllDigits(s) ==> (r.Some? <==> ValueOf(s) <= IntMax)
    ensures r.Some? ==> r.value == ValueOf(s)
  {
    if |s| > 0 && AllDigits(s) && ValueOf(s) <= IntMax then Some(ValueOf(s)) else None
  }

  /** The value of a one- or two-digit string. */
  lemma ValueOfShort(c: char, d: char)
    requires IsDigit(c) && IsDigit(d)
    ensures ValueOf([c]) == DigitValue(c)
    ensures ValueOf([c, d]) == DigitValue(c) * 10 + DigitValue(d)
  {
    assert [c][..0] == [];
    assert [c, d][..1] == [c];
  }

  lemma {:induction false} ValueOfPositive(s: string)
    requires AllDigits(s) && |s| > 0 && s[0] != '0'
    ensures ValueOf(s) > 0
  {
    var t := s[..|s| - 1];
    if t != [] {
      assert t[0] == s[0];
      ValueOfPositive(t);
    }
  }

  /** Rendering is the inverse of `ValueOf` on digit strings without leading zeros. */
  lemma {:induction false} RenderValueOf(s: string)
    requires AllDigits(s) && NoLeadingZero(s)
    ensures Render(ValueOf(s)) == s
  {
    var t := s[..|s| - 1];
    var d := DigitValue(s[|s| - 1]);
    if t == [] {
      assert s == [s[0]];
    } else {
      assert t[0] == s[0];
      ValueOfPositive(t);
      assert NoLeadingZero(t);
      RenderValueOf(t);
      var n := ValueOf(s);
      assert n == ValueOf(t) * 10 + d;
      assert n / 10 == ValueOf(t) && n % 10 == d;
      assert DigitChar(d) == s[|s| - 1];
      assert s == t + [s[|s| - 1]];
    }
  }

  /** Two digit strings without leading zeros denote the same number only if they are the same string. */
  lemma ValueOfInjective(s: string, t: string)
    requires AllDigits(s) && NoLeadingZero(s) && AllDigits(t) && NoLeadingZero(t)
    requires ValueOf(s) == ValueOf(t)
    ensures s == t
  {
    RenderValueOf(s);
    RenderValueOf(t);
  }
}
