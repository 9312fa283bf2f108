/** The few JavaScript value operations the book list relies on: `null`,
    truthiness of text, `String.prototype.toLowerCase` (ASCII letters only),
    `String.prototype.includes` and the decimal rendering of an integer that
    template literals and `Number.prototype.toString` produce. */
module JsValues {

  /** `None` stands for JavaScript's `null` or `undefined`. */
  datatype Option<+T> = None | Some(value: T)

  /** A text value that may be absent: truthy exactly when present and not "". */
  predicate Truthy(s: Option<string>)
  {
    s.Some? && s.value != ""
  }

  /** `value || fallback` for a possibly absent text value. */
  function OrElse(s: Option<string>, fallback: string): (r: string)
    ensures Truthy(s) ==> r == s.value
    ensures !Truthy(s) ==> r == fallback
  {
    if Truthy(s) then s.value else fallback
  }

  // ---------------------------------------------------------------------
  // Lower-casing

  function LowerChar(c: char): char
  {
    if 'A' <= c <= 'Z' then (c as int + 32) as char else c
  }

  /** `toLowerCase`, restricted to the ASCII letters A-Z. */
  function ToLower(s: string): (r: string)
    ensures |r| == |s|
    ensures forall i :: 0 <= i < |s| ==> r[i] == LowerChar(s[i])
    ensures forall i :: 0 <= i < |r| ==> !('A' <= r[i] <= 'Z')
  {
    seq(|s|, i requires 0 <= i < |s| => LowerChar(s[i]))
  }

  lemma ToLowerIdempotent(s: string)
    ensures ToLower(ToLower(s)) == ToLower(s)
  {
  }

  // ---------------------------------------------------------------------
  // Substring search

  /** `needle` occurs in `hay` starting at index `i`. */
  predicate OccursAt(hay: string, needle: string, i: int)
  {
    0 <= i && i + |needle| <= |hay| && hay[i..i + |needle|] == needle
  }

  /** `hay.includes(needle)`. */
  predicate Includes(hay: string, needle: string)
  {
    exists i | 0 <= i <= |hay| - |needle| :: OccursAt(hay, needle, i)
  }

  /** The empty string is included in every string. */
  lemma IncludesEmpty(hay: string)
    ensures Includes(hay, "")
  {
    assert OccursAt(hay, "", 0);
  }

  // ---------------------------------------------------------------------
  // Decimal rendering of integers

  predicate IsDigit(c: char)
  {
    '0' <= c <= '9'
  }

  predicate AllDigits(s: string)
  {
    forall i :: 0 <= i < |s| ==> IsDigit(s[i])
  }

  function DigitChar(d: nat): (c: char)
    requires d < 10
    ensures IsDigit(c) && c as int - '0' as int == d
  {
    ('0' as int + d) as char
  }

  /** The decimal digits of `n`, most significant first, without leading zeros. */
  function NatToString(n: nat): (r: string)
    ensures |r| >= 1 && AllDigits(r)
    ensures |r| > 1 ==> r[0] != '0'
    decreases n
  {
    if n < 10 then [DigitChar(n)] else NatToString(n / 10) + [DigitChar(n % 10)]
  }

  /** The value of a string of decimal digits. */
  function ParseDigits(s: string): nat
    requires AllDigits(s)
  {
    if s == [] then 0
    else ParseDigits(s[..|s| - 1]) * 10 + (s[|s| - 1] as int - '0' as int)
  }

  /** Reading the rendered digits back gives the number: the rendering loses nothing. */
  lemma {:induction false} NatToStringRoundTrip(n: nat)
    ensures ParseDigits(NatToString(n)) == n
    decreases n
  {
    if n >= 10 {
      var r := NatToString(n);
      assert r[..|r| - 1] == NatToString(n / 10);
      NatToStringRoundTrip(n / 10);
    }
  }

  /** `String(n)` for an integer `n`: a minus sign before the digits of a negative number. */
  function NumberToString(n: int): (r: string)
    ensures |r| >= 1
    ensures n >= 0 ==> AllDigits(r)
    ensures n < 0 ==> r[0] == '-' && AllDigits(r[1..])
  {
    if n < 0 then "-" + NatToString(-n) else NatToString(n)
  }

  /** The first character tells the sign. */
  lemma SignShows(n: int)
    ensures NumberToString(n)[0] == '-' <==> n < 0
  {
  }

  /** The rendering is injective: different numbers never print the same. */
  lemma NumberToStringInjective(m: int, n: int)
    requires NumberToString(m) == NumberToString(n)
    ensures m == n
  {
    SignShows(m);
    SignShows(n);
    if m >= 0 {
      NatToStringRoundTrip(m);
      NatToStringRoundTrip(n);
    } else {
      var digits := NumberToString(m)[1..];
      assert digits == NatToString(-m);
      assert digits == NatToString(-n);
      NatToStringRoundTrip(-m);
      NatToStringRoundTrip(-n);
    }
  }
}
