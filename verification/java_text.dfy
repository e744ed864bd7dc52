/** The few pieces of `java.lang` text and integer behaviour the model relies on:
    ASCII case mapping, 32-bit `int` wrap-around and `%d` formatting of naturals. */
module JavaText {

  // ---------------------------------------------------------------------------
  // Case mapping (root locale; see README for what is not mapped)
  // ---------------------------------------------------------------------------

  predicate IsAsciiUpper(c: char) {
    'A' <= c <= 'Z'
  }

  predicate IsAsciiLower(c: char) {
    'a' <= c <= 'z'
  }

  /** KELVIN SIGN, the one non-ASCII character whose lower case is an ASCII letter. */
  const KelvinSign: char := '\U{212A}'

  /** LATIN CAPITAL LETTER I WITH DOT ABOVE: `String.toLowerCase` turns it into
      two characters, `i` and COMBINING DOT ABOVE. */
  const CapitalIWithDot: char := '\U{0130}'
  const CombiningDotAbove: char := '\U{0307}'

  /** `Character.toLowerCase` for the characters whose lower case is ASCII. */
  function LowerChar(c: char): (r: char)
    ensures !IsAsciiUpper(r) && r != KelvinSign
    ensures IsAsciiUpper(c) ==> IsAsciiLower(r) && r as int - c as int == 32
    ensures c == KelvinSign ==> r == 'k'
    ensures !IsAsciiUpper(c) && c != KelvinSign ==> r == c
  {
    if IsAsciiUpper(c) then (c as int + 32) as char
    else if c == KelvinSign then 'k'
    else c
  }

  /** `Character.toUpperCase` restricted to ASCII letters. */
  function UpperChar(c: char): (r: char)
    ensures !IsAsciiLower(r)
    ensures IsAsciiLower(c) ==> IsAsciiUpper(r) && c as int - r as int == 32
    ensures !IsAsciiLower(c) ==> r == c
  {
    if IsAsciiLower(c) then (c as int - 32) as char else c
  }

  /** What `String.toLowerCase` makes of one character. */
  function LowerText(c: char): (r: string)
    ensures c != CapitalIWithDot ==> r == [LowerChar(c)]
    ensures c == CapitalIWithDot ==> r == ['i', CombiningDotAbove]
  {
    if c == CapitalIWithDot then ['i', CombiningDotAbove] else [LowerChar(c)]
  }

  /** `String.toLowerCase`. It keeps the length and maps each character by
      `LowerChar` unless the string holds a dotted capital I. */
  function ToLower(s: string): (r: string)
    ensures (forall i :: 0 <= i < |s| ==> s[i] != CapitalIWithDot) ==>
              |r| == |s| && forall i :: 0 <= i < |s| ==> r[i] == LowerChar(s[i])
    ensures forall i :: 0 <= i < |r| ==> !IsAsciiUpper(r[i])
  {
    if s == [] then [] else LowerText(s[0]) + ToLower(s[1..])
  }

  /** Without a dotted capital I, lower-casing is `LowerChar` on each character. */
  lemma ToLowerCharwise(s: string, lower: string)
    requires forall i :: 0 <= i < |s| ==> s[i] != CapitalIWithDot
    requires |lower| == |s| && forall i :: 0 <= i < |s| ==> lower[i] == LowerChar(s[i])
    ensures ToLower(s) == lower
  {
  }

  /** `String.toUpperCase`, character by character. */
  function ToUpper(s: string): (r: string)
    ensures |r| == |s|
    ensures forall i :: 0 <= i < |s| ==> r[i] == UpperChar(s[i])
  {
    seq(|s|, i requires 0 <= i < |s| => UpperChar(s[i]))
  }

  lemma {:induction false} ToLowerAppend(a: string, b: string)
    ensures ToLower(a + b) == ToLower(a) + ToLower(b)
  {
    if a != [] {
      assert (a + b)[1..] == a[1..] + b;
      ToLowerAppend(a[1..], b);
    } else {
      assert a + b == b;
    }
  }

  /** Lower-casing twice is lower-casing once. */
  lemma {:induction false} ToLowerIdempotent(s: string)
    ensures ToLower(ToLower(s)) == ToLower(s)
  {
    if s != [] {
      ToLowerIdempotent(s[1..]);
      var head := LowerText(s[0]);
      ToLowerAppend(head, ToLower(s[1..]));
      if s[0] == CapitalIWithDot {
        assert ToLower(head) == ['i'] + ToLower([CombiningDotAbove]);
      }
      assert ToLower(head) == head;
    }
  }

  /** Upper-casing first changes nothing that lower-casing then sees. */
  lemma {:induction false} ToLowerOfToUpper(s: string)
    ensures ToLower(ToUpper(s)) == ToLower(s)
  {
    if s != [] {
      assert ToUpper(s)[1..] == ToUpper(s[1..]);
      ToLowerOfToUpper(s[1..]);
    }
  }

  // ---------------------------------------------------------------------------
  // 32-bit int
  // ---------------------------------------------------------------------------

  const IntMin: int := -0x8000_0000
  const IntMax: int := 0x7fff_ffff

  predicate IsInt32(x: int) {
    IntMin <= x <= IntMax
  }

  /** The Java `int` that an exact result `x` is stored as (two's-complement wrap). */
  function Wrap32(x: int): (r: int)
    ensures IsInt32(r)
    ensures IsInt32(x) ==> r == x
    ensures (r - x) % 0x1_0000_0000 == 0
  {
    (x - IntMin) % 0x1_0000_0000 + IntMin
  }

  // ---------------------------------------------------------------------------
  // Decimal text of a natural number (`%d` / `Integer.toString`)
  // ---------------------------------------------------------------------------

  predicate IsDigit(c: char) {
    '0' <= c <= '9'
  }

  function DigitChar(d: nat): (c: char)
    requires d < 10
    ensures IsDigit(c)
  {
    ('0' as int + d) as char
  }

  function DigitValue(c: char): (d: nat)
    requires IsDigit(c)
    ensures d < 10
    ensures DigitChar(d) == c
  {
    c as int - '0' as int
  }

  /** The shortest decimal numeral of `n`, as `String.valueOf` writes it. */
  function DecimalText(n: nat): (s: string)
    ensures |s| >= 1
    ensures forall i :: 0 <= i < |s| ==> IsDigit(s[i])
    ensures n >= 10 ==> s[0] != '0'
    decreases n
  {
    if n < 10 then [DigitChar(n)] else DecimalText(n / 10) + [DigitChar(n % 10)]
  }

  /** `%d` of any integer: a minus sign before the digits of a negative one. */
  function IntText(n: int): (s: string)
    ensures n >= 0 ==> s == DecimalText(n)
    ensures n < 0 ==> s == "-" + DecimalText(-n)
  {
    if n < 0 then "-" + DecimalText(-n) else DecimalText(n)
  }

  /** Java's `%` on `int`: the remainder takes the sign of the dividend. */
  function JavaRem(a: int, b: int): (r: int)
    requires b > 0
    ensures a >= 0 ==> r == a % b
    ensures -b < r < b
    ensures a < 0 ==> r <= 0 && r == -((-a) % b)
  {
    if a >= 0 then a % b else -((-a) % b)
  }

  /** The number a string of digits denotes (independent reading of a numeral). */
  function NumeralValue(s: string): nat
    requires forall i :: 0 <= i < |s| ==> IsDigit(s[i])
  {
    if |s| == 0 then 0 else NumeralValue(s[..|s| - 1]) * 10 + DigitValue(s[|s| - 1])
  }

  /** Reading back the numeral `DecimalText` writes gives the original number. */
  lemma {:induction false} DecimalTextRoundTrip(n: nat)
    ensures NumeralValue(DecimalText(n)) == n
    decreases n
  {
    var s := DecimalText(n);
    if n >= 10 {
      DecimalTextRoundTrip(n / 10);
      assert s[..|s| - 1] == DecimalText(n / 10);
      assert DigitValue(s[|s| - 1]) == n % 10;
    } else {
      assert s[..0] == [];
    }
  }

  /** Distinct numbers have distinct decimal texts. */
  lemma DecimalTextInjective(a: nat, b: nat)
    requires DecimalText(a) == DecimalText(b)
    ensures a == b
  {
    DecimalTextRoundTrip(a);
    DecimalTextRoundTrip(b);
  }
}
