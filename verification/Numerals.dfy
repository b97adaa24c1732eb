/** Decimal and hexadecimal text of natural numbers, and their inverses. */
module Numerals {

  const DIGITS := "0123456789ABCDEF"

  function DigitOf(c: char): (r: int)
    ensures -1 <= r < 16
  {
    if '0' <= c <= '9' then (c as int) - ('0' as int)
    else if 'A' <= c <= 'F' then (c as int) - ('A' as int) + 10
    else if 'a' <= c <= 'f' then (c as int) - ('a' as int) + 10
    else -1
  }

  lemma DigitInverse(d: nat)
    requires d < 16
    ensures DigitOf(DIGITS[d]) == d
    ensures d < 10 ==> '0' <= DIGITS[d] <= '9'
    ensures DIGITS[d] in DIGITS
  {
  }

  function Decimal(n: nat): (s: string)
    ensures s != ""
  {
    if n < 10 then [DIGITS[n]] else Decimal(n / 10) + [DIGITS[n % 10]]
  }

  /** One or more decimal digits. */
  predicate IsDecimal(s: string) {
    s != "" && forall i :: 0 <= i < |s| ==> '0' <= s[i] <= '9'
  }

  /** The value of a text in a base; digits the base does not have make it meaningless. */
  function Value(s: string, base: nat): int {
    if s == "" then 0 else Value(s[..|s| - 1], base) * base + DigitOf(s[|s| - 1])
  }

  lemma ValueOfSnoc(s: string, c: char, base: nat)
    ensures Value(s + [c], base) == Value(s, base) * base + DigitOf(c)
  {
  }

  lemma {:induction false} DecimalInverse(n: nat)
    ensures IsDecimal(Decimal(n)) && Value(Decimal(n), 10) == n
  {
    DigitInverse(n % 10);
    hide Value, DigitOf;
    if n < 10 {
      ValueOfSnoc("", DIGITS[n], 10);
      EmptyValue(10);
      assert Decimal(n) == "" + [DIGITS[n]];
    } else {
      DecimalInverse(n / 10);
      ValueOfSnoc(Decimal(n / 10), DIGITS[n % 10], 10);
    }
  }

  lemma EmptyValue(base: nat)
    ensures Value("", base) == 0
  {
  }

  /** Exactly `width` upper-case hexadecimal digits, as `%0*X` prints a value that fits. */
  function Hex(n: nat, width: nat): (s: string)
    ensures |s| == width
  {
    if width == 0 then "" else Hex(n / 16, width - 1) + [DIGITS[n % 16]]
  }

  predicate IsHex(s: string) {
    forall i :: 0 <= i < |s| ==> DigitOf(s[i]) >= 0
  }

  function Power16(k: nat): nat {
    if k == 0 then 1 else 16 * Power16(k - 1)
  }

  lemma {:induction false} HexInverse(n: nat, width: nat)
    requires n < Power16(width)
    ensures IsHex(Hex(n, width)) && Value(Hex(n, width), 16) == n
    ensures forall i :: 0 <= i < width ==> Hex(n, width)[i] in DIGITS
  {
    hide Value, DigitOf;
    if width == 0 {
      EmptyValue(16);
    } else {
      DigitInverse(n % 16);
      HexInverse(n / 16, width - 1);
      ValueOfSnoc(Hex(n / 16, width - 1), DIGITS[n % 16], 16);
    }
  }

  lemma {:induction false} DecimalIsInjective(m: nat, n: nat)
    ensures Decimal(m) == Decimal(n) ==> m == n
  {
    DecimalInverse(m);
    DecimalInverse(n);
  }
}
