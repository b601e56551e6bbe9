/** Texts: white space around them, decimal numbers, and concatenation. */
module Texts {

  /* ---------- white space ---------- */

  predicate IsSpace(c: char) {
    var n := c as int;
    || 0x09 <= n <= 0x0D || 0x1C <= n <= 0x20 || n == 0x85 || n == 0xA0 || n == 0x1680
    || 0x2000 <= n <= 0x200A || n == 0x2028 || n == 0x2029 || n == 0x202F || n == 0x205F || n == 0x3000
  }

  function Stripped(text: string): string {
    if text != "" && IsSpace(text[0]) then Stripped(text[1..])
    else if text != "" && IsSpace(text[|text| - 1]) then Stripped(text[..|text| - 1])
    else text
  }

  /** A text with no white space at either end. */
  predicate IsNeat(line: string) {
    line != "" && !IsSpace(line[0]) && !IsSpace(line[|line| - 1])
  }

  lemma NeatIsStripped(text: string)
    requires text == "" || IsNeat(text)
    ensures Stripped(text) == text
  {
  }

  /* ---------- decimal numbers ---------- */

  function Digit(n: nat): char
    requires n < 10
  {
    "0123456789"[n]
  }

  function Digits(n: nat): string {
    if n < 10 then [Digit(n)] else Digits(n / 10) + [Digit(n % 10)]
  }

  predicate IsDigit(c: char) {
    '0' <= c <= '9'
  }

  function DigitValue(c: char): nat
    requires IsDigit(c)
  {
    c as int - '0' as int
  }

  function Number(digits: string): nat
    requires forall c :: c in digits ==> IsDigit(c)
  {
    if digits == "" then 0 else 10 * Number(digits[..|digits| - 1]) + DigitValue(digits[|digits| - 1])
  }

  lemma {:induction false} DigitsBack(n: nat)
    ensures Digits(n) != "" && forall c :: c in Digits(n) ==> IsDigit(c)
    ensures Number(Digits(n)) == n
    ensures Digits(n)[0] == '0' ==> n == 0
  {
    if n >= 10 {
      DigitsBack(n / 10);
      var digits := Digits(n);
      assert digits[..|digits| - 1] == Digits(n / 10);
      assert DigitValue(Digit(n % 10)) == n % 10;
    } else {
      assert Digits(n)[..0] == "" && Number("") == 0;
    }
  }

  /* ---------- concatenation ---------- */

  lemma Reassociate(a: string, b: string, c: string)
    ensures (a + b) + c == a + (b + c)
  {
  }

  lemma ReassociateAll(a: string, b: string, c: string, d: string, e: string)
    ensures a + b + c + d + e == a + (b + (c + d + e))
  {
    Reassociate(a, b, c);
    Reassociate(a, b + c, d);
    Reassociate(a, b + c + d, e);
    Reassociate(b, c, d);
    Reassociate(b, c + d, e);
  }

  lemma Behind(c: char, s: string)
    ensures ([c] + s)[0] == c && ([c] + s)[1..] == s
  {
  }
}
