/** Decimal text as the C++ library writes and reads it: `std::to_string` of an unsigned value and
  `std::from_chars` into 32 bits when it must consume the whole text. */
module Decimal {
  import opened Words

  predicate IsDigit(c: char) { '0' <= c <= '9' }

  predicate AllDigits(s: string) { forall i :: 0 <= i < |s| ==> IsDigit(s[i]) }

  function DigitOf(c: char): nat
    requires IsDigit(c)
  {
    c as int - '0' as int
  }

  function Digits(n: nat): string
  {
    if n < 10 then [('0' as int + n) as char] else Digits(n / 10) + [('0' as int + n % 10) as char]
  }

  function ValueOf(s: string): nat
    requires AllDigits(s)
  {
    if s == [] then 0 else ValueOf(s[..|s| - 1]) * 10 + DigitOf(s[|s| - 1])
  }

  function FromChars(s: string): Option<nat>
  {
    if s == [] || !AllDigits(s) || ValueOf(s) >= U32_LIMIT then None else Some(ValueOf(s))
  }

  /** Printing gives a non-empty run of digits that stands for the number. */
  lemma {:induction false} DigitsValue(n: nat)
    ensures Digits(n) != [] && AllDigits(Digits(n)) && ValueOf(Digits(n)) == n
    ensures n != 0 ==> Digits(n)[0] != '0'
  {
    if n >= 10 {
      DigitsValue(n / 10);
      assert Digits(n)[..|Digits(n)| - 1] == Digits(n / 10);
    }
  }

  /** A printed number is read back exactly when it fits in 32 bits. */
  lemma FromCharsOfDigits(n: nat)
    ensures FromChars(Digits(n)) == if n < U32_LIMIT then Some(n) else None
  {
    DigitsValue(n);
  }
}
