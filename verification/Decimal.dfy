/** Decimal printing of natural numbers. */
module Decimal {
  import opened Characters

  function Digit(d: nat): (c: char)
    requires d < 10
    ensures IsAsciiDigit(c)
  {
    '0' + d as char
  }

  function Print(n: nat): string {
    if n < 10 then [Digit(n)] else Print(n / 10) + [Digit(n % 10)]
  }

  function Value(s: string): nat {
    if s == "" then 0
    else 10 * Value(s[..|s| - 1]) + (if IsAsciiDigit(s[|s| - 1]) then (s[|s| - 1] - '0') as nat else 0)
  }

  /** A printed number is made of digits, has no superfluous zero, and reads back. */
  lemma {:induction false} PrintedValue(n: nat)
    ensures Value(Print(n)) == n
    ensures Print(n) != "" && forall k :: 0 <= k < |Print(n)| ==> IsAsciiDigit(Print(n)[k])
    ensures Print(n)[0] == '0' ==> n == 0
  {
    if n < 10 {
      assert Print(n)[..0] == "";
    } else {
      PrintedValue(n / 10);
      assert Print(n)[..|Print(n)| - 1] == Print(n / 10);
    }
  }
}
