/** Decimal numbers as text. */
module Decimals {

  function Digit(d: nat): char
    requires d < 10
  {
    '0' + d as char
  }

  function Decimal(n: nat): string {
    if n < 10 then [Digit(n)] else Decimal(n / 10) + [Digit(n % 10)]
  }

  predicate IsDigits(s: string) {
    forall i :: 0 <= i < |s| ==> '0' <= s[i] <= '9'
  }

  function Number(s: string): nat
    requires IsDigits(s)
  {
    if s == [] then 0 else Number(s[..|s| - 1]) * 10 + (s[|s| - 1] - '0') as nat
  }

  lemma {:induction false} DecimalReads(n: nat)
    ensures IsDigits(Decimal(n)) && Number(Decimal(n)) == n
  {
    if n >= 10 {
      DecimalReads(n / 10);
      assert Decimal(n)[..|Decimal(n)| - 1] == Decimal(n / 10);
    }
  }

  /** %d of fmt. */
  function Signed(n: int): string {
    if n < 0 then "-" + Decimal(-n) else Decimal(n)
  }

  lemma SignedIdentifies(n: int, m: int)
    requires Signed(n) == Signed(m)
    ensures n == m
  {
    DecimalReads(if n < 0 then -n else n);
    DecimalReads(if m < 0 then -m else m);
    FirstDigit(if n < 0 then -n else n);
    FirstDigit(if m < 0 then -m else m);
    if n < 0 && m < 0 {
      assert Signed(n)[1..] == Decimal(-n) && Signed(m)[1..] == Decimal(-m);
    }
  }

  lemma {:induction false} FirstDigit(n: nat)
    ensures Decimal(n) != [] && '0' <= Decimal(n)[0] <= '9'
  {
    DecimalReads(n);
  }
}
