/** printf's %d and %u of a number that is not negative */
module Decimals {

  function Decimal(n: nat): (s: string)
    ensures |s| >= 1
  {
    if n < 10 then [Digit(n)] else Decimal(n / 10) + [Digit(n % 10)]
  }

  function Digit(d: nat): char
    requires d < 10
  {
    '0' + d as char
  }

  /** The number that a string of digits spells, read from left to right */
  function Number(s: string, n: int := 0): int {
    if s == [] then n else Number(s[1..], 10 * n + (s[0] as int - '0' as int))
  }

  lemma {:induction false} NumberAppend(s: string, c: char, n: int)
    ensures Number(s + [c], n) == 10 * Number(s, n) + (c as int - '0' as int)
  {
    if s == [] {
      assert [c][1..] == [];
    } else {
      assert (s + [c])[1..] == s[1..] + [c];
      NumberAppend(s[1..], c, 10 * n + (s[0] as int - '0' as int));
    }
  }

  /** It is the number that is spelled, in digits only, and with a leading zero only for 0 itself. */
  lemma {:induction false} DecimalReads(n: nat)
    ensures Number(Decimal(n)) == n
    ensures forall i | 0 <= i < |Decimal(n)| :: '0' <= Decimal(n)[i] <= '9'
    ensures Decimal(n)[0] == '0' <==> n == 0
  {
    if n >= 10 {
      DecimalReads(n / 10);
      NumberAppend(Decimal(n / 10), Digit(n % 10), 0);
    } else {
      assert [Digit(n)][1..] == [];
    }
  }

  lemma {:induction false} DecimalInjective(m: nat, n: nat)
    requires Decimal(m) == Decimal(n)
    ensures m == n
  {
    DecimalReads(m);
    DecimalReads(n);
  }
}
