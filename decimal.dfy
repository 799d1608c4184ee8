/** Go's `%d` formatting of an integer, with the parser that inverts it. */
module Decimal {

  predicate IsDigit(c: char)
  {
    '0' <= c <= '9'
  }

  function NatDigits(n: nat): (s: string)
    ensures |s| >= 1
    ensures forall i | 0 <= i < |s| :: IsDigit(s[i])
    ensures s[0] == '0' ==> n == 0
    decreases n
  {
    if n < 10 then [('0' as int + n) as char]
    else NatDigits(n / 10) + [('0' as int + n % 10) as char]
  }

  /** fmt.Sprintf("%d", n): optional minus sign, then the digits of |n|. */
  function Format(n: int): (s: string)
    ensures |s| >= 1
  {
    if n < 0 then "-" + NatDigits(-n) else NatDigits(n)
  }

  function DigitsValue(s: string): nat
    requires forall i | 0 <= i < |s| :: IsDigit(s[i])
    decreases |s|
  {
    if s == [] then 0
    else
      assert IsDigit(s[|s| - 1]);
      DigitsValue(s[..|s| - 1]) * 10 + (s[|s| - 1] as int - '0' as int)
  }

  /** Reads back what Format writes. */
  function Parse(s: string): int
    requires |s| >= 1
    requires s[0] == '-' || IsDigit(s[0])
    requires forall i | 1 <= i < |s| :: IsDigit(s[i])
  {
    if s[0] == '-' then 0 - DigitsValue(s[1..]) as int else DigitsValue(s)
  }

  lemma {:induction false} DigitsValueOfNat(n: nat)
    ensures DigitsValue(NatDigits(n)) == n
    decreases n
  {
    if n >= 10 {
      var s := NatDigits(n);
      assert s[..|s| - 1] == NatDigits(n / 10);
      DigitsValueOfNat(n / 10);
    }
  }

  lemma FormatParse(n: int)
    ensures var s := Format(n);
            (s[0] == '-' || IsDigit(s[0])) && (forall i | 1 <= i < |s| :: IsDigit(s[i]))
            && Parse(s) == n
  {
    var s := Format(n);
    if n < 0 {
      assert s[1..] == NatDigits(-n);
      DigitsValueOfNat(-n);
    } else {
      DigitsValueOfNat(n);
    }
  }
}
