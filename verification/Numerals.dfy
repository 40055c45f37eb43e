/** Digit strings: their order, and the numbers that they stand for. */
module Numerals {
  import opened Common
  import opened Texts

  /** Digit strings: length first, then text. */
  function CompareNumericIdentifier(left: string, right: string): int {
    if |left| != |right| then if |left| < |right| then -1 else 1
    else CompareText(left, right)
  }

  lemma NumericOrderIsTotal()
    ensures TotalOrder(CompareNumericIdentifier)
  {
    TextOrderIsTotal();
  }

  predicate IsDigit(c: char) {
    '0' <= c <= '9'
  }

  predicate IsNumeric(id: string) {
    id != "" && forall i :: 0 <= i < |id| ==> IsDigit(id[i])
  }

  predicate IsNumeral(id: string) {
    IsNumeric(id) && (|id| == 1 || id[0] != '0')
  }

  // ----- Numbers ---------------------------------------------------------------------------------------------

  function Pow10(n: nat): (p: nat)
    ensures p >= 1
  {
    if n == 0 then 1 else 10 * Pow10(n - 1)
  }

  function DigitOf(c: char): (d: nat)
    requires IsDigit(c)
    ensures d <= 9
  {
    c as int - '0' as int
  }

  predicate AreDigits(s: string) {
    forall i :: 0 <= i < |s| ==> IsDigit(s[i])
  }

  /** The number that a digit string stands for. */
  function NumberOf(s: string): nat
    requires AreDigits(s)
  {
    if s == "" then 0 else DigitOf(s[0]) * Pow10(|s| - 1) + NumberOf(s[1..])
  }

  lemma {:induction false} Multiply(a: nat, b: nat, p: nat)
    requires a < b
    ensures a * p + p <= b * p
  {
    assert b * p == (b - 1) * p + p;
    if a < b - 1 {
      Multiply(a, b - 1, p);
    }
  }

  lemma {:induction false} NumberBounds(s: string)
    requires AreDigits(s)
    ensures NumberOf(s) < Pow10(|s|)
    ensures s != "" && s[0] != '0' ==> NumberOf(s) >= Pow10(|s| - 1)
  {
    if s != "" {
      NumberBounds(s[1..]);
      Multiply(DigitOf(s[0]), 10, Pow10(|s| - 1));
      if s[0] != '0' {
        Multiply(0, DigitOf(s[0]), Pow10(|s| - 1));
      }
    }
  }

  lemma {:induction false} PowersRise(m: nat, n: nat)
    requires m <= n
    ensures Pow10(m) <= Pow10(n)
  {
    if m < n {
      PowersRise(m, n - 1);
    }
  }

  function CompareIntegers(a: int, b: int): int {
    if a < b then -1 else if a == b then 0 else 1
  }

  /** Of digit strings of one length, the order of texts is that of the numbers. */
  lemma {:induction false} TextOrderIsNumberOrder(a: string, b: string)
    requires AreDigits(a) && AreDigits(b) && |a| == |b|
    ensures CompareText(a, b) == CompareIntegers(NumberOf(a), NumberOf(b))
  {
    if a != "" {
      var p := Pow10(|a| - 1);
      NumberBounds(a[1..]);
      NumberBounds(b[1..]);
      if a[0] == b[0] {
        TextOrderIsNumberOrder(a[1..], b[1..]);
      } else if a[0] < b[0] {
        Multiply(DigitOf(a[0]), DigitOf(b[0]), p);
      } else {
        Multiply(DigitOf(b[0]), DigitOf(a[0]), p);
      }
    }
  }

  /** Length, then text, is the order of numbers on numerals without leading zeros. */
  lemma NumericOrderIsNumberOrder(a: string, b: string)
    requires IsNumeral(a) && IsNumeral(b)
    ensures CompareNumericIdentifier(a, b) == CompareIntegers(NumberOf(a), NumberOf(b))
  {
    if |a| == |b| {
      TextOrderIsNumberOrder(a, b);
    } else if |a| < |b| {
      ShorterIsLess(a, b);
    } else {
      ShorterIsLess(b, a);
    }
  }

  lemma ShorterIsLess(a: string, b: string)
    requires IsNumeral(a) && IsNumeral(b) && |a| < |b|
    ensures NumberOf(a) < NumberOf(b)
  {
    NumberBounds(a);
    NumberBounds(b);
    PowersRise(|a|, |b| - 1);
  }

  function Nines(n: nat): (s: string)
    ensures |s| == n && AreDigits(s) && NumberOf(s) == Pow10(n) - 1
    ensures n > 0 ==> s[0] == '9'
  {
    if n == 0 then "" else
      assert (['9'] + Nines(n - 1))[1..] == Nines(n - 1);
      ['9'] + Nines(n - 1)
  }

  /**
   A digit string compares with every numeral as its number does exactly if it has no leading zero.
   The pattern for versions lets pre-release identifiers have one, which SemVer does not.
   */
  lemma LeadingZeroExactly(a: string)
    requires IsNumeric(a)
    ensures (forall b :: IsNumeral(b) ==> CompareNumericIdentifier(a, b) == CompareIntegers(NumberOf(a), NumberOf(b)))
            <==> IsNumeral(a)
  {
    if IsNumeral(a) {
      forall b | IsNumeral(b) ensures CompareNumericIdentifier(a, b) == CompareIntegers(NumberOf(a), NumberOf(b)) {
        NumericOrderIsNumberOrder(a, b);
      }
    } else {
      var b := Nines(|a| - 1);
      NumberBounds(a[1..]);
      assert IsNumeral(b) && CompareNumericIdentifier(a, b) == 1;
      assert NumberOf(a) <= NumberOf(b);
    }
  }
}
