/** Decimal rendering of integers (`str(int)`), used by digests and by sort keys. */
module Decimal {

  function Digit(d: nat): char
    requires d < 10
  {
    '0' + d as char
  }

  function DigitValue(c: char): nat
    requires '0' <= c <= '9'
  {
    (c - '0') as nat
  }

  predicate AllDigits(s: string) { forall i | 0 <= i < |s| :: '0' <= s[i] <= '9' }

  function Digits(n: nat): (s: string)
    ensures s != [] && AllDigits(s)
  {
    if n < 10 then [Digit(n)] else Digits(n / 10) + [Digit(n % 10)]
  }

  /** The number a digit string denotes. */
  function Value(s: string): nat
    requires AllDigits(s)
  {
    if s == [] then 0 else 10 * Value(s[..|s| - 1]) + DigitValue(s[|s| - 1])
  }

  lemma {:induction false} ValueOfDigits(n: nat)
    ensures Value(Digits(n)) == n
  {
    if n >= 10 {
      ValueOfDigits(n / 10);
      assert Digits(n)[..|Digits(n)| - 1] == Digits(n / 10);
    } else {
      assert Digits(n)[..0] == [];
    }
  }

  /** `str(i)` */
  function Render(i: int): string {
    if i < 0 then "-" + Digits(-i) else Digits(i)
  }

  lemma RenderInjective(i: int, j: int)
    requires Render(i) == Render(j)
    ensures i == j
  {
    var a, b := if i < 0 then -i else i, if j < 0 then -j else j;
    ValueOfDigits(a);
    ValueOfDigits(b);
    hide Digits;
    assert (i < 0) == (Render(i)[0] == '-') == (j < 0);
    if i < 0 {
      assert Render(i)[1..] == Digits(a) && Render(j)[1..] == Digits(b);
    }
  }

  lemma RenderChars(i: int)
    ensures forall c | c in Render(i) :: c == '-' || '0' <= c <= '9'
  {
  }
}
