/** Numbers printed in decimal and read back. */
module Decimals {
  import opened Prelude

  function Digit(n: nat): char
    requires n < 10
  {
    '0' + n as char
  }

  predicate IsDigit(c: char) {
    '0' <= c <= '9'
  }

  function DigitValue(c: char): nat
    requires IsDigit(c)
  {
    c as nat - '0' as nat
  }

  /** Decimal digits, no leading zeros. */
  function Decimal(n: nat): (s: string)
    ensures s != ""
  {
    if n < 10 then [Digit(n)] else Decimal(n / 10) + [Digit(n % 10)]
  }

  predicate AllDigits(s: string) {
    forall c :: c in s ==> IsDigit(c)
  }

  /** The number a string of digits stands for, leading zeros or not. */
  function ValueOf(s: string): nat
    requires AllDigits(s)
  {
    if s == "" then 0
    else
      assert s[|s| - 1] in s;
      10 * ValueOf(s[..|s| - 1]) + DigitValue(s[|s| - 1])
  }

  lemma {:induction false} ValueAppend(s: string, d: nat)
    requires AllDigits(s) && d < 10
    ensures AllDigits(s + [Digit(d)]) && ValueOf(s + [Digit(d)]) == 10 * ValueOf(s) + d
  {
    assert (s + [Digit(d)])[..|s|] == s;
    assert Digit(d) as int == '0' as int + d;
  }

  lemma {:induction false} DecimalReadsBack(n: nat)
    ensures AllDigits(Decimal(n)) && ValueOf(Decimal(n)) == n
  {
    if n < 10 {
      ValueAppend("", n);
      assert "" + [Digit(n)] == [Digit(n)];
    } else {
      DecimalReadsBack(n / 10);
      ValueAppend(Decimal(n / 10), n % 10);
    }
  }

  lemma {:induction false} DecimalInjective(m: nat, n: nat)
    requires Decimal(m) == Decimal(n)
    ensures m == n
  {
    DecimalReadsBack(m);
    DecimalReadsBack(n);
  }

  function Pow10(w: nat): (p: nat)
    ensures p >= 1
  {
    if w == 0 then 1 else 10 * Pow10(w - 1)
  }

  function Zeros(k: nat): string {
    seq(k, _ => '0')
  }

  /** At least `w` characters, filled with zeros on the left. */
  function Padded(w: nat, n: nat): string {
    var d := Decimal(n);
    if |d| < w then Zeros(w - |d|) + d else d
  }

  lemma ZerosEnd(k: nat)
    requires k > 0
    ensures Zeros(k) == Zeros(k - 1) + ['0'] == ['0'] + Zeros(k - 1)
  {
  }

  /** A padded number is its last digit after the padding of the rest. */
  lemma PaddedStep(w: nat, n: nat)
    requires w >= 2
    ensures Padded(w, n) == Padded(w - 1, n / 10) + [Digit(n % 10)]
  {
    if n < 10 {
      assert Decimal(n / 10) == "0" && Decimal(n) == [Digit(n % 10)];
      ZerosEnd(w - 1);
    }
  }

  lemma {:induction false} PaddedLength(w: nat, n: nat)
    requires w >= 1 && n < Pow10(w)
    ensures |Padded(w, n)| == w
  {
    if w >= 2 {
      PaddedLength(w - 1, n / 10);
      PaddedStep(w, n);
    }
  }

  lemma {:induction false} PaddedReadsBack(w: nat, n: nat)
    requires w >= 1
    ensures AllDigits(Padded(w, n)) && ValueOf(Padded(w, n)) == n
    decreases w
  {
    if w >= 2 {
      PaddedReadsBack(w - 1, n / 10);
      PaddedStep(w, n);
      ValueAppend(Padded(w - 1, n / 10), n % 10);
    } else {
      DecimalReadsBack(n);
    }
  }
}
