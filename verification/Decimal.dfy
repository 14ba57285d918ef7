/** Decimal text: how numbers are written, padded and read back. */
module Decimal {
  predicate IsDigit(c: char) {
    '0' <= c <= '9'
  }

  predicate AllDigits(s: string) {
    forall i :: 0 <= i < |s| ==> IsDigit(s[i])
  }

  function DigitOf(d: nat): char
    requires d < 10
  {
    '0' + d as char
  }

  function DigitValue(c: char): nat
    requires IsDigit(c)
  {
    (c - '0') as nat
  }

  /** A number as the formatter writes it. */
  function Show(n: nat): string {
    if n < 10 then [DigitOf(n)] else Show(n / 10) + [DigitOf(n % 10)]
  }

  function Value(s: string): nat
    requires AllDigits(s)
  {
    if s == [] then 0 else Value(s[..|s| - 1]) * 10 + DigitValue(s[|s| - 1])
  }

  function Pow10(w: nat): nat {
    if w == 0 then 1 else 10 * Pow10(w - 1)
  }

  lemma {:induction false} ShowExact(n: nat)
    ensures Show(n) != [] && AllDigits(Show(n)) && Value(Show(n)) == n
    ensures Show(n)[0] == '0' ==> n == 0
  {
    if n >= 10 {
      ShowExact(n / 10);
      assert Show(n)[..|Show(n)| - 1] == Show(n / 10);
    }
  }

  lemma {:induction false} ShowLength(n: nat, w: nat)
    requires w > 0
    ensures |Show(n)| <= w <==> n < Pow10(w)
  {
    if w == 1 {
      assert Pow10(1) == 10;
      if n >= 10 {
        ShowExact(n / 10);
      }
    } else if n < 10 {
      assert Pow10(w) == 10 * Pow10(w - 1);
      PowPositive(w - 1);
    } else {
      ShowLength(n / 10, w - 1);
      assert Pow10(w) == 10 * Pow10(w - 1);
    }
  }

  lemma {:induction false} PowPositive(w: nat)
    ensures Pow10(w) >= 1
  {
    if w > 0 {
      PowPositive(w - 1);
    }
  }

  function Zeros(k: nat): string {
    seq(k, _ => '0')
  }

  /** At least `w` digits, zeros first. */
  function Pad(n: nat, w: nat): string {
    Zeros(if |Show(n)| < w then w - |Show(n)| else 0) + Show(n)
  }

  lemma {:induction false} LeadingZeros(k: nat, s: string)
    requires AllDigits(s)
    ensures AllDigits(Zeros(k) + s) && Value(Zeros(k) + s) == Value(s)
  {
    if s == [] {
      if k > 0 {
        LeadingZeros(k - 1, []);
        assert Zeros(k)[..k - 1] == Zeros(k - 1) + [];
        assert Zeros(k) + s == Zeros(k);
      }
    } else {
      LeadingZeros(k, s[..|s| - 1]);
      assert (Zeros(k) + s)[..|Zeros(k) + s| - 1] == Zeros(k) + s[..|s| - 1];
    }
  }

  lemma PadExact(n: nat, w: nat)
    requires w > 0
    ensures AllDigits(Pad(n, w)) && Value(Pad(n, w)) == n
    ensures |Pad(n, w)| >= w && (|Pad(n, w)| == w <==> n < Pow10(w))
    ensures Pow10(2) == 100 && Pow10(3) == 1000 && Pow10(4) == 10000
  {
    ShowExact(n);
    ShowLength(n, w);
    LeadingZeros(if |Show(n)| < w then w - |Show(n)| else 0, Show(n));
    assert Pow10(1) == 10 && Pow10(2) == 100 && Pow10(3) == 1000;
  }
}
