/** Decimal text for the "YYYY-MM-DD" and "M/D" day formats: how dayjs writes a
    number (its `padStart` helper pads on the left to a minimum width) and how a
    run of digits is read back. */
module Decimal {

  predicate IsDigit(c: char) { '0' <= c <= '9' }

  predicate AllDigits(s: string) { forall i :: 0 <= i < |s| ==> IsDigit(s[i]) }

  function DigitChar(n: int): (c: char)
    requires 0 <= n < 10
    ensures IsDigit(c) && c as int - '0' as int == n
  {
    ('0' as int + n) as char
  }

  function DigitValue(c: char): int
    requires IsDigit(c)
  {
    c as int - '0' as int
  }

  function Pow10(k: nat): (p: nat)
    ensures p >= 1
  {
    if k == 0 then 1 else 10 * Pow10(k - 1)
  }

  /** The decimal form of a natural number, without leading zeros. */
  function ShowNat(n: nat): (s: string)
    decreases n
  {
    if n < 10 then [DigitChar(n)] else ShowNat(n / 10) + [DigitChar(n % 10)]
  }

  /** JavaScript's `String(n)` for an integer: a minus sign before a negative one. */
  function ShowInt(n: int): string
  {
    if n < 0 then "-" + ShowNat(-n) else ShowNat(n)
  }

  /** dayjs's `padStart(string, length, pad)`: the text is kept when it is long
      enough, otherwise `pad` is repeated on its left up to `width` characters. */
  function PadStart(s: string, width: nat, pad: char): (r: string)
    ensures |r| == if |s| >= width then |s| else width
    ensures r[|r| - |s|..] == s
    ensures forall i :: 0 <= i < |r| - |s| ==> r[i] == pad
  {
    if |s| >= width then s else seq(width - |s|, _ => pad) + s
  }

  /** Reads a run of digits as a number (most significant digit first). */
  function ParseDigits(s: string): nat
    requires AllDigits(s)
  {
    if s == [] then 0 else ParseDigits(s[..|s| - 1]) * 10 + DigitValue(s[|s| - 1])
  }

  lemma {:induction false} ShowNatReadsBack(n: nat)
    ensures 1 <= |ShowNat(n)|
    ensures AllDigits(ShowNat(n))
    ensures ParseDigits(ShowNat(n)) == n
    decreases n
  {
    if n >= 10 {
      ShowNatReadsBack(n / 10);
      var s := ShowNat(n);
      assert s[..|s| - 1] == ShowNat(n / 10);
    }
  }

  lemma {:induction false} ShowNatFits(n: nat, w: nat)
    requires 1 <= w && n < Pow10(w)
    ensures |ShowNat(n)| <= w
    decreases w
  {
    if n >= 10 {
      ShowNatFits(n / 10, w - 1);
    }
  }

  lemma {:induction false} LeadingZerosReadBack(z: string, s: string)
    requires forall i :: 0 <= i < |z| ==> z[i] == '0'
    requires AllDigits(s)
    ensures AllDigits(z + s)
    ensures ParseDigits(z + s) == ParseDigits(s)
    decreases |s|
  {
    if s == [] {
      LeadingZerosAreZero(z);
      assert z + s == z;
    } else {
      var t := s[..|s| - 1];
      LeadingZerosReadBack(z, t);
      assert (z + s)[..|z + s| - 1] == z + t;
    }
  }

  lemma {:induction false} LeadingZerosAreZero(z: string)
    requires forall i :: 0 <= i < |z| ==> z[i] == '0'
    ensures AllDigits(z) && ParseDigits(z) == 0
    decreases |z|
  {
    if z != [] {
      LeadingZerosAreZero(z[..|z| - 1]);
    }
  }

  /** A number below 10^w, written as dayjs writes it with `padStart(n, w, '0')`,
      takes exactly `w` digits and reads back as the same number. */
  lemma PaddedReadsBack(n: nat, w: nat)
    requires 1 <= w && n < Pow10(w)
    ensures |PadStart(ShowNat(n), w, '0')| == w
    ensures AllDigits(PadStart(ShowNat(n), w, '0'))
    ensures ParseDigits(PadStart(ShowNat(n), w, '0')) == n
  {
    var s := ShowNat(n);
    ShowNatReadsBack(n);
    ShowNatFits(n, w);
    if |s| < w {
      var z := seq(w - |s|, _ => '0');
      LeadingZerosReadBack(z, s);
    }
  }
}
