/// Decimal digit strings: the part of Python's `str.isdigit` and `int(...)`
/// that the calculator relies on, restricted to the ASCII digits '0'..'9'.

module Digits {

  predicate IsDigit(c: char) {
    '0' <= c <= '9'
  }

  predicate AllDigits(s: string) {
    forall i :: 0 <= i < |s| ==> IsDigit(s[i])
  }

  /** `s.isdigit()` on ASCII text: non-empty and made of digits only. */
  predicate IsDigitString(s: string) {
    |s| > 0 && AllDigits(s)
  }

  function DigitValue(c: char): (d: nat)
    requires IsDigit(c)
    ensures d < 10
  {
    c as int - '0' as int
  }

  function DigitChar(d: nat): (c: char)
    requires d < 10
    ensures IsDigit(c) && DigitValue(c) == d
  {
    ('0' as int + d) as char
  }

  function Pow10(n: nat): (r: nat)
    ensures r >= 1
  {
    if n == 0 then 1 else 10 * Pow10(n - 1)
  }

  /** The value `int(ds)` gives a digit string, read from left to right;
      leading zeros are allowed and add nothing. */
  function DigitsValue(ds: string): (v: nat)
    requires AllDigits(ds)
    ensures v < Pow10(|ds|)
  {
    if |ds| == 0 then 0
    else 10 * DigitsValue(ds[..|ds| - 1]) + DigitValue(ds[|ds| - 1])
  }

  lemma ConsAllDigits(d: char, ds: string)
    requires IsDigit(d) && AllDigits(ds)
    ensures AllDigits([d] + ds)
  {
    var s := [d] + ds;
    forall i | 0 <= i < |s| ensures IsDigit(s[i]) {
      if i > 0 { assert s[i] == ds[i - 1]; }
    }
  }

  lemma ShiftWeight(d: nat, p: nat)
    ensures d * (10 * p) == 10 * (d * p)
  {
  }

  /** The most significant digit contributes its weight, the rest their own value. */
  lemma {:induction false} DigitsValueCons(d: char, ds: string)
    requires IsDigit(d) && AllDigits(ds)
    ensures AllDigits([d] + ds)
    ensures DigitsValue([d] + ds) == DigitValue(d) * Pow10(|ds|) + DigitsValue(ds)
  {
    ConsAllDigits(d, ds);
    if |ds| > 0 {
      var init, last := ds[..|ds| - 1], ds[|ds| - 1];
      assert ([d] + ds)[..|ds|] == [d] + init;
      assert AllDigits(init);
      DigitsValueCons(d, init);
      assert DigitsValue([d] + ds) == 10 * DigitsValue([d] + init) + DigitValue(last);
      assert Pow10(|ds|) == 10 * Pow10(|init|);
      ShiftWeight(DigitValue(d), Pow10(|init|));
    }
  }

  /** Any number of leading zeros leaves the value unchanged ("007" is 7). */
  lemma {:induction false} LeadingZeros(zeros: string, ds: string)
    requires forall i :: 0 <= i < |zeros| ==> zeros[i] == '0'
    requires AllDigits(ds)
    ensures AllDigits(zeros + ds)
    ensures DigitsValue(zeros + ds) == DigitsValue(ds)
  {
    if |zeros| > 0 {
      var rest := zeros[1..];
      LeadingZeros(rest, ds);
      assert zeros + ds == ['0'] + (rest + ds);
      DigitsValueCons('0', rest + ds);
      assert DigitValue('0') * Pow10(|rest + ds|) == 0;
    } else {
      assert zeros + ds == ds;
    }
  }

  /** The decimal text of a natural number, as `str(n)` writes it. */
  function ShowNat(n: nat): (s: string)
    ensures IsDigitString(s)
  {
    if n < 10 then [DigitChar(n)] else ShowNat(n / 10) + [DigitChar(n % 10)]
  }

  /** Reading back the decimal text of `n` gives `n`. */
  lemma {:induction false} ShowNatRoundTrip(n: nat)
    ensures DigitsValue(ShowNat(n)) == n
  {
    if n >= 10 {
      var s := ShowNat(n);
      assert s[..|s| - 1] == ShowNat(n / 10);
      ShowNatRoundTrip(n / 10);
    }
  }
}
