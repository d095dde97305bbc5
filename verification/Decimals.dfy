/** Decimal text of naturals. */
module Decimals {

  import opened Arith

  function DigitOf(d: nat): (c: char)
    requires d < 10
    ensures '0' <= c <= '9'
  {
    ('0' as int + d) as char
  }

  function Decimal(n: nat): (s: string)
    ensures s != []
    ensures forall i | 0 <= i < |s| :: '0' <= s[i] <= '9'
  {
    if n < 10 then [DigitOf(n)] else Decimal(n / 10) + [DigitOf(n % 10)]
  }

  function Zeros(n: nat): string {
    seq(n, i => '0')
  }

  /** At least width digits, padded with zeros on the left. */
  function Padded(n: nat, width: nat): (s: string)
    ensures |s| >= width
    ensures forall i | 0 <= i < |s| :: '0' <= s[i] <= '9'
  {
    var digits := Decimal(n);
    if |digits| >= width then digits else Zeros(width - |digits|) + digits
  }

  /** The number a digit string denotes. */
  function ValueOf(s: string): int {
    if s == [] then 0 else 10 * ValueOf(s[..|s| - 1]) + (s[|s| - 1] as int - '0' as int)
  }

  lemma {:induction false} ValueOfDecimal(n: nat)
    ensures ValueOf(Decimal(n)) == n
  {
    if n >= 10 {
      ValueOfDecimal(n / 10);
      var s := Decimal(n);
      assert s[..|s| - 1] == Decimal(n / 10);
      DivMod(n, 10);
    } else {
      var s := Decimal(n);
      assert s[..0] == [] && ValueOf(s[..0]) == 0;
    }
  }

  lemma {:induction false} ValueOfZeros(k: nat, s: string)
    ensures ValueOf(Zeros(k) + s) == ValueOf(s)
    decreases |s|, k
  {
    if s != [] {
      var t := Zeros(k) + s;
      assert t[..|t| - 1] == Zeros(k) + s[..|s| - 1];
      ValueOfZeros(k, s[..|s| - 1]);
    } else if k > 0 {
      assert Zeros(k) + s == Zeros(k - 1) + "0";
      var t := Zeros(k) + s;
      assert t[..|t| - 1] == Zeros(k - 1) + s;
      ValueOfZeros(k - 1, s);
    }
  }

  lemma ValueOfPadded(n: nat, width: nat)
    ensures ValueOf(Padded(n, width)) == n
  {
    ValueOfDecimal(n);
    var s := Decimal(n);
    if |s| < width {
      ValueOfZeros(width - |s|, s);
    }
  }

  function Pow10(n: nat): (p: nat)
    ensures p > 0
  {
    if n == 0 then 1 else 10 * Pow10(n - 1)
  }

  lemma {:induction false} DecimalLength(n: nat, width: nat)
    requires width > 0 && n < Pow10(width)
    ensures |Decimal(n)| <= width
  {
    if n >= 10 {
      DivMod(n, 10);
      assert width > 1 by { assert Pow10(1) == 10; }
      DecimalLength(n / 10, width - 1);
    }
  }

  /** A number that fits has exactly the width it is padded to. */
  lemma PaddedLength(n: nat, width: nat)
    requires width > 0 && n < Pow10(width)
    ensures |Padded(n, width)| == width
  {
    DecimalLength(n, width);
  }

  predicate IsDigit(c: char) {
    '0' <= c <= '9'
  }

  predicate AllDigits(s: string) {
    forall i | 0 <= i < |s| :: IsDigit(s[i])
  }

  lemma {:induction false} ValueOfBounds(s: string)
    requires AllDigits(s)
    ensures 0 <= ValueOf(s) < Pow10(|s|)
  {
    if s != [] {
      ValueOfBounds(s[..|s| - 1]);
    }
  }

  /** Where the run of digits from i ends. */
  function DigitsEnd(text: string, i: nat): (e: nat)
    requires i <= |text|
    ensures i <= e <= |text| && (forall k | i <= k < e :: IsDigit(text[k])) && (e < |text| ==> !IsDigit(text[e]))
    decreases |text| - i
  {
    if i == |text| || !IsDigit(text[i]) then i
    else DigitsEnd(text, i + 1)
  }

  lemma {:induction false} DigitsEndHere(text: string, i: nat, e: nat)
    requires i <= e <= |text| && AllDigits(text[i..e]) && (e < |text| ==> !IsDigit(text[e]))
    ensures DigitsEnd(text, i) == e
    decreases e - i
  {
    if i < e {
      assert text[i..e][0] == text[i];
      assert text[i + 1..e] == text[i..e][1..];
      DigitsEndHere(text, i + 1, e);
    }
  }
}
