/** Positional notation as the serial printers write it, and reading it back. */
module Numerals {
  import opened Words

  function DigitChar(d: nat): char
    requires d < 16
  {
    if d < 10 then ('0' as int + d) as char else ('a' as int + (d - 10)) as char
  }

  predicate IsRadix(base: nat) {
    base == 10 || base == 16
  }

  /** The digits of `n`, most significant first. */
  function Numeral(n: nat, base: nat): (s: string)
    requires IsRadix(base)
    ensures s != ""
    decreases n
  {
    if n < base then [DigitChar(n)] else Numeral(n / base, base) + [DigitChar(n % base)]
  }

  /** What a character stands for; 16 when it is not a digit at all. */
  function DigitValue(c: char): nat {
    if '0' <= c <= '9' then c as int - '0' as int
    else if 'a' <= c <= 'f' then c as int - 'a' as int + 10
    else 16
  }

  predicate IsDigit(c: char, base: nat) {
    DigitValue(c) < base
  }

  predicate AllDigits(s: string, base: nat) {
    forall i :: 0 <= i < |s| ==> IsDigit(s[i], base)
  }

  function Value(s: string, base: nat): nat {
    if s == "" then 0 else Value(s[..|s| - 1], base) * base + DigitValue(s[|s| - 1])
  }

  lemma DigitsRoundTrip(d: nat, c: char)
    ensures d < 16 ==> DigitValue(DigitChar(d)) == d
    ensures DigitValue(c) < 16 ==> DigitChar(DigitValue(c)) == c
  {
  }

  /** Reading a printed number gives the number, and it was printed with digits of its base and no leading zero. */
  lemma {:induction false} NumeralReadsBack(n: nat, base: nat)
    requires IsRadix(base)
    ensures Value(Numeral(n, base), base) == n
    ensures AllDigits(Numeral(n, base), base)
    ensures Numeral(n, base)[0] == '0' <==> n == 0
    decreases n
  {
    if n < base {
      DigitsRoundTrip(n, '0');
      assert Numeral(n, base)[..0] == "";
    } else {
      var q := Numeral(n / base, base);
      NumeralReadsBack(n / base, base);
      DigitsRoundTrip(n % base, '0');
      assert Numeral(n, base)[..|q|] == q;
    }
  }

  predicate IsCanonical(s: string, base: nat) {
    s != "" && AllDigits(s, base) && (s[0] == '0' ==> |s| == 1)
  }

  lemma DivModOfDigit(v: nat, d: nat, base: nat)
    requires IsRadix(base) && d < base
    ensures (v * base + d) / base == v && (v * base + d) % base == d
    ensures v > 0 ==> v * base + d >= base
  {
    if base == 10 {
      assert (v * 10 + d) / 10 == v;
    } else {
      assert (v * 16 + d) / 16 == v;
    }
  }

  lemma {:induction false} LeadingDigit(s: string, base: nat)
    requires IsRadix(base) && s != "" && AllDigits(s, base) && s[0] != '0'
    ensures Value(s, base) > 0
    decreases |s|
  {
    if |s| == 1 {
      DigitsRoundTrip(0, s[0]);
    } else {
      LeadingDigit(s[..|s| - 1], base);
    }
  }

  /** The printer reaches every canonical digit string: printing what was read gives the string back. */
  lemma {:induction false} CanonicalPrintsBack(s: string, base: nat)
    requires IsRadix(base) && IsCanonical(s, base)
    ensures Numeral(Value(s, base), base) == s
    ensures |s| > 1 ==> Value(s, base) >= base
    decreases |s|
  {
    var last := s[|s| - 1];
    DigitsRoundTrip(DigitValue(last), last);
    assert IsDigit(last, base);
    if |s| == 1 {
      assert s[..0] == "";
      assert Value(s[..0], base) == 0;
    } else {
      var front := s[..|s| - 1];
      assert front[0] == s[0];
      CanonicalPrintsBack(front, base);
      LeadingDigit(front, base);
      DivModOfDigit(Value(front, base), DigitValue(last), base);
      assert s == front + [last];
    }
  }

  function Pow(base: nat, k: nat): nat {
    if k == 0 then 1 else base * Pow(base, k - 1)
  }

  /** A number below base^k prints in at most k digits. */
  lemma {:induction false} NumeralLength(n: nat, base: nat, k: nat)
    requires IsRadix(base) && k > 0 && n < Pow(base, k)
    ensures |Numeral(n, base)| <= k
    decreases k
  {
    if n >= base {
      assert k > 1;
      NumeralLength(n / base, base, k - 1);
    }
  }

  /** 64-bit values fit the printers' buffers of 20 decimal and 16 hexadecimal digits. */
  lemma {:induction false} WordsFitBuffers(n: U64)
    ensures |Numeral(n, 10)| <= 20
    ensures |Numeral(n, 16)| <= 16
  {
    assert Pow(10, 5) == 100000;
    assert Pow(10, 10) == 10000000000;
    assert Pow(10, 15) == 1000000000000000;
    assert Pow(10, 20) > U64_MAX;
    assert Pow(16, 8) == 0x1_0000_0000;
    assert Pow(16, 16) > U64_MAX;
    NumeralLength(n, 10, 20);
    NumeralLength(n, 16, 16);
  }
}
