/** Base-10 text of integers, as Java's Integer.toString writes it (the form
    string concatenation `"…" + n` produces), zero padding, and the parse
    back from text. */
module Decimal {
  import opened Wrappers

  predicate IsDigit(c: char) {
    '0' <= c <= '9'
  }

  predicate AllDigits(s: string) {
    forall i :: 0 <= i < |s| ==> IsDigit(s[i])
  }

  function DigitValue(c: char): (v: int)
    requires IsDigit(c)
    ensures 0 <= v < 10
  {
    c as int - '0' as int
  }

  function DigitChar(v: int): (c: char)
    requires 0 <= v < 10
    ensures IsDigit(c) && DigitValue(c) == v
  {
    ('0' as int + v) as char
  }

  /** Digits of n, most significant first, without leading zeros. */
  function Digits(n: nat): (s: string)
    ensures |s| >= 1 && AllDigits(s)
    ensures s[0] == '0' ==> n == 0
  {
    if n < 10 then [DigitChar(n)] else Digits(n / 10) + [DigitChar(n % 10)]
  }

  /** The number a string of digits denotes (leading zeros allowed). */
  function Value(s: string): nat
    requires AllDigits(s)
  {
    if |s| == 0 then 0 else 10 * Value(s[..|s| - 1]) + DigitValue(s[|s| - 1])
  }

  lemma {:induction false} ValueOfDigits(n: nat)
    ensures Value(Digits(n)) == n
  {
    if n >= 10 {
      var s := Digits(n);
      assert s[..|s| - 1] == Digits(n / 10);
      ValueOfDigits(n / 10);
    }
  }

  /** A leading zero does not change the value of a digit string. */
  lemma {:induction false} ValueLeadingZero(s: string)
    requires AllDigits(s)
    ensures AllDigits(['0'] + s) && Value(['0'] + s) == Value(s)
    decreases |s|
  {
    if |s| > 0 {
      var z := ['0'] + s;
      assert z[..|z| - 1] == ['0'] + s[..|s| - 1];
      ValueLeadingZero(s[..|s| - 1]);
    }
  }

  function Zeros(k: nat): (z: string)
    ensures |z| == k && AllDigits(z)
  {
    if k == 0 then [] else ['0'] + Zeros(k - 1)
  }

  lemma {:induction false} ValueLeadingZeros(k: nat, s: string)
    requires AllDigits(s)
    ensures AllDigits(Zeros(k) + s) && Value(Zeros(k) + s) == Value(s)
  {
    if k > 0 {
      ValueLeadingZeros(k - 1, s);
      var rest := Zeros(k - 1) + s;
      assert Zeros(k) + s == ['0'] + rest;
      ValueLeadingZero(rest);
    } else {
      assert Zeros(k) + s == s;
    }
  }

  /** Left-pads s with zeros to at least width characters. */
  function ZeroPad(s: string, width: nat): (r: string)
  {
    if |s| >= width then s else Zeros(width - |s|) + s
  }

  /** The zero-padded digits of n: at least width characters, and they still denote n. */
  lemma PaddedDigits(n: nat, width: nat)
    ensures var r := ZeroPad(Digits(n), width);
      |r| == if |Digits(n)| >= width then |Digits(n)| else width
    ensures AllDigits(ZeroPad(Digits(n), width)) && Value(ZeroPad(Digits(n), width)) == n
  {
    ValueOfDigits(n);
    if |Digits(n)| < width {
      ValueLeadingZeros(width - |Digits(n)|, Digits(n));
    }
  }

  /** A number below 10^k has at most k digits. */
  lemma {:induction false} DigitsLength(n: nat, k: nat)
    requires n < Pow10(k)
    ensures |Digits(n)| <= k || (n == 0 && k == 0)
  {
    if n >= 10 {
      DigitsLength(n / 10, k - 1);
    }
  }

  function Pow10(k: nat): (p: nat)
    ensures p >= 1
  {
    if k == 0 then 1 else 10 * Pow10(k - 1)
  }

  /** Integer.toString: an optional minus sign, then the digits of |n|. */
  function DecimalString(n: int): (s: string)
    ensures |s| > 0 && (s[0] == '-' <==> n < 0)
  {
    if n < 0 then "-" + Digits(-n) else Digits(n)
  }

  /** Reads an optional minus sign followed by one or more digits. */
  function ParseDecimal(s: string): (r: Option<int>)
  {
    if |s| > 1 && s[0] == '-' && AllDigits(s[1..]) then Some(-(Value(s[1..]) as int))
    else if |s| > 0 && AllDigits(s) then Some(Value(s))
    else None
  }

  /** Parsing the text of n gives back n. */
  lemma DecimalRoundTrip(n: int)
    ensures ParseDecimal(DecimalString(n)) == Some(n)
  {
    if n < 0 {
      ValueOfDigits(-n);
      assert DecimalString(n)[1..] == Digits(-n);
    } else {
      ValueOfDigits(n);
    }
  }

  /** The text of n is a minus sign exactly when n is negative, then digits
      with no superfluous leading zero. */
  lemma DecimalShape(n: int)
    ensures var s := DecimalString(n);
      (s[0] == '-' <==> n < 0) &&
      (n < 0 ==> |s| >= 2 && AllDigits(s[1..]) && s[1] != '0') &&
      (n >= 0 ==> AllDigits(s) && (s[0] == '0' ==> s == "0"))
  {
    if n >= 10 {
      assert Digits(n)[0] == Digits(n / 10)[0];
    }
    if n < 0 {
      assert DecimalString(n)[1..] == Digits(-n);
    }
  }

  /** Number of digits at the start of s. */
  function LeadingDigits(s: string): (k: nat)
    ensures k <= |s| && AllDigits(s[..k])
    ensures k < |s| ==> !IsDigit(s[k])
  {
    if |s| > 0 && IsDigit(s[0]) then
      var k := 1 + LeadingDigits(s[1..]);
      assert s[..k] == [s[0]] + s[1..][..k - 1];
      k
    else 0
  }

  /** A run of digits followed by a non-digit is read exactly to its end. */
  lemma {:induction false} LeadingDigitsOfRun(a: string, b: string)
    requires AllDigits(a) && (|b| == 0 || !IsDigit(b[0]))
    ensures LeadingDigits(a + b) == |a|
  {
    if |a| > 0 {
      assert (a + b)[1..] == a[1..] + b;
      LeadingDigitsOfRun(a[1..], b);
    }
  }
}
