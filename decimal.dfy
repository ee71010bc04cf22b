/**
 * The two Python built-ins the piece names are made of, on natural numbers:
 * `str(n)` (shortest decimal form) and `s.zfill(width)` (left-pad with '0'
 * up to `width`), and the reading back of such a suffix.
 */
module Decimal {

  predicate IsDigit(c: char)
  {
    '0' <= c <= '9'
  }

  predicate AllDigits(s: string)
  {
    forall k :: 0 <= k < |s| ==> IsDigit(s[k])
  }

  function DigitChar(d: nat): (c: char)
    requires d < 10
    ensures IsDigit(c)
  {
    ('0' as int + d) as char
  }

  function DigitValue(c: char): (d: nat)
    requires IsDigit(c)
    ensures d < 10
  {
    (c as int - '0' as int) as nat
  }

  /** `str(n)` for a natural number: its shortest decimal form. */
  function NatToString(n: nat): (s: string)
    ensures |s| >= 1
    decreases n
  {
    if n < 10 then [DigitChar(n)] else NatToString(n / 10) + [DigitChar(n % 10)]
  }

  /** `len(str(n))`. */
  function Digits(n: nat): nat
  {
    |NatToString(n)|
  }

  /** The value of a string of decimal digits (leading zeros allowed). */
  function StringToNat(s: string): nat
    requires AllDigits(s)
  {
    if s == [] then 0 else 10 * StringToNat(s[..|s| - 1]) + DigitValue(s[|s| - 1])
  }

  function Zeros(k: nat): (z: string)
    ensures |z| == k
  {
    if k == 0 then [] else Zeros(k - 1) + ['0']
  }

  /** `s.zfill(width)` for an unsigned digit string. */
  function ZFill(s: string, width: int): string
  {
    if |s| >= width then s else Zeros(width - |s|) + s
  }

  lemma {:induction false} ZerosAreZeros(k: nat)
    ensures forall j :: 0 <= j < k ==> Zeros(k)[j] == '0'
    decreases k
  {
    if k > 0 {
      ZerosAreZeros(k - 1);
    }
  }

  /**
   * `zfill` leaves a string at least `width` long alone; a shorter one ends
   * up exactly `width` long, the original at its end and '0's before it.
   */
  lemma ZFillSpec(s: string, width: int)
    ensures |s| >= width ==> ZFill(s, width) == s
    ensures |s| < width ==> |ZFill(s, width)| == width && ZFill(s, width)[width - |s|..] == s
    ensures |s| < width ==> forall j :: 0 <= j < width - |s| ==> ZFill(s, width)[j] == '0'
  {
    if |s| < width {
      ZerosAreZeros(width - |s|);
      assert ZFill(s, width)[width - |s|..] == s;
    }
  }

  /** `str(n)` is made of decimal digits only. */
  lemma {:induction false} NatToStringDigits(n: nat)
    ensures AllDigits(NatToString(n))
    decreases n
  {
    if n >= 10 {
      NatToStringDigits(n / 10);
    }
  }

  /** Zero-filling `str(n)` keeps it a digit string. */
  lemma ZFillDigits(n: nat, width: int)
    ensures AllDigits(ZFill(NatToString(n), width))
  {
    NatToStringDigits(n);
    ZFillSpec(NatToString(n), width);
  }

  /** Drops leading zeros but keeps the last character, so "000" becomes "0". */
  function StripLeadingZeros(s: string): (r: string)
    ensures |r| <= |s|
  {
    if |s| > 1 && s[0] == '0' then StripLeadingZeros(s[1..]) else s
  }

  lemma {:induction false} StripKeepsDigits(s: string)
    requires AllDigits(s)
    ensures AllDigits(StripLeadingZeros(s))
    decreases |s|
  {
    if |s| > 1 && s[0] == '0' {
      StripKeepsDigits(s[1..]);
    }
  }

  lemma {:induction false} DigitRoundTrip(d: nat)
    requires d < 10
    ensures DigitValue(DigitChar(d)) == d
  {
  }

  /** Reading back `str(n)` gives `n`. */
  lemma {:induction false} NatToStringRoundTrip(n: nat)
    ensures AllDigits(NatToString(n)) && StringToNat(NatToString(n)) == n
    decreases n
  {
    var s := NatToString(n);
    NatToStringDigits(n);
    if n < 10 {
      assert s[..0] == [];
      DigitRoundTrip(n);
    } else {
      NatToStringRoundTrip(n / 10);
      assert s[..|s| - 1] == NatToString(n / 10);
      DigitRoundTrip(n % 10);
    }
  }

  /** `str(n)` starts with '0' only for n == 0, where it is exactly "0". */
  lemma {:induction false} NoLeadingZero(n: nat)
    ensures NatToString(n)[0] == '0' ==> NatToString(n) == "0"
    decreases n
  {
    if n >= 10 {
      NoLeadingZero(n / 10);
      assert NatToString(n)[0] == NatToString(n / 10)[0];
    }
  }

  lemma {:induction false} StripZerosPrefix(k: nat, s: string)
    requires |s| >= 1
    ensures StripLeadingZeros(Zeros(k) + s) == StripLeadingZeros(s)
    decreases k
  {
    if k > 0 {
      var z := Zeros(k) + s;
      ZerosCons(k);
      assert z[1..] == Zeros(k - 1) + s;
      assert |z| > 1 && z[0] == '0';
      assert StripLeadingZeros(z) == StripLeadingZeros(z[1..]);
      StripZerosPrefix(k - 1, s);
    } else {
      assert Zeros(k) + s == s;
    }
  }

  lemma {:induction false} ZerosCons(k: nat)
    requires k >= 1
    ensures Zeros(k) == ['0'] + Zeros(k - 1)
  {
    ZerosAreZeros(k);
    ZerosAreZeros(k - 1);
    assert forall j :: 0 <= j < k ==> Zeros(k)[j] == (['0'] + Zeros(k - 1))[j];
  }

  /** Stripping the padding `zfill` adds gives back `str(n)`. */
  lemma {:induction false} StripZFill(n: nat, width: int)
    ensures StripLeadingZeros(ZFill(NatToString(n), width)) == NatToString(n)
  {
    var s := NatToString(n);
    NoLeadingZero(n);
    assert StripLeadingZeros(s) == s;
    if |s| < width {
      StripZerosPrefix(width - |s|, s);
    }
  }

  /** A wider number never has fewer digits. */
  lemma {:induction false} DigitsMonotone(i: nat, j: nat)
    requires i <= j
    ensures Digits(i) <= Digits(j)
    decreases j
  {
    if i >= 10 {
      DigitsMonotone(i / 10, j / 10);
    } else if j >= 10 {
      assert Digits(j) == Digits(j / 10) + 1;
    }
  }
}
