/**
 * The JavaScript string primitives the calculator relies on, restricted to
 * what it feeds them: `String(n)` for a non-negative integer, `Number(s)`
 * for a run of ASCII digits, and `s.padStart(n, c)` with a one-character pad.
 */
module JsText {

  /** The character class `\d` of a JavaScript regular expression: the ASCII digits. */
  predicate IsDigit(c: char) {
    '0' <= c <= '9'
  }

  predicate AllDigits(s: string) {
    forall i :: 0 <= i < |s| ==> IsDigit(s[i])
  }

  function DigitValue(c: char): (d: nat)
    requires IsDigit(c)
    ensures d < 10
  {
    c as int - '0' as int
  }

  function DigitChar(d: nat): (c: char)
    requires d < 10
    ensures IsDigit(c) && DigitValue(c) == d
  {
    ('0' as int + d) as char
  }

  /** `Number(s)` for a string of decimal digits (leading zeros allowed). */
  function DecimalValue(s: string): (value: nat)
    requires AllDigits(s)
  {
    if s == [] then 0 else 10 * DecimalValue(s[..|s| - 1]) + DigitValue(s[|s| - 1])
  }

  /** `String(n)`: the decimal numeral of `n`. */
  function NatToString(n: nat): (r: string)
    ensures 1 <= |r|
  {
    if n < 10 then [DigitChar(n)] else NatToString(n / 10) + [DigitChar(n % 10)]
  }

  /**
   * `String(n)` is the shortest numeral of `n`: all digits, reading back as
   * `n`, with no leading zero, one digit below 10 and at most two below 100.
   */
  lemma {:induction false} NatToStringNumeral(n: nat)
    ensures var r := NatToString(n);
      AllDigits(r) && DecimalValue(r) == n &&
      (r[0] == '0' ==> n == 0) && (|r| == 1 <==> n < 10) && (n < 100 ==> |r| <= 2)
  {
    if n >= 10 {
      var prefix := NatToString(n / 10);
      NatToStringNumeral(n / 10);
      DecimalValueAppend(prefix, DigitChar(n % 10));
    }
  }

  /** `n` copies of `c`. */
  function Repeat(c: char, n: nat): (r: string)
    ensures |r| == n && forall i :: 0 <= i < n ==> r[i] == c
  {
    seq(n, _ => c)
  }

  /**
   * `s.padStart(targetLength, padChar)`: `s` itself when it is already at
   * least `targetLength` long, otherwise `s` preceded by as many copies of
   * `padChar` as make it exactly `targetLength` long.
   */
  function PadStart(s: string, targetLength: nat, padChar: char): (r: string)
    ensures |s| >= targetLength ==> r == s
    ensures |r| == if |s| >= targetLength then |s| else targetLength
  {
    if |s| >= targetLength then s else Repeat(padChar, targetLength - |s|) + s
  }

  /** A padded string ends with the original and starts with nothing but the pad character. */
  lemma PadStartParts(s: string, targetLength: nat, padChar: char)
    ensures var r := PadStart(s, targetLength, padChar);
      r[|r| - |s|..] == s && forall i :: 0 <= i < |r| - |s| ==> r[i] == padChar
  {
  }

  lemma {:induction false} DecimalValueAppend(s: string, c: char)
    requires AllDigits(s) && IsDigit(c)
    ensures AllDigits(s + [c])
    ensures DecimalValue(s + [c]) == 10 * DecimalValue(s) + DigitValue(c)
  {
    assert (s + [c])[..|s|] == s;
  }

  /** A leading zero does not change the value of a numeral. */
  lemma {:induction false} LeadingZero(s: string)
    requires AllDigits(s)
    ensures AllDigits("0" + s) && DecimalValue("0" + s) == DecimalValue(s)
  {
    if s == [] {
      assert ("0" + s)[..0] == [];
    } else {
      var init := s[..|s| - 1];
      var last := s[|s| - 1];
      assert s == init + [last];
      LeadingZero(init);
      assert "0" + s == ("0" + init) + [last];
      DecimalValueAppend("0" + init, last);
    }
  }

  /** Any number of leading zeros leaves the value of a numeral unchanged. */
  lemma {:induction false} LeadingZeros(s: string, k: nat)
    requires AllDigits(s)
    ensures AllDigits(Repeat('0', k) + s) && DecimalValue(Repeat('0', k) + s) == DecimalValue(s)
  {
    if k == 0 {
      assert Repeat('0', k) + s == s;
    } else {
      LeadingZeros(s, k - 1);
      assert Repeat('0', k) + s == "0" + (Repeat('0', k - 1) + s);
      LeadingZero(Repeat('0', k - 1) + s);
    }
  }

  /** Padding a numeral with `'0'` keeps it a numeral of the same value. */
  lemma PadStartZeros(s: string, targetLength: nat)
    requires AllDigits(s)
    ensures AllDigits(PadStart(s, targetLength, '0'))
    ensures DecimalValue(PadStart(s, targetLength, '0')) == DecimalValue(s)
  {
    if |s| < targetLength {
      LeadingZeros(s, targetLength - |s|);
    }
  }

  /** The value of a two-character numeral, digit by digit. */
  lemma TwoDigitValue(s: string)
    requires |s| == 2 && AllDigits(s)
    ensures DecimalValue(s) == 10 * DigitValue(s[0]) + DigitValue(s[1])
  {
    var first := s[..1];
    assert first[..0] == [];
    assert DecimalValue(first) == DigitValue(s[0]);
    assert s[..|s| - 1] == first;
  }

  lemma NatToStringOneDigit(n: nat)
    requires n < 10
    ensures NatToString(n) == [DigitChar(n)]
  {
  }

  lemma NatToStringTwoDigits(n: nat)
    requires 10 <= n < 100
    ensures NatToString(n) == [DigitChar(n / 10), DigitChar(n % 10)]
  {
  }

  lemma PadStartOneChar(c: char)
    ensures PadStart([c], 2, '0') == ['0', c]
  {
  }

  /** `String(n).padStart(2, '0')` for `n < 100`: its tens digit, then its units digit. */
  lemma TwoDigitNumeral(n: nat)
    requires n < 100
    ensures PadStart(NatToString(n), 2, '0') == [DigitChar(n / 10), DigitChar(n % 10)]
  {
    if n < 10 {
      NatToStringOneDigit(n);
      PadStartOneChar(DigitChar(n));
      assert n / 10 == 0 && n % 10 == n;
    } else {
      NatToStringTwoDigits(n);
    }
  }

  /** The two-digit numeral of `n < 100` reads back as `n`. */
  lemma TwoDigitNumeralValue(n: nat)
    requires n < 100
    ensures AllDigits([DigitChar(n / 10), DigitChar(n % 10)])
    ensures DecimalValue([DigitChar(n / 10), DigitChar(n % 10)]) == n
  {
    var s := [DigitChar(n / 10), DigitChar(n % 10)];
    TwoDigitValue(s);
    assert DigitValue(s[0]) == n / 10 && DigitValue(s[1]) == n % 10;
  }
}
