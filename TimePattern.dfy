/**
 * The two input patterns of the break-time widget, written as character
 * predicates: the strict 24-hour pattern the calculator validates with,
 * `^([0-1]?[0-9]|2[0-3]):([0-5][0-9])$`, and the loose pattern the input
 * field filters with, `^\d+:\d{2}$`. Both end in a colon followed by exactly
 * two characters, so a matching string splits at its third-last character.
 */
module TimePattern {
  import opened JsText

  /** What precedes the last `:` of an `H:mm`-shaped string. */
  function HourField(s: string): (hourText: string)
    requires |s| >= 3
  {
    s[..|s| - 3]
  }

  /** The two characters after the last `:` of an `H:mm`-shaped string. */
  function MinuteField(s: string): (minuteText: string)
    requires |s| >= 3
  {
    s[|s| - 2..]
  }

  /** Joining an hour text and a two-character minute text with `:` gives back both fields. */
  lemma FieldsOfJoin(hourText: string, minuteText: string)
    requires |minuteText| == 2
    ensures var s := hourText + ":" + minuteText;
      |s| >= 3 && s[|s| - 3] == ':' && HourField(s) == hourText && MinuteField(s) == minuteText
  {
  }

  /** The hour group `[0-1]?[0-9]|2[0-3]`. */
  predicate HourGroup(h: string) {
    (|h| == 1 && IsDigit(h[0])) ||
    (|h| == 2 && '0' <= h[0] <= '1' && IsDigit(h[1])) ||
    (|h| == 2 && h[0] == '2' && '0' <= h[1] <= '3')
  }

  /** The minute group `[0-5][0-9]`. */
  predicate MinuteGroup(m: string) {
    |m| == 2 && '0' <= m[0] <= '5' && IsDigit(m[1])
  }

  /** The anchored strict pattern `^([0-1]?[0-9]|2[0-3]):([0-5][0-9])$`. */
  predicate IsStrictTime(s: string) {
    |s| >= 3 && s[|s| - 3] == ':' && HourGroup(HourField(s)) && MinuteGroup(MinuteField(s))
  }

  /** The anchored loose pattern `^\d+:\d{2}$` of the input field. */
  predicate LooseMatch(s: string) {
    |s| >= 4 && s[|s| - 3] == ':' && AllDigits(HourField(s)) && AllDigits(MinuteField(s))
  }

  /**
   * Reference reading of "a 24-hour time": a one- or two-digit hour whose
   * value is at most 23, a colon, and two minute digits whose value is at
   * most 59.
   */
  predicate IsClockTime(s: string) {
    |s| >= 4 && s[|s| - 3] == ':' &&
    |HourField(s)| <= 2 && AllDigits(HourField(s)) && DecimalValue(HourField(s)) <= 23 &&
    AllDigits(MinuteField(s)) && DecimalValue(MinuteField(s)) <= 59
  }

  lemma HourGroupMeaning(h: string)
    ensures HourGroup(h) <==> 1 <= |h| <= 2 && AllDigits(h) && DecimalValue(h) <= 23
  {
    if |h| == 1 {
      assert h[..0] == [];
    } else if |h| == 2 && AllDigits(h) {
      TwoDigitValue(h);
    }
  }

  lemma MinuteGroupMeaning(m: string)
    requires |m| == 2
    ensures MinuteGroup(m) <==> AllDigits(m) && DecimalValue(m) <= 59
  {
    if AllDigits(m) {
      TwoDigitValue(m);
    }
  }

  /** The strict pattern accepts exactly the clock times from 0:00 to 23:59. */
  lemma StrictPatternMeaning(s: string)
    ensures IsStrictTime(s) <==> IsClockTime(s)
  {
    if |s| >= 3 {
      HourGroupMeaning(HourField(s));
      MinuteGroupMeaning(MinuteField(s));
    }
  }

  /** Every string the strict pattern accepts also passes the input filter. */
  lemma StrictImpliesLoose(s: string)
    ensures IsStrictTime(s) ==> LooseMatch(s)
  {
    StrictPatternMeaning(s);
  }

  /** The input filter lets through strings the strict pattern rejects. */
  lemma LooseAdmitsOutOfRange()
    ensures LooseMatch("99:99") && !IsStrictTime("99:99")
  {
  }

  /** Inputs the strict pattern rejects: empty, hour 24 or 25, minute 60, one minute digit, letters. */
  lemma StrictRejects()
    ensures !IsStrictTime("") && !IsStrictTime("24:00") && !IsStrictTime("25:00")
    ensures !IsStrictTime("1:60") && !IsStrictTime("1:5") && !IsStrictTime("abc")
  {
  }

  /**
   * The start time in minutes since midnight: `startTime.split(':')` gives
   * the hour and minute fields, `Number` reads each, and the start is
   * `hour * 60 + minute`.
   */
  function StartMinute(startTime: string): (m: nat)
    requires IsStrictTime(startTime)
    ensures m < 1440
    ensures m / 60 == DecimalValue(HourField(startTime))
    ensures m % 60 == DecimalValue(MinuteField(startTime))
  {
    StrictPatternMeaning(startTime);
    DecimalValue(HourField(startTime)) * 60 + DecimalValue(MinuteField(startTime))
  }
}
