/**
 * `formatTime`: a minute count rendered as `h:mm`. The hour is the minute
 * count divided by 60, reduced by 12 once when it is above 12 (never taken
 * modulo anything); the minutes are zero-padded to two digits and the hour
 * is not padded.
 */
module TimeFormat {
  import opened JsText
  import opened TimePattern

  /** The display hour for a raw hour: 12 is subtracted once, only from hours above 12. */
  function DisplayHour(hours: nat): (shown: nat) {
    if hours > 12 then hours - 12 else hours
  }

  function FormatTime(timeInMinutes: nat): (shown: string) {
    var hours := DisplayHour(timeInMinutes / 60);
    var minutes := timeInMinutes % 60;
    var formattedHours := if hours < 10 then NatToString(hours) else PadStart(NatToString(hours), 2, '0');
    var formattedMinutes := PadStart(NatToString(minutes), 2, '0');
    formattedHours + ":" + formattedMinutes
  }

  /**
   * `FormatTime(t)` is the plain numeral of the display hour (the pad on
   * hours of 10 and more has no effect), a colon, and the two digits of
   * `t % 60`.
   */
  lemma FormatTimeShape(t: nat)
    ensures var m := t % 60;
      FormatTime(t) == NatToString(DisplayHour(t / 60)) + ":" + [DigitChar(m / 10), DigitChar(m % 10)]
  {
    var hours := DisplayHour(t / 60);
    NatToStringNumeral(hours);
    TwoDigitNumeral(t % 60);
    if hours >= 10 {
      assert PadStart(NatToString(hours), 2, '0') == NatToString(hours);
    }
  }

  /**
   * What a reader of `FormatTime(t)` sees: an hour numeral without leading
   * zero whose value is the display hour, a colon, and exactly two minute
   * digits whose value is `t % 60`.
   */
  lemma FormatTimeFields(t: nat)
    ensures var r := FormatTime(t);
      |r| >= 4 && r[|r| - 3] == ':' &&
      AllDigits(MinuteField(r)) && DecimalValue(MinuteField(r)) == t % 60 &&
      |HourField(r)| >= 1 && AllDigits(HourField(r)) &&
      (HourField(r)[0] == '0' ==> |HourField(r)| == 1) &&
      DecimalValue(HourField(r)) == (if t / 60 > 12 then t / 60 - 12 else t / 60)
  {
    var m := t % 60;
    var hourText := NatToString(DisplayHour(t / 60));
    var minuteText := [DigitChar(m / 10), DigitChar(m % 10)];
    NatToStringNumeral(DisplayHour(t / 60));
    TwoDigitNumeralValue(m);
    FormatTimeShape(t);
    FieldsOfJoin(hourText, minuteText);
  }

  /**
   * The hour shown is the raw hour less 12, once, only when it exceeds 12:
   * raw hours 0, 12, 13, 24 and 25 show as 0, 12, 1, 12 and 13.
   */
  lemma FormatTimeHours()
    ensures FormatTime(0) == "0:00" && FormatTime(720) == "12:00" && FormatTime(780) == "1:00"
    ensures FormatTime(1440) == "12:00" && FormatTime(1517) == "13:17"
  {
    FormatTimeShape(0);
    FormatTimeShape(720);
    FormatTimeShape(780);
    FormatTimeShape(1440);
    FormatTimeShape(1517);
    assert 1517 / 60 == 25 && 1517 % 60 == 17;
    NatToStringTwoDigits(12);
    NatToStringTwoDigits(13);
  }

  /**
   * `FormatTime(t)` always passes the input filter, and passes the strict
   * pattern exactly when its display hour is at most 23, i.e. for raw
   * hours up to 35.
   */
  lemma FormatTimePatterns(t: nat)
    ensures LooseMatch(FormatTime(t))
    ensures IsStrictTime(FormatTime(t)) <==> t < 36 * 60
  {
    FormatTimeFields(t);
    StrictPatternMeaning(FormatTime(t));
    if t < 36 * 60 {
      var m := t % 60;
      NatToStringNumeral(DisplayHour(t / 60));
      FormatTimeShape(t);
      FieldsOfJoin(NatToString(DisplayHour(t / 60)), [DigitChar(m / 10), DigitChar(m % 10)]);
    }
  }

  /**
   * Reading a displayed time back as `H * 60 + M` gives the minute count
   * itself below 13:00, and 12 hours less from 13:00 on.
   */
  lemma FormatTimeReadBack(t: nat)
    requires t < 36 * 60
    ensures IsStrictTime(FormatTime(t))
    ensures StartMinute(FormatTime(t)) == if t < 13 * 60 then t else t - 12 * 60
  {
    FormatTimePatterns(t);
    FormatTimeFields(t);
  }

  /** Below ten o'clock on the display, `FormatTime(t)` is four characters: `h:mm`. */
  lemma FormatTimeOneDigitHour(t: nat)
    requires DisplayHour(t / 60) < 10
    ensures var m := t % 60;
      FormatTime(t) == [DigitChar(DisplayHour(t / 60)), ':', DigitChar(m / 10), DigitChar(m % 10)]
  {
    FormatTimeShape(t);
    NatToStringOneDigit(DisplayHour(t / 60));
  }
}
