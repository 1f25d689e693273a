/**
 * `calculateBreakTimes`: validate the start time, turn it into minutes since
 * midnight, and push four formatted break windows at fixed offsets from it.
 */
module Calculator {
  import opened Wrappers
  import opened JsText
  import opened TimePattern
  import opened TimeFormat

  /** One row of the schedule, as displayed. */
  datatype TimeBreak = TimeBreak(timeIn: string, timeOut: string)

  /** The message of the error thrown for a start time that fails the strict pattern. */
  const INVALID_TIME_FORMAT: string := "Invalid time format. Please use HH:mm format."

  /** Lengths in minutes of the first, second, third and fourth break. */
  const DURATIONS: seq<nat> := [15, 15, 15, 30]

  /**
   * The raw minute boundaries of the four breaks. The first starts at
   * `start`, the breaks last 15, 15, 15 and 30 minutes, and each starts one
   * minute after the previous one ends.
   */
  function BreakWindows(start: nat): (windows: seq<(nat, nat)>)
    ensures |windows| == 4 && windows[0].0 == start
    ensures forall i :: 0 <= i < 4 ==> windows[i].1 == windows[i].0 + DURATIONS[i]
    ensures forall i :: 0 < i < 4 ==> windows[i].0 == windows[i - 1].1 + 1
  {
    [(start, start + 15), (start + 16, start + 31), (start + 32, start + 47), (start + 48, start + 60 + 18)]
  }

  /** The record `addTimeBreak` pushes for a window. */
  function Formatted(window: (nat, nat)): (row: TimeBreak) {
    TimeBreak(FormatTime(window.0), FormatTime(window.1))
  }

  /** The formatted rows of a list of windows, in order. */
  function Render(windows: seq<(nat, nat)>): (rows: seq<TimeBreak>)
    ensures |rows| == |windows|
  {
    if windows == [] then [] else [Formatted(windows[0])] + Render(windows[1..])
  }

  /** The outcome of `calculateBreakTimes(startTime)`: the schedule, or the error it throws. */
  function Calculate(startTime: string): (result: Result<seq<TimeBreak>, string>) {
    if !IsStrictTime(startTime) then Failure(INVALID_TIME_FORMAT)
    else Success(Render(BreakWindows(StartMinute(startTime))))
  }

  /** Row `i` of a rendering is window `i`, formatted. */
  lemma {:induction false} RenderAt(windows: seq<(nat, nat)>, i: nat)
    requires i < |windows|
    ensures Render(windows)[i] == Formatted(windows[i])
  {
    if i > 0 {
      RenderAt(windows[1..], i - 1);
    }
  }

  /** Rendering four windows gives their four rows in order. */
  lemma RenderFour(windows: seq<(nat, nat)>)
    requires |windows| == 4
    ensures Render(windows) == [Formatted(windows[0]), Formatted(windows[1]), Formatted(windows[2]), Formatted(windows[3])]
  {
    RenderAt(windows, 0);
    RenderAt(windows, 1);
    RenderAt(windows, 2);
    RenderAt(windows, 3);
  }

  /** The four rows of a schedule starting at `start`, window by window. */
  lemma ScheduleRows(start: nat)
    ensures Render(BreakWindows(start)) ==
      [Formatted((start, start + 15)), Formatted((start + 16, start + 31)),
       Formatted((start + 32, start + 47)), Formatted((start + 48, start + 60 + 18))]
  {
    RenderFour(BreakWindows(start));
  }

  /** `addTimeBreak`: push one formatted window onto the schedule being built. */
  method AddTimeBreak(breakTimes: seq<TimeBreak>, timeIn: nat, timeOut: nat) returns (pushed: seq<TimeBreak>)
    ensures pushed == breakTimes + [Formatted((timeIn, timeOut))]
  {
    pushed := breakTimes + [TimeBreak(FormatTime(timeIn), FormatTime(timeOut))];
  }

  /** The four `addTimeBreak` calls of `calculateBreakTimes`, at the offsets it uses, build the schedule. */
  method PushBreaks(startTimeInMinutes: nat) returns (breakTimes: seq<TimeBreak>)
    ensures breakTimes == Render(BreakWindows(startTimeInMinutes))
  {
    breakTimes := [];
    breakTimes := AddTimeBreak(breakTimes, startTimeInMinutes, startTimeInMinutes + 15);
    breakTimes := AddTimeBreak(breakTimes, startTimeInMinutes + 16, startTimeInMinutes + 31);
    breakTimes := AddTimeBreak(breakTimes, startTimeInMinutes + 32, startTimeInMinutes + 47);
    breakTimes := AddTimeBreak(breakTimes, startTimeInMinutes + 48, startTimeInMinutes + 60 + 18);
    ScheduleRows(startTimeInMinutes);
  }

  /** `calculateBreakTimes`: the format check, then the four pushes. */
  method CalculateBreakTimes(startTime: string) returns (result: Result<seq<TimeBreak>, string>)
    ensures result == Calculate(startTime)
  {
    if !IsStrictTime(startTime) {
      return Failure(INVALID_TIME_FORMAT);
    }
    var startTimeInMinutes := StartMinute(startTime);
    var breakTimes := PushBreaks(startTimeInMinutes);
    return Success(breakTimes);
  }

  /**
   * A schedule is produced exactly for the clock times 0:00 to 23:59; every
   * other start fails with the format error and yields no schedule.
   */
  lemma CalculateAccepts(startTime: string)
    ensures Calculate(startTime).Success? <==> IsClockTime(startTime)
    ensures Calculate(startTime).Failure? ==> Calculate(startTime).error == INVALID_TIME_FORMAT
    ensures Calculate(startTime).Success? ==> |Calculate(startTime).value| == 4
  {
    StrictPatternMeaning(startTime);
  }

  /** The empty string, hour 24 or 25, minute 60, a one-digit minute and letters all throw. */
  lemma CalculateRejects()
    ensures Calculate("") == Failure(INVALID_TIME_FORMAT)
    ensures Calculate("24:00") == Failure(INVALID_TIME_FORMAT)
    ensures Calculate("25:00") == Failure(INVALID_TIME_FORMAT)
    ensures Calculate("1:60") == Failure(INVALID_TIME_FORMAT)
    ensures Calculate("1:5") == Failure(INVALID_TIME_FORMAT)
    ensures Calculate("abc") == Failure(INVALID_TIME_FORMAT)
  {
    StrictRejects();
  }

  /**
   * Every boundary of a schedule is at most 23:59 plus 78 minutes, so every
   * displayed time passes both the strict pattern and the input filter.
   */
  lemma ScheduleTimesValid(startTime: string)
    requires IsStrictTime(startTime)
    ensures var schedule := Calculate(startTime).value;
      forall i :: 0 <= i < |schedule| ==>
        IsStrictTime(schedule[i].timeIn) && LooseMatch(schedule[i].timeIn) &&
        IsStrictTime(schedule[i].timeOut) && LooseMatch(schedule[i].timeOut)
  {
    var windows := BreakWindows(StartMinute(startTime));
    forall i | 0 <= i < 4
      ensures IsStrictTime(Render(windows)[i].timeIn) && LooseMatch(Render(windows)[i].timeIn)
      ensures IsStrictTime(Render(windows)[i].timeOut) && LooseMatch(Render(windows)[i].timeOut)
    {
      RenderAt(windows, i);
      FormatTimePatterns(windows[i].0);
      FormatTimePatterns(windows[i].1);
    }
  }

  /**
   * For a start before 11:42 the whole schedule stays below 13:00, and the
   * displayed times, read back as `H * 60 + M`, are exactly the raw
   * boundaries: the schedule begins at the start, the breaks last 15, 15, 15
   * and 30 minutes, and each begins one minute after the previous one ends.
   */
  lemma ScheduleReadBack(startTime: string)
    requires IsStrictTime(startTime) && StartMinute(startTime) + 78 < 13 * 60
    ensures var schedule := Calculate(startTime).value;
      |schedule| == 4 &&
      (forall i :: 0 <= i < 4 ==> IsStrictTime(schedule[i].timeIn) && IsStrictTime(schedule[i].timeOut)) &&
      StartMinute(schedule[0].timeIn) == StartMinute(startTime) &&
      (forall i :: 0 <= i < 4 ==>
        StartMinute(schedule[i].timeOut) == StartMinute(schedule[i].timeIn) + DURATIONS[i]) &&
      (forall i :: 0 < i < 4 ==>
        StartMinute(schedule[i].timeIn) == StartMinute(schedule[i - 1].timeOut) + 1)
  {
    var windows := BreakWindows(StartMinute(startTime));
    var schedule := Render(windows);
    forall i | 0 <= i < 4
      ensures IsStrictTime(schedule[i].timeIn) && StartMinute(schedule[i].timeIn) == windows[i].0
      ensures IsStrictTime(schedule[i].timeOut) && StartMinute(schedule[i].timeOut) == windows[i].1
    {
      RenderAt(windows, i);
      FormatTimeReadBack(windows[i].0);
      FormatTimeReadBack(windows[i].1);
    }
  }

  /** A window both of whose ends show an hour below 10 formats to the `h:mm` texts of its ends. */
  lemma FormattedShortHours(timeIn: nat, timeOut: nat, textIn: string, textOut: string)
    requires DisplayHour(timeIn / 60) < 10 && DisplayHour(timeOut / 60) < 10
    requires textIn == [DigitChar(DisplayHour(timeIn / 60)), ':', DigitChar(timeIn % 60 / 10), DigitChar(timeIn % 60 % 10)]
    requires textOut == [DigitChar(DisplayHour(timeOut / 60)), ':', DigitChar(timeOut % 60 / 10), DigitChar(timeOut % 60 % 10)]
    ensures Formatted((timeIn, timeOut)) == TimeBreak(textIn, textOut)
  {
    FormatTimeOneDigitHour(timeIn);
    FormatTimeOneDigitHour(timeOut);
  }

  /** The start minutes of the example start times. */
  lemma StartMinuteExamples()
    ensures IsStrictTime("1:00") && StartMinute("1:00") == 60
    ensures IsStrictTime("13:00") && StartMinute("13:00") == 780
    ensures IsStrictTime("00:00") && StartMinute("00:00") == 0
    ensures IsStrictTime("23:59") && StartMinute("23:59") == 1439
  {
  }

  /** Starting at 1:00 gives the breaks 1:00-1:15, 1:16-1:31, 1:32-1:47 and 1:48-2:18. */
  lemma CalculateOneOClock()
    ensures Calculate("1:00") == Success([TimeBreak("1:00", "1:15"), TimeBreak("1:16", "1:31"),
                                          TimeBreak("1:32", "1:47"), TimeBreak("1:48", "2:18")])
  {
    StartMinuteExamples();
    ScheduleRows(StartMinute("1:00"));
    FormattedShortHours(60, 75, "1:00", "1:15");
    FormattedShortHours(76, 91, "1:16", "1:31");
    FormattedShortHours(92, 107, "1:32", "1:47");
    FormattedShortHours(108, 138, "1:48", "2:18");
  }

  /** An afternoon start is shown on the twelve-hour dial: 13:00 gives a first break 1:00-1:15. */
  lemma CalculateAfternoon()
    ensures Calculate("13:00").Success? && Calculate("13:00").value[0] == TimeBreak("1:00", "1:15")
  {
    StartMinuteExamples();
    RenderAt(BreakWindows(StartMinute("13:00")), 0);
    FormattedShortHours(780, 795, "1:00", "1:15");
  }

  /** Midnight is hour 0: 00:00 gives a first break 0:00-0:15. */
  lemma CalculateMidnight()
    ensures Calculate("00:00").Success? && Calculate("00:00").value[0] == TimeBreak("0:00", "0:15")
  {
    StartMinuteExamples();
    RenderAt(BreakWindows(StartMinute("00:00")), 0);
    FormattedShortHours(0, 15, "0:00", "0:15");
  }

  /**
   * A late start runs past midnight without wrapping: from 23:59 the last
   * break ends at minute 1517, raw hour 25, shown as 13:17.
   */
  lemma CalculateLateEvening()
    ensures Calculate("23:59").Success? && Calculate("23:59").value[3].timeOut == "13:17"
  {
    StartMinuteExamples();
    ScheduleRows(StartMinute("23:59"));
    FormatTimeHours();
  }
}
