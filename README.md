# Break-time calculator

A Dafny model of the break-time calculator in the `BreakTime` component
(`src/break-calc/BreakTime.tsx`). The user types a start time. On each
edit the component stores the field's text as its start time
(`initialTime`) only when that text looks like `digits:two digits`;
the field itself is uncontrolled and shows every keystroke, so the text on
screen and the stored time can differ (with `1:50` stored, deleting the
last character shows `1:5` while `1:50` stays stored). Pressing Calculate
then validates the stored value against the 24-hour
pattern `^([0-1]?[0-9]|2[0-3]):([0-5][0-9])$` and throws
`Invalid time format. Please use HH:mm format.` when it does not match.
Otherwise the value is turned into minutes since midnight, and four break
windows are pushed at fixed offsets from that start: 15, 15, 15 and 30
minutes long, each beginning one minute after the previous one ends.
Every boundary is shown through `formatTime`. It prints the hour, less 12
once when it is above 12 (never reduced modulo 12 or 24, so raw hours 24
and 25 show as `12` and `13`), then a colon, then the minutes
zero-padded to two digits.

The modules follow the parts of the component:

- `Wrappers`: `Option` (a schedule not yet computed) and `Result` (a
  thrown error).
- `JsText`: the JavaScript primitives the component relies on, over
  characters. These are `String(n)` for non-negative integers, `Number`
  on digit strings, and `padStart`.
- `TimePattern`: the strict validation pattern and the loose input filter
  `^\d+:\d{2}$`, both as character predicates. It also holds a reference
  reading of "a 24-hour clock time" and the start-minute computation.
- `TimeFormat`: `formatTime` and what a reader of its output sees.
- `Calculator`: the break windows, `addTimeBreak`, `calculateBreakTimes`
  (a method that pushes four rows, proved equal to the `Calculate`
  specification function), and the properties of the resulting schedule.
- `Widget`: the component's state (the stored start time and the
  displayed schedule) with `handleChange` and `handleClick` as state
  updates, and the invariant every reachable state keeps.

## Model

| member | source | states |
|---|---|---|
| JsText.NatToStringNumeral | src/break-calc/BreakTime.tsx:53-54 | `String(n)` is all digits, reads back as `n`, has no leading zero except for 0, is one digit exactly below 10 and at most two below 100 |
| JsText.PadStart | src/break-calc/BreakTime.tsx:53-54 | `padStart` leaves a string of at least the target length unchanged; otherwise the result has exactly the target length |
| JsText.PadStartParts | src/break-calc/BreakTime.tsx:53-54 | a padded string ends with the original and everything before it is the pad character |
| JsText.PadStartZeros | src/break-calc/BreakTime.tsx:54 | padding a numeral with `'0'` keeps it a numeral of the same value |
| JsText.LeadingZeros | src/break-calc/BreakTime.tsx:54 | any number of leading zeros leaves the value of a numeral unchanged |
| JsText.TwoDigitValue | src/break-calc/BreakTime.tsx:27 | `Number` of a two-digit string is ten times its first digit plus its second |
| JsText.TwoDigitNumeral | src/break-calc/BreakTime.tsx:54 | `String(n).padStart(2, '0')` for `n < 100` is the tens digit followed by the units digit |
| JsText.TwoDigitNumeralValue | src/break-calc/BreakTime.tsx:54 | that two-digit numeral is all digits and reads back as `n` |
| TimePattern.FieldsOfJoin | src/break-calc/BreakTime.tsx:27 | splitting `h + ":" + mm` at its colon gives back the hour text and the two minute characters |
| TimePattern.HourGroupMeaning | src/break-calc/BreakTime.tsx:19 | the hour group accepts exactly one or two digits whose value is at most 23 |
| TimePattern.MinuteGroupMeaning | src/break-calc/BreakTime.tsx:19 | the minute group accepts exactly two digits whose value is at most 59 |
| TimePattern.StrictPatternMeaning | src/break-calc/BreakTime.tsx:19-24 | the strict pattern accepts a string if and only if it is a clock time 0:00 to 23:59 (1–2 hour digits, value ≤ 23, a colon, two minute digits, value ≤ 59) |
| TimePattern.StrictImpliesLoose | src/break-calc/BreakTime.tsx:62 | every string the strict pattern accepts passes the input filter |
| TimePattern.LooseAdmitsOutOfRange | src/break-calc/BreakTime.tsx:62 | the input filter passes `99:99`, which the strict pattern rejects |
| TimePattern.StrictRejects | src/break-calc/BreakTime.tsx:19-24 | the strict pattern rejects `""`, `24:00`, `25:00`, `1:60`, `1:5` and `abc` |
| TimePattern.StartMinute | src/break-calc/BreakTime.tsx:27-28 | the start minute of an accepted time is below 1440; its quotient by 60 is the hour field's value and its remainder is the minute field's value |
| TimeFormat.FormatTimeShape | src/break-calc/BreakTime.tsx:46-56 | `formatTime(t)` is the unpadded numeral of the display hour, a colon, and the two digits of `t % 60` (the pad on hours of 10 and more has no effect) |
| TimeFormat.FormatTimeFields | src/break-calc/BreakTime.tsx:46-56 | the minutes part is exactly two digits worth `t % 60`; the hours part is digits without a leading zero worth `t / 60`, less 12 only when above 12 |
| TimeFormat.FormatTimeHours | src/break-calc/BreakTime.tsx:47-51 | raw hours 0, 12, 13, 24 and 25 show as `0:00`, `12:00`, `1:00`, `12:00` and `13:17` (minute 1517); 12 is subtracted once and never as a modulo |
| TimeFormat.FormatTimePatterns | src/break-calc/BreakTime.tsx:46-56 | every output passes the input filter; an output passes the strict pattern if and only if `t` is below 36 hours |
| TimeFormat.FormatTimeReadBack | src/break-calc/BreakTime.tsx:46-56 | reading an output back as `H * 60 + M` gives `t` when `t < 780`, and `t - 720` from 13:00 on |
| TimeFormat.FormatTimeOneDigitHour | src/break-calc/BreakTime.tsx:53-55 | when the display hour is below 10 the output is exactly the four characters `h:mm` |
| Calculator.BreakWindows | src/break-calc/BreakTime.tsx:38-41 | four windows; the first starts at the start minute, they last 15, 15, 15 and 30 minutes, and each starts one minute after the previous one ends |
| Calculator.Render | src/break-calc/BreakTime.tsx:30-35 | one row per window |
| Calculator.RenderAt | src/break-calc/BreakTime.tsx:30-35 | row `i` is window `i` with both ends formatted |
| Calculator.RenderFour | src/break-calc/BreakTime.tsx:38-41 | rendering four windows gives their four rows in order |
| Calculator.ScheduleRows | src/break-calc/BreakTime.tsx:38-41 | the schedule for a start minute is the four formatted windows at the source's offsets, in order |
| Calculator.AddTimeBreak | src/break-calc/BreakTime.tsx:30-35 | the schedule grows by exactly one row, the formatted window, at its end |
| Calculator.PushBreaks | src/break-calc/BreakTime.tsx:38-43 | the four pushes build exactly the rendering of the four break windows |
| Calculator.CalculateBreakTimes | src/break-calc/BreakTime.tsx:17-44 | the method returns exactly `Calculate(startTime)`: the format error for a rejected start, otherwise the rendered windows |
| Calculator.CalculateAccepts | src/break-calc/BreakTime.tsx:19-24 | a schedule is produced if and only if the start is a clock time 0:00–23:59; otherwise the error is the format message; a schedule always has four rows |
| Calculator.CalculateRejects | src/break-calc/BreakTime.tsx:22-24 | `""`, `24:00`, `25:00`, `1:60`, `1:5` and `abc` all throw the format error |
| Calculator.ScheduleTimesValid | src/break-calc/BreakTime.tsx:38-55 | every time in a schedule passes both the strict pattern and the input filter |
| Calculator.ScheduleReadBack | src/break-calc/BreakTime.tsx:38-56 | for a start before 11:42, the displayed times read back as minutes begin at the start, give durations 15, 15, 15 and 30, and leave one-minute gaps |
| Calculator.FormattedShortHours | src/break-calc/BreakTime.tsx:30-35 | a window whose two ends show a one-digit hour pushes the `h:mm` texts of its ends |
| Calculator.StartMinuteExamples | src/break-calc/BreakTime.tsx:27-28 | `1:00`, `13:00`, `00:00` and `23:59` are accepted and start at minutes 60, 780, 0 and 1439 |
| Calculator.CalculateOneOClock | src/break-calc/BreakTime.tsx:17-56 | `1:00` gives 1:00–1:15, 1:16–1:31, 1:32–1:47, 1:48–2:18 |
| Calculator.CalculateAfternoon | src/break-calc/BreakTime.tsx:17-56 | `13:00` gives a first break 1:00–1:15 |
| Calculator.CalculateMidnight | src/break-calc/BreakTime.tsx:17-56 | `00:00` gives a first break 0:00–0:15 |
| Calculator.CalculateLateEvening | src/break-calc/BreakTime.tsx:17-56 | `23:59` gives a last time-out of `13:17` |
| Widget.HandleChange | src/break-calc/BreakTime.tsx:58-68 | a value that passes the input filter becomes the stored time; any other value leaves the state unchanged; the schedule is never touched |
| Widget.HandleClick | src/break-calc/BreakTime.tsx:69-71 | succeeds if and only if the stored time is a clock time, and then shows `Calculate` of it (four rows) and keeps the stored time; otherwise it throws the format error |
| Widget.StepConsistent | src/break-calc/BreakTime.tsx:58-71 | each event keeps the state consistent: the stored time is empty or passes the filter, and a shown schedule has four rows of strict times |
| Widget.RunConsistent | src/break-calc/BreakTime.tsx:58-71 | any sequence of events keeps the state consistent |
| Widget.ReachableConsistent | src/break-calc/BreakTime.tsx:13-15 | every state reachable from the first render (empty time, no schedule) is consistent |
| Widget.ClickBeforeTyping | src/break-calc/BreakTime.tsx:69-71 | pressing Calculate before anything is stored throws the format error |
| Widget.OutOfRangeStoredThenThrows | src/break-calc/BreakTime.tsx:58-70 | `99:99` is stored, and pressing Calculate then throws |
| Widget.PartialInputIgnored | src/break-calc/BreakTime.tsx:62-67 | a partly typed `1:5` is not stored |
| Widget.TypeThenClick | src/break-calc/BreakTime.tsx:58-71 | typing a clock time and pressing Calculate shows exactly that time's schedule and keeps the time |

## Left out

- The rendered markup, the table, CSS classes and the `CopyToast` component: they are presentation with no behaviour to state.
- Copying to the clipboard through `navigator.clipboard.writeText`: a browser I/O call.
- The copy toast and its one-second `setTimeout`: wall-clock timing and asynchronous UI.
- React's `useState` cells as such: the stored time and the schedule are the fields of the `Widget.State` value, passed in and returned explicitly. The toast flag `toggleToast`, which only the left-out `CopyToast` rendering reads, is not part of that state.
- The text shown in the input field: the field is uncontrolled, so after a rejected edit it shows text that differs from the stored `initialTime`; the model keeps only the stored time.
- The Enter-key handler `handleKeyDown`: it only forwards to `handleClick`, which is modelled.
- The JavaScript regular-expression engine: both patterns are written as character predicates with the same anchoring.
- `Number` and `split(':')` in general: they are modelled only on strings that already passed the strict pattern, where `split` yields exactly the hour and minute fields and `Number` reads a run of ASCII digits.
- Floating point: every value is a small non-negative integer, so `Math.floor(t / 60)` and `t % 60` are `nat` division and remainder.
- Widget.HandleClick: an error thrown from the handler is modelled as a `Failure` result with no new state; what React then does with the uncaught exception is not modelled.
- Calculator.ScheduleReadBack: the read-back property is stated only for starts before 11:42, because from 13:00 on the display subtracts 12 hours (`TimeFormat.FormatTimeReadBack` states that case).
