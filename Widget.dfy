/**
 * The `BreakTime` component's state machine: the start time the component
 * stores (`initialTime`, filtered from the field's edits; the uncontrolled
 * field may show other text), the schedule on display (`breaks`, absent until the first
 * successful calculation), and the two handlers that change them.
 */
module Widget {
  import opened Wrappers
  import opened TimePattern
  import opened Calculator

  /** The component's state: the stored start time and the schedule shown, if any. */
  datatype State = State(initialTime: string, breaks: Option<seq<TimeBreak>>)

  /** The state on first render: an empty start time and no schedule. */
  const Initial: State := State("", None)

  /**
   * `handleChange`: the typed value is stored only when it passes the
   * input filter; otherwise the state stays as it was. The schedule is
   * never touched.
   */
  function HandleChange(w: State, inputValue: string): (next: State)
    ensures next.breaks == w.breaks
    ensures LooseMatch(inputValue) ==> next.initialTime == inputValue
    ensures !LooseMatch(inputValue) ==> next == w
  {
    if LooseMatch(inputValue) then w.(initialTime := inputValue) else w
  }

  /**
   * `handleClick`: the schedule for the stored start time replaces the one
   * shown. A stored time the strict pattern rejects makes the calculation
   * throw; the handler then yields the error and no new state.
   */
  function HandleClick(w: State): (r: Result<State, string>)
    ensures r.Success? <==> IsClockTime(w.initialTime)
    ensures r.Failure? ==> r.error == INVALID_TIME_FORMAT
    ensures r.Success? ==>
      r.value.initialTime == w.initialTime && r.value.breaks.Some? &&
      |r.value.breaks.value| == 4 && Calculate(w.initialTime) == Success(r.value.breaks.value)
  {
    CalculateAccepts(w.initialTime);
    match Calculate(w.initialTime)
    case Success(schedule) => Success(w.(breaks := Some(schedule)))
    case Failure(message) => Failure(message)
  }

  /** What the user does: edit the field's text, or press Calculate. */
  datatype Event = Change(value: string) | Click

  /** One event; a click whose calculation throws leaves the state as it was. */
  function Step(w: State, e: Event): (next: State) {
    match e
    case Change(value) => HandleChange(w, value)
    case Click =>
      match HandleClick(w)
      case Success(next) => next
      case Failure(_) => w
  }

  /** The state after a sequence of events, in order. */
  function Run(w: State, events: seq<Event>): (final: State)
    decreases |events|
  {
    if events == [] then w else Run(Step(w, events[0]), events[1..])
  }

  /**
   * What the component can show: the stored time is empty or passes the
   * input filter, and a displayed schedule has four rows whose every time
   * passes the strict pattern.
   */
  predicate Consistent(w: State) {
    (w.initialTime == "" || LooseMatch(w.initialTime)) &&
    (w.breaks.Some? ==>
      |w.breaks.value| == 4 &&
      forall i :: 0 <= i < 4 ==>
        IsStrictTime(w.breaks.value[i].timeIn) && IsStrictTime(w.breaks.value[i].timeOut))
  }

  lemma StepConsistent(w: State, e: Event)
    requires Consistent(w)
    ensures Consistent(Step(w, e))
  {
    if e.Click? && HandleClick(w).Success? {
      StrictPatternMeaning(w.initialTime);
      ScheduleTimesValid(w.initialTime);
    }
  }

  /** Every state reachable from the first render is consistent. */
  lemma {:induction false} RunConsistent(w: State, events: seq<Event>)
    requires Consistent(w)
    ensures Consistent(Run(w, events))
    decreases |events|
  {
    if events != [] {
      StepConsistent(w, events[0]);
      RunConsistent(Step(w, events[0]), events[1..]);
    }
  }

  lemma ReachableConsistent(events: seq<Event>)
    ensures Consistent(Run(Initial, events))
  {
    RunConsistent(Initial, events);
  }

  /** Pressing Calculate before typing anything throws: the empty start fails the strict pattern. */
  lemma ClickBeforeTyping()
    ensures HandleClick(Initial) == Failure(INVALID_TIME_FORMAT)
  {
    StrictPatternMeaning("");
  }

  /**
   * The input filter stores `99:99`, and pressing Calculate then throws:
   * the filter lets through times the calculation refuses.
   */
  lemma OutOfRangeStoredThenThrows(w: State)
    ensures HandleChange(w, "99:99").initialTime == "99:99"
    ensures HandleClick(HandleChange(w, "99:99")) == Failure(INVALID_TIME_FORMAT)
  {
    LooseAdmitsOutOfRange();
    StrictPatternMeaning("99:99");
  }

  /**
   * A partly typed minute such as `1:5` is not stored: the component keeps
   * its previous start time, although the field now shows `1:5`.
   */
  lemma PartialInputIgnored(w: State)
    ensures HandleChange(w, "1:5") == w
  {
  }

  /** Typing a clock time and pressing Calculate shows that time's schedule and keeps the time. */
  lemma TypeThenClick(w: State, startTime: string)
    requires IsClockTime(startTime)
    ensures Calculate(startTime).Success? &&
      HandleClick(HandleChange(w, startTime)) == Success(State(startTime, Some(Calculate(startTime).value)))
  {
    StrictPatternMeaning(startTime);
    StrictImpliesLoose(startTime);
  }
}
