/** The function-key gesture detector: the `flagsChanged` handler installed in
    applicationDidFinishLaunching (LangSwitch/AppDelegate.swift). Its state is
    the pair of fields `isGlobeKeyDown` and `globeKeyDownTimestamp`; this module
    gives the handler's effect as a function on that pair, and the class in
    `LangSwitch` is proved to follow it. Timestamps are whole milliseconds. */
module Gesture {
  import opened Wrappers

  /** The detector's fields: whether the function key was last seen held, and
      when the last press began. */
  datatype GestureState = GestureState(isGlobeKeyDown: bool, globeKeyDownTimestamp: Option<int>)

  /** The state at launch: key up, no press recorded. */
  const Initial: GestureState := GestureState(false, None)

  /** A modifier-flags event, reduced to whether the function-key flag is set and
      when the event happened. */
  datatype KeyEvent = KeyEvent(isGlobeKeyDownNow: bool, timestampMs: int)

  /** The detector's new state, and whether the event asks for a language switch. */
  datatype StepResult = StepResult(next: GestureState, switchLanguage: bool)

  /** A press of `elapsedMs` switches the language when it lies strictly between
      the two thresholds. */
  predicate Qualifies(elapsedMs: int, minMs: int, maxMs: int) {
    minMs < elapsedMs && elapsedMs < maxMs
  }

  /** Every state the detector reaches has a press time while the key is held. */
  predicate Consistent(s: GestureState) {
    s.isGlobeKeyDown ==> s.globeKeyDownTimestamp.Some?
  }

  /** One event: only a change of the function-key flag does anything; a press
      records its time, a release measures the press against the thresholds
      current at the release. The press time is left in place after a release. */
  function Step(s: GestureState, e: KeyEvent, minMs: int, maxMs: int): (r: StepResult)
    ensures r.next.isGlobeKeyDown == e.isGlobeKeyDownNow
    ensures e.isGlobeKeyDownNow == s.isGlobeKeyDown ==> r == StepResult(s, false)
    ensures !s.isGlobeKeyDown && e.isGlobeKeyDownNow ==> r.next.globeKeyDownTimestamp == Some(e.timestampMs)
    ensures s.isGlobeKeyDown && !e.isGlobeKeyDownNow ==> r.next.globeKeyDownTimestamp == s.globeKeyDownTimestamp
    ensures r.switchLanguage <==>
              && s.isGlobeKeyDown && !e.isGlobeKeyDownNow
              && s.globeKeyDownTimestamp.Some?
              && Qualifies(e.timestampMs - s.globeKeyDownTimestamp.value, minMs, maxMs)
    ensures Consistent(s) ==> Consistent(r.next)
  {
    if s.isGlobeKeyDown == e.isGlobeKeyDownNow then
      StepResult(s, false)
    else if e.isGlobeKeyDownNow then
      StepResult(GestureState(true, Some(e.timestampMs)), false)
    else
      var switchLanguage :=
        match s.globeKeyDownTimestamp
        case None => false
        case Some(keyDownTimestamp) => Qualifies(e.timestampMs - keyDownTimestamp, minMs, maxMs);
      StepResult(GestureState(false, s.globeKeyDownTimestamp), switchLanguage)
  }

  /** The outcome of feeding a sequence of events to the detector with fixed
      thresholds: the final state, and for each event whether it switched. */
  datatype Trace = Trace(final: GestureState, switches: seq<bool>)

  /** The monitor feeding `events` to the detector in order. */
  function Run(s: GestureState, events: seq<KeyEvent>, minMs: int, maxMs: int): (t: Trace)
    ensures |t.switches| == |events|
    ensures forall i :: 0 <= i < |events| && t.switches[i] ==> !events[i].isGlobeKeyDownNow
    decreases |events|
  {
    if |events| == 0 then Trace(s, [])
    else
      var r := Step(s, events[0], minMs, maxMs);
      var rest := Run(r.next, events[1..], minMs, maxMs);
      Trace(rest.final, [r.switchLanguage] + rest.switches)
  }

  /** The detector never reaches a state with the key held and no press time. */
  lemma {:induction false} RunStaysConsistent(s: GestureState, events: seq<KeyEvent>, minMs: int, maxMs: int)
    requires Consistent(s)
    ensures Consistent(Run(s, events, minMs, maxMs).final)
    decreases |events|
  {
    if |events| > 0 {
      RunStaysConsistent(Step(s, events[0], minMs, maxMs).next, events[1..], minMs, maxMs);
    }
  }

  /** Further "key held" events while the key is held are ignored: the state,
      and with it the press time of the first press, stays as it was, and
      nothing switches. */
  lemma {:induction false} RepeatedPressesKeepFirstTimestamp(s: GestureState, events: seq<KeyEvent>, minMs: int, maxMs: int)
    requires s.isGlobeKeyDown
    requires forall i :: 0 <= i < |events| ==> events[i].isGlobeKeyDownNow
    ensures Run(s, events, minMs, maxMs).final == s
    ensures forall i :: 0 <= i < |events| ==> !Run(s, events, minMs, maxMs).switches[i]
    decreases |events|
  {
    if |events| > 0 {
      RepeatedPressesKeepFirstTimestamp(s, events[1..], minMs, maxMs);
    }
  }

  /** From launch, a press at `t0` followed by a release at `t1` switches exactly
      when `t1 - t0` lies strictly inside the window: both bounds are excluded. */
  lemma PressThenRelease(t0: int, t1: int, minMs: int, maxMs: int)
    ensures var t := Run(Initial, [KeyEvent(true, t0), KeyEvent(false, t1)], minMs, maxMs);
            t.final == GestureState(false, Some(t0))
            && !t.switches[0]
            && (t.switches[1] <==> minMs < t1 - t0 < maxMs)
  {
    var events := [KeyEvent(true, t0), KeyEvent(false, t1)];
    var pressed := GestureState(true, Some(t0));
    assert Step(Initial, events[0], minMs, maxMs) == StepResult(pressed, false);
    assert events[1..] == [KeyEvent(false, t1)];
    var released := Step(pressed, events[1], minMs, maxMs);
    assert Run(pressed, events[1..], minMs, maxMs)
        == Trace(released.next, [released.switchLanguage] + Run(released.next, [], minMs, maxMs).switches) by {
      assert events[1..][1..] == [];
    }
  }

  /** With the default window of 200 to 1000 ms, a 500 ms press switches, a 50 ms
      press does not, and neither does a press of exactly 200 or 1000 ms. */
  lemma DefaultWindowExamples()
    ensures Run(Initial, [KeyEvent(true, 0), KeyEvent(false, 500)], 200, 1000).switches[1]
    ensures !Run(Initial, [KeyEvent(true, 0), KeyEvent(false, 50)], 200, 1000).switches[1]
    ensures !Run(Initial, [KeyEvent(true, 0), KeyEvent(false, 200)], 200, 1000).switches[1]
    ensures !Run(Initial, [KeyEvent(true, 0), KeyEvent(false, 1000)], 200, 1000).switches[1]
  {
    PressThenRelease(0, 500, 200, 1000);
    PressThenRelease(0, 50, 200, 1000);
    PressThenRelease(0, 200, 200, 1000);
    PressThenRelease(0, 1000, 200, 1000);
  }

  /** The thresholds are read when the key is released: a press made under one
      window and released under another is judged by the second window alone. */
  lemma ThresholdsReadAtRelease(s: GestureState, t0: int, t1: int, pressMin: int, pressMax: int, releaseMin: int, releaseMax: int)
    requires !s.isGlobeKeyDown
    ensures var pressed := Step(s, KeyEvent(true, t0), pressMin, pressMax).next;
            var released := Step(pressed, KeyEvent(false, t1), releaseMin, releaseMax);
            released.switchLanguage <==> releaseMin < t1 - t0 < releaseMax
  {
  }

  /** The step of a detector that clears the press time on every release; used
      only to show that the clearing makes no difference. */
  function StepClearing(s: GestureState, e: KeyEvent, minMs: int, maxMs: int): (r: StepResult)
    ensures !r.next.isGlobeKeyDown ==> r.next.globeKeyDownTimestamp == None || r.next == s
  {
    var r := Step(s, e, minMs, maxMs);
    if s.isGlobeKeyDown && !e.isGlobeKeyDownNow then StepResult(GestureState(false, None), r.switchLanguage)
    else r
  }

  function RunClearing(s: GestureState, events: seq<KeyEvent>, minMs: int, maxMs: int): (t: Trace)
    ensures |t.switches| == |events|
    decreases |events|
  {
    if |events| == 0 then Trace(s, [])
    else
      var r := StepClearing(s, events[0], minMs, maxMs);
      var rest := RunClearing(r.next, events[1..], minMs, maxMs);
      Trace(rest.final, [r.switchLanguage] + rest.switches)
  }

  /** Two detector states that agree on the key flag, and on the press time
      while the key is held, behave alike. */
  predicate Agree(s: GestureState, c: GestureState) {
    s.isGlobeKeyDown == c.isGlobeKeyDown
    && (s.isGlobeKeyDown ==> s.globeKeyDownTimestamp == c.globeKeyDownTimestamp)
  }

  /** The press time left behind after a release is never read again: for every
      sequence of events, the detector as written switches at exactly the same
      events as one that clears the press time on release. */
  lemma {:induction false} ClearingOnReleaseIsUnobservable(s: GestureState, c: GestureState, events: seq<KeyEvent>, minMs: int, maxMs: int)
    requires Agree(s, c)
    ensures Run(s, events, minMs, maxMs).switches == RunClearing(c, events, minMs, maxMs).switches
    ensures Agree(Run(s, events, minMs, maxMs).final, RunClearing(c, events, minMs, maxMs).final)
    decreases |events|
  {
    if |events| > 0 {
      var r := Step(s, events[0], minMs, maxMs);
      var q := StepClearing(c, events[0], minMs, maxMs);
      assert r.switchLanguage == q.switchLanguage && Agree(r.next, q.next);
      ClearingOnReleaseIsUnobservable(r.next, q.next, events[1..], minMs, maxMs);
    }
  }
}
