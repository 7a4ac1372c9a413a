/** The application delegate (LangSwitch/AppDelegate.swift) reduced to its
    logic: the fields the event handler, the sliders and the popup toggle update,
    and the language switch. Host services are parameters: the key-event feed
    calls `FlagsChanged`, the input-source service answers with a `Host`, and the
    returned values stand for its two effects, the source handed to the host to
    select and the name shown in the popup. */
module LangSwitch {
  import opened Wrappers
  import opened Settings
  import opened InputSources
  import opened Gesture

  /** The name the popup shows for a selection, when popups are enabled. */
  function PopupFor(selected: Option<Source>, shouldShowPopup: bool): (name: Option<string>)
    ensures name.Some? <==> selected.Some? && shouldShowPopup
    ensures name.Some? ==> name.value == selected.value.localizedName
  {
    if selected.Some? && shouldShowPopup then Some(selected.value.localizedName) else None
  }

  class AppDelegate {
    var shouldShowPopup: bool
    var globeKeyDownTimestamp: Option<int>
    var isGlobeKeyDown: bool
    var minKeyPressDuration: int
    var maxKeyPressDuration: int

    /** The gesture detector's part of the state. */
    function Detector(): GestureState
      reads this
    {
      GestureState(isGlobeKeyDown, globeKeyDownTimestamp)
    }

    /** The class invariant: while the key is held a press time is recorded. The
        constructor establishes it and `FlagsChanged` keeps it. */
    ghost predicate Valid()
      reads this
    {
      Consistent(Detector())
    }

    /** Construction followed by the settings part of launching: the thresholds by
        the loading rule, the popup flag by the corrected loader (the application
        as written ignores the stored flag; see `Settings`). */
    constructor (savedMin: Option<int>, savedMax: Option<int>, savedPopup: Option<bool>)
      ensures Valid() && Detector() == Initial
      ensures Thresholds(minKeyPressDuration, maxKeyPressDuration) == LoadThresholds(savedMin, savedMax)
      ensures shouldShowPopup == LoadShowPopup(savedPopup)
    {
      shouldShowPopup := true;
      globeKeyDownTimestamp := None;
      isGlobeKeyDown := false;
      minKeyPressDuration := DefaultMinKeyPressDuration;
      maxKeyPressDuration := DefaultMaxKeyPressDuration;
      new;
      if savedMin.Some? {
        minKeyPressDuration := savedMin.value;
      } else {
        minKeyPressDuration := DefaultMinKeyPressDuration;
      }
      if savedMax.Some? {
        maxKeyPressDuration := savedMax.value;
      } else {
        maxKeyPressDuration := DefaultMaxKeyPressDuration;
      }
      if savedPopup.None? {
        shouldShowPopup := true;
      } else {
        shouldShowPopup := savedPopup.value;
      }
      if maxKeyPressDuration == 0 {
        maxKeyPressDuration := DefaultMaxKeyPressDuration;
      }
    }

    /** The `flagsChanged` handler: follows `Gesture.Step` with the thresholds
        current at the event, and on a qualifying release performs the switch. */
    method FlagsChanged(isGlobeKeyDownNow: bool, timestampMs: int, host: Host)
      returns (selected: Option<Source>, popupName: Option<string>)
      modifies this`isGlobeKeyDown, this`globeKeyDownTimestamp
      ensures var r := Step(old(Detector()), KeyEvent(isGlobeKeyDownNow, timestampMs),
                            minKeyPressDuration, maxKeyPressDuration);
              && Detector() == r.next
              && selected == (if r.switchLanguage then SelectedSource(host) else None)
              && popupName == PopupFor(selected, shouldShowPopup)
      ensures old(Valid()) ==> Valid()
      ensures old(Valid()) && old(isGlobeKeyDown) && !isGlobeKeyDownNow ==>
                (selected.Some? <==>
                   Qualifies(timestampMs - old(globeKeyDownTimestamp).value, minKeyPressDuration, maxKeyPressDuration)
                   && SelectedSource(host).Some?)
    {
      selected, popupName := None, None;
      if isGlobeKeyDown != isGlobeKeyDownNow {
        if isGlobeKeyDownNow {
          globeKeyDownTimestamp := Some(timestampMs);
        } else {
          if globeKeyDownTimestamp.Some? {
            var elapsedTime := timestampMs - globeKeyDownTimestamp.value;
            if elapsedTime > minKeyPressDuration && elapsedTime < maxKeyPressDuration {
              selected, popupName := SwitchKeyboardLanguage(host);
            }
          }
        }
        isGlobeKeyDown := isGlobeKeyDownNow;
      }
    }

    /** The minimum-delay slider: the new value takes effect at the next release. */
    method SliderMinValueChanged(value: int)
      modifies this`minKeyPressDuration
      ensures minKeyPressDuration == value
    {
      minKeyPressDuration := value;
    }

    /** The maximum-delay slider. A value of 0 is kept as it is until the next
        launch: the reset to the default happens only when loading. */
    method SliderMaxValueChanged(value: int)
      modifies this`maxKeyPressDuration
      ensures maxKeyPressDuration == value
    {
      maxKeyPressDuration := value;
    }

    /** The "Enable popup" menu item: negates the flag and reports the new
        check-mark state. */
    method ToggleShouldShowPopup() returns (menuItemOn: bool)
      modifies this`shouldShowPopup
      ensures shouldShowPopup == !old(shouldShowPopup)
      ensures menuItemOn == shouldShowPopup
    {
      shouldShowPopup := !shouldShowPopup;
      menuItemOn := shouldShowPopup;
    }

    /** The language switch: the selected source, which is never a skipped
        pseudo-source, and the popup name, present exactly when popups are
        enabled and a source was selected. */
    method SwitchKeyboardLanguage(host: Host) returns (selected: Option<Source>, popupName: Option<string>)
      ensures selected == SelectedSource(host)
      ensures selected.Some? ==> selected.value in host.sources && !IsSkipped(selected.value.localizedName)
      ensures popupName == PopupFor(selected, shouldShowPopup)
    {
      var index := SelectNextSource(host.current, host.sources);
      if index.None? {
        return None, None;
      }
      var nextSource := host.sources[index.value];
      selected := Some(nextSource);
      if shouldShowPopup {
        popupName := Some(nextSource.localizedName);
      } else {
        popupName := None;
      }
    }
  }
}
