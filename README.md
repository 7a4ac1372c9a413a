# LangSwitch in Dafny

LangSwitch is a macOS menu-bar utility. A short press-and-release of the Fn
(globe) key moves the keyboard to the next enabled input source and, if popups
are enabled, briefly shows the new source's name. All of its logic lives in
`LangSwitch/AppDelegate.swift`. This project models the two parts of that file
that hold logic and proves their properties:

- **The Fn-key gesture detector.** The `flagsChanged` handler keeps two fields,
  `isGlobeKeyDown` and `globeKeyDownTimestamp`. It acts only when the Fn flag
  changes. A press records its time. A release switches the language when the
  press lasted strictly between `minKeyPressDuration` and
  `maxKeyPressDuration`, read at the moment of release.
- **Input-source cycling with a skip list.** `switchKeyboardLanguage` finds the
  current source by its first occurrence in the enabled list. It then walks the
  list circularly from the next position, passing over four system
  pseudo-sources ("Emoji & Symbols", "com.apple.PressAndHold", "Dictation",
  "EmojiFunctionRowIM_Extension"). It selects the first other source and shows
  its name if popups are enabled.
- **Settings at launch.** Stored thresholds are used when present. Otherwise
  the defaults are 200 ms and 1000 ms, and a maximum of 0 is reset to 1000.

Files:

- `wrappers.dfy` (`Wrappers`): `Option`.
- `settings.dfy` (`Settings`): the threshold loading rule and the popup flag
  loaded at launch.
- `input_sources.dfy` (`InputSources`): sources, the skip list, the selection
  specification, the selection loop and the cycling lemmas.
- `gesture.dfy` (`Gesture`): the detector as a function on its two fields,
  event traces and their lemmas.
- `app_delegate.dfy` (`LangSwitch`): the class `AppDelegate`. It holds the
  fields the source updates in place, and its methods are proved against
  `Gesture.Step`, `Settings.LoadThresholds` and `InputSources.SelectedSource`.

Modelling choices:

- Timestamps are whole milliseconds. The application subtracts two `Double`
  second counts and multiplies by 1000; the model compares exact integers.
- A host input source is a value with an identity number and a localized name.
  Handle equality is value equality.
- The host's answers to one switch are a `Host` value: the current source, if
  any, and the enabled-source list. A list the host fails to create is
  modelled as the empty list, since both take the same early return.
- The two effects of a switch are returned instead of performed: the source
  handed to the host to select, and the name the popup shows.

Two behaviours of the code that the model keeps as they are:

- A release leaves the press time in place; line 93 overwrites it at the next
  press. `Gesture.ClearingOnReleaseIsUnobservable` proves that a detector
  clearing it on release switches at the same events.
- Nothing checks `min < max` (`Settings.StoredWindowMayBeEmpty`).
- Two other behaviours are bugs in the code, listed under Findings. In both
  cases the rest of the model uses the corrected behaviour.

## Model

| member | source | states |
|---|---|---|
| `Settings.LoadThresholds` | LangSwitch/AppDelegate.swift:36-57 | A stored min or max is used when present. Otherwise min is 200 and max is 1000. A max of 0 becomes 1000, so the loaded max is never 0. Min is never corrected. |
| `Settings.ReloadIsStable` | LangSwitch/AppDelegate.swift:36-57 | The loading rule is idempotent on its own output: loading the loaded thresholds again gives the same thresholds. |
| `Settings.StoredWindowMayBeEmpty` | LangSwitch/AppDelegate.swift:36-57 | Loading does not enforce min < max: stored 1000 and 200 give an empty window. |
| `Settings.ShowPopupAtLaunchAsWritten` | LangSwitch/AppDelegate.swift:51-53 | As written, the popup flag after launch is true whatever is stored. |
| `Settings.SavedPopupOffIsIgnored` | LangSwitch/AppDelegate.swift:51-53 | As written, a stored `false` is ignored at the next launch. |
| `Settings.LoadShowPopup` | LangSwitch/AppDelegate.swift:51-53 | Corrected loader: the stored flag when present, otherwise true. So a flag stored by the toggle (line 238) is the flag loaded at the next launch. |
| `InputSources.IsSkipped` | LangSwitch/AppDelegate.swift:268-273 | The `skipSources.contains(sourceName)` test, written entry by entry against `SkipSources`, the four names listed at line 268. |
| `InputSources.SkippedExactlyWhenListed` | LangSwitch/AppDelegate.swift:268-273 | A name is skipped exactly when it equals one of the four listed names. |
| `InputSources.FirstIndex` | LangSwitch/AppDelegate.swift:260 | The result is the index of the first source equal to the current one: that source is equal and no earlier one is. It is `None` exactly when the source is not in the list. |
| `InputSources.FirstUnskippedOffset` | LangSwitch/AppDelegate.swift:270-277 | An offset it returns is in range and the candidate there has a name outside the skip list. |
| `InputSources.FirstUnskippedOffsetPassesOnlySkipped` | LangSwitch/AppDelegate.swift:270-277 | Every candidate before the offset found is skipped. When no offset is found, every remaining candidate is skipped. |
| `InputSources.FirstUnskippedOffsetFinds` | LangSwitch/AppDelegate.swift:270-277 | Conversely, an unskipped candidate with only skipped candidates before it is the offset the walk finds. |
| `InputSources.WalkFindsEligible` | LangSwitch/AppDelegate.swift:266-277 | From any starting position, the walk finds an unskipped candidate whenever the list holds an unskipped name. |
| `InputSources.NextSourceIndex` | LangSwitch/AppDelegate.swift:244-280 | A selected index is in range and its name is never in the skip list. |
| `InputSources.SelectsExactlyWhen` | LangSwitch/AppDelegate.swift:246-277 | Something is selected exactly when there is a current source, it is in the list, and some listed name is outside the skip list. With no current source, an empty list or a missing current source, nothing is selected. |
| `InputSources.SelectedSource` | LangSwitch/AppDelegate.swift:280-283 | The selected source is never a skipped pseudo-source. |
| `InputSources.SelectedSourceIsListed` | LangSwitch/AppDelegate.swift:280-283 | The selected source is one of the enabled sources. |
| `InputSources.SelectNextSource` | LangSwitch/AppDelegate.swift:244-280 | The selection loop returns exactly `NextSourceIndex`. It starts at `(currentIndex + 1) % n` and steps with `% n`, as the source does. It stops after n candidates (corrected; see Findings). |
| `InputSources.ScanAsWritten` | LangSwitch/AppDelegate.swift:271-277 | The unbounded skip loop as written, run for a given number of iterations. When it stops, it stops on an index whose name is not skipped. |
| `InputSources.AllSkippedScanNeverExits` | LangSwitch/AppDelegate.swift:271-277 | When every enabled name is in the skip list, the loop as written is still running after any number of iterations. |
| `InputSources.DictationOnlyScanHangs` | LangSwitch/AppDelegate.swift:268-277 | Concrete case: with only "Dictation" enabled and current, the loop as written never exits, and the bounded selection selects nothing. |
| `InputSources.AsWrittenAgreesWhenEligible` | LangSwitch/AppDelegate.swift:266-280 | When some source is eligible, the loop as written stops within n iterations at the same index as the bounded selection. The correction changes only the all-skipped case. |
| `InputSources.ScanFindsFirstUnskipped` | LangSwitch/AppDelegate.swift:271-277 | Given n iterations, the loop as written stops at the first unskipped candidate of the walk, when there is one. |
| `InputSources.SelectsFirstEligibleOnWalk` | LangSwitch/AppDelegate.swift:266-280 | If the k-th candidate after the current source is the first whose name is not skipped, that candidate is selected. |
| `InputSources.SelectsCurrentWhenOthersSkipped` | LangSwitch/AppDelegate.swift:266-280 | If every other source is skipped, the switch selects the current source again. |
| `InputSources.NoSkippedNamesAdvanceByOne` | LangSwitch/AppDelegate.swift:266 | With distinct sources and no skipped names, the selected index is `(i + 1) % n`. |
| `InputSources.NoSkippedNamesAdvance` | LangSwitch/AppDelegate.swift:266 | Under the same conditions, every switch from a listed source moves one position on. |
| `InputSources.IterateAdvances` | LangSwitch/AppDelegate.swift:266-277 | Any step that moves every listed source one position on, applied k times (k at most n) from source i, lands k positions further round. |
| `InputSources.SwitchesWalkTheList` | LangSwitch/AppDelegate.swift:266-277 | Under the same conditions, k switches (k at most n) from source i land on the source k positions further round. |
| `InputSources.SwitchesDiffer` | LangSwitch/AppDelegate.swift:266-277 | Two different switch counts between 1 and n end on different sources. |
| `InputSources.VisitsEverySourceOnce` | LangSwitch/AppDelegate.swift:266-277 | n consecutive switches over a fixed list reach every source, each exactly once, and end on the starting source. |
| `InputSources.SkipEmojiExample` | LangSwitch/AppDelegate.swift:266-280 | With [EN, RU, "Emoji & Symbols", FR]: EN goes to RU, RU goes to FR (the emoji picker is passed over), and FR wraps to EN. |
| `Gesture.Qualifies` | LangSwitch/AppDelegate.swift:102 | A press qualifies exactly when its elapsed time is strictly greater than min and strictly less than max. |
| `Gesture.Step` | LangSwitch/AppDelegate.swift:89-111 | After an event the flag equals the event's value. An event that does not change the flag changes nothing and does not switch. A down flip records its time; an up flip keeps it. A switch happens exactly on an up flip with a recorded time whose elapsed time is strictly between min and max. Consistency is preserved. |
| `Gesture.Run` | LangSwitch/AppDelegate.swift:86-112 | The final state and the switch decision for each event when the monitor feeds the events to the handler in order. There is one decision per event, and an event that switches is always a release. |
| `Gesture.RunStaysConsistent` | LangSwitch/AppDelegate.swift:91-110 | Over any event sequence, a held key always has a press time. So an up flip without a press time cannot occur after launch. |
| `Gesture.RepeatedPressesKeepFirstTimestamp` | LangSwitch/AppDelegate.swift:91-94 | While the key is held, further "held" events leave the state, and so the first press time, unchanged, and they never switch. |
| `Gesture.PressThenRelease` | LangSwitch/AppDelegate.swift:91-108 | From launch, a press at t0 then a release at t1 switches exactly when min < t1 - t0 < max; both bounds are excluded. |
| `Gesture.DefaultWindowExamples` | LangSwitch/AppDelegate.swift:97-102 | With 200 and 1000: a 500 ms press switches, while presses of 50, 200 and 1000 ms do not. |
| `Gesture.ThresholdsReadAtRelease` | LangSwitch/AppDelegate.swift:102 | A press made under one window and released under another is judged by the release window alone. |
| `Gesture.ClearingOnReleaseIsUnobservable` | LangSwitch/AppDelegate.swift:91-110 | For every event sequence, the detector as written switches at the same events as one that clears the press time on release. |
| `LangSwitch.PopupFor` | LangSwitch/AppDelegate.swift:289-292 | A popup name is produced exactly when a source was selected and popups are enabled, and it is that source's name. |
| `LangSwitch.AppDelegate.constructor` | LangSwitch/AppDelegate.swift:18-57 | After launch the detector is idle with no press time, the thresholds are `LoadThresholds` of the stored values, and the popup flag is the corrected loader's. |
| `LangSwitch.AppDelegate.FlagsChanged` | LangSwitch/AppDelegate.swift:86-112 | The handler's new detector state and its switch decision are `Gesture.Step` with the thresholds current at the event. On a switch the selected source is `SelectedSource(host)`; otherwise nothing is selected and no popup is shown. The class invariant (a held key has a press time) is preserved. Under it, a release selects a source exactly when the elapsed time since the recorded press qualifies and the selection finds a source. |
| `LangSwitch.AppDelegate.SliderMinValueChanged` | LangSwitch/AppDelegate.swift:117-123 | The new minimum replaces the old one and is used at the next release. |
| `LangSwitch.AppDelegate.SliderMaxValueChanged` | LangSwitch/AppDelegate.swift:125-131 | The new maximum replaces the old one. A 0 is kept until the next launch. |
| `LangSwitch.AppDelegate.ToggleShouldShowPopup` | LangSwitch/AppDelegate.swift:234-242 | The popup flag is negated and the menu check mark shows the new value. |
| `LangSwitch.AppDelegate.SwitchKeyboardLanguage` | LangSwitch/AppDelegate.swift:244-293 | The selected source is `SelectedSource(host)`: enabled and never skipped. The popup receives its name exactly when popups are enabled and a source was selected. |

## Left out

- Status-bar item, menu construction, slider views and tick labels, the About window, the GitHub link and Exit (lines 32-33, 59-84, 133-230): user interface with no logic.
- Popup rendering, layout, fade animation, the delayed dismissal work item and the animation-identity check (lines 295-397). They run on timers on the main queue; the model stops at the popup name returned by `FlagsChanged` and `SwitchKeyboardLanguage`.
- Writes to the settings store (lines 120-121, 128-129, 238). Stored values enter only as `Option` inputs to the loaders at launch.
- Carbon input-source calls and the global event monitor. They are replaced by the `Host` parameter, by the returned selection, and by one `FlagsChanged` call per event. The handler's weak-self guard is not modelled.
- Modifier flags other than Fn: an event is reduced to whether the Fn flag is set.
- Floating-point time: elapsed times are exact integer milliseconds, so `Double` rounding near the thresholds is not modelled.
- Slider range and tick marks (0 to 1000 in steps of 50, line 148-150): the slider methods accept any integer.
- Logging with `print`.
- `InputSources.NoSkippedNamesAdvanceByOne`, `InputSources.SwitchesWalkTheList`, `InputSources.SwitchesDiffer` and `InputSources.VisitsEverySourceOnce` assume each source occurs once in the enabled list. With duplicates the first-occurrence lookup can send the walk back to an earlier copy.

## Findings

| source | as written | input that shows it | evidently intended | confidence | as-written member | corrected member |
|---|---|---|---|---|---|---|
| LangSwitch/AppDelegate.swift:271-277 | The skip loop has no bound. If every enabled source's name is in the skip list, it never exits and the event handler hangs. | Enabled sources `[Dictation]`, with Dictation current. | Stop after one full circle and select nothing. | high; not executed | `InputSources.DictationOnlyScanHangs` | `InputSources.SelectNextSource` |
| LangSwitch/AppDelegate.swift:51-53 | The stored popup flag is never read: the field starts `true` and is set to `true` again only when nothing is stored. | Turn popups off (stores `false`), then relaunch: popups are on again. | Use the stored flag, with `true` as the default. | high; not executed | `Settings.SavedPopupOffIsIgnored` | `Settings.LoadShowPopup` |
