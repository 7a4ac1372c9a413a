/** The settings read when the application finishes launching
    (LangSwitch/AppDelegate.swift, applicationDidFinishLaunching).
    The key-value store itself is not modelled: each stored value is an `Option`,
    `None` when the key is absent. */
module Settings {
  import opened Wrappers

  /** Compiled-in defaults, in milliseconds. */
  const DefaultMinKeyPressDuration: int := 200
  const DefaultMaxKeyPressDuration: int := 1000

  /** The press-duration window a release is classified against. Nothing forces
      `minMs < maxMs`: the application never checks it. */
  datatype Thresholds = Thresholds(minMs: int, maxMs: int)

  /** The threshold loading rule: a stored value wins over the default, and a
      maximum of 0 (stored or not) is replaced by the default maximum. The minimum
      is taken as stored, with no correction. */
  function LoadThresholds(savedMin: Option<int>, savedMax: Option<int>): (t: Thresholds)
    ensures savedMin.Some? ==> t.minMs == savedMin.value
    ensures savedMin.None? ==> t.minMs == DefaultMinKeyPressDuration
    ensures savedMax.Some? && savedMax.value != 0 ==> t.maxMs == savedMax.value
    ensures savedMax.None? || savedMax == Some(0) ==> t.maxMs == DefaultMaxKeyPressDuration
    ensures t.maxMs != 0
  {
    var minMs := savedMin.GetOr(DefaultMinKeyPressDuration);
    var maxMs := savedMax.GetOr(DefaultMaxKeyPressDuration);
    Thresholds(minMs, if maxMs == 0 then DefaultMaxKeyPressDuration else maxMs)
  }

  /** Loading is stable: storing the loaded thresholds and loading them again gives
      the same thresholds back, so a second launch sees what the first one used. */
  lemma ReloadIsStable(savedMin: Option<int>, savedMax: Option<int>)
    ensures var t := LoadThresholds(savedMin, savedMax);
            LoadThresholds(Some(t.minMs), Some(t.maxMs)) == t
  {
  }

  /** The window is not validated: stored values can make it empty, in which case
      no press duration ever qualifies. */
  lemma StoredWindowMayBeEmpty()
    ensures var t := LoadThresholds(Some(1000), Some(200));
            t.minMs > t.maxMs
  {
  }

  /** The popup flag as launch computes it: the field starts out `true` and is set to
      `true` again when nothing is stored, and the stored value is never read, so the
      result does not depend on `saved`. */
  function ShowPopupAtLaunchAsWritten(saved: Option<bool>): (show: bool)
    ensures show
  {
    var initial := true;
    if saved.None? then true else initial
  }

  /** A stored `false` (the user switched the popup off before quitting) is ignored
      at the next launch. */
  lemma SavedPopupOffIsIgnored()
    ensures ShowPopupAtLaunchAsWritten(Some(false)) != false
  {
  }

  /** The popup flag as evidently intended: the stored value if there is one,
      otherwise enabled. */
  function LoadShowPopup(saved: Option<bool>): (show: bool)
    ensures saved.None? ==> show
    ensures saved.Some? ==> show == saved.value
  {
    saved.GetOr(true)
  }
}
