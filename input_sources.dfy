/** Choosing the next keyboard input source (LangSwitch/AppDelegate.swift,
    switchKeyboardLanguage). The host's input-source service is replaced by its
    answers: the current source, if any, and the ordered list of enabled sources. */
module InputSources {
  import opened Wrappers

  /** An input source as the host hands it out: an opaque identity and the
      localized name the skip list and the popup use. Two sources are the same
      source exactly when they are equal values. */
  datatype Source = Source(id: nat, localizedName: string)

  /** The host's answers to one selection request. */
  datatype Host = Host(current: Option<Source>, sources: seq<Source>)

  /** System pseudo-sources that are never selected. */
  const SkipSources: seq<string> :=
    ["Emoji & Symbols", "com.apple.PressAndHold", "Dictation", "EmojiFunctionRowIM_Extension"]

  /** Membership in `SkipSources`, written entry by entry. */
  predicate IsSkipped(name: string) {
    name == SkipSources[0] || name == SkipSources[1] || name == SkipSources[2] || name == SkipSources[3]
  }

  /** A name is skipped exactly when it is one of the listed names. */
  lemma SkippedExactlyWhenListed(name: string)
    ensures IsSkipped(name) <==> name in SkipSources
  {
    if name in SkipSources {
      var t :| 0 <= t < |SkipSources| && SkipSources[t] == name;
      assert t == 0 || t == 1 || t == 2 || t == 3;
    }
  }

  /** The position of the first source equal to `s`, or `None` when there is none. */
  function FirstIndex(sources: seq<Source>, s: Source): (r: Option<nat>)
    ensures r.Some? ==> r.value < |sources| && sources[r.value] == s
    ensures r.Some? ==> forall j :: 0 <= j < r.value ==> sources[j] != s
    ensures r.None? ==> forall j :: 0 <= j < |sources| ==> sources[j] != s
  {
    if |sources| == 0 then None
    else if sources[0] == s then Some(0)
    else
      match FirstIndex(sources[1..], s)
      case None => None
      case Some(i) => Some(i + 1)
  }

  /** Index of the `k`-th candidate of the circular walk that starts at `start`:
      `(start + k) % n`, written without the remainder since `start + k < 2 * n`. */
  function Circular(n: nat, start: nat, k: nat): (i: nat)
    requires start < n && k <= n
    ensures i < n
  {
    if start + k < n then start + k else start + k - n
  }

  /** Name of the `k`-th candidate of the circular walk over `sources` from `start`. */
  function CandidateName(sources: seq<Source>, start: nat, k: nat): string
    requires start < |sources| && k < |sources|
  {
    sources[Circular(|sources|, start, k)].localizedName
  }

  /** The offset, at least `k` and below the number of sources, of the first
      candidate whose name is not skipped; `None` when every remaining candidate
      is skipped. */
  function FirstUnskippedOffset(sources: seq<Source>, start: nat, k: nat): (r: Option<nat>)
    requires start < |sources| && k <= |sources|
    decreases |sources| - k
    ensures r.Some? ==> k <= r.value < |sources| && !IsSkipped(CandidateName(sources, start, r.value))
  {
    if k == |sources| then None
    else if !IsSkipped(CandidateName(sources, start, k)) then Some(k)
    else FirstUnskippedOffset(sources, start, k + 1)
  }

  /** Every candidate the walk passes before the offset it finds is skipped, and
      when it finds none, every remaining candidate is skipped. */
  lemma {:induction false} FirstUnskippedOffsetPassesOnlySkipped(sources: seq<Source>, start: nat, k: nat)
    requires start < |sources| && k <= |sources|
    ensures var r := FirstUnskippedOffset(sources, start, k);
            && (r.Some? ==> forall j :: k <= j < r.value ==> IsSkipped(CandidateName(sources, start, j)))
            && (r.None? ==> forall j :: k <= j < |sources| ==> IsSkipped(CandidateName(sources, start, j)))
    decreases |sources| - k
  {
    if k < |sources| && IsSkipped(CandidateName(sources, start, k)) {
      FirstUnskippedOffsetPassesOnlySkipped(sources, start, k + 1);
    }
  }

  /** The offset at which the circular walk from `start` meets index `i`: every
      index is met once within the first `n` candidates. */
  function OffsetOf(n: nat, start: nat, i: nat): (k: nat)
    requires start < n && i < n
    ensures k < n && Circular(n, start, k) == i
  {
    if start <= i then i - start else i + n - start
  }

  /** Index of the source the switch selects, or `None` when it selects nothing:
      no current source, an empty list, a current source missing from the list,
      or (a bound the application does not have) a full circle of skipped names. */
  function NextSourceIndex(current: Option<Source>, sources: seq<Source>): (r: Option<nat>)
    ensures r.Some? ==> r.value < |sources| && !IsSkipped(sources[r.value].localizedName)
  {
    if current.None? || |sources| == 0 then None
    else
      match FirstIndex(sources, current.value)
      case None => None
      case Some(ci) =>
        var n := |sources|;
        var start := Circular(n, ci, 1);
        match FirstUnskippedOffset(sources, start, 0)
        case Some(k) => Some(Circular(n, start, k))
        case None => None
  }

  /** The switch selects a source exactly when there is a current source, it is in
      the list, and some source in the list has a name outside the skip list. */
  lemma SelectsExactlyWhen(current: Option<Source>, sources: seq<Source>)
    ensures NextSourceIndex(current, sources).Some?
            <==> current.Some? && current.value in sources && HasEligible(sources)
  {
    if current.Some? && current.value in sources && HasEligible(sources) {
      var start := Circular(|sources|, FirstIndex(sources, current.value).value, 1);
      var i :| 0 <= i < |sources| && !IsSkipped(sources[i].localizedName);
      WalkFindsEligible(sources, start, i);
    }
  }

  /** A walk over the whole list finds an unskipped candidate whenever the list
      holds an unskipped name, wherever the walk starts. */
  lemma WalkFindsEligible(sources: seq<Source>, start: nat, i: nat)
    requires start < |sources| && i < |sources| && !IsSkipped(sources[i].localizedName)
    ensures FirstUnskippedOffset(sources, start, 0).Some?
  {
    var k := OffsetOf(|sources|, start, i);
    FirstUnskippedOffsetPassesOnlySkipped(sources, start, 0);
    assert !IsSkipped(CandidateName(sources, start, k));
  }

  /** Some enabled source has a name outside the skip list. */
  predicate HasEligible(sources: seq<Source>) {
    exists i :: 0 <= i < |sources| && !IsSkipped(sources[i].localizedName)
  }

  /** The source the switch selects. */
  function SelectedSource(host: Host): (r: Option<Source>)
    ensures r.Some? ==> !IsSkipped(r.value.localizedName)
  {
    match NextSourceIndex(host.current, host.sources)
    case None => None
    case Some(i) => Some(host.sources[i])
  }

  /** The selected source is one of the host's enabled sources. */
  lemma SelectedSourceIsListed(host: Host)
    ensures SelectedSource(host).Some? ==> SelectedSource(host).value in host.sources
  {
  }

  /** One step of the application's index arithmetic, `(i + 1) % n`, is one step
      of the circular walk. */
  lemma ModStep(n: nat, i: nat)
    requires i < n
    ensures (i + 1) % n == Circular(n, i, 1)
  {
  }

  /** One step from the `k`-th candidate is the `k + 1`-th candidate. */
  lemma CircularSucc(n: nat, start: nat, k: nat)
    requires start < n && k < n
    ensures Circular(n, Circular(n, start, k), 1) == Circular(n, start, k + 1)
  {
  }

  /** The selection step of the switch: locate the current source by its first
      occurrence, then walk the list circularly from the next position, passing
      over skipped names. The walk stops after `n` candidates, which the
      application's own loop does not do (see `ScanAsWritten`). */
  method SelectNextSource(current: Option<Source>, sources: seq<Source>) returns (r: Option<nat>)
    ensures r == NextSourceIndex(current, sources)
  {
    if current.None? || |sources| == 0 {
      return None;
    }
    var currentIndex := FirstIndex(sources, current.value);
    if currentIndex.None? {
      return None;
    }
    var n := |sources|;
    ModStep(n, currentIndex.value);
    var start := (currentIndex.value + 1) % n;
    var nextIndex := start;
    var examined := 0;
    while examined < n && IsSkipped(sources[nextIndex].localizedName)
      invariant examined <= n
      invariant nextIndex == Circular(n, start, examined)
      invariant FirstUnskippedOffset(sources, start, examined) == FirstUnskippedOffset(sources, start, 0)
      decreases n - examined
    {
      ModStep(n, nextIndex);
      CircularSucc(n, start, examined);
      nextIndex := (nextIndex + 1) % n;
      examined := examined + 1;
    }
    if examined == n {
      r := None;
    } else {
      r := Some(nextIndex);
    }
  }

  /** The application's skip loop as written: it has no bound, so `fuel` counts the
      iterations allowed; `None` means the loop is still running when they are
      used up. */
  function ScanAsWritten(sources: seq<Source>, nextIndex: nat, fuel: nat): (r: Option<nat>)
    requires nextIndex < |sources|
    ensures r.Some? ==> r.value < |sources| && !IsSkipped(sources[r.value].localizedName)
    decreases fuel
  {
    if fuel == 0 then None
    else if !IsSkipped(sources[nextIndex].localizedName) then Some(nextIndex)
    else ScanAsWritten(sources, (nextIndex + 1) % |sources|, fuel - 1)
  }

  /** When every enabled source is a skipped pseudo-source, the application's loop
      never leaves: however many iterations it is given, it is still scanning. */
  lemma AllSkippedScanNeverExits(sources: seq<Source>, nextIndex: nat, fuel: nat)
    requires nextIndex < |sources|
    requires !HasEligible(sources)
    ensures ScanAsWritten(sources, nextIndex, fuel) == None
  {
  }

  /** A concrete input: the only enabled source is "Dictation" and it is current.
      The application's loop never exits, while the bounded selection reports
      that nothing can be selected. */
  lemma DictationOnlyScanHangs(fuel: nat)
    ensures var s := [Source(0, "Dictation")];
            ScanAsWritten(s, 0, fuel) == None && NextSourceIndex(Some(s[0]), s) == None
  {
  }

  /** Outside that case the bound changes nothing: whenever some source is
      eligible, the application's unbounded loop, started at the same position,
      stops within `n` iterations at the index the bounded selection returns. */
  lemma AsWrittenAgreesWhenEligible(current: Source, sources: seq<Source>)
    requires current in sources && HasEligible(sources)
    ensures var ci := FirstIndex(sources, current).value;
            ScanAsWritten(sources, (ci + 1) % |sources|, |sources|) == NextSourceIndex(Some(current), sources)
  {
    var n := |sources|;
    var ci := FirstIndex(sources, current).value;
    ModStep(n, ci);
    var start := Circular(n, ci, 1);
    var e :| 0 <= e < n && !IsSkipped(sources[e].localizedName);
    WalkFindsEligible(sources, start, e);
    var k := FirstUnskippedOffset(sources, start, 0).value;
    ScanFindsFirstUnskipped(sources, start);
    assert NextSourceIndex(Some(current), sources) == Some(Circular(n, start, k));
  }

  /** Given `n` iterations, the application's loop stops at the first unskipped
      candidate of the walk, when there is one. */
  lemma ScanFindsFirstUnskipped(sources: seq<Source>, start: nat)
    requires start < |sources| && FirstUnskippedOffset(sources, start, 0).Some?
    ensures ScanAsWritten(sources, start, |sources|)
            == Some(Circular(|sources|, start, FirstUnskippedOffset(sources, start, 0).value))
  {
    FirstUnskippedOffsetPassesOnlySkipped(sources, start, 0);
    ScanMatchesOffset(sources, start, 0, FirstUnskippedOffset(sources, start, 0).value);
    assert Circular(|sources|, start, 0) == start;
  }

  lemma {:induction false} ScanMatchesOffset(sources: seq<Source>, start: nat, j: nat, k: nat)
    requires start < |sources| && j <= k < |sources|
    requires !IsSkipped(CandidateName(sources, start, k))
    requires forall i :: j <= i < k ==> IsSkipped(CandidateName(sources, start, i))
    ensures ScanAsWritten(sources, Circular(|sources|, start, j), |sources| - j) == Some(Circular(|sources|, start, k))
    decreases k - j
  {
    if j < k {
      assert IsSkipped(CandidateName(sources, start, j));
      ScanPassesCandidate(sources, start, j);
      ScanMatchesOffset(sources, start, j + 1, k);
    }
  }

  /** At a skipped candidate of the walk the application's loop moves on to the
      next candidate. */
  lemma ScanPassesCandidate(sources: seq<Source>, start: nat, j: nat)
    requires start < |sources| && j + 1 < |sources| && IsSkipped(CandidateName(sources, start, j))
    ensures ScanAsWritten(sources, Circular(|sources|, start, j), |sources| - j)
            == ScanAsWritten(sources, Circular(|sources|, start, j + 1), |sources| - (j + 1))
  {
    var n := |sources|;
    ScanStep(sources, Circular(n, start, j), n - j);
    CircularSucc(n, start, j);
  }

  /** At a skipped name the application's loop moves one position on. */
  lemma ScanStep(sources: seq<Source>, p: nat, fuel: nat)
    requires p < |sources| && 0 < fuel && IsSkipped(sources[p].localizedName)
    ensures ScanAsWritten(sources, p, fuel) == ScanAsWritten(sources, Circular(|sources|, p, 1), fuel - 1)
  {
    ModStep(|sources|, p);
  }

  /** Conversely, an offset with only skipped candidates before it and an
      unskipped candidate at it is the offset the walk finds. */
  lemma {:induction false} FirstUnskippedOffsetFinds(sources: seq<Source>, start: nat, j: nat, k: nat)
    requires start < |sources| && j <= k < |sources|
    requires !IsSkipped(CandidateName(sources, start, k))
    requires forall i :: j <= i < k ==> IsSkipped(CandidateName(sources, start, i))
    ensures FirstUnskippedOffset(sources, start, j) == Some(k)
    decreases k - j
  {
    if j < k {
      assert IsSkipped(CandidateName(sources, start, j));
      FirstUnskippedOffsetFinds(sources, start, j + 1, k);
    }
  }

  /** The selected index is the first index met on the circular walk that starts
      just after the current source's first occurrence and passes over skipped
      names: if the `k`-th candidate of that walk is the first one whose name is
      not skipped, it is the one selected. */
  lemma SelectsFirstEligibleOnWalk(current: Source, sources: seq<Source>, k: nat)
    requires current in sources && k < |sources|
    requires var start := Circular(|sources|, FirstIndex(sources, current).value, 1);
             && !IsSkipped(CandidateName(sources, start, k))
             && forall j :: 0 <= j < k ==> IsSkipped(CandidateName(sources, start, j))
    ensures var start := Circular(|sources|, FirstIndex(sources, current).value, 1);
            NextSourceIndex(Some(current), sources) == Some(Circular(|sources|, start, k))
  {
    var n := |sources|;
    var start := Circular(n, FirstIndex(sources, current).value, 1);
    FirstUnskippedOffsetFinds(sources, start, 0, k);
  }

  /** If the current source is the only one whose name is not skipped, the switch
      selects the current source again. */
  lemma SelectsCurrentWhenOthersSkipped(sources: seq<Source>, i: nat)
    requires i < |sources| && !IsSkipped(sources[i].localizedName)
    requires forall j :: 0 <= j < |sources| && j != i ==> IsSkipped(sources[j].localizedName)
    ensures NextSourceIndex(Some(sources[i]), sources) == Some(i)
  {
    var r := NextSourceIndex(Some(sources[i]), sources);
    SelectsExactlyWhen(Some(sources[i]), sources);
    assert r.Some?;
    assert !IsSkipped(sources[r.value].localizedName);
  }

  /** Every enabled source appears once in the list. */
  predicate Distinct(sources: seq<Source>) {
    forall i, j :: 0 <= i < j < |sources| ==> sources[i] != sources[j]
  }

  /** No enabled source has a skipped name. */
  predicate NoneSkipped(sources: seq<Source>) {
    forall i :: 0 <= i < |sources| ==> !IsSkipped(sources[i].localizedName)
  }

  /** Without skipped names the switch moves exactly one position on, wrapping
      from the last source to the first. */
  lemma NoSkippedNamesAdvanceByOne(sources: seq<Source>, i: nat)
    requires i < |sources| && Distinct(sources) && NoneSkipped(sources)
    ensures NextSourceIndex(Some(sources[i]), sources) == Some(Circular(|sources|, i, 1))
    ensures SelectedSource(Host(Some(sources[i]), sources)) == Some(sources[Circular(|sources|, i, 1)])
  {
  }

  /** One switch from the source `c` over a fixed list. */
  function SwitchStep(sources: seq<Source>): Source -> Option<Source> {
    c => SelectedSource(Host(Some(c), sources))
  }

  /** The source reached from `current` by `k` applications of `step`; `None` once
      a step has produced nothing. */
  function Iterate(step: Source -> Option<Source>, current: Source, k: nat): Option<Source>
    decreases k
  {
    if k == 0 then Some(current)
    else
      match step(current)
      case None => None
      case Some(next) => Iterate(step, next, k - 1)
  }

  /** The source that is current after `k` switches over a fixed list, starting
      from `current`; `None` once a switch has selected nothing. */
  function SwitchTimes(sources: seq<Source>, current: Source, k: nat): Option<Source> {
    Iterate(SwitchStep(sources), current, k)
  }

  /** Moving one position on and then `k - 1` more is moving `k` positions on. */
  lemma CircularShift(n: nat, i: nat, k: nat)
    requires i < n && 0 < k <= n
    ensures Circular(n, Circular(n, i, 1), k - 1) == Circular(n, i, k)
  {
  }

  /** `step` takes every source of the list to the one a position further on. */
  predicate AdvancesByOne(step: Source -> Option<Source>, sources: seq<Source>) {
    forall c {:trigger step(sources[c])} :: 0 <= c < |sources| ==>
      step(sources[c]) == Some(sources[Circular(|sources|, c, 1)])
  }

  /** A step that moves one position on, applied `k` times from the source at `i`,
      lands `k` positions further round the list. */
  lemma {:induction false} IterateAdvances(step: Source -> Option<Source>, sources: seq<Source>, i: nat, k: nat)
    requires i < |sources| && k <= |sources| && AdvancesByOne(step, sources)
    ensures Iterate(step, sources[i], k) == Some(sources[Circular(|sources|, i, k)])
    decreases k
  {
    if k > 0 {
      var n := |sources|;
      var j := Circular(n, i, 1);
      IterateAdvances(step, sources, j, k - 1);
      CircularShift(n, i, k);
    }
  }

  /** Without duplicates or skipped names, every switch moves one position on. */
  lemma NoSkippedNamesAdvance(sources: seq<Source>)
    requires Distinct(sources) && NoneSkipped(sources)
    ensures AdvancesByOne(SwitchStep(sources), sources)
  {
    forall c | 0 <= c < |sources|
      ensures SwitchStep(sources)(sources[c]) == Some(sources[Circular(|sources|, c, 1)])
    {
      NoSkippedNamesAdvanceByOne(sources, c);
    }
  }

  /** Over a fixed list without skipped names, `k` switches from the source at `i`
      land on the source `k` positions further round the list. */
  lemma SwitchesWalkTheList(sources: seq<Source>, i: nat, k: nat)
    requires i < |sources| && k <= |sources| && Distinct(sources) && NoneSkipped(sources)
    ensures SwitchTimes(sources, sources[i], k) == Some(sources[Circular(|sources|, i, k)])
  {
    NoSkippedNamesAdvance(sources);
    IterateAdvances(SwitchStep(sources), sources, i, k);
  }

  /** How many switches, between 1 and `n`, lead from the source at `i` to the
      source at `j` when every switch moves one position on. */
  function SwitchesNeeded(n: nat, i: nat, j: nat): (k: nat)
    requires i < n && j < n
    ensures 1 <= k <= n && Circular(n, i, k) == j
  {
    if i < j then j - i else j + n - i
  }

  /** Two different numbers of switches, both between 1 and `n`, from the source at
      `i` end on different sources. */
  lemma SwitchesDiffer(sources: seq<Source>, i: nat, k1: nat, k2: nat)
    requires i < |sources| && Distinct(sources) && NoneSkipped(sources)
    requires 1 <= k1 < k2 <= |sources|
    ensures SwitchTimes(sources, sources[i], k1) != SwitchTimes(sources, sources[i], k2)
  {
    var n := |sources|;
    SwitchesWalkTheList(sources, i, k1);
    SwitchesWalkTheList(sources, i, k2);
    var a, b := Circular(n, i, k1), Circular(n, i, k2);
    if a < b {
      assert sources[a] != sources[b];
    } else {
      assert sources[b] != sources[a];
    }
  }

  /** `n` consecutive switches over a fixed list of `n` sources without skipped
      names visit every source exactly once and end where they began. */
  lemma VisitsEverySourceOnce(sources: seq<Source>, i: nat)
    requires i < |sources| && Distinct(sources) && NoneSkipped(sources)
    ensures forall j :: 0 <= j < |sources| ==>
              SwitchTimes(sources, sources[i], SwitchesNeeded(|sources|, i, j)) == Some(sources[j])
    ensures forall k1, k2 :: 1 <= k1 < k2 <= |sources| ==>
              SwitchTimes(sources, sources[i], k1) != SwitchTimes(sources, sources[i], k2)
    ensures SwitchTimes(sources, sources[i], |sources|) == Some(sources[i])
  {
    var n := |sources|;
    forall j | 0 <= j < n
      ensures SwitchTimes(sources, sources[i], SwitchesNeeded(n, i, j)) == Some(sources[j])
    {
      SwitchesWalkTheList(sources, i, SwitchesNeeded(n, i, j));
    }
    forall k1, k2 | 1 <= k1 < k2 <= n
      ensures SwitchTimes(sources, sources[i], k1) != SwitchTimes(sources, sources[i], k2)
    {
      SwitchesDiffer(sources, i, k1, k2);
    }
    SwitchesWalkTheList(sources, i, n);
  }

  /** The list [EN, RU, "Emoji & Symbols", FR]: switching from EN gives RU, from RU
      gives FR (passing over the emoji picker), and from FR wraps round to EN. */
  lemma SkipEmojiExample()
    ensures var en, ru, emoji, fr := Source(1, "EN"), Source(2, "RU"), Source(3, "Emoji & Symbols"), Source(4, "FR");
            var sources := [en, ru, emoji, fr];
            && SelectedSource(Host(Some(en), sources)) == Some(ru)
            && SelectedSource(Host(Some(ru), sources)) == Some(fr)
            && SelectedSource(Host(Some(fr), sources)) == Some(en)
  {
    var en, ru, emoji, fr := Source(1, "EN"), Source(2, "RU"), Source(3, "Emoji & Symbols"), Source(4, "FR");
    var sources := [en, ru, emoji, fr];
    assert IsSkipped(emoji.localizedName);
    assert !IsSkipped("EN") && !IsSkipped("RU") && !IsSkipped("FR");
    assert FirstIndex(sources, en) == Some(0);
    assert FirstIndex(sources, ru) == Some(1);
    assert FirstIndex(sources[2..], fr) == Some(1);
    assert FirstIndex(sources, fr) == Some(3);
    assert FirstUnskippedOffset(sources, 2, 1) == Some(1);
    assert FirstUnskippedOffset(sources, 2, 0) == Some(1);
  }
}
