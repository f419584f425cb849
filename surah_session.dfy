/**
 * The state of the surah content view as values: the fetched surah, the
 * playback flags, the position and the selected reciter, and the rule each
 * handler applies to them.
 */
module SurahSession {
  import opened Wrappers

  /** One recitation track of a surah. */
  datatype Reciter = Reciter(reciter: string, url: string, originalUrl: string, image: Option<string>)

  /** The `audio` object of a fetched surah: its entries in the order in
      which `Object.keys` lists them. The keys of a JavaScript object are
      distinct (`DistinctKeys`); `Lookup` takes the first entry with a key,
      which for such a map is the only one. */
  type AudioEntries = seq<(string, Reciter)>

  predicate DistinctKeys(m: AudioEntries) {
    forall i, j :: 0 <= i < j < |m| ==> m[i].0 != m[j].0
  }

  /** The JSON body of a successful fetch. */
  datatype SurahData = SurahData(
    surahNameArabic: string,
    surahNameTranslation: string,
    totalAyah: int,
    arabic1: seq<string>,
    english: seq<string>,
    audio: Option<AudioEntries>)

  /** How a fetch ends: with a parsed body, or with an exception that the
      effect catches (a network error, a non-ok status, a body that is not
      JSON). */
  datatype FetchOutcome = Fetched(data: SurahData) | FetchFailed

  /** The eight state cells of the view; times are whole seconds. */
  datatype View = View(
    surah: Option<SurahData>,
    arabicSurah: Option<seq<string>>,
    englishSurah: Option<seq<string>>,
    isPlaying: bool,
    isLoading: bool,
    currentTime: nat,
    duration: nat,
    selectedReciter: Option<string>)

  const Initial: View := View(None, None, None, false, false, 0, 0, None)

  // ---------------------------------------------------------------------
  // The audio map

  /** `audio[key]` for a key of the object. */
  function Lookup(m: AudioEntries, key: string): (r: Option<Reciter>)
    ensures r.Some? <==> exists i :: 0 <= i < |m| && m[i].0 == key
    ensures r.Some? ==> (key, r.value) in m
  {
    if m == [] then None
    else if m[0].0 == key then Some(m[0].1)
    else Lookup(m[1..], key)
  }

  /** In a map with distinct keys, looking up the key of any entry gives
      that entry's reciter. */
  lemma {:induction false} LookupDistinct(m: AudioEntries, i: int)
    requires DistinctKeys(m) && 0 <= i < |m|
    ensures Lookup(m, m[i].0) == Some(m[i].1)
  {
    if i > 0 {
      assert m[0].0 != m[i].0;
      assert DistinctKeys(m[1..]);
      assert m[1..][i - 1] == m[i];
      LookupDistinct(m[1..], i - 1);
    }
  }

  /** `Object.keys(audio)[0]`, which is undefined for an empty object. */
  function FirstKey(m: AudioEntries): (r: Option<string>)
    ensures r.Some? <==> |m| > 0
    ensures r.Some? ==> Lookup(m, r.value) == Some(m[0].1)
  {
    if m == [] then None else Some(m[0].0)
  }

  /** The keys the reciter selector offers: those of the current audio map. */
  predicate Offered(v: View, key: string) {
    v.surah.Some? && v.surah.value.audio.Some? && Lookup(v.surah.value.audio.value, key).Some?
  }

  // ---------------------------------------------------------------------
  // Handlers

  /** The state update of the fetch effect: a fetched body replaces the
      surah and both verse arrays, and selects the first reciter when it has
      an audio map; a failed fetch changes nothing. */
  function ApplyFetch(v: View, outcome: FetchOutcome): (r: View)
    ensures outcome.FetchFailed? ==> r == v
    ensures r.isPlaying == v.isPlaying && r.isLoading == v.isLoading
    ensures r.currentTime == v.currentTime && r.duration == v.duration
    ensures outcome.Fetched? ==> r.surah.Some? && r.arabicSurah.Some? && r.englishSurah.Some?
  {
    match outcome
    case FetchFailed => v
    case Fetched(data) =>
      v.(surah := Some(data),
         arabicSurah := Some(data.arabic1),
         englishSurah := Some(data.english),
         selectedReciter :=
           if data.audio.Some? then FirstKey(data.audio.value) else v.selectedReciter)
  }

  /** `handlePlayPause` up to its `await`: pause when playing, otherwise show
      the spinner while `play()` is pending. */
  function PressPlayPause(v: View): (r: View)
    ensures v.isPlaying ==> !r.isPlaying && r.isLoading == v.isLoading
    ensures !v.isPlaying ==> !r.isPlaying && r.isLoading
    ensures r.(isPlaying := v.isPlaying, isLoading := v.isLoading) == v
  {
    if v.isPlaying then v.(isPlaying := false) else v.(isLoading := true)
  }

  /** The rest of `handlePlayPause`, once `play()` settles: playing on
      success, and the spinner cleared either way. */
  function SettlePlay(v: View, ok: bool): (r: View)
    ensures !r.isLoading
    ensures r.isPlaying <==> ok || v.isPlaying
    ensures r.(isPlaying := v.isPlaying, isLoading := v.isLoading) == v
  {
    v.(isPlaying := if ok then true else v.isPlaying, isLoading := false)
  }

  /** A whole `handlePlayPause` call whose `play()` succeeds when `ok`. */
  function PlayPause(v: View, ok: bool): (r: View)
    ensures v.isPlaying ==> !r.isPlaying && r.isLoading == v.isLoading
    ensures !v.isPlaying ==> r.isPlaying == ok && !r.isLoading
    ensures r.(isPlaying := v.isPlaying, isLoading := v.isLoading) == v
  {
    if v.isPlaying then PressPlayPause(v) else SettlePlay(PressPlayPause(v), ok)
  }

  /** `handleSeek`: the position becomes the slider's first value. */
  function Seek(v: View, value: seq<nat>): (r: View)
    requires |value| >= 1
    ensures r.currentTime == value[0]
    ensures r.(currentTime := v.currentTime) == v
  {
    v.(currentTime := value[0])
  }

  /** `handleReciterChange`: only the selected reciter changes. */
  function ChangeReciter(v: View, key: string): (r: View)
    ensures r.selectedReciter == Some(key)
    ensures r.isPlaying == v.isPlaying && r.isLoading == v.isLoading
    ensures r.(selectedReciter := v.selectedReciter) == v
  {
    v.(selectedReciter := Some(key))
  }

  /** The play button is disabled while the spinner shows. */
  predicate PlayButtonEnabled(v: View) {
    !v.isLoading
  }

  datatype RenderError = TypeError

  /** `selectedReciter ? audio[selectedReciter].url : ''`, computed once a
      surah is shown. The empty key counts as no reciter, and reading `url`
      of a missing entry or of a missing audio map throws. */
  function AudioSrc(v: View): (r: Result<string, RenderError>)
    requires v.surah.Some?
    ensures v.selectedReciter.None? || v.selectedReciter == Some("") ==> r == Success("")
    ensures r.Failure? <==>
      v.selectedReciter.Some? && v.selectedReciter.value != ""
      && (v.surah.value.audio.None?
          || forall i :: 0 <= i < |v.surah.value.audio.value| ==>
               v.surah.value.audio.value[i].0 != v.selectedReciter.value)
    ensures r.Success? && r.value != "" ==>
      v.selectedReciter.Some? && v.surah.value.audio.Some?
      && (v.selectedReciter.value, Lookup(v.surah.value.audio.value, v.selectedReciter.value).value)
           in v.surah.value.audio.value
      && r.value == Lookup(v.surah.value.audio.value, v.selectedReciter.value).value.url
  {
    match v.selectedReciter
    case None => Success("")
    case Some(key) =>
      if key == "" then Success("")
      else match v.surah.value.audio
        case None => Failure(TypeError)
        case Some(m) =>
          match Lookup(m, key)
          case None => Failure(TypeError)
          case Some(r) => Success(r.url)
  }

  // ---------------------------------------------------------------------
  // Events

  /** What can happen to the view: user input, media events, and the fetch
      and `play()` promises settling. */
  datatype Event =
    | PlayButtonClick
    | PlaySettled(ok: bool)
    | MediaWaiting
    | MediaCanPlay
    | TimeUpdate(time: nat)
    | LoadedMetadata(duration: nat)
    | SliderChange(value: nat)
    | ReciterChange(key: string)
    | FetchSettled(outcome: FetchOutcome)

  /** One event. Playing starts only by a successful settle, loading clears
      only by `canplay` or a settle, the surah changes only by a fetch, and
      the reciter only by a fetch or the selector. */
  function Step(v: View, e: Event): (r: View)
    ensures !v.isPlaying && r.isPlaying ==> e == PlaySettled(true)
    ensures v.isLoading && !r.isLoading ==> e.MediaCanPlay? || e.PlaySettled?
    ensures r.surah != v.surah ==> e.FetchSettled?
    ensures r.selectedReciter != v.selectedReciter ==> e.FetchSettled? || e.ReciterChange?
    ensures e.MediaWaiting? ==> r.isLoading
    ensures e.MediaCanPlay? ==> !r.isLoading
    ensures e.MediaWaiting? || e.MediaCanPlay? ==> r.(isLoading := v.isLoading) == v
    ensures e.LoadedMetadata? ==> r == v.(duration := e.duration)
  {
    match e
    case PlayButtonClick => if PlayButtonEnabled(v) then PressPlayPause(v) else v
    case PlaySettled(ok) => SettlePlay(v, ok)
    case MediaWaiting => v.(isLoading := true)
    case MediaCanPlay => v.(isLoading := false)
    case TimeUpdate(t) => v.(currentTime := t)
    case LoadedMetadata(d) => v.(duration := d)
    case SliderChange(t) => Seek(v, [t])
    case ReciterChange(key) => ChangeReciter(v, key)
    case FetchSettled(outcome) => ApplyFetch(v, outcome)
  }

  function Run(v: View, events: seq<Event>): View
    decreases |events|
  {
    if events == [] then v else Run(Step(v, events[0]), events[1..])
  }

  // ---------------------------------------------------------------------
  // Properties

  /** A failed fetch changes nothing; a fetched body is stored whole, and
      the reciter becomes the first key of its audio map, or stays as it was
      when the body has no audio map. Playback flags and times are kept. */
  lemma ApplyFetchEffect(v: View, outcome: FetchOutcome)
    ensures outcome.FetchFailed? ==> ApplyFetch(v, outcome) == v
    ensures outcome.Fetched? ==>
      var r := ApplyFetch(v, outcome);
      var d := outcome.data;
      && r.surah == Some(d) && r.arabicSurah == Some(d.arabic1) && r.englishSurah == Some(d.english)
      && (d.audio.None? ==> r.selectedReciter == v.selectedReciter)
      && (d.audio.Some? && |d.audio.value| > 0 ==> r.selectedReciter == Some(d.audio.value[0].0))
      && (d.audio.Some? && |d.audio.value| == 0 ==> r.selectedReciter == None)
      && r.(surah := v.surah, arabicSurah := v.arabicSurah, englishSurah := v.englishSurah,
            selectedReciter := v.selectedReciter) == v
  {
  }

  /** Pausing never touches the spinner; a click while loading does nothing. */
  lemma ClickEffect(v: View)
    ensures v.isPlaying && !v.isLoading ==>
              Step(v, PlayButtonClick) == v.(isPlaying := false)
    ensures !v.isPlaying && !v.isLoading ==>
              Step(v, PlayButtonClick) == v.(isLoading := true)
    ensures v.isLoading ==> Step(v, PlayButtonClick) == v
  {
  }

  /** The two halves of `handlePlayPause` make up the whole call. */
  lemma PlayPauseInTwoSteps(v: View, ok: bool)
    requires PlayButtonEnabled(v) && !v.isPlaying
    ensures Run(v, [PlayButtonClick, PlaySettled(ok)]) == PlayPause(v, ok)
  {
    var events := [PlayButtonClick, PlaySettled(ok)];
    var pressed := Step(v, PlayButtonClick);
    assert events[1..] == [PlaySettled(ok)];
    assert Run(v, events) == Run(pressed, [PlaySettled(ok)]);
    assert [PlaySettled(ok)][1..] == [];
    assert Run(pressed, [PlaySettled(ok)]) == Step(pressed, PlaySettled(ok));
  }

  /** Playback starts only when a `play()` call succeeds: whatever else
      happens, a view that was not playing is playing afterwards only if a
      successful settle is among the events. */
  lemma {:induction false} PlayingOnlyAfterSuccessfulPlay(v: View, events: seq<Event>)
    requires !v.isPlaying && Run(v, events).isPlaying
    ensures PlaySettled(true) in events
    decreases |events|
  {
    var next := Step(v, events[0]);
    if events[0] != PlaySettled(true) {
      assert !next.isPlaying;
      PlayingOnlyAfterSuccessfulPlay(next, events[1..]);
    }
  }

  /** The spinner clears only through `canplay` or a settled `play()`. */
  lemma {:induction false} LoadingClearsOnlyByCanPlayOrSettle(v: View, events: seq<Event>)
    requires v.isLoading && !Run(v, events).isLoading
    ensures MediaCanPlay in events || PlaySettled(true) in events || PlaySettled(false) in events
    decreases |events|
  {
    var next := Step(v, events[0]);
    if !events[0].MediaCanPlay? && !events[0].PlaySettled? {
      assert next.isLoading;
      LoadingClearsOnlyByCanPlayOrSettle(next, events[1..]);
    }
  }

  /** The position changes only through a time update or the slider, and
      then it is the value that event carries. */
  lemma {:induction false} PositionComesFromLastTimeEvent(v: View, events: seq<Event>)
    ensures Run(v, events).currentTime == LastPosition(events, v.currentTime)
    decreases |events|
  {
    if events != [] {
      PositionComesFromLastTimeEvent(Step(v, events[0]), events[1..]);
    }
  }

  /** The value of the last time update or slider change, if any. */
  function LastPosition(events: seq<Event>, initially: nat): nat
    decreases |events|
  {
    if events == [] then initially
    else LastPosition(events[1..],
      match events[0]
      case TimeUpdate(t) => t
      case SliderChange(t) => t
      case _ => initially)
  }

  /** The selected reciter is one the shown surah has: none before a surah
      is shown, and afterwards none or a key of the audio map. */
  predicate ReciterConsistent(v: View) {
    match v.surah
    case None => v.selectedReciter.None?
    case Some(d) =>
      v.selectedReciter.Some? ==>
        d.audio.Some? && Lookup(d.audio.value, v.selectedReciter.value).Some?
  }

  /** Every event keeps the reciter consistent, given that the selector
      offers only keys of the current audio map and that every fetched body
      has an audio map. */
  lemma StepKeepsReciterConsistent(v: View, e: Event)
    requires ReciterConsistent(v)
    requires e.ReciterChange? ==> Offered(v, e.key)
    requires e.FetchSettled? && e.outcome.Fetched? ==> e.outcome.data.audio.Some?
    ensures ReciterConsistent(Step(v, e))
  {
  }

  /** The view starts with a consistent reciter: none is selected. */
  lemma InitialReciterConsistent()
    ensures ReciterConsistent(Initial)
  {
  }

  /** With a consistent reciter, the audio source is always defined: the
      empty string when no reciter (or the empty key) is selected, otherwise
      the selected reciter's url. */
  lemma AudioSrcDefined(v: View)
    requires v.surah.Some? && ReciterConsistent(v)
    ensures AudioSrc(v).Success?
    ensures v.selectedReciter.None? ==> AudioSrc(v) == Success("")
    ensures v.selectedReciter.Some? && v.selectedReciter.value != "" ==>
              Success(Lookup(v.surah.value.audio.value, v.selectedReciter.value).value.url) == AudioSrc(v)
  {
  }

  /** Right after a fetch whose audio map is not empty, the source is the
      first reciter's url (unless its key is empty). */
  lemma AudioSrcAfterFetch(v: View, data: SurahData)
    requires data.audio.Some? && |data.audio.value| > 0 && data.audio.value[0].0 != ""
    ensures AudioSrc(ApplyFetch(v, Fetched(data))) == Success(data.audio.value[0].1.url)
  {
  }

  /** A fetched body without an audio map keeps a reciter chosen for the
      previous surah, and reading its url then throws. */
  lemma StaleReciterWithoutAudio(v: View, data: SurahData)
    requires v.selectedReciter.Some? && v.selectedReciter.value != "" && data.audio.None?
    ensures AudioSrc(ApplyFetch(v, Fetched(data))) == Failure(TypeError)
  {
  }
}
