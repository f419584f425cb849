/**
 * The surah content view as the component holds it: eight state cells that
 * the handlers overwrite one assignment at a time. Each handler is proved to
 * leave the cells as the matching rule of `SurahSession` says.
 */
module SurahContent {
  import opened Wrappers
  import opened SurahSession

  class SurahContentView {
    var surah: Option<SurahData>
    var arabicSurah: Option<seq<string>>
    var englishSurah: Option<seq<string>>
    var isPlaying: bool
    var isLoading: bool
    var currentTime: nat
    var duration: nat
    var selectedReciter: Option<string>

    /** The eight cells as one value. */
    function State(): View
      reads this
    {
      View(surah, arabicSurah, englishSurah, isPlaying, isLoading, currentTime, duration, selectedReciter)
    }

    /** Every cell starts empty, stopped, at zero. */
    constructor ()
      ensures State() == Initial
    {
      surah, arabicSurah, englishSurah := None, None, None;
      isPlaying, isLoading := false, false;
      currentTime, duration := 0, 0;
      selectedReciter := None;
    }

    /** The fetch effect once its promise settles. */
    method ReceiveFetch(outcome: FetchOutcome)
      modifies this
      ensures State() == ApplyFetch(old(State()), outcome)
    {
      match outcome
      case FetchFailed =>
      case Fetched(data) =>
        surah := Some(data);
        arabicSurah := Some(data.arabic1);
        englishSurah := Some(data.english);
        if data.audio.Some? {
          var keys := data.audio.value;
          selectedReciter := if |keys| == 0 then None else Some(keys[0].0);
        }
    }

    /** `handlePlayPause` up to its `await`; `awaiting` tells whether a
        `play()` call is now pending. */
    method BeginPlayPause() returns (awaiting: bool)
      modifies this
      ensures State() == PressPlayPause(old(State()))
      ensures awaiting == !old(isPlaying)
    {
      if isPlaying {
        isPlaying := false;
        awaiting := false;
      } else {
        isLoading := true;
        awaiting := true;
      }
    }

    /** The rest of `handlePlayPause` once the pending `play()` settles. */
    method FinishPlay(ok: bool)
      modifies this
      ensures State() == SettlePlay(old(State()), ok)
    {
      if ok {
        isPlaying := true;
      }
      isLoading := false;
    }

    /** A whole `handlePlayPause` call with nothing in between its halves. */
    method HandlePlayPause(playSucceeds: bool)
      modifies this
      ensures State() == PlayPause(old(State()), playSucceeds)
    {
      var awaiting := BeginPlayPause();
      if awaiting {
        FinishPlay(playSucceeds);
      }
    }

    /** The play button's click, which a disabled button never delivers. */
    method ClickPlayButton() returns (awaiting: bool)
      modifies this
      ensures State() == Step(old(State()), PlayButtonClick)
      ensures awaiting <==> !old(isLoading) && !old(isPlaying)
    {
      awaiting := false;
      if !isLoading {
        awaiting := BeginPlayPause();
      }
    }

    method OnWaiting()
      modifies this
      ensures State() == Step(old(State()), MediaWaiting)
    {
      isLoading := true;
    }

    method OnCanPlay()
      modifies this
      ensures State() == Step(old(State()), MediaCanPlay)
    {
      isLoading := false;
    }

    method HandleTimeUpdate(time: nat)
      modifies this
      ensures State() == Step(old(State()), TimeUpdate(time))
    {
      currentTime := time;
    }

    method HandleLoadedMetadata(d: nat)
      modifies this
      ensures State() == Step(old(State()), LoadedMetadata(d))
    {
      duration := d;
    }

    /** The slider passes one value per thumb; it has one. */
    method HandleSeek(value: seq<nat>)
      requires |value| >= 1
      modifies this
      ensures State() == Seek(old(State()), value)
      ensures currentTime == value[0]
    {
      currentTime := value[0];
    }

    method HandleReciterChange(value: string)
      modifies this
      ensures State() == ChangeReciter(old(State()), value)
      ensures isPlaying == old(isPlaying)
    {
      selectedReciter := Some(value);
    }
  }

  /** A view that was playing keeps `isPlaying` after the reciter changes,
      and the next click pauses it rather than starting the new track. */
  method ReciterChangeThenClick(view: SurahContentView, key: string) returns (awaiting: bool)
    requires view.isPlaying && !view.isLoading
    modifies view
    ensures !awaiting && !view.isPlaying
    ensures view.selectedReciter == Some(key)
  {
    view.HandleReciterChange(key);
    awaiting := view.ClickPlayButton();
  }
}
