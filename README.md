# Quran reader: reading settings and surah playback, in Dafny

This project models the two pieces of logic in a client-side Quran reader:

- **The reading-settings provider** (`src/contexts/ReadingSettingsContext.tsx`). It holds five
  state cells: font size, translation flag, bookmark list, last-read surah and last-read ayah.
  It has a clamping font-size setter, a toggle, a de-duplicating bookmark add, a filtering
  bookmark remove, a membership query and a paired last-read setter. A load step runs on mount,
  and a save step writes the whole record to local storage under `"readingSettings"`.
- **The surah content view** (`src/components/SurahContent.tsx`). It handles the result of the
  surah fetch. Its play/pause handler awaits `play()`, and the `waiting`/`canplay` events
  drive a loading flag that disables the play button. It also has the seek, time-update,
  metadata and reciter-change handlers, the `audioSrc` derivation and the `m:ss` time display.

Files and modules:

| file | module | what it holds |
|---|---|---|
| `wrappers.dfy` | `Wrappers` | `Option` (TypeScript's `T \| null`) and `Result` (a value or a thrown error) |
| `reading_settings.dfy` | `ReadingSettings` | the `Settings` record, the pure update rules, the save and load of one storage entry, lemmas |
| `reading_settings_provider.dfy` | `ReadingSettingsStore` | class `ReadingSettingsProvider` with the five cells, and class `LocalStorage` |
| `time_format.dfy` | `TimeFormat` | `formatTime` over whole seconds, decimal rendering, and parsing the display back |
| `surah_session.dfy` | `SurahSession` | the view's cells as a value `View`, the rule of every handler, event traces, lemmas |
| `surah_content.dfy` | `SurahContent` | class `SurahContentView` whose handler methods overwrite the eight cells |

Each class method's `ensures` states the whole new state as a pure rule applied to the old
state: `Snapshot() == Apply(old(Snapshot()), …)` or `State() == Rule(old(State()), …)`. The
properties are proved as lemmas about those rules.

## Behaviour of the code worth knowing

The model keeps each of these behaviours as the code has it.

- Loading does not fall back to defaults on a malformed entry. `JSON.parse` has no `try`, so
  the load throws (`Load` returns `Failure(ParseError)`).
- A loaded record is not checked. The font size is not clamped and the bookmark list is not
  de-duplicated (`LoadDoesNotNormalise`).
- Bookmarks are an ordered list, not a set. An add keeps first-occurrence order and appends a
  new id last. An add also removes duplicates that a loaded list already had
  (`AddBookmarkCollapses`).
- Changing the reciter does not reset `isPlaying` (`ReciterChangeThenClick`).
- Selecting another surah does not reset the playback cells. The component instance and its
  state survive the change.
- `formatTime(125)` is `2:05`, not the `02:05` of the comment above it (`FormatTimeExample`).
- The seek handler stores the slider value exactly. Only the media element clamps its own
  position, and the element is not modelled.

## Model

| member | source | states |
|---|---|---|
| `ReadingSettings.ClampFontSize` | src/contexts/ReadingSettingsContext.tsx:56-58 | the stored size is always in [16, 40]; it equals the input when the input is in range, 16 below, 40 above |
| `ReadingSettings.Includes` | src/contexts/ReadingSettingsContext.tsx:72-74 | `includes` is true exactly when some index of the list holds the id |
| `ReadingSettings.Dedup` | src/contexts/ReadingSettingsContext.tsx:65 | the `new Set` round trip keeps exactly the elements of its input, has no duplicates and is no longer than its input |
| `ReadingSettings.DedupOfDistinct` | src/contexts/ReadingSettingsContext.tsx:65 | a list without duplicates passes through the `new Set` round trip unchanged |
| `ReadingSettings.DedupFirstOccurrenceOrder` | src/contexts/ReadingSettingsContext.tsx:65 | the round trip lists elements in the order of their first occurrence in the input |
| `ReadingSettings.FirstIndex` | src/contexts/ReadingSettingsContext.tsx:65 | the index it returns holds the element, and no earlier index does |
| `ReadingSettings.AddBookmark` | src/contexts/ReadingSettingsContext.tsx:64-66 | after an add the id is in the list, the list has no duplicates, and its members are the old members plus the id |
| `ReadingSettings.AddBookmarkToDistinct` | src/contexts/ReadingSettingsContext.tsx:64-66 | on a list without duplicates, an add keeps the list when the id is present and appends the id last otherwise |
| `ReadingSettings.AddBookmarkCollapses` | src/contexts/ReadingSettingsContext.tsx:64-66 | on any list, an add also collapses the duplicates already present |
| `ReadingSettings.AddBookmarkIdempotent` | src/contexts/ReadingSettingsContext.tsx:64-66 | adding an id twice equals adding it once |
| `ReadingSettings.RemoveBookmark` | src/contexts/ReadingSettingsContext.tsx:68-70 | after a remove the id is absent, and the members are the old members other than the id |
| `ReadingSettings.RemoveBookmarkConcat` | src/contexts/ReadingSettingsContext.tsx:68-70 | the filter works element by element, so it keeps the relative order of the remaining ids |
| `ReadingSettings.RemoveBookmarkCounts` | src/contexts/ReadingSettingsContext.tsx:68-70 | every occurrence of the id is deleted, and every other id keeps its number of occurrences |
| `ReadingSettings.RemoveBookmarkAbsent` | src/contexts/ReadingSettingsContext.tsx:68-70 | removing an absent id leaves the list unchanged |
| `ReadingSettings.RemoveBookmarkIdempotent` | src/contexts/ReadingSettingsContext.tsx:68-70 | removing twice equals removing once |
| `ReadingSettings.RemoveBookmarkDistinct` | src/contexts/ReadingSettingsContext.tsx:68-70 | removing from a list without duplicates gives a list without duplicates |
| `ReadingSettings.ApplyUpdatesMembership` | src/contexts/ReadingSettingsContext.tsx:64-70 | from any starting list (a loaded one with duplicates included), after any series of adds and removes an id is bookmarked exactly when the last update naming it was an add, or, if none names it, when it was bookmarked at the start |
| `ReadingSettings.ApplyUpdatesDistinct` | src/contexts/ReadingSettingsContext.tsx:64-70 | a list that starts without duplicates has none after any series of adds and removes |
| `ReadingSettings.DefaultsWellFormed` | src/contexts/ReadingSettingsContext.tsx:25-29 | the defaults have a font size in range and no duplicate bookmark |
| `ReadingSettings.Apply` | src/contexts/ReadingSettingsContext.tsx:56-79 | each field changes only through its own setter: the size only by the size setter, which stores the clamped size (in [16, 40]); the flag exactly by the toggle; the list only by add or remove, which store the add rule's and the filter's result; the last-read pair only by the last-read setter, which stores `Some(surahId)` and `Some(ayahId)` |
| `ReadingSettings.ApplyPreservesWellFormed` | src/contexts/ReadingSettingsContext.tsx:56-79 | every setter keeps a font size in range and a list without duplicates |
| `ReadingSettings.ToggleTwice` | src/contexts/ReadingSettingsContext.tsx:60-62 | toggling the translation flag twice restores the whole record |
| `ReadingSettings.ApplyIdempotent` | src/contexts/ReadingSettingsContext.tsx:56-79 | every setter other than the toggle gives the same record when applied twice |
| `ReadingSettings.Save` | src/contexts/ReadingSettingsContext.tsx:45-54 | the save writes the whole record under `"readingSettings"` and leaves every other key as it was |
| `ReadingSettings.Load` | src/contexts/ReadingSettingsContext.tsx:32-42 | the load fails exactly when the entry holds unparsable text; a saved record is returned verbatim; a missing or empty entry returns the current record |
| `ReadingSettings.SaveLoadRoundTrip` | src/contexts/ReadingSettingsContext.tsx:32-54 | loading what was saved restores all five fields verbatim, whatever the record held before |
| `ReadingSettings.LoadDoesNotNormalise` | src/contexts/ReadingSettingsContext.tsx:32-42 | a loaded record is not clamped or de-duplicated: a size of 100 and the list [2, 2] come back as they were |
| `ReadingSettingsStore.ReadingSettingsProvider.constructor` | src/contexts/ReadingSettingsContext.tsx:25-29 | a fresh provider holds size 24, translation on, no bookmarks and no last-read position |
| `ReadingSettingsStore.ReadingSettingsProvider.Persist` | src/contexts/ReadingSettingsContext.tsx:45-54 | the storage entry afterwards holds the current record, and other keys are kept |
| `ReadingSettingsStore.ReadingSettingsProvider.Mount` | src/contexts/ReadingSettingsContext.tsx:31-54 | a missing or empty entry keeps the defaults and a saved record replaces the cells; either way the record is then saved; an unparsable entry throws and nothing changes |
| `ReadingSettingsStore.ReadingSettingsProvider.SetFontSize` | src/contexts/ReadingSettingsContext.tsx:56-58 | only the font size changes, to the clamped value in [16, 40]; the record is saved when the size changed |
| `ReadingSettingsStore.ReadingSettingsProvider.ToggleTranslation` | src/contexts/ReadingSettingsContext.tsx:60-62 | only the flag changes, to its negation, and the record is saved |
| `ReadingSettingsStore.ReadingSettingsProvider.AddBookmark` | src/contexts/ReadingSettingsContext.tsx:64-66 | only the list changes, to the add rule's result (id present, no duplicates), and the record is saved |
| `ReadingSettingsStore.ReadingSettingsProvider.RemoveBookmark` | src/contexts/ReadingSettingsContext.tsx:68-70 | only the list changes, to the filter's result (id absent), and the record is saved |
| `ReadingSettingsStore.ReadingSettingsProvider.IsBookmarked` | src/contexts/ReadingSettingsContext.tsx:72-74 | true exactly when the id is an element of the current list |
| `ReadingSettingsStore.ReadingSettingsProvider.SetLastRead` | src/contexts/ReadingSettingsContext.tsx:76-79 | both last-read cells are set together and the other three stay; the record is saved when a cell changed |
| `ReadingSettingsStore.MountRestoresSaved` | src/contexts/ReadingSettingsContext.tsx:32-54 | a provider mounted over a saved record comes up with exactly that record, and the entry still holds it |
| `TimeFormat.Decimal` | src/components/SurahContent.tsx:292 | a number renders as at least one decimal digit, with no leading zero from 10 up |
| `TimeFormat.DecimalRoundTrip` | src/components/SurahContent.tsx:292 | reading back the digits of a number gives the number |
| `TimeFormat.FormatTime` | src/components/SurahContent.tsx:289-293 | the display has the colon third from the end, the unpadded decimal minutes before it and two digits after it |
| `TimeFormat.FormatTimeFields` | src/components/SurahContent.tsx:289-293 | the display is the unpadded minutes `t div 60`, a colon, then exactly two digits reading `t mod 60`, which is in [0, 59] |
| `TimeFormat.ParseFormatTime` | src/components/SurahContent.tsx:289-293 | parsing the display back gives the time it shows |
| `TimeFormat.FormatTimeInjective` | src/components/SurahContent.tsx:289-293 | different times display differently |
| `TimeFormat.FormatTimeExample` | src/components/SurahContent.tsx:288-293 | 125 seconds display as `2:05`, so the minutes are not zero-padded |
| `SurahSession.Lookup` | src/components/SurahContent.tsx:153 | `audio[key]` is defined exactly when some entry has that key, and then it is that entry's reciter |
| `SurahSession.LookupDistinct` | src/components/SurahContent.tsx:153 | in a map with distinct keys, as every JavaScript object has, looking up the key of any entry gives that entry's reciter |
| `SurahSession.FirstKey` | src/components/SurahContent.tsx:60 | the first key exists exactly when the map is not empty, and it looks up the first entry |
| `SurahSession.ApplyFetch` | src/components/SurahContent.tsx:55-65 | a failed fetch changes nothing; a fetch never touches the playback flags, the position or the duration; a fetched body fills the surah and both verse arrays |
| `SurahSession.ApplyFetchEffect` | src/components/SurahContent.tsx:55-65 | a failed fetch changes nothing; a fetched body stores the surah and both arrays, selects the first reciter key if an audio map is present, keeps the old reciter if not, and changes no other cell |
| `SurahSession.PressPlayPause` | src/components/SurahContent.tsx:71-78 | when playing, it pauses and keeps the loading flag; when paused, it sets loading and stays paused; no other cell changes |
| `SurahSession.SettlePlay` | src/components/SurahContent.tsx:79-86 | loading ends false; playing ends true exactly when `play()` succeeded or the view was already playing; no other cell changes |
| `SurahSession.PlayPause` | src/components/SurahContent.tsx:71-88 | when playing, the handler pauses and keeps the loading flag; otherwise playing ends equal to `play()`'s success and loading ends false; no other cell changes |
| `SurahSession.Seek` | src/components/SurahContent.tsx:100-104 | the position becomes exactly the slider's first value and no other cell changes |
| `SurahSession.ChangeReciter` | src/components/SurahContent.tsx:106-108 | the selected reciter becomes the key; playing and loading are kept, and no other cell changes |
| `SurahSession.AudioSrc` | src/components/SurahContent.tsx:153 | empty with no reciter or the empty key; it throws exactly when a non-empty key has no entry (or there is no audio map); otherwise it is the url of the selected key's entry |
| `SurahSession.Step` | src/components/SurahContent.tsx:71-108 | one event of the view (the handlers here, the fetch effect at lines 55-65 and the media callbacks at lines 196-199): playing starts only by a successful settle; loading clears only by `canplay` or a settle; `waiting` sets the loading flag and `canplay` clears it, changing nothing else; `loadedmetadata` sets only the duration; the surah changes only by a fetch, and the reciter only by a fetch or the selector |
| `SurahSession.ClickEffect` | src/components/SurahContent.tsx:220-222 | a click pauses when playing, starts loading when paused, and does nothing while loading because the button is disabled |
| `SurahSession.PlayPauseInTwoSteps` | src/components/SurahContent.tsx:71-88 | the click and the settling of `play()` together make one whole handler call |
| `SurahSession.PlayingOnlyAfterSuccessfulPlay` | src/components/SurahContent.tsx:71-88 | in any series of events, a view that was not playing becomes playing only if a `play()` succeeded |
| `SurahSession.LoadingClearsOnlyByCanPlayOrSettle` | src/components/SurahContent.tsx:198-199 | the loading flag clears only through `canplay` or a settled `play()` |
| `SurahSession.PositionComesFromLastTimeEvent` | src/components/SurahContent.tsx:90-104 | the position after any events is the value of the last time update or seek, or is unchanged when there is none |
| `SurahSession.StepKeepsReciterConsistent` | src/components/SurahContent.tsx:59-62 | the selected reciter stays a key of the shown audio map when the selector offers only its keys and every body has an audio map |
| `SurahSession.InitialReciterConsistent` | src/components/SurahContent.tsx:35-42 | the view starts with no surah and no reciter selected, so the reciter consistency that the other events keep holds from the start |
| `SurahSession.AudioSrcDefined` | src/components/SurahContent.tsx:153 | with a consistent reciter, `audioSrc` is defined: empty with no reciter, otherwise the selected reciter's url |
| `SurahSession.AudioSrcAfterFetch` | src/components/SurahContent.tsx:153 | right after a fetch with a non-empty audio map, `audioSrc` is the first reciter's url |
| `SurahSession.StaleReciterWithoutAudio` | src/components/SurahContent.tsx:153 | a body without an audio map keeps any previous non-empty reciter key, and reading its url then throws |
| `SurahContent.SurahContentView.constructor` | src/components/SurahContent.tsx:35-42 | the eight cells start empty, not playing, not loading, at time 0 with no reciter |
| `SurahContent.SurahContentView.ReceiveFetch` | src/components/SurahContent.tsx:55-62 | the cells become the fetch rule's result for the outcome |
| `SurahContent.SurahContentView.BeginPlayPause` | src/components/SurahContent.tsx:71-78 | pauses when playing; otherwise sets loading and reports that `play()` is pending |
| `SurahContent.SurahContentView.FinishPlay` | src/components/SurahContent.tsx:79-86 | playing on success, loading cleared either way |
| `SurahContent.SurahContentView.HandlePlayPause` | src/components/SurahContent.tsx:71-88 | the two halves run back to back give the whole handler's result |
| `SurahContent.SurahContentView.ClickPlayButton` | src/components/SurahContent.tsx:220-222 | a click runs the handler only when not loading, and a `play()` is pending exactly when the view was neither loading nor playing |
| `SurahContent.SurahContentView.OnWaiting` | src/components/SurahContent.tsx:198 | `waiting` sets the loading flag and nothing else |
| `SurahContent.SurahContentView.OnCanPlay` | src/components/SurahContent.tsx:199 | `canplay` clears the loading flag and nothing else |
| `SurahContent.SurahContentView.HandleTimeUpdate` | src/components/SurahContent.tsx:90-93 | the position becomes the element's time and nothing else changes |
| `SurahContent.SurahContentView.HandleLoadedMetadata` | src/components/SurahContent.tsx:95-98 | the duration becomes the element's duration and nothing else changes |
| `SurahContent.SurahContentView.HandleSeek` | src/components/SurahContent.tsx:100-104 | the position becomes exactly the slider's first value and nothing else changes |
| `SurahContent.SurahContentView.HandleReciterChange` | src/components/SurahContent.tsx:106-108 | only the selected reciter changes; `isPlaying` is kept |
| `SurahContent.ReciterChangeThenClick` | src/components/SurahContent.tsx:106-108 | after a reciter change while playing, the next click pauses instead of starting the new track |

## Left out

- Fuzzy search over the surah catalog (`src/components/SurahList.tsx`). It is scored by an external library whose algorithm is not part of this model. The `index + 1` selection id is view behaviour.
- Local storage and JSON are a map from key to an abstract `Stored` value: the empty string, a serialised record, or text that does not parse. A well-formed JSON entry of another shape, with fields missing or of the wrong type, is not modelled.
- What React does after the load effect throws (error boundaries, unmounting) is not modelled. `Mount` returns the failure and changes nothing.
- The network fetch and its async effect are left out. The model covers only the state update applied when a result or failure arrives. Responses are not tagged with the surah they were requested for, and neither are they in the source. Any arrival order can be written as a trace of `FetchSettled` events.
- The `<audio>` element is not modelled. `play()` is a boolean outcome. The element's own pause, its position assignment and its clamping of a seek are not modelled.
- Times are whole non-negative seconds. The source's floating-point `currentTime` and `duration`, and a `NaN` duration, are not modelled.
- JavaScript numbers used as font sizes and surah ids are unbounded integers.
- The audio map is a sequence of entries in `Object.keys` order. The JavaScript rule that integer-like keys are listed first, in ascending order, is assumed to have been applied already.
- SurahSession.Lookup: covers the object's own keys only. Keys that name inherited properties of `Object.prototype` are not modelled.
- React's batching and re-rendering are abstracted: each handler updates its cells at once. The save effect's dependency check is modelled as value equality for the font size and last-read cells. For the bookmark list it always fires, because the add and remove rules build a new array.
- `useReadingSettings` throwing outside its provider (src/contexts/ReadingSettingsContext.tsx:102-108) is context plumbing and is not modelled.
- The placeholder and skeleton render branches and the verse list are presentation. Only the `audioSrc` derivation is modelled.
- Volume and mute controls, and a `setLastRead(id, 1)` call on selection, are not in `src/components/SurahContent.tsx` or `src/app/page.tsx`; they are not part of this model.
- The settings and bookmarks modals, sidebar, toast, loading bar, error boundary, page, layout and `useToast` are presentation or timer plumbing and are not part of this model.
