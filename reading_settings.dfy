/**
 * The update rules of the reading-settings store: the record it keeps, the
 * pure transforms each setter applies to the previous value, and the
 * snapshot that is written to and read back from local storage.
 */
module ReadingSettings {
  import opened Wrappers

  /** The persisted record: font size in pixels, the translation flag, the
      bookmarked surah ids in list order, and the last-read position. */
  datatype Settings = Settings(
    fontSize: int,
    translationEnabled: bool,
    bookmarks: seq<int>,
    lastReadSurah: Option<int>,
    lastReadAyah: Option<int>)

  const MinFontSize: int := 16
  const MaxFontSize: int := 40

  /** The state of a freshly mounted store, before anything is loaded. */
  const Defaults: Settings := Settings(24, true, [], None, None)

  // ---------------------------------------------------------------------
  // Font size

  function Max(a: int, b: int): int { if a < b then b else a }
  function Min(a: int, b: int): int { if a < b then a else b }

  /** `Math.max(16, Math.min(40, size))`. */
  function ClampFontSize(size: int): (r: int)
    ensures MinFontSize <= r <= MaxFontSize
    ensures MinFontSize <= size <= MaxFontSize ==> r == size
    ensures size < MinFontSize ==> r == MinFontSize
    ensures size > MaxFontSize ==> r == MaxFontSize
  {
    Max(MinFontSize, Min(MaxFontSize, size))
  }

  // ---------------------------------------------------------------------
  // Bookmark lists

  predicate NoDuplicates(s: seq<int>) {
    forall i, j :: 0 <= i < j < |s| ==> s[i] != s[j]
  }

  /** `Array.prototype.includes`: a scan from the front with strict equality. */
  function Includes(s: seq<int>, x: int): (b: bool)
    ensures b <==> exists i :: 0 <= i < |s| && s[i] == x
  {
    if s == [] then false
    else if s[0] == x then true
    else Includes(s[1..], x)
  }

  /** `[...new Set(s)]`: the elements are inserted one by one, in order, and
      an element already in the set is skipped. */
  function Dedup(s: seq<int>): (r: seq<int>)
    ensures forall x :: x in r <==> x in s
    ensures NoDuplicates(r)
    ensures |r| <= |s|
  {
    if s == [] then []
    else
      var d := Dedup(s[..|s| - 1]);
      if s[|s| - 1] in d then d else d + [s[|s| - 1]]
  }

  /** The position at which `x` first occurs in `s`. */
  function FirstIndex(s: seq<int>, x: int): (k: nat)
    requires x in s
    ensures k < |s| && s[k] == x && x !in s[..k]
  {
    if x in s[..|s| - 1] then FirstIndex(s[..|s| - 1], x) else |s| - 1
  }

  /** A list without duplicates is left as it is by the set round trip. */
  lemma {:induction false} DedupOfDistinct(s: seq<int>)
    requires NoDuplicates(s)
    ensures Dedup(s) == s
  {
    if s != [] {
      var p := s[..|s| - 1];
      assert NoDuplicates(p);
      DedupOfDistinct(p);
      assert s[|s| - 1] !in p;
      assert p + [s[|s| - 1]] == s;
    }
  }

  /** The set round trip keeps every element at its first occurrence: the
      elements of `Dedup(s)` appear in the order in which they first appear
      in `s`. */
  lemma {:induction false} DedupFirstOccurrenceOrder(s: seq<int>, i: int, j: int)
    requires 0 <= i < j < |Dedup(s)|
    ensures FirstIndex(s, Dedup(s)[i]) < FirstIndex(s, Dedup(s)[j])
  {
    var p := s[..|s| - 1];
    var d := Dedup(p);
    var last := s[|s| - 1];
    if j < |d| {
      DedupFirstOccurrenceOrder(p, i, j);
      assert Dedup(s)[i] == d[i] && Dedup(s)[j] == d[j];
      assert FirstIndex(s, d[i]) == FirstIndex(p, d[i]);
      assert FirstIndex(s, d[j]) == FirstIndex(p, d[j]);
    } else {
      assert last !in d && Dedup(s) == d + [last];
      assert Dedup(s)[j] == last && last !in p;
      assert FirstIndex(s, last) == |s| - 1;
      assert d[i] in p;
      assert FirstIndex(s, d[i]) == FirstIndex(p, d[i]);
    }
  }

  /** `[...new Set([...prev, surahId])]`. */
  function AddBookmark(bookmarks: seq<int>, id: int): (r: seq<int>)
    ensures id in r && NoDuplicates(r)
    ensures forall x :: x in r <==> x == id || x in bookmarks
  {
    Dedup(bookmarks + [id])
  }

  /** On a list without duplicates, adding keeps the list when `id` is in it
      and appends `id` at the end otherwise. */
  lemma AddBookmarkToDistinct(bookmarks: seq<int>, id: int)
    requires NoDuplicates(bookmarks)
    ensures AddBookmark(bookmarks, id) ==
            if id in bookmarks then bookmarks else bookmarks + [id]
  {
    assert (bookmarks + [id])[..|bookmarks|] == bookmarks;
    DedupOfDistinct(bookmarks);
  }

  /** On any list, adding also collapses duplicates already present. */
  lemma AddBookmarkCollapses(bookmarks: seq<int>, id: int)
    ensures AddBookmark(bookmarks, id) ==
            if id in bookmarks then Dedup(bookmarks) else Dedup(bookmarks) + [id]
  {
    assert (bookmarks + [id])[..|bookmarks|] == bookmarks;
  }

  /** Adding the same id twice is the same as adding it once. */
  lemma AddBookmarkIdempotent(bookmarks: seq<int>, id: int)
    ensures AddBookmark(AddBookmark(bookmarks, id), id) == AddBookmark(bookmarks, id)
  {
    AddBookmarkToDistinct(AddBookmark(bookmarks, id), id);
  }

  /** `prev.filter((id) => id !== surahId)`. */
  function RemoveBookmark(bookmarks: seq<int>, id: int): (r: seq<int>)
    ensures id !in r
    ensures forall x :: x in r <==> x in bookmarks && x != id
    ensures |r| <= |bookmarks|
  {
    if bookmarks == [] then []
    else (if bookmarks[0] == id then [] else [bookmarks[0]]) + RemoveBookmark(bookmarks[1..], id)
  }

  /** The filter works element by element: it keeps the relative order of
      what it keeps. */
  lemma {:induction false} RemoveBookmarkConcat(a: seq<int>, b: seq<int>, id: int)
    ensures RemoveBookmark(a + b, id) == RemoveBookmark(a, id) + RemoveBookmark(b, id)
  {
    if a != [] {
      assert (a + b)[1..] == a[1..] + b;
      RemoveBookmarkConcat(a[1..], b, id);
    } else {
      assert a + b == b;
    }
  }

  /** Every occurrence of `id` is deleted and every other id keeps its
      number of occurrences. */
  lemma {:induction false} RemoveBookmarkCounts(bookmarks: seq<int>, id: int)
    ensures multiset(RemoveBookmark(bookmarks, id)) == multiset(bookmarks)[id := 0]
  {
    if bookmarks != [] {
      RemoveBookmarkCounts(bookmarks[1..], id);
      assert bookmarks == [bookmarks[0]] + bookmarks[1..];
    }
  }

  /** Removing an id that is not bookmarked leaves the list as it is. */
  lemma {:induction false} RemoveBookmarkAbsent(bookmarks: seq<int>, id: int)
    requires id !in bookmarks
    ensures RemoveBookmark(bookmarks, id) == bookmarks
  {
    if bookmarks != [] {
      RemoveBookmarkAbsent(bookmarks[1..], id);
      assert bookmarks == [bookmarks[0]] + bookmarks[1..];
    }
  }

  /** Removing twice is the same as removing once. */
  lemma RemoveBookmarkIdempotent(bookmarks: seq<int>, id: int)
    ensures RemoveBookmark(RemoveBookmark(bookmarks, id), id) == RemoveBookmark(bookmarks, id)
  {
    RemoveBookmarkAbsent(RemoveBookmark(bookmarks, id), id);
  }

  /** Removing from a list without duplicates gives a list without duplicates. */
  lemma {:induction false} RemoveBookmarkDistinct(bookmarks: seq<int>, id: int)
    requires NoDuplicates(bookmarks)
    ensures NoDuplicates(RemoveBookmark(bookmarks, id))
  {
    if bookmarks != [] {
      var tail := bookmarks[1..];
      assert NoDuplicates(tail);
      RemoveBookmarkDistinct(tail, id);
      assert bookmarks[0] !in tail by {
        forall k | 0 <= k < |tail| ensures tail[k] != bookmarks[0] {
          assert tail[k] == bookmarks[k + 1];
        }
      }
    }
  }

  // ---------------------------------------------------------------------
  // Sequences of bookmark updates

  datatype BookmarkUpdate = Add(id: int) | Remove(id: int)

  function ApplyUpdate(bookmarks: seq<int>, u: BookmarkUpdate): seq<int> {
    match u
    case Add(id) => AddBookmark(bookmarks, id)
    case Remove(id) => RemoveBookmark(bookmarks, id)
  }

  /** The bookmark list after a series of updates, first to last. */
  function ApplyUpdates(bookmarks: seq<int>, us: seq<BookmarkUpdate>): seq<int>
    decreases |us|
  {
    if us == [] then bookmarks else ApplyUpdates(ApplyUpdate(bookmarks, us[0]), us[1..])
  }

  /** Whether `x` is bookmarked after `us`, judged only by the last update
      that names `x` (or by `initially` when none does). */
  function LastVerdict(us: seq<BookmarkUpdate>, x: int, initially: bool): bool
    decreases |us|
  {
    if us == [] then initially
    else LastVerdict(us[1..], x, if us[0].id == x then us[0].Add? else initially)
  }

  /** After any series of adds and removes, an id is bookmarked exactly when
      the last update naming it was an add (or, if none names it, when it was
      bookmarked at the start). This holds from any starting list, including
      a loaded one with duplicates. */
  lemma {:induction false} ApplyUpdatesMembership(bookmarks: seq<int>, us: seq<BookmarkUpdate>, x: int)
    ensures x in ApplyUpdates(bookmarks, us) <==> LastVerdict(us, x, x in bookmarks)
    decreases |us|
  {
    if us != [] {
      var next := ApplyUpdate(bookmarks, us[0]);
      assert (x in next) == (if us[0].id == x then us[0].Add? else x in bookmarks);
      ApplyUpdatesMembership(next, us[1..], x);
    }
  }

  /** A list that starts without duplicates has none after any series of
      adds and removes. */
  lemma {:induction false} ApplyUpdatesDistinct(bookmarks: seq<int>, us: seq<BookmarkUpdate>)
    requires NoDuplicates(bookmarks)
    ensures NoDuplicates(ApplyUpdates(bookmarks, us))
    decreases |us|
  {
    if us != [] {
      if us[0].Remove? {
        RemoveBookmarkDistinct(bookmarks, us[0].id);
      }
      ApplyUpdatesDistinct(ApplyUpdate(bookmarks, us[0]), us[1..]);
    }
  }

  // ---------------------------------------------------------------------
  // Store-level updates

  /** The setters the store exposes. */
  datatype Action =
    | SetFontSize(size: int)
    | ToggleTranslation
    | AddBookmarkAction(id: int)
    | RemoveBookmarkAction(id: int)
    | SetLastRead(surahId: int, ayahId: int)

  /** The record after one setter, computed from the previous record. Each
      field changes only through its own setter. */
  function Apply(s: Settings, a: Action): (r: Settings)
    ensures r.fontSize != s.fontSize ==> a.SetFontSize?
    ensures a.SetFontSize? ==> MinFontSize <= r.fontSize <= MaxFontSize
    ensures r.translationEnabled != s.translationEnabled <==> a.ToggleTranslation?
    ensures r.bookmarks != s.bookmarks ==> a.AddBookmarkAction? || a.RemoveBookmarkAction?
    ensures (r.lastReadSurah, r.lastReadAyah) != (s.lastReadSurah, s.lastReadAyah) ==> a.SetLastRead?
    ensures a.SetLastRead? ==> r.lastReadSurah.Some? && r.lastReadAyah.Some?
    ensures a.SetFontSize? ==> r.fontSize == ClampFontSize(a.size)
    ensures a.SetLastRead? ==> r.lastReadSurah == Some(a.surahId) && r.lastReadAyah == Some(a.ayahId)
    ensures a.AddBookmarkAction? ==> r.bookmarks == AddBookmark(s.bookmarks, a.id)
    ensures a.RemoveBookmarkAction? ==> r.bookmarks == RemoveBookmark(s.bookmarks, a.id)
  {
    match a
    case SetFontSize(size) => s.(fontSize := ClampFontSize(size))
    case ToggleTranslation => s.(translationEnabled := !s.translationEnabled)
    case AddBookmarkAction(id) => s.(bookmarks := AddBookmark(s.bookmarks, id))
    case RemoveBookmarkAction(id) => s.(bookmarks := RemoveBookmark(s.bookmarks, id))
    case SetLastRead(surahId, ayahId) =>
      s.(lastReadSurah := Some(surahId), lastReadAyah := Some(ayahId))
  }

  /** What the setters keep: a font size in range and no duplicate bookmark. */
  predicate WellFormed(s: Settings) {
    MinFontSize <= s.fontSize <= MaxFontSize && NoDuplicates(s.bookmarks)
  }

  /** The defaults are well formed. */
  lemma DefaultsWellFormed()
    ensures WellFormed(Defaults)
  {
  }

  /** Every setter keeps a record well formed. */
  lemma ApplyPreservesWellFormed(s: Settings, a: Action)
    requires WellFormed(s)
    ensures WellFormed(Apply(s, a))
  {
    if a.RemoveBookmarkAction? {
      RemoveBookmarkDistinct(s.bookmarks, a.id);
    }
  }

  /** Toggling the translation flag twice restores it. */
  lemma ToggleTwice(s: Settings)
    ensures Apply(Apply(s, ToggleTranslation), ToggleTranslation) == s
  {
  }

  /** Every setter except the toggle is idempotent. */
  lemma ApplyIdempotent(s: Settings, a: Action)
    requires !a.ToggleTranslation?
    ensures Apply(Apply(s, a), a) == Apply(s, a)
  {
    match a
    case AddBookmarkAction(id) => AddBookmarkIdempotent(s.bookmarks, id);
    case RemoveBookmarkAction(id) => RemoveBookmarkIdempotent(s.bookmarks, id);
    case _ =>
  }

  // ---------------------------------------------------------------------
  // Persistence

  /** The key the record is stored under. */
  const StorageKey: string := "readingSettings"

  /** What a storage entry can hold: the empty string, the serialisation of
      a record, or text that does not parse. */
  datatype Stored = EmptyString | Json(settings: Settings) | Malformed

  datatype LoadError = ParseError

  /** The save step: the whole record overwrites the one key. */
  function Save(items: map<string, Stored>, s: Settings): (r: map<string, Stored>)
    ensures StorageKey in r && r[StorageKey] == Json(s)
    ensures forall k :: k != StorageKey ==> (k in r <==> k in items)
    ensures forall k :: k != StorageKey && k in items ==> r[k] == items[k]
  {
    items[StorageKey := Json(s)]
  }

  /** The load step on mount: a missing or empty entry leaves the current
      record; a serialised record replaces all five fields verbatim; text
      that does not parse makes `JSON.parse` throw. */
  function Load(current: Settings, items: map<string, Stored>): (r: Result<Settings, LoadError>)
    ensures r.Failure? <==> StorageKey in items && items[StorageKey].Malformed?
    ensures StorageKey in items && items[StorageKey].Json? ==> r == Success(items[StorageKey].settings)
    ensures StorageKey !in items || items[StorageKey].EmptyString? ==> r == Success(current)
  {
    if StorageKey !in items then Success(current)
    else match items[StorageKey]
      case EmptyString => Success(current)
      case Json(saved) => Success(saved)
      case Malformed => Failure(ParseError)
  }

  /** Loading what was saved restores all five fields, whatever the record
      held before the load. */
  lemma SaveLoadRoundTrip(items: map<string, Stored>, saved: Settings, current: Settings)
    ensures Load(current, Save(items, saved)) == Success(saved)
  {
  }

  /** Loading checks nothing: a stored font size out of range and a stored
      list with duplicates come back as they were. */
  lemma LoadDoesNotNormalise(current: Settings)
    ensures var saved := Defaults.(fontSize := 100, bookmarks := [2, 2]);
            var loaded := Load(current, map[StorageKey := Json(saved)]);
            loaded.Success? && !WellFormed(loaded.value)
  {
    var saved := Defaults.(fontSize := 100, bookmarks := [2, 2]);
    assert !NoDuplicates(saved.bookmarks) by {
      assert saved.bookmarks[0] == saved.bookmarks[1];
    }
  }
}
