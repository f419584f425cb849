/**
 * The reading-settings provider: five state cells that the setters
 * overwrite, a load step run once on mount, and a save step that writes the
 * whole record to local storage whenever one of the cells changes.
 */
module ReadingSettingsStore {
  import opened Wrappers
  import opened ReadingSettings

  /** The browser's local storage, shared by the whole page. */
  class LocalStorage {
    var items: map<string, Stored>

    constructor (items: map<string, Stored>)
      ensures this.items == items
    {
      this.items := items;
    }
  }

  class ReadingSettingsProvider {
    var fontSize: int
    var translationEnabled: bool
    var bookmarks: seq<int>
    var lastReadSurah: Option<int>
    var lastReadAyah: Option<int>
    const storage: LocalStorage

    /** The record the save step builds from the five cells. */
    function Snapshot(): Settings
      reads this
    {
      Settings(fontSize, translationEnabled, bookmarks, lastReadSurah, lastReadAyah)
    }

    /** The storage entry holds the current record. */
    predicate Persisted()
      reads this, storage
    {
      StorageKey in storage.items && storage.items[StorageKey] == Json(Snapshot())
    }

    /** The state cells start at their defaults; nothing is read or written
        until the effects run in `Mount`. */
    constructor (storage: LocalStorage)
      ensures this.storage == storage && Snapshot() == Defaults
    {
      fontSize := 24;
      translationEnabled := true;
      bookmarks := [];
      lastReadSurah := None;
      lastReadAyah := None;
      this.storage := storage;
    }

    /** The save step: the whole record overwrites the one key. */
    method Persist()
      modifies storage
      ensures storage.items == Save(old(storage.items), Snapshot())
      ensures Persisted()
    {
      storage.items := storage.items[StorageKey := Json(Snapshot())];
    }

    /** The two effects that run on mount, in order: a saved record, if the
        entry is present and not empty, replaces the five cells verbatim
        (without clamping or de-duplication); then the record is saved.
        Text that does not parse makes the load throw before any cell or the
        storage is touched. */
    method Mount() returns (r: Result<(), LoadError>)
      modifies this, storage
      ensures r.Success? <==> Load(old(Snapshot()), old(storage.items)).Success?
      ensures r.Success? ==> Snapshot() == Load(old(Snapshot()), old(storage.items)).value
      ensures r.Success? ==> storage.items == Save(old(storage.items), Snapshot()) && Persisted()
      ensures r.Failure? ==> Snapshot() == old(Snapshot()) && storage.items == old(storage.items)
    {
      if StorageKey in storage.items && storage.items[StorageKey] != EmptyString {
        match storage.items[StorageKey]
        case Malformed =>
          return Failure(ParseError);
        case Json(saved) =>
          fontSize := saved.fontSize;
          translationEnabled := saved.translationEnabled;
          bookmarks := saved.bookmarks;
          lastReadSurah := saved.lastReadSurah;
          lastReadAyah := saved.lastReadAyah;
      }
      Persist();
      r := Success(());
    }

    /** Stores the clamped size; the record is saved only when the size
        actually changed. */
    method SetFontSize(size: int)
      modifies this, storage
      ensures Snapshot() == Apply(old(Snapshot()), Action.SetFontSize(size))
      ensures MinFontSize <= fontSize <= MaxFontSize
      ensures storage.items ==
              if fontSize == old(fontSize) then old(storage.items)
              else Save(old(storage.items), Snapshot())
      ensures old(Persisted()) ==> Persisted()
    {
      var before := fontSize;
      fontSize := ClampFontSize(size);
      if fontSize != before {
        Persist();
      }
    }

    /** Negates the translation flag and saves. */
    method ToggleTranslation()
      modifies this, storage
      ensures Snapshot() == Apply(old(Snapshot()), Action.ToggleTranslation)
      ensures translationEnabled == !old(translationEnabled)
      ensures storage.items == Save(old(storage.items), Snapshot())
    {
      translationEnabled := !translationEnabled;
      Persist();
    }

    /** Replaces the list by a fresh one with `surahId` added, and saves. */
    method AddBookmark(surahId: int)
      modifies this, storage
      ensures Snapshot() == Apply(old(Snapshot()), AddBookmarkAction(surahId))
      ensures surahId in bookmarks && NoDuplicates(bookmarks)
      ensures storage.items == Save(old(storage.items), Snapshot())
    {
      bookmarks := ReadingSettings.AddBookmark(bookmarks, surahId);
      Persist();
    }

    /** Replaces the list by a fresh one without `surahId`, and saves. */
    method RemoveBookmark(surahId: int)
      modifies this, storage
      ensures Snapshot() == Apply(old(Snapshot()), RemoveBookmarkAction(surahId))
      ensures surahId !in bookmarks
      ensures storage.items == Save(old(storage.items), Snapshot())
    {
      bookmarks := ReadingSettings.RemoveBookmark(bookmarks, surahId);
      Persist();
    }

    /** Whether `surahId` is in the current list. */
    function IsBookmarked(surahId: int): (b: bool)
      reads this
      ensures b <==> surahId in bookmarks
    {
      Includes(bookmarks, surahId)
    }

    /** Sets both last-read cells together; the record is saved only when
        one of them changed. */
    method SetLastRead(surahId: int, ayahId: int)
      modifies this, storage
      ensures Snapshot() == Apply(old(Snapshot()), Action.SetLastRead(surahId, ayahId))
      ensures storage.items ==
              if Snapshot() == old(Snapshot()) then old(storage.items)
              else Save(old(storage.items), Snapshot())
      ensures old(Persisted()) ==> Persisted()
    {
      var before := Snapshot();
      lastReadSurah := Some(surahId);
      lastReadAyah := Some(ayahId);
      if Snapshot() != before {
        Persist();
      }
    }
  }

  /** A provider mounted over storage that holds a saved record comes up
      with exactly that record, whatever its font size and bookmark list. */
  method MountRestoresSaved(saved: Settings) returns (p: ReadingSettingsProvider)
    ensures p.Snapshot() == saved
    ensures p.Persisted()
  {
    var storage := new LocalStorage(map[StorageKey := Json(saved)]);
    p := new ReadingSettingsProvider(storage);
    var r := p.Mount();
    assert r.Success?;
  }
}
