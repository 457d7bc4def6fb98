/** The trap's settings record and the component that keeps it: loaded from
    the settings file at start-up (defaults when there is none), replaced and
    persisted on "settings.set", republished on "settings.get" and "settings.set". */
module SettingsStore {
  import opened Records

  /** `Settings`: the trap's name, how many sessions the cache retains, and
      the least score a detection needs to be recorded. */
  datatype Settings = Settings(trapName: string, maxSessions: int, minScore: real)

  const DefaultSettings: Settings := Settings("", 5, 0.75)

  /** Content of `settings.db`: a JSON settings record, or text that is not one. */
  datatype SettingsFile = SettingsJson(record: Settings) | Corrupt

  /** Loading the settings file: the record it holds, or None when the file
      is missing or does not hold a record. */
  function ReadSettings(stored: Option<SettingsFile>): (r: Option<Settings>)
    ensures r.Some? <==> stored.Some? && stored.value.SettingsJson?
    ensures r.Some? ==> r.value == stored.value.record
  {
    match stored
    case Some(SettingsJson(x)) => Some(x)
    case _ => None
  }

  /** `read_settings()` as written: `os.open` returns an integer descriptor,
      which cannot be used in a `with` statement, so the handler swallows the
      TypeError and the result is always None. */
  function ReadSettingsAsWritten(stored: Option<SettingsFile>): (r: Option<Settings>)
    ensures r.None?
  {
    None
  }

  /** The settings and the file right after construction, given what loading returned:
      the loaded record and the file untouched, or the defaults, written out. */
  function StartupFrom(loaded: Option<Settings>, stored: Option<SettingsFile>): (r: (Settings, Option<SettingsFile>))
    ensures loaded.Some? ==> r == (loaded.value, stored)
    ensures loaded.None? ==> r == (DefaultSettings, Some(SettingsJson(DefaultSettings)))
  {
    match loaded
    case Some(x) => (x, stored)
    case None => (DefaultSettings, Some(SettingsJson(DefaultSettings)))
  }

  /** A restart keeps whatever was last persisted, and the persisted file
      always reads back as the settings in force. */
  lemma StartupKeepsPersisted(stored: Option<SettingsFile>)
    ensures var (settings, file) := StartupFrom(ReadSettings(stored), stored);
      && ReadSettings(file) == Some(settings)
      && (stored.Some? && stored.value.SettingsJson? ==> settings == stored.value.record && file == stored)
      && (!(stored.Some? && stored.value.SettingsJson?) ==> settings == DefaultSettings)
  {
  }

  /** As written, every start-up discards the persisted record and overwrites
      the file with the defaults. */
  lemma StartupAsWrittenDiscardsPersisted(x: Settings)
    requires x != DefaultSettings
    ensures var (settings, file) := StartupFrom(ReadSettingsAsWritten(Some(SettingsJson(x))), Some(SettingsJson(x)));
      settings != x && file != Some(SettingsJson(x))
  {
  }

  /** `SettingsDatabase`. `file` is the settings file (None when absent);
      `onChanged` says whether an `on_changed` callback is installed and
      `changes` is the sequence of records passed to it; `published` is the
      sequence of records sent out as "settings" messages. */
  class SettingsDatabase {
    var settings: Settings
    var file: Option<SettingsFile>
    var onChanged: bool
    var changes: seq<Settings>
    var published: seq<Settings>

    /** The settings in force are what the file reads back as. */
    ghost predicate Valid()
      reads this
    {
      ReadSettings(file) == Some(settings)
    }

    /** `__init__`: no callback yet; load, and fall back to the defaults
        (persisting them) when loading yields None. */
    constructor(stored: Option<SettingsFile>)
      ensures (settings, file) == StartupFrom(ReadSettings(stored), stored)
      ensures !onChanged && changes == [] && published == []
      ensures Valid()
    {
      onChanged := false;
      changes := [];
      published := [];
      file := stored;
      var loaded := ReadSettings(stored);
      settings := if loaded.None? then DefaultSettings else loaded.value;
      new;
      if loaded.None? {
        WriteSettings(settings);
      }
    }

    /** `write_settings(x)`: replace the file's content with `x` and hand `x`
        to the callback, if one is installed. */
    method WriteSettings(x: Settings)
      modifies this
      ensures file == Some(SettingsJson(x))
      ensures ReadSettings(file) == Some(x)
      ensures changes == old(changes) + (if onChanged then [x] else [])
      ensures settings == old(settings) && onChanged == old(onChanged) && published == old(published)
    {
      file := Some(SettingsJson(x));
      if onChanged {
        changes := changes + [x];
      }
    }

    /** `handle_message`: "settings.get" republishes, "settings.set" replaces,
        persists and republishes the decoded record, anything else is ignored. */
    method HandleMessage(identifier: string, decoded: Settings)
      requires Valid()
      modifies this
      ensures Valid()
      ensures onChanged == old(onChanged)
      ensures identifier == "settings.get" ==>
        settings == old(settings) && file == old(file) && changes == old(changes)
        && published == old(published) + [settings]
      ensures identifier == "settings.set" ==>
        settings == decoded && file == Some(SettingsJson(decoded))
        && changes == old(changes) + (if onChanged then [decoded] else [])
        && published == old(published) + [decoded]
      ensures identifier != "settings.get" && identifier != "settings.set" ==>
        settings == old(settings) && file == old(file) && changes == old(changes)
        && published == old(published)
    {
      if identifier == "settings.get" {
        published := published + [settings];
      } else if identifier == "settings.set" {
        settings := decoded;
        WriteSettings(settings);
        published := published + [settings];
      }
    }
  }
}
