// The settings file: saved through a temporary file that is renamed into place.
module ConfigStore {
  datatype AppConfig = AppConfig(
    rootFolder: string, httpsEnabled: bool, runMinimized: bool, autostart: bool,
    activeVersions: map<string, string>, serviceRoots: map<string, string>)

  const DEFAULT_CONFIG := AppConfig("", true, false, false, map[], map[])

  /** A parameter of a request: missing, of the right JSON type, or of another one. */
  datatype Param<T> = Absent | Typed(value: T) | IllTyped {
    function Or(current: T): T {
      if Typed? then value else current
    }
  }

  /** The four settings a request may carry. */
  datatype Settings = Settings(rootFolder: Param<string>, httpsEnabled: Param<bool>,
                               runMinimized: Param<bool>, autostart: Param<bool>) {
    predicate WellTyped() {
      !rootFolder.IllTyped? && !httpsEnabled.IllTyped? && !runMinimized.IllTyped? && !autostart.IllTyped?
    }
  }

  /** The request merged over the previous configuration. */
  function Merge(previous: AppConfig, s: Settings): AppConfig {
    previous.(rootFolder := s.rootFolder.Or(previous.rootFolder),
              httpsEnabled := s.httpsEnabled.Or(previous.httpsEnabled),
              runMinimized := s.runMinimized.Or(previous.runMinimized),
              autostart := s.autostart.Or(previous.autostart))
  }

  predicate TakenOver<T(==)>(param: Param<T>, before: T, after: T) {
    match param
    case Absent => after == before
    case Typed(value) => after == value
    case IllTyped => true
  }

  /** Each of the four settings is the one requested, or as before; versions and service folders are not touched. */
  predicate SetTo(settings: Settings, before: AppConfig, after: AppConfig) {
    && TakenOver(settings.rootFolder, before.rootFolder, after.rootFolder)
    && TakenOver(settings.httpsEnabled, before.httpsEnabled, after.httpsEnabled)
    && TakenOver(settings.runMinimized, before.runMinimized, after.runMinimized)
    && TakenOver(settings.autostart, before.autostart, after.autostart)
    && after.activeVersions == before.activeVersions && after.serviceRoots == before.serviceRoots
  }

  lemma MergeSets(previous: AppConfig, settings: Settings)
    ensures SetTo(settings, previous, Merge(previous, settings))
  {
  }

  /** The parameters in front of the first ill-typed one, where the assignments break off. */
  function BeforeIllTyped(s: Settings): Settings {
    if s.rootFolder.IllTyped? then Settings(Absent, Absent, Absent, Absent)
    else if s.httpsEnabled.IllTyped? then Settings(s.rootFolder, Absent, Absent, Absent)
    else if s.runMinimized.IllTyped? then Settings(s.rootFolder, s.httpsEnabled, Absent, Absent)
    else if s.autostart.IllTyped? then Settings(s.rootFolder, s.httpsEnabled, s.runMinimized, Absent)
    else s
  }

  /** An ill-typed request is refused, but the configuration in memory stays what it was exactly when every
      parameter in front of the ill-typed one is missing or repeats the current value. */
  lemma IllTypedKeepsConfigExactly(previous: AppConfig, s: Settings)
    ensures var front := BeforeIllTyped(s);
            Merge(previous, front) == previous <==>
            (!front.rootFolder.Typed? || front.rootFolder.value == previous.rootFolder) &&
            (!front.httpsEnabled.Typed? || front.httpsEnabled.value == previous.httpsEnabled) &&
            (!front.runMinimized.Typed? || front.runMinimized.value == previous.runMinimized) &&
            (!front.autostart.Typed? || front.autostart.value == previous.autostart)
  {
  }

  /** It can change: here a new folder is taken over although the request fails. */
  lemma IllTypedRequestChangesConfig()
    ensures exists previous, s: Settings :: !s.WellTyped() && Merge(previous, BeforeIllTyped(s)) != previous
  {
    var s := Settings(Typed("C:/projects"), IllTyped, Absent, Absent);
    assert Merge(DEFAULT_CONFIG, BeforeIllTyped(s)).rootFolder != DEFAULT_CONFIG.rootFolder;
  }

  datatype Stored = Missing | Unparsable | Holds(config: AppConfig)

  /** Which calls of one save fail. An incomplete write is not looked at. */
  datatype SaveFaults = SaveFaults(unwritable: bool, incomplete: bool, firstRename: bool, removal: bool,
                                   secondRename: bool)

  predicate CanSave(f: SaveFaults) {
    !f.unwritable && (!f.firstRename || !f.secondRename)
  }

  /** What a start of the engine reads back. */
  function Loaded(stored: Stored): AppConfig {
    if stored.Holds? then stored.config else DEFAULT_CONFIG
  }

  /** What a save leaves stored, whether it was attempted and succeeded or not. */
  predicate SavedAs(ok: bool, before: Stored, after: Stored, config: AppConfig, f: SaveFaults) {
    if ok then CanSave(f) && Loaded(after) == if f.incomplete then DEFAULT_CONFIG else config
    else after == before || (after == Missing && !f.unwritable && !f.removal)
  }

  /** What a start finds: the saved settings, or without a readable file no folder, HTTPS on, everything else off. */
  predicate StartsWith(stored: Stored, config: AppConfig) {
    match stored
    case Holds(saved) => config == saved
    case _ =>
      && config.rootFolder == "" && config.httpsEnabled && !config.runMinimized && !config.autostart
      && config.activeVersions == map[] && config.serviceRoots == map[]
  }

  class Store {
    var stored: Stored

    constructor (stored: Stored)
      ensures this.stored == stored
    {
      this.stored := stored;
    }

    function Load(): AppConfig
      reads this
    {
      Loaded(stored)
    }

    /** Writes a temporary file and renames it into place. When the first rename fails, the old file is
        removed before the second try, so a failed save loses it exactly when only that removal works. */
    method Save(config: AppConfig, f: SaveFaults) returns (ok: bool)
      modifies this
      ensures ok == CanSave(f)
      ensures ok ==> Load() == if f.incomplete then DEFAULT_CONFIG else config
      ensures !ok ==> stored == if f.unwritable || f.removal then old(stored) else Missing
    {
      if f.unwritable {
        return false;
      }
      var temporary := if f.incomplete then Unparsable else Holds(config);
      if !f.firstRename {
        stored := temporary;
        return true;
      }
      if !f.removal {
        stored := Missing;
      }
      if f.secondRename {
        return false;
      }
      stored := temporary;
      return true;
    }
  }
}
