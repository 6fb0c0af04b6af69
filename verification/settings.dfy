/**
 * `settings.py`: user preferences kept in a JSON file and merged with
 * the defaults on load. The file is a value: what reading it yields, and
 * what a save leaves behind.
 */
module Settings {
  /** The JSON values a setting can hold. */
  datatype Value = Bool(b: bool) | Text(s: string) | Number(n: int) | Null | Other

  type Prefs = map<string, Value>

  /** What reading the settings file yields: a missing, unreadable or
      unparsable file, a JSON value other than an object, or an object. */
  datatype Stored = Unreadable | NotAnObject | Object(fields: Prefs)

  /** `DEFAULTS`. */
  const Defaults: Prefs := map[
    "colorblind_mode" := Bool(false),
    "sound_enabled" := Bool(true),
    "speed" := Text("normal"),
    "dark_mode" := Bool(false)]

  /** `load_settings`: exactly the known keys; each takes its stored value
      when the file is an object holding it, and its default otherwise. */
  function LoadSettings(f: Stored): (r: Prefs)
    ensures r.Keys == Defaults.Keys
    ensures forall k :: k in r && f.Object? && k in f.fields ==> r[k] == f.fields[k]
    ensures forall k :: k in r && !(f.Object? && k in f.fields) ==> r[k] == Defaults[k]
  {
    if f.Object? then
      map k | k in Defaults :: if k in f.fields then f.fields[k] else Defaults[k]
    else Defaults
  }

  /** `save_settings`: a failed write is ignored and leaves the file as it
      was. */
  function SaveSettings(f: Stored, settings: Prefs, writeOk: bool): (r: Stored)
    ensures writeOk ==> r == Object(settings)
    ensures !writeOk ==> r == f
  {
    if writeOk then Object(settings) else f
  }

  /** A file that is not an object reads as the defaults. */
  lemma NonObjectDefaults(f: Stored)
    requires !f.Object?
    ensures LoadSettings(f) == Defaults
  {
  }

  /** Saving settings with exactly the known keys and loading them back
      gives the same settings. */
  lemma SaveLoadRoundTrip(f: Stored, settings: Prefs)
    requires settings.Keys == Defaults.Keys
    ensures LoadSettings(SaveSettings(f, settings, true)) == settings
  {
    var r := LoadSettings(SaveSettings(f, settings, true));
    assert r.Keys == settings.Keys;
    assert forall k :: k in r ==> r[k] == settings[k];
  }

  /** Unknown keys in a saved object are dropped on load; the known ones
      survive. */
  lemma SaveLoadDropsUnknown(f: Stored, settings: Prefs)
    requires Defaults.Keys <= settings.Keys
    ensures var r := LoadSettings(SaveSettings(f, settings, true));
      r.Keys == Defaults.Keys && forall k :: k in Defaults ==> r[k] == settings[k]
  {
  }

  /** Loading is a fixed point: saving what was loaded and loading again
      changes nothing, whether or not the write succeeds. */
  lemma LoadSaveLoad(f: Stored, writeOk: bool)
    ensures LoadSettings(SaveSettings(f, LoadSettings(f), writeOk)) == LoadSettings(f)
  {
    if writeOk {
      SaveLoadRoundTrip(f, LoadSettings(f));
    }
  }
}
