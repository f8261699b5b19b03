/**
 * The older theme file of src/config_manager.py: `load_theme` falls back to
 * "superhero" on a missing, unreadable or corrupt file, and `save_theme`
 * overwrites the whole file with a one-key object.
 */
module LegacyConfigManager {
  import opened Wrappers
  import opened OrderedDict
  import opened JsonFile
  import ConfigManager

  class ThemeFile {
    const codec: Codec
    var file: File

    constructor (codec: Codec, file: File)
      ensures this.codec == codec && this.file == file
    {
      this.codec := codec;
      this.file := file;
    }

    /** `load_theme`: a decode or read error is caught, the AttributeError of
        a non-object document is not. */
    method LoadTheme() returns (theme: Result<Value, ConfigManager.ConfigError>)
      ensures file.Missing? || file.Unreadable? || (file.Holds? && codec.parse(file.text).None?) ==>
        theme == Success(ConfigManager.DEFAULT_THEME)
      ensures file.Holds? && codec.parse(file.text).Some? ==>
        theme == ConfigManager.ThemeOf(codec.parse(file.text).value)
      ensures theme == ConfigManager.ThemeOf(Document(codec, file))
    {
      if file.Missing? || file.Unreadable? {
        return Success(ConfigManager.DEFAULT_THEME);
      }
      var parsed := codec.parse(file.text);
      if parsed.None? {
        return Success(ConfigManager.DEFAULT_THEME);
      }
      match parsed.value
      case Object(members) =>
        theme := Success(Get(members, "theme").GetOr(ConfigManager.DEFAULT_THEME));
      case _ =>
        theme := Failure(ConfigManager.NotAnObject);
    }

    /** `save_theme(t)`: the file holds `{"theme": t}` and nothing else. */
    method SaveTheme(theme: string)
      modifies this`file
      ensures file == Holds(codec.serialize(Object([("theme", Str(theme))])))
    {
      file := Holds(codec.serialize(Object([("theme", Str(theme))])));
    }
  }

  /** After `save_theme(t)` the whole document is `{"theme": t}`, so the
      theme reads back as `t` and every other key is gone. */
  lemma SaveThemeOverwrites(c: Codec, t: string, k: string)
    requires IsJson(c)
    ensures Document(c, Holds(c.serialize(Object([("theme", Str(t))])))) == Object([("theme", Str(t))])
    ensures ConfigManager.ThemeOf(Document(c, Holds(c.serialize(Object([("theme", Str(t))]))))) == Success(Str(t))
    ensures k != "theme" ==> Get(Document(c, Holds(c.serialize(Object([("theme", Str(t))])))).members, k) == None
  {
    assert WellFormed(Str(t)) && WellFormed(Object([("theme", Str(t))]));
    DocumentAfterWrite(c, Object([("theme", Str(t))]));
  }
}
