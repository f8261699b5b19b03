/**
 * The configuration store of
 * src/ia_sarah/core/adapters/utils/config_manager.py: one JSON file whose
 * content is the state. Reading never changes the file; every write
 * replaces its whole content.
 */
module ConfigManager {
  import opened Wrappers
  import opened OrderedDict
  import opened JsonFile

  /** `AttributeError`: the document is valid JSON but not an object, so it
      has no `.get` or `.update`. */
  datatype ConfigError = NotAnObject

  const DEFAULT_THEME: Value := Str("superhero")

  /** `config.get("theme", "superhero")` on a loaded document. */
  function ThemeOf(doc: Value): Result<Value, ConfigError>
  {
    match doc
    case Object(members) => Success(Get(members, "theme").GetOr(DEFAULT_THEME))
    case _ => Failure(NotAnObject)
  }

  /** `config.update(updates)` on a loaded document. */
  function Updated(doc: Value, updates: Dict<Value>): Result<Value, ConfigError>
  {
    match doc
    case Object(members) => Success(Object(Update(members, updates)))
    case _ => Failure(NotAnObject)
  }

  /** The file `update_config(updates)` leaves behind, or the error it raises
      before writing: once written, the file reads back as the loaded
      document merged with `updates`. */
  function UpdatedFile(c: Codec, f: File, updates: Dict<Value>): (r: Result<File, ConfigError>)
    ensures r.Failure? <==> !Document(c, f).Object?
    ensures r.Success? ==> r.value.Holds?
    ensures IsJson(c) && WellFormed(Object(updates)) && r.Success? ==>
      Document(c, r.value) == Object(Update(Document(c, f).members, updates))
  {
    match Updated(Document(c, f), updates)
    case Success(doc) =>
      MergedReadsBack(c, Document(c, f), updates);
      Success(Holds(c.serialize(doc)))
    case Failure(e) => Failure(e)
  }

  /** A merged document that Python can hold is read back as written. */
  lemma MergedReadsBack(c: Codec, doc: Value, updates: Dict<Value>)
    requires doc.Object?
    ensures IsJson(c) && WellFormed(doc) && WellFormed(Object(updates)) ==>
      c.parse(c.serialize(Object(Update(doc.members, updates)))) == Some(Object(Update(doc.members, updates)))
  {
    if IsJson(c) && WellFormed(doc) && WellFormed(Object(updates)) {
      WellFormedUpdate(doc.members, updates);
    }
  }

  /** The settings file. */
  class ConfigStore {
    const codec: Codec
    var file: File

    constructor (codec: Codec, file: File)
      ensures this.codec == codec && this.file == file
    {
      this.codec := codec;
      this.file := file;
    }

    /** `load_config`: reads, never writes. */
    method LoadConfig() returns (config: Value)
      ensures config == Document(codec, file)
    {
      match file
      case Missing =>
        config := EMPTY_OBJECT;
      case Unreadable =>
        config := EMPTY_OBJECT;
      case Holds(text) =>
        var parsed := codec.parse(text);
        if parsed.None? {
          config := EMPTY_OBJECT;
        } else {
          config := parsed.value;
        }
    }

    /** `save_config`: the file holds exactly the serialized dict. */
    method SaveConfig(config: Dict<Value>)
      modifies this`file
      ensures file == Holds(codec.serialize(Object(config)))
    {
      file := Holds(codec.serialize(Object(config)));
    }

    /** `delete_config`: afterwards there is no file; a missing file stays missing. */
    method DeleteConfig()
      modifies this`file
      ensures file == Missing
    {
      if file != Missing {
        file := Missing;
      }
    }

    method LoadTheme() returns (theme: Result<Value, ConfigError>)
      ensures theme == ThemeOf(Document(codec, file))
    {
      var config := LoadConfig();
      if !config.Object? {
        return Failure(NotAnObject);
      }
      theme := Success(Get(config.members, "theme").GetOr(DEFAULT_THEME));
    }

    /** `update_config`: load, merge in place, save; a document that is not
        an object raises before anything is written. */
    method UpdateConfig(updates: Dict<Value>) returns (r: Outcome<ConfigError>)
      modifies this`file
      ensures UpdatedFile(codec, old(file), updates).Success? ==>
        r == Pass && file == UpdatedFile(codec, old(file), updates).value
      ensures UpdatedFile(codec, old(file), updates).Failure? ==>
        r == Fail(NotAnObject) && file == old(file)
    {
      var config := LoadConfig();
      if !config.Object? {
        return Fail(NotAnObject);
      }
      var merged := Update(config.members, updates);
      SaveConfig(merged);
      r := Pass;
    }

    /** `save_theme(t)` is `update_config({"theme": t})`. */
    method SaveTheme(theme: string) returns (r: Outcome<ConfigError>)
      modifies this`file
      ensures UpdatedFile(codec, old(file), [("theme", Str(theme))]).Success? ==>
        r == Pass && file == UpdatedFile(codec, old(file), [("theme", Str(theme))]).value
      ensures UpdatedFile(codec, old(file), [("theme", Str(theme))]).Failure? ==>
        r == Fail(NotAnObject) && file == old(file)
    {
      r := UpdateConfig([("theme", Str(theme))]);
    }
  }

  /** Merging two Python dicts gives a Python dict. */
  lemma WellFormedUpdate(m: Dict<Value>, u: Dict<Value>)
    requires WellFormed(Object(m)) && WellFormed(Object(u))
    ensures WellFormed(Object(Update(m, u)))
  {
    UpdateKeepsDistinct(m, u);
    UpdatePairs(m, u);
    var r := Update(m, u);
    forall i | 0 <= i < |r|
      ensures WellFormed(r[i].1)
    {
      assert r[i] in r;
      if r[i] in m {
        var j :| 0 <= j < |m| && m[j] == r[i];
      } else {
        var j :| 0 <= j < |u| && u[j] == r[i];
      }
    }
  }

  /** After `update_config(u)` on an object document, a key of `u` reads as
      in `u` and every other key keeps its old value. */
  lemma UpdateMerges(c: Codec, f: File, u: Dict<Value>, k: string)
    requires IsJson(c) && WellFormed(Object(u))
    requires Document(c, f).Object?
    ensures UpdatedFile(c, f, u).Success?
    ensures Document(c, UpdatedFile(c, f, u).value).Object?
    ensures Get(Document(c, UpdatedFile(c, f, u).value).members, k)
         == if Get(u, k).Some? then Get(u, k) else Get(Document(c, f).members, k)
  {
    var m := Document(c, f).members;
    WellFormedUpdate(m, u);
    DocumentAfterWrite(c, Object(Update(m, u)));
    GetUpdate(m, u, k);
  }

  /** A missing, unreadable or corrupt file holds exactly `u` after
      `update_config(u)`. */
  lemma UpdateOfFallback(c: Codec, f: File, u: Dict<Value>)
    requires IsJson(c) && WellFormed(Object(u))
    requires f.Missing? || f.Unreadable? || (f.Holds? && c.parse(f.text).None?)
    ensures UpdatedFile(c, f, u).Success?
    ensures Document(c, UpdatedFile(c, f, u).value) == Object(u)
  {
    UpdateOfEmpty(u);
    DocumentAfterWrite(c, Object(u));
  }

  /** `load_theme` gives the stored theme, or "superhero" when the key is
      absent or the file is missing, unreadable or corrupt. */
  lemma ThemeLookup(c: Codec, f: File)
    ensures Document(c, f).Object? && Get(Document(c, f).members, "theme").Some? ==>
      ThemeOf(Document(c, f)) == Success(Get(Document(c, f).members, "theme").value)
    ensures Document(c, f).Object? && Get(Document(c, f).members, "theme").None? ==>
      ThemeOf(Document(c, f)) == Success(DEFAULT_THEME)
    ensures f.Missing? || f.Unreadable? || (f.Holds? && c.parse(f.text).None?) ==>
      ThemeOf(Document(c, f)) == Success(DEFAULT_THEME)
    ensures !Document(c, f).Object? ==> ThemeOf(Document(c, f)) == Failure(NotAnObject)
  {
  }

  /** `save_theme(t)` then `load_theme()` gives `t`, and every other key
      keeps its value. */
  lemma SaveThemeThenLoad(c: Codec, f: File, t: string, k: string)
    requires IsJson(c) && Document(c, f).Object?
    ensures UpdatedFile(c, f, [("theme", Str(t))]).Success?
    ensures ThemeOf(Document(c, UpdatedFile(c, f, [("theme", Str(t))]).value)) == Success(Str(t))
    ensures k != "theme" ==>
      Get(Document(c, UpdatedFile(c, f, [("theme", Str(t))]).value).members, k) == Get(Document(c, f).members, k)
  {
    var u := [("theme", Str(t))];
    assert WellFormed(Str(t));
    assert WellFormed(Object(u));
    UpdateMerges(c, f, u, "theme");
    UpdateMerges(c, f, u, k);
  }

  /** The sequence of the store's own test: save, load, save, load the
      theme, delete. */
  method CrudScenario(c: Codec) returns (data: Value, theme: Result<Value, ConfigError>, exists_: bool)
    requires IsJson(c)
    ensures data == Object([("theme", Str("flat"))])
    ensures theme == Success(Str("dark"))
    ensures !exists_
  {
    var store := new ConfigStore(c, Missing);
    var flat := [("theme", Str("flat"))];
    assert WellFormed(Str("flat")) && WellFormed(Object(flat));
    store.SaveConfig(flat);
    data := store.LoadConfig();
    var dark := [("theme", Str("dark"))];
    assert WellFormed(Str("dark")) && WellFormed(Object(dark));
    store.SaveConfig(dark);
    theme := store.LoadTheme();
    store.DeleteConfig();
    exists_ := store.file != Missing;
  }
}
