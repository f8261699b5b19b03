/**
 * A JSON configuration file on disk. The file is either missing, present
 * but unreadable (an OSError on read), or holds some text. `json.loads` and
 * `json.dumps` are left abstract as a `Codec`: the properties below hold
 * for every codec that round-trips the values Python can build.
 */
module JsonFile {
  import opened Wrappers
  import opened OrderedDict

  /** A decoded JSON value; objects keep their key order, like a Python dict. */
  datatype Value =
    | Null
    | Bool(b: bool)
    | Number(n: int)
    | Str(s: string)
    | Array(items: seq<Value>)
    | Object(members: Dict<Value>)

  /** Values a Python program can hold: no object repeats a key. */
  ghost predicate WellFormed(v: Value)
    decreases v
  {
    match v
    case Array(items) => forall i :: 0 <= i < |items| ==> WellFormed(items[i])
    case Object(members) =>
      && DistinctKeys(members)
      && forall i :: 0 <= i < |members| ==> WellFormed(members[i].1)
    case _ => true
  }

  /** `json.loads` (None for a JSONDecodeError) and `json.dumps`. */
  datatype Codec = Codec(parse: string -> Option<Value>, serialize: Value -> string)

  /** What the model assumes of the codec: what is written is read back, and
      what is read is a value Python can hold. */
  ghost predicate IsJson(c: Codec)
  {
    && (forall v :: WellFormed(v) ==> c.parse(c.serialize(v)) == Some(v))
    && (forall t :: c.parse(t).Some? ==> WellFormed(c.parse(t).value))
  }

  datatype File = Missing | Unreadable | Holds(text: string)

  /** The empty object `{}`. */
  const EMPTY_OBJECT: Value := Object([])

  /** `load_config`: the decoded file, or `{}` when it is missing, cannot be
      read or is not valid JSON. */
  function Document(c: Codec, f: File): (v: Value)
    ensures IsJson(c) ==> WellFormed(v)
  {
    match f
    case Missing => EMPTY_OBJECT
    case Unreadable => EMPTY_OBJECT
    case Holds(text) => c.parse(text).GetOr(EMPTY_OBJECT)
  }

  /** A missing, unreadable or corrupt file reads as `{}`. */
  lemma DocumentFallback(c: Codec, f: File)
    requires f.Missing? || f.Unreadable? || (f.Holds? && c.parse(f.text).None?)
    ensures Document(c, f) == EMPTY_OBJECT
  {
  }

  /** Whatever well-formed value is written is what is read back. */
  lemma DocumentAfterWrite(c: Codec, v: Value)
    requires IsJson(c) && WellFormed(v)
    ensures Document(c, Holds(c.serialize(v))) == v
  {
  }
}
