/** JSON values as the Python side sees them after `json.loads`, with objects
    kept as association lists in document order, plus the failure kinds the
    target raises. */
module Json {

  /** A parsed JSON value. Numbers that are not integers are kept as their
      source text: the model never computes with floating-point values. */
  datatype Json =
    | JNull
    | JBool(b: bool)
    | JInt(i: int)
    | JNum(text: string)
    | JStr(s: string)
    | JArr(items: seq<Json>)
    | JObj(fields: seq<(string, Json)>)

  /** The failures that abort a run. */
  datatype Error =
    | MissingType                       // a line without a "type" key
    | MissingStream                     // RECORD or SCHEMA without "stream"
    | RecordBeforeSchema(stream: Json)
    | SchemaWithoutProperties           // raised as a ValidationError
    | MissingKeyProperties
    | InvalidRecord                     // the JSON-Schema validator rejected the record
    | MissingKeys(keys: seq<string>)    // raised as a ValidationError
    | DuplicateColumn(name: string)
    | MalformedSchema                   // a shape the source crashes on (KeyError, TypeError, ...)
    | MalformedMessage
    | NoSuchTable(table: string)
    | IntegrityViolation                // a primary-key clash the loader does not catch

  datatype Result<+T> = Ok(value: T) | Err(error: Error) {
    predicate IsFailure() { Err? }
    function PropagateFailure<U>(): Result<U>
      requires Err?
    {
      Err(error)
    }
    function Extract(): T
      requires Ok?
    {
      value
    }
  }

  datatype Option<+T> = None | Some(value: T)

  /** `key in d` for a Python dict `d`. */
  predicate HasKey(fields: seq<(string, Json)>, key: string) {
    exists i :: 0 <= i < |fields| && fields[i].0 == key
  }

  /** The position of the binding `d[key]` reads, or -1 when `key` is absent;
      Python keeps the last binding when a JSON object repeats a key. */
  function FindKey(fields: seq<(string, Json)>, key: string): (r: int)
    ensures -1 <= r < |fields|
    ensures r >= 0 <==> HasKey(fields, key)
    ensures r >= 0 ==> fields[r].0 == key && forall j :: r < j < |fields| ==> fields[j].0 != key
  {
    if |fields| == 0 then -1
    else if fields[|fields| - 1].0 == key then |fields| - 1
    else
      var r := FindKey(fields[..|fields| - 1], key);
      assert forall i :: 0 <= i < |fields| - 1 ==> fields[..|fields| - 1][i] == fields[i];
      r
  }

  /** `d[key]` when present. */
  function Lookup(fields: seq<(string, Json)>, key: string): (r: Option<Json>)
    ensures r.Some? <==> HasKey(fields, key)
  {
    var i := FindKey(fields, key);
    if i < 0 then None else Some(fields[i].1)
  }

  /** Python truthiness: `not v` holds of None, False, 0, "", [] and {}. */
  predicate Falsy(j: Json) {
    match j
    case JNull => true
    case JBool(b) => !b
    case JInt(i) => i == 0
    case JNum(_) => false
    case JStr(s) => |s| == 0
    case JArr(xs) => |xs| == 0
    case JObj(fs) => |fs| == 0
  }

  /** `needle in s` for Python strings: a substring test. */
  predicate IsSubstring(needle: string, s: string) {
    needle <= s || (|s| > 0 && IsSubstring(needle, s[1..]))
  }

  /** `name in t` where `t` is the value of a JSON-Schema `type` keyword: a
      substring test when `t` is a string, membership when it is a list, a key
      test when it is an object. Any other value mentions no type name. */
  predicate Mentions(t: Json, name: string) {
    match t
    case JStr(s) => IsSubstring(name, s)
    case JArr(xs) => JStr(name) in xs
    case JObj(fs) => HasKey(fs, name)
    case _ => false
  }
}
