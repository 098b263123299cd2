/**
 * JSON documents as Python's `json` module decodes them: objects become
 * dicts, arrays lists, integral numbers `int` and the others `float`.
 * Floats are exact reals here and never NaN or infinite.
 */
module Json {

  datatype Value =
    | Null
    | Bool(b: bool)
    | Int(i: int)
    | Float(x: real)
    | Str(s: string)
    | Array(items: seq<Value>)
    | Object(fields: map<string, Value>)

  /** The name Python gives the type of the decoded value. */
  function TypeName(v: Value): string
  {
    match v
    case Null => "NoneType"
    case Bool(_) => "bool"
    case Int(_) => "int"
    case Float(_) => "float"
    case Str(_) => "str"
    case Array(_) => "list"
    case Object(_) => "dict"
  }

  /** Python's `sub in s` on strings. */
  predicate HasSubstring(s: string, sub: string)
  {
    |sub| <= |s| && (s[..|sub|] == sub || HasSubstring(s[1..], sub))
  }
}
