/**
 * Decoded JSON as the PHP side sees it after `json_decode($body, true)`:
 * strings, lists (`[...]`) and keyed arrays (`{...}`). Numbers are carried as
 * their text.
 */
module Values {
  import PhpStrings

  datatype Value =
    | Null
    | Str(s: string)
    | List(items: seq<Value>)
    | Obj(fields: map<string, Value>)

  /** PHP `empty()`: null, "", "0" and the empty array are empty. */
  predicate IsEmpty(v: Value) {
    match v
    case Null => true
    case Str(s) => PhpStrings.IsEmpty(s)
    case List(items) => |items| == 0
    case Obj(fields) => |fields| == 0
  }

  /** PHP `is_array()`. */
  predicate IsArray(v: Value) {
    v.List? || v.Obj?
  }

  /**
   * `$v[$key]`, or null when the key is missing. PHP keeps "0" and 0 as the
   * same array key, so `$v[0]` of a list is `Get(v, "0")`.
   */
  function Get(v: Value, key: string): (r: Value)
    ensures v.Obj? && key in v.fields ==> r == v.fields[key]
    ensures !IsArray(v) ==> r == Null
  {
    match v
    case Obj(fields) => if key in fields then fields[key] else Null
    case List(items) => if key == "0" && |items| > 0 then items[0] else Null
    case _ => Null
  }
}
