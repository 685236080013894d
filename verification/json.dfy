/**
  The JSON-shaped Python dictionaries the services pass around: a map from
  key to value, where a key can be absent and a present key can hold `None`.
*/
module Json {
  datatype Value = Str(s: string) | Num(r: real) | Int(i: int) | Null

  type Dict = map<string, Value>

  /** `d.get(key, default)`: the stored value (even `None`) if the key is present. */
  function Get(d: Dict, key: string, default: Value): (v: Value)
    ensures key in d ==> v == d[key]
    ensures key !in d ==> v == default
  {
    if key in d then d[key] else default
  }

  /** Python truthiness of a value: `None`, `""`, `0` and `0.0` are false. */
  predicate Truthy(v: Value) {
    match v
    case Str(s) => |s| > 0
    case Num(r) => r != 0.0
    case Int(i) => i != 0
    case Null => false
  }
}
