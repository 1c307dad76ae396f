/**
 * Loosely typed record values: the Python dictionaries that scrapers
 * produce and the processor and store consume.
 */
module Values {
  import opened Strings

  /** A JSON-like Python value (floats are not modelled). */
  datatype Value =
    | Null
    | Bool(b: bool)
    | Int(i: int)
    | Str(s: string)
    | Arr(items: seq<Value>)
    | Obj(fields: map<string, Value>)

  /** A dictionary with string keys; key order never matters to the model. */
  type Record = map<string, Value>

  /** Python truthiness: `None`, `False`, `0`, `''`, `[]` and `{}` are false. */
  predicate Truthy(v: Value) {
    match v
    case Null => false
    case Bool(b) => b
    case Int(i) => i != 0
    case Str(s) => s != ""
    case Arr(xs) => xs != []
    case Obj(m) => m != map[]
  }

  /** `d.get(k, default)`. */
  function Get(r: Record, k: string, default: Value): (v: Value)
    ensures k in r ==> v == r[k]
    ensures k !in r ==> v == default
  {
    if k in r then r[k] else default
  }

  /** `k in d and d[k]`. */
  predicate HasTruthy(r: Record, k: string) {
    k in r && Truthy(r[k])
  }

  /** Values that `str()` renders without a container repr. */
  predicate Scalar(v: Value) {
    !v.Arr? && !v.Obj?
  }

  /** Python's `str(v)` (and f-string rendering) for scalar values. */
  function Display(v: Value): string
    requires Scalar(v)
  {
    match v
    case Null => "None"
    case Bool(b) => if b then "True" else "False"
    case Int(i) => IntToString(i)
    case Str(s) => s
  }

  /** The placeholder the scrapers use for a missing field ("not stated"). */
  const NotStated: string := "לא צוין"
}
