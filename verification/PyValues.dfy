/** Python values as they come out of JSON and YAML, and the ideal hash of their canonical JSON. */
module PyValues {
  datatype PyValue =
    | PyNone
    | PyBool(b: bool)
    | PyNum(r: real)
    | PyStr(s: string)
    | PyList(items: seq<PyValue>)
    | PyDict(entries: Dict)

  /** Dictionaries with text keys. Their order is not part of them: canonical JSON sorts the keys. */
  type Dict = map<string, PyValue>

  /** SHA-256 of canonical JSON taken as ideal: a digest is as good as the value it was made from. */
  datatype Digest = Sha256Hex(payload: PyValue)

  /** `d.get(key, default)` */
  function Get(d: Dict, key: string, default: PyValue): PyValue {
    if key in d then d[key] else default
  }

  /** `float(x)` for a number; well-typed requests have numbers here. */
  function Float(v: PyValue): real {
    if v.PyNum? then v.r else 0.0
  }

  /** `int(x)`: towards zero. */
  function Trunc(x: real): int {
    if x >= 0.0 then x.Floor else -((-x).Floor)
  }

  /** Text that is there and not empty. */
  predicate Truthy(v: PyValue) {
    v.PyStr? && v.s != ""
  }

  /** `bool(v)` */
  predicate Truth(v: PyValue) {
    match v
    case PyNone => false
    case PyBool(b) => b
    case PyNum(r) => r != 0.0
    case PyStr(s) => s != ""
    case PyList(items) => items != []
    case PyDict(d) => d != map[]
  }
}
