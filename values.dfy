/** The data the Nakadi plugin handles: Python values as they travel through
    JSON request and response bodies, and the usual Option/Result wrappers
    standing in for Python's None and exceptions. */
module Values {

  datatype Option<+T> = None | Some(value: T)

  /** The outcome of an operation that in Python either returns or raises. */
  datatype Result<+T, +E> = Ok(value: T) | Err(error: E)

  /** A Python value built from JSON-like data. `VNone` is Python's `None`;
      lists and tuples are kept apart because the plugin tells them apart
      only to treat them alike. Floats are not modelled. */
  datatype Value =
    | VNone
    | VBool(b: bool)
    | VInt(i: int)
    | VStr(s: string)
    | VList(items: seq<Value>)
    | VTuple(items: seq<Value>)
    | VDict(entries: map<string, Value>)

  /** The values Python's `isinstance(v, dict) or isinstance(v, list) or
      isinstance(v, tuple)` accepts. */
  predicate IsContainer(v: Value)
  {
    v.VDict? || v.VList? || v.VTuple?
  }

  /** The elements `v[i]` reaches for `0 <= i < len(v)`, for the values that
      support both `len` and integer indexing; `None` for the others. A
      string's elements are its one-character strings. */
  function Items(v: Value): (r: Option<seq<Value>>)
    ensures r.Some? <==> v.VList? || v.VTuple? || v.VStr?
    ensures v.VList? || v.VTuple? ==> r == Some(v.items)
    ensures v.VStr? ==> |r.value| == |v.s| && forall i :: 0 <= i < |v.s| ==> r.value[i] == VStr([v.s[i]])
  {
    match v
    case VList(xs) => Some(xs)
    case VTuple(xs) => Some(xs)
    case VStr(s) => Some(seq(|s|, i requires 0 <= i < |s| => VStr([s[i]])))
    case _ => None
  }
}
