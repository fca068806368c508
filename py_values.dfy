/**
 * The scalar values the backend reads out of decoded JSON dictionaries,
 * with Python's truthiness and equality (under which `True == 1` and
 * `False == 0`, and so they hash alike in a set).
 */
module PyValues {

  /** A dictionary value; `PyNone` is also what `dict.get` returns for a
      missing key. Numbers are modelled as integers. */
  datatype PyValue = PyNone | PyBool(b: bool) | PyInt(i: int) | PyStr(s: string)

  /** Python's `bool(v)`. */
  predicate Truthy(v: PyValue) {
    match v
    case PyNone => false
    case PyBool(b) => b
    case PyInt(i) => i != 0
    case PyStr(s) => s != ""
  }

  /** The representative under `==`: a bool stands for the integer it equals. */
  function EqKey(v: PyValue): PyValue {
    match v
    case PyBool(b) => PyInt(if b then 1 else 0)
    case _ => v
  }

  /** Python's `a == b` on these values. */
  predicate PyEq(a: PyValue, b: PyValue) {
    EqKey(a) == EqKey(b)
  }

  /** Equal values are equally truthy. */
  lemma PyEqTruthy(a: PyValue, b: PyValue)
    requires PyEq(a, b)
    ensures Truthy(a) == Truthy(b)
  {
  }
}
