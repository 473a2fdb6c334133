/** The Python values the hand-written converters look at. */
module PyObjects {
  type Byte = b: int | 0 <= b < 0x100

  datatype PyObject =
    | PyNone
    | PyBool(b: bool)
    | PyInt(i: int)
    | PyStr(s: string)
    | PyByteArray(bytes: seq<Byte>)
    | PyOther(id: nat)

  predicate PyBool_Check(o: PyObject) {
    o.PyBool?
  }

  /** `bool` is a subclass of `int`, so this holds of True and False as well. */
  predicate PyLong_Check(o: PyObject) {
    o.PyInt? || o.PyBool?
  }

  predicate PyUnicode_Check(o: PyObject) {
    o.PyStr?
  }

  predicate PyByteArray_Check(o: PyObject) {
    o.PyByteArray?
  }

  function IntValue(o: PyObject): int
    requires PyLong_Check(o)
  {
    if o.PyInt? then o.i else if o.b then 1 else 0
  }
}
