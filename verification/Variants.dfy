/** The converter between Python values and `fc::variant`. */
module Variants {
  import opened Prelude
  import opened PyObjects
  import opened Conversion
  import ListLaws

  type Int64 = i: int | -0x8000_0000_0000_0000 <= i < 0x8000_0000_0000_0000
  type UInt64 = u: int | 0 <= u < 0x1_0000_0000_0000_0000

  datatype Variant =
    | Null
    | Bool(b: bool)
    | Int64(i: Int64)
    | UInt64(u: UInt64)
    | Str(s: string)
    | Double(d: real)
    | Array(items: seq<Variant>)
    | Object(fields: seq<(string, Variant)>)
    | Blob(data: seq<Byte>)

  /** A C string ends at the first NUL. */
  function CStr(s: string): (r: string)
    ensures NulFree(r) && r <= s
    ensures NulFree(s) <==> r == s
    ensures |r| < |s| ==> s[|r|] == '\0'
  {
    if s == [] || s[0] == '\0' then [] else [s[0]] + CStr(s[1..])
  }

  predicate NulFree(s: string) {
    '\0' !in s
  }

  /** `fc::variant::as_int64` for the two kinds it is used on here. */
  function AsInt64(v: Variant): Int64
    requires v.Bool? || v.Int64?
  {
    if v.Int64? then v.i else if v.b then 1 else 0
  }

  function ToPython(v: Variant): PyObject {
    if v.Bool? then PyBool(AsInt64(v) != 0)
    else if v.Int64? then PyInt(AsInt64(v))
    else if v.UInt64? then PyInt(v.u)
    else if v.Str? then PyStr(CStr(v.s))
    else PyNone
  }

  predicate Convertible(o: PyObject) {
    o == PyNone || PyBool_Check(o) || PyLong_Check(o) || PyUnicode_Check(o)
  }

  /** `PyLong_AsLongLongAndOverflow`: the value, or -1 and the sign of the overflow. */
  function AsLongLong(i: int): (Int64, int) {
    if i < -0x8000_0000_0000_0000 then (-1, -1)
    else if i >= 0x8000_0000_0000_0000 then (-1, 1)
    else (i, 0)
  }

  /** `PyLong_AsUnsignedLongLong`: the value, or all ones with Python's OverflowError pending. */
  function AsUnsignedLongLong(i: int): (UInt64, bool) {
    if 0 <= i < 0x1_0000_0000_0000_0000 then (i, false) else (0xFFFF_FFFF_FFFF_FFFF, true)
  }

  datatype Constructed = Constructed(value: Variant, errorPending: bool)

  /** The order of the tests matters: True and False pass `PyLong_Check` too. */
  function Construct(o: PyObject): Constructed {
    if PyBool_Check(o) then Constructed(Bool(o == PyBool(true)), false)
    else if PyLong_Check(o) then
      var (v, overflow) := AsLongLong(IntValue(o));
      if overflow != 0 then
        var (u, error) := AsUnsignedLongLong(IntValue(o));
        Constructed(UInt64(u), error)
      else Constructed(Int64(v), false)
    else if PyUnicode_Check(o) then Constructed(Str(CStr(o.s)), false)
    else Constructed(Null, false)
  }

  /** `bp::extract<fc::variant>`. An integer out of range does not stop it; the error stays pending. */
  function Extract(o: PyObject): Option<Variant> {
    if Convertible(o) then Some(Construct(o).value) else None
  }

  // ----- Python to C++ to Python -----

  /**
   * The identity exactly on None, booleans, integers from -2^63 up to 2^64 - 1 and strings without
   * NUL. Integers outside raise, and are stored as 2^64 - 1.
   */
  lemma PythonRoundTripIff(o: PyObject)
    ensures Extract(o).Some? <==> o.PyNone? || o.PyBool? || o.PyInt? || o.PyStr?
    ensures Extract(o).Some? ==> Extract(o) == Some(Construct(o).value)
    ensures ToPython(Construct(o).value) == o <==>
            || o == PyNone
            || o.PyBool?
            || (o.PyInt? && -0x8000_0000_0000_0000 <= o.i < 0x1_0000_0000_0000_0000)
            || (o.PyStr? && NulFree(o.s))
    ensures Construct(o).errorPending <==> o.PyInt? && !(-0x8000_0000_0000_0000 <= o.i < 0x1_0000_0000_0000_0000)
    ensures Construct(o).errorPending ==> Extract(o) == Some(UInt64(0xFFFF_FFFF_FFFF_FFFF))
    ensures o.PyNone? ==> Extract(o) == Some(Null)
    ensures o.PyBool? ==> Extract(o) == Some(Bool(o.b))
    ensures o.PyStr? ==> Extract(o) == Some(Str(CStr(o.s)))
  {
  }

  // ----- C++ to Python to C++ -----

  /** What a trip through Python makes of a variant. */
  function Normal(v: Variant): Variant {
    match v
    case Bool(_) => v
    case Int64(_) => v
    case UInt64(u) => if u < 0x8000_0000_0000_0000 then Int64(u) else v
    case Str(s) => Str(CStr(s))
    case _ => Null
  }

  function Number(v: Variant): Option<int> {
    match v
    case Int64(i) => Some(i)
    case UInt64(u) => Some(u)
    case _ => None
  }

  /** No variant makes the trip fail; the result is in normal form, which a second trip leaves alone. */
  lemma VariantRoundTrip(v: Variant)
    ensures Extract(ToPython(v)) == Some(Normal(v)) && !Construct(ToPython(v)).errorPending
    ensures ToPython(v) == PyNone <==> v.Null? || v.Double? || v.Array? || v.Object? || v.Blob?
    ensures v.Bool? ==> ToPython(v) == PyBool(v.b)
    ensures Number(v).Some? ==> ToPython(v) == PyInt(Number(v).value)
    ensures v.Str? ==> ToPython(v) == PyStr(CStr(v.s))
    ensures Normal(Normal(v)) == Normal(v)
    ensures Number(Normal(v)) == Number(v)
    ensures Normal(v) == v <==>
            v.Null? || v.Bool? || v.Int64? || (v.UInt64? && v.u >= 0x8000_0000_0000_0000) || (v.Str? && NulFree(v.s))
  {
  }

  /** Normal forms are exactly what can be extracted from a Python value. */
  lemma NormalFormsIff(v: Variant)
    ensures Normal(v) == v <==> exists o :: Extract(o) == Some(v)
  {
    VariantRoundTrip(v);
    if Normal(v) == v {
      assert Extract(ToPython(v)) == Some(v);
    } else if o :| Extract(o) == Some(v) {
      assert false;
    }
  }

  /** Two variants look the same from Python exactly when they have the same normal form. */
  lemma SameInPythonIff(v: Variant, w: Variant)
    ensures ToPython(v) == ToPython(w) <==> Normal(v) == Normal(w)
  {
    VariantRoundTrip(v);
    VariantRoundTrip(w);
    assert ToPython(Normal(v)) == ToPython(v);
    assert ToPython(Normal(w)) == ToPython(w);
  }

  /** A row of NFT data, read as a list and assigned back over any row, is normalised element by element. */
  lemma RowRoundTrip(row: seq<Variant>, prior: seq<Variant>)
    ensures OutcomeOf(MapSeq(row, ToPython), Extract) == Done
    ensures ListAfter(prior, MapSeq(row, ToPython), Extract, Null) == MapSeq(row, Normal)
    ensures ListAfter(prior, MapSeq(MapSeq(row, Normal), ToPython), Extract, Null) == MapSeq(row, Normal)
  {
    forall v: Variant ensures Extract(ToPython(v)) == Some(Normal(v)) && Normal(Normal(v)) == Normal(v) {
      VariantRoundTrip(v);
    }
    ListLaws.ListRoundTrip(row, prior, ToPython, Extract, Normal, Null);
    ListLaws.ListRoundTrip(MapSeq(row, Normal), prior, ToPython, Extract, Normal, Null);
    assert MapSeq(MapSeq(row, Normal), Normal) == MapSeq(row, Normal);
  }

  /** A Python row is given back exactly when each value is in the converter's range. */
  lemma PythonRowRoundTripIff(l: seq<PyObject>, prior: seq<Variant>)
    requires forall o :: o in l ==> o.PyNone? || o.PyBool? || o.PyInt? || o.PyStr?
    ensures MapSeq(ListAfter(prior, l, Extract, Null), ToPython) == l <==>
            forall o :: o in l ==>
              && (o.PyInt? ==> -0x8000_0000_0000_0000 <= o.i < 0x1_0000_0000_0000_0000)
              && (o.PyStr? ==> NulFree(o.s))
  {
    forall o | o in l ensures Extract(o).Some? {
      PythonRoundTripIff(o);
    }
    assert forall i :: 0 <= i < |l| ==> l[i] in l;
    ListLaws.PythonListRoundTripIff(l, prior, ToPython, Extract, Null);
    forall o | o in l
      ensures ToPython(Extract(o).value) == o <==>
              && (o.PyInt? ==> -0x8000_0000_0000_0000 <= o.i < 0x1_0000_0000_0000_0000)
              && (o.PyStr? ==> NulFree(o.s))
    {
      PythonRoundTripIff(o);
    }
  }
}
