/** `array_converter<T, N>` for T = uint8_t and T = int8_t. */
module ByteArrays {
  import opened Prelude
  import opened PyObjects

  /** A value of the element type: an unsigned byte, or a two's complement signed one. */
  predicate InRange(x: int, signed: bool) {
    if signed then -0x80 <= x < 0x80 else 0 <= x < 0x100
  }

  /** An `fc::array<T, N>`. */
  ghost predicate IsArray(a: seq<int>, n: nat, signed: bool) {
    |a| == n && forall i :: 0 <= i < n ==> InRange(a[i], signed)
  }

  /** `reinterpret_cast<const char*>`: the stored byte of an element, and the element of a stored byte. */
  function ToByte(x: int): Byte {
    x % 0x100
  }

  function FromByte(b: Byte, signed: bool): int {
    if signed && b >= 0x80 then b - 0x100 else b
  }

  lemma ReinterpretIsBijection(x: int, b: Byte, signed: bool)
    ensures InRange(FromByte(b, signed), signed) && ToByte(FromByte(b, signed)) == b
    ensures InRange(x, signed) ==> FromByte(ToByte(x), signed) == x
    ensures InRange(x, signed) ==> ToByte(x) == if x < 0 then x + 0x100 else x
  {
  }

  function ToPython(a: seq<int>): PyObject {
    PyByteArray(MapSeq(a, ToByte))
  }

  predicate Convertible(o: PyObject, n: nat) {
    PyByteArray_Check(o) && |o.bytes| == n
  }

  /** The constructed array; value-initialised to zeros when the guard fails. */
  function ArrayOf(o: PyObject, n: nat, signed: bool): seq<int> {
    if Convertible(o, n) then MapSeq(o.bytes, (b: Byte) => FromByte(b, signed)) else seq(n, _ => 0)
  }

  /** Value-initialises the storage, then copies the bytes over it when the guard holds again. */
  method Construct(o: PyObject, storage: array<int>, signed: bool)
    modifies storage
    ensures storage[..] == ArrayOf(o, storage.Length, signed)
    ensures IsArray(storage[..], storage.Length, signed)
    ensures forall i :: 0 <= i < storage.Length ==>
              storage[i] == if o.PyByteArray? && |o.bytes| == storage.Length then FromByte(o.bytes[i], signed) else 0
  {
    var n := storage.Length;
    forall i | 0 <= i < n {
      storage[i] := 0;
    }
    if PyByteArray_Check(o) && |o.bytes| == n {
      forall i | 0 <= i < n {
        storage[i] := FromByte(o.bytes[i], signed);
      }
    }
  }

  lemma ArrayRoundTrip(a: seq<int>, n: nat, signed: bool)
    requires IsArray(a, n, signed)
    ensures Convertible(ToPython(a), n) && ArrayOf(ToPython(a), n, signed) == a
    ensures ToPython(a).PyByteArray? && |ToPython(a).bytes| == n
    ensures forall i :: 0 <= i < n ==> ToPython(a).bytes[i] == if a[i] < 0 then a[i] + 0x100 else a[i]
  {
    forall i | 0 <= i < n ensures FromByte(ToByte(a[i]), signed) == a[i] {
      ReinterpretIsBijection(a[i], 0, signed);
    }
  }

  /**
   * Accepted exactly when it is what the converter makes of some array, which is then the one array
   * constructed from it; a rejected value is constructed to zeros.
   */
  lemma ByteArrayRoundTripIff(o: PyObject, n: nat, signed: bool)
    ensures Convertible(o, n) <==> exists a :: IsArray(a, n, signed) && ToPython(a) == o
    ensures Convertible(o, n) <==> ToPython(ArrayOf(o, n, signed)) == o
    ensures forall a :: IsArray(a, n, signed) && ToPython(a) == o ==> a == ArrayOf(o, n, signed)
    ensures IsArray(ArrayOf(o, n, signed), n, signed)
  {
    var a := ArrayOf(o, n, signed);
    if Convertible(o, n) {
      forall i | 0 <= i < n ensures InRange(a[i], signed) && ToByte(a[i]) == o.bytes[i] {
        ReinterpretIsBijection(0, o.bytes[i], signed);
      }
      assert MapSeq(a, ToByte) == o.bytes;
      assert IsArray(a, n, signed) && ToPython(a) == o;
    }
    forall x | IsArray(x, n, signed) && ToPython(x) == o ensures x == a {
      ArrayRoundTrip(x, n, signed);
    }
  }
}
