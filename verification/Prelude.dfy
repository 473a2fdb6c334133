/** Values shared by every module: optional results and first/last search by a key. */
module Prelude {

  datatype Option<+T> = None | Some(value: T)

  /** How a setter ended: normally, or by the Python exception raised while converting element `at`. */
  datatype Outcome = Done | Raised(at: nat)

  /** `a` when it is present, `b` otherwise. */
  function Prefer<T>(a: Option<T>, b: Option<T>): Option<T> {
    if a.Some? then a else b
  }

  function MapSeq<A, B>(s: seq<A>, f: A -> B): (r: seq<B>)
    ensures |r| == |s|
    ensures forall i :: 0 <= i < |s| ==> r[i] == f(s[i])
  {
    seq(|s|, i requires 0 <= i < |s| => f(s[i]))
  }

  /** Reads a pair through a function of its first component. */
  function OnKey<K, V, C>(f: K -> C): ((K, V)) -> C {
    (e: (K, V)) => f(e.0)
  }

  // ----- searching by key -----

  /** The first element whose key is `c`. */
  function First<T, C(==)>(s: seq<T>, key: T -> C, c: C): (r: Option<T>)
    ensures r.Some? ==> r.value in s && key(r.value) == c
    ensures r.None? ==> forall x :: x in s ==> key(x) != c
  {
    if s == [] then None
    else if key(s[0]) == c then Some(s[0])
    else First(s[1..], key, c)
  }

  /** The last element whose key is `c`. */
  function Last<T, C(==)>(s: seq<T>, key: T -> C, c: C): (r: Option<T>)
    ensures r.Some? ==> r.value in s && key(r.value) == c
    ensures r.None? ==> forall x :: x in s ==> key(x) != c
  {
    if s == [] then None
    else
      var later := Last(s[1..], key, c);
      if later.Some? then later
      else if key(s[0]) == c then Some(s[0])
      else None
  }

  ghost predicate DistinctBy<T, C>(s: seq<T>, key: T -> C) {
    forall i, j {:trigger key(s[i]), key(s[j])} :: 0 <= i < j < |s| ==> key(s[i]) != key(s[j])
  }

  lemma DistinctIndex<T, C>(s: seq<T>, key: T -> C, i: nat, j: nat)
    requires DistinctBy(s, key) && i < |s| && j < |s| && key(s[i]) == key(s[j])
    ensures i == j
  {
  }

  /** `First` and `Last` pick out the lowest and the highest position with the key. */
  lemma {:induction false} SearchPositions<T, C>(s: seq<T>, key: T -> C, i: nat)
    requires i < |s|
    ensures (forall j :: 0 <= j < i ==> key(s[j]) != key(s[i])) ==> First(s, key, key(s[i])) == Some(s[i])
    ensures (forall j :: i < j < |s| ==> key(s[j]) != key(s[i])) ==> Last(s, key, key(s[i])) == Some(s[i])
  {
    if i > 0 {
      SearchPositions(s[1..], key, i - 1);
      assert forall j :: 0 <= j < |s| - 1 ==> s[1..][j] == s[j + 1];
    } else {
      assert forall j :: 0 <= j < |s| - 1 ==> s[1..][j] == s[j + 1];
    }
  }

  lemma {:induction false} FirstPosition<T, C>(s: seq<T>, key: T -> C, c: C) returns (k: nat)
    requires First(s, key, c).Some?
    ensures k < |s| && First(s, key, c) == Some(s[k])
    ensures forall j :: 0 <= j < k ==> key(s[j]) != c
  {
    assert forall j :: 0 < j < |s| ==> s[j] == s[1..][j - 1];
    if key(s[0]) == c {
      k := 0;
    } else {
      k := FirstPosition(s[1..], key, c);
      k := k + 1;
    }
  }

  lemma {:induction false} LastPosition<T, C>(s: seq<T>, key: T -> C, c: C) returns (k: nat)
    requires Last(s, key, c).Some?
    ensures k < |s| && Last(s, key, c) == Some(s[k])
    ensures forall j :: k < j < |s| ==> key(s[j]) != c
  {
    assert forall j :: 0 < j < |s| ==> s[j] == s[1..][j - 1];
    if Last(s[1..], key, c).Some? {
      k := LastPosition(s[1..], key, c);
      k := k + 1;
    } else {
      k := 0;
      assert forall j :: 0 < j < |s| ==> s[j] in s[1..];
    }
  }

  lemma {:induction false} SearchAppend<T, C>(a: seq<T>, b: seq<T>, key: T -> C, c: C)
    ensures First(a + b, key, c) == Prefer(First(a, key, c), First(b, key, c))
    ensures Last(a + b, key, c) == Prefer(Last(b, key, c), Last(a, key, c))
  {
    if a == [] {
      assert a + b == b;
    } else {
      assert (a + b)[1..] == a[1..] + b;
      SearchAppend(a[1..], b, key, c);
    }
  }
}
