/**
 * Ordered containers: boost::container::flat_set, std::set, flat_map and std::map.
 *
 * A container is the sequence of its elements in iteration order. Its comparator is given as a
 * rank: the comparator holds when the rank is smaller, and two elements it cannot tell apart have
 * the same rank. Ranks are reals because every strict weak order on countably many values embeds
 * in the rationals (the integers would be too few: strings have no predecessor).
 */
module Ordered {
  import opened Prelude

  type Rank = real

  ghost predicate Sorted<T>(s: seq<T>, rank: T -> Rank) {
    forall i, j :: 0 <= i < j < |s| ==> rank(s[i]) < rank(s[j])
  }

  /** `insert`: a new element goes to its place, an element already there with the same rank stays. */
  function Insert<T>(s: seq<T>, x: T, rank: T -> Rank): seq<T> {
    if s == [] then [x]
    else if rank(x) < rank(s[0]) then [x] + s
    else if rank(x) == rank(s[0]) then s
    else [s[0]] + Insert(s[1..], x, rank)
  }

  /** Write through an iterator to the element with key `c`. */
  function Modify<T, C(==)>(s: seq<T>, key: T -> C, c: C, f: T -> T): (r: seq<T>)
    ensures |r| == |s|
  {
    if s == [] then []
    else if key(s[0]) == c then [f(s[0])] + s[1..]
    else [s[0]] + Modify(s[1..], key, c, f)
  }

  lemma SortedTail<T>(s: seq<T>, rank: T -> Rank)
    requires Sorted(s, rank) && s != []
    ensures Sorted(s[1..], rank)
    ensures forall x :: x in s[1..] ==> rank(s[0]) < rank(x)
  {
    assert forall i :: 0 <= i < |s| - 1 ==> s[1..][i] == s[i + 1];
  }

  lemma SortedCons<T>(x: T, s: seq<T>, rank: T -> Rank)
    requires Sorted(s, rank)
    requires forall y :: y in s ==> rank(x) < rank(y)
    ensures Sorted([x] + s, rank)
  {
  }

  lemma SortedFind<T>(s: seq<T>, rank: T -> Rank, x: T)
    requires Sorted(s, rank) && x in s
    ensures First(s, rank, rank(x)) == Some(x) == Last(s, rank, rank(x))
  {
    var i :| 0 <= i < |s| && s[i] == x;
    SearchPositions(s, rank, i);
  }

  lemma FirstOfAll<T>(s: seq<T>, rank: T -> Rank)
    ensures s != [] ==> First(s, rank, rank(s[0])) == Some(s[0])
  {
  }

  /** A sorted sequence is determined by what a search for each rank finds. */
  lemma {:induction false} SortedUnique<T>(s: seq<T>, t: seq<T>, rank: T -> Rank)
    requires Sorted(s, rank) && Sorted(t, rank)
    requires forall r :: First(s, rank, r) == First(t, rank, r)
    ensures s == t
  {
    FirstOfAll(s, rank);
    FirstOfAll(t, rank);
    if s != [] && t != [] {
      SortedTail(s, rank);
      SortedTail(t, rank);
      assert s[0] == t[0];
      forall r ensures First(s[1..], rank, r) == First(t[1..], rank, r) {
        assert First(s, rank, r) == First(t, rank, r);
      }
      SortedUnique(s[1..], t[1..], rank);
    }
  }

  lemma {:induction false} InsertSorted<T>(s: seq<T>, x: T, rank: T -> Rank)
    requires Sorted(s, rank)
    ensures Sorted(Insert(s, x, rank), rank)
    ensures forall y :: y in Insert(s, x, rank) ==> y in s || y == x
  {
    if s != [] {
      SortedTail(s, rank);
      if rank(x) > rank(s[0]) {
        InsertSorted(s[1..], x, rank);
        SortedCons(s[0], Insert(s[1..], x, rank), rank);
      }
    }
  }

  lemma {:induction false} InsertFind<T>(s: seq<T>, x: T, rank: T -> Rank, r: Rank)
    requires Sorted(s, rank)
    ensures First(Insert(s, x, rank), rank, r) ==
            Prefer(First(s, rank, r), if r == rank(x) then Some(x) else None)
    ensures |Insert(s, x, rank)| == |s| + if First(s, rank, rank(x)).None? then 1 else 0
  {
    if s != [] {
      SortedTail(s, rank);
      if rank(x) < rank(s[0]) {
        assert ([x] + s)[1..] == s;
      } else if rank(x) > rank(s[0]) {
        InsertFind(s[1..], x, rank, r);
        assert Insert(s, x, rank)[1..] == Insert(s[1..], x, rank);
      }
    }
  }

  lemma InsertMeaning<T>(s: seq<T>, x: T, rank: T -> Rank)
    requires Sorted(s, rank)
    ensures Sorted(Insert(s, x, rank), rank)
    ensures forall r :: First(Insert(s, x, rank), rank, r) ==
                        Prefer(First(s, rank, r), if r == rank(x) then Some(x) else None)
    ensures |Insert(s, x, rank)| == |s| + if First(s, rank, rank(x)).None? then 1 else 0
  {
    InsertSorted(s, x, rank);
    forall r ensures First(Insert(s, x, rank), rank, r) ==
                     Prefer(First(s, rank, r), if r == rank(x) then Some(x) else None)
    {
      InsertFind(s, x, rank, r);
    }
    InsertFind(s, x, rank, rank(x));
  }

  /** Writing through an iterator keeps the order as long as it keeps the key of what it writes to. */
  lemma {:induction false} ModifyMeaning<T>(s: seq<T>, rank: T -> Rank, c: Rank, f: T -> T)
    requires Sorted(s, rank)
    requires First(s, rank, c).Some? ==> rank(f(First(s, rank, c).value)) == c
    ensures Sorted(Modify(s, rank, c, f), rank)
    ensures forall i :: 0 <= i < |s| ==> rank(Modify(s, rank, c, f)[i]) == rank(s[i])
    ensures forall r :: First(Modify(s, rank, c, f), rank, r) ==
                        if r == c && First(s, rank, c).Some? then Some(f(First(s, rank, c).value))
                        else First(s, rank, r)
  {
    if s == [] {
    } else {
      SortedTail(s, rank);
      var m := Modify(s, rank, c, f);
      if rank(s[0]) == c {
        assert m[1..] == s[1..];
      } else {
        ModifyMeaning(s[1..], rank, c, f);
        assert m[1..] == Modify(s[1..], rank, c, f);
      }
    }
  }

  // ----- many inserts, last element first -----

  /** The set after inserting `xs` from its last element down to its first. */
  function InsertAll<T>(s: seq<T>, xs: seq<T>, rank: T -> Rank): seq<T> {
    if xs == [] then s else Insert(InsertAll(s, xs[1..], rank), xs[0], rank)
  }

  /** For each rank: the old element if there was one, otherwise the last of `xs` with that rank. */
  lemma {:induction false} InsertAllMeaning<T>(s: seq<T>, xs: seq<T>, rank: T -> Rank)
    requires Sorted(s, rank)
    ensures Sorted(InsertAll(s, xs, rank), rank)
    ensures forall r :: First(InsertAll(s, xs, rank), rank, r) == Prefer(First(s, rank, r), Last(xs, rank, r))
  {
    if xs != [] {
      InsertAllMeaning(s, xs[1..], rank);
      InsertMeaning(InsertAll(s, xs[1..], rank), xs[0], rank);
      forall r ensures First(InsertAll(s, xs, rank), rank, r) == Prefer(First(s, rank, r), Last(xs, rank, r)) {
        assert First(InsertAll(s, xs[1..], rank), rank, r) == Prefer(First(s, rank, r), Last(xs[1..], rank, r));
      }
    }
  }

  /** One assignment after another is one assignment of the later list followed by the earlier one. */
  lemma {:induction false} InsertAllTwice<T>(s: seq<T>, xs: seq<T>, ys: seq<T>, rank: T -> Rank)
    ensures InsertAll(InsertAll(s, xs, rank), ys, rank) == InsertAll(s, ys + xs, rank)
  {
    if ys == [] {
      assert ys + xs == xs;
    } else {
      assert (ys + xs)[1..] == ys[1..] + xs;
      InsertAllTwice(s, xs, ys[1..], rank);
    }
  }

  // ----- maps -----

  /** One use of `operator[]` by the dict setter: an assignment through it, or the bare insertion of a default. */
  datatype MapOp<K, V> = Put(k: K, v: V) | Touch(k: K)

  function SetValue<K, V>(v: V): ((K, V)) -> (K, V) {
    (e: (K, V)) => (e.0, v)
  }

  /** `operator[]` inserts the default value when the key is missing; `Put` then writes to the entry. */
  function ApplyOp<K, V>(m: seq<(K, V)>, op: MapOp<K, V>, zero: V, rank: K -> Rank): seq<(K, V)> {
    var slot := Insert(m, (op.k, zero), OnKey(rank));
    if op.Touch? then slot else Modify(slot, OnKey(rank), rank(op.k), SetValue(op.v))
  }

  /** The map after `ops`, last one first. */
  function ApplyAll<K, V>(m: seq<(K, V)>, ops: seq<MapOp<K, V>>, zero: V, rank: K -> Rank): seq<(K, V)> {
    if ops == [] then m else ApplyOp(ApplyAll(m, ops[1..], zero, rank), ops[0], zero, rank)
  }

  function OpRank<K, V>(rank: K -> Rank): MapOp<K, V> -> Rank {
    (op: MapOp<K, V>) => rank(op.k)
  }

  /** Tells assignments from bare insertions as well as ranks. */
  function PutRank<K, V>(rank: K -> Rank): MapOp<K, V> -> (Rank, bool) {
    (op: MapOp<K, V>) => (rank(op.k), op.Put?)
  }

  /**
   * What a search for rank `r` finds after `ops`. The key object is the old one, else that of the
   * operation applied first (the last in the list). The value is that of the assignment applied
   * last (the first in the list), else the old value, else the default.
   */
  function EntryAfter<K, V>(was: Option<(K, V)>, ops: seq<MapOp<K, V>>, zero: V, rank: K -> Rank,
      r: Rank): Option<(K, V)> {
    var touched := Last(ops, OpRank(rank), r);
    var written := First(ops, PutRank(rank), (r, true));
    if touched.None? then was
    else Some((
      if was.Some? then was.value.0 else touched.value.k,
      if written.Some? then written.value.v else if was.Some? then was.value.1 else zero))
  }

  lemma EntryAfterOne<K, V>(was: Option<(K, V)>, op: MapOp<K, V>, zero: V, rank: K -> Rank, r: Rank)
    ensures EntryAfter(was, [op], zero, rank, r) ==
            if rank(op.k) != r then was
            else Some((if was.Some? then was.value.0 else op.k,
                       if op.Put? then op.v else if was.Some? then was.value.1 else zero))
  {
    assert [op][1..] == [];
  }

  lemma ApplyOpFind<K, V>(m: seq<(K, V)>, op: MapOp<K, V>, zero: V, rank: K -> Rank, r: Rank)
    requires Sorted(m, OnKey(rank))
    ensures First(ApplyOp(m, op, zero, rank), OnKey(rank), r) ==
            EntryAfter(First(m, OnKey(rank), r), [op], zero, rank, r)
  {
    EntryAfterOne(First(m, OnKey(rank), r), op, zero, rank, r);
    InsertFind(m, (op.k, zero), OnKey(rank), r);
    if op.Put? {
      var slot := Insert(m, (op.k, zero), OnKey(rank));
      InsertSorted(m, (op.k, zero), OnKey(rank));
      InsertFind(m, (op.k, zero), OnKey(rank), rank(op.k));
      ModifyMeaning(slot, OnKey(rank), rank(op.k), SetValue(op.v));
    }
  }

  lemma ApplyOpMeaning<K, V>(m: seq<(K, V)>, op: MapOp<K, V>, zero: V, rank: K -> Rank)
    requires Sorted(m, OnKey(rank))
    ensures Sorted(ApplyOp(m, op, zero, rank), OnKey(rank))
    ensures forall r :: First(ApplyOp(m, op, zero, rank), OnKey(rank), r) ==
                        EntryAfter(First(m, OnKey(rank), r), [op], zero, rank, r)
    ensures |ApplyOp(m, op, zero, rank)| == |m| + if First(m, OnKey(rank), rank(op.k)).None? then 1 else 0
  {
    forall r ensures First(ApplyOp(m, op, zero, rank), OnKey(rank), r) ==
                     EntryAfter(First(m, OnKey(rank), r), [op], zero, rank, r)
    {
      ApplyOpFind(m, op, zero, rank, r);
    }
    InsertMeaning(m, (op.k, zero), OnKey(rank));
    if op.Put? {
      ModifyMeaning(Insert(m, (op.k, zero), OnKey(rank)), OnKey(rank), rank(op.k), SetValue(op.v));
    }
  }

  /** What one more operation, applied after `ops`, does to a search. */
  lemma EntryAfterCons<K, V>(was: Option<(K, V)>, op: MapOp<K, V>, ops: seq<MapOp<K, V>>, zero: V, rank: K -> Rank,
      r: Rank)
    ensures EntryAfter(was, [op] + ops, zero, rank, r) ==
            EntryAfter(EntryAfter(was, ops, zero, rank, r), [op], zero, rank, r)
  {
    assert ([op] + ops)[1..] == ops;
  }

  /** Holds whether or not distinguishable keys share a rank. */
  lemma {:induction false} ApplyAllMeaning<K, V>(m: seq<(K, V)>, ops: seq<MapOp<K, V>>, zero: V, rank: K -> Rank)
    requires Sorted(m, OnKey(rank))
    ensures Sorted(ApplyAll(m, ops, zero, rank), OnKey(rank))
    ensures forall r :: First(ApplyAll(m, ops, zero, rank), OnKey(rank), r) ==
                        EntryAfter(First(m, OnKey(rank), r), ops, zero, rank, r)
  {
    if ops != [] {
      var before := ApplyAll(m, ops[1..], zero, rank);
      ApplyAllMeaning(m, ops[1..], zero, rank);
      ApplyOpMeaning(before, ops[0], zero, rank);
      assert ops == [ops[0]] + ops[1..];
      forall r ensures First(ApplyOp(before, ops[0], zero, rank), OnKey(rank), r) ==
                       EntryAfter(First(m, OnKey(rank), r), ops, zero, rank, r)
      {
        EntryAfterCons(First(m, OnKey(rank), r), ops[0], ops[1..], zero, rank, r);
      }
    }
  }

  lemma {:induction false} ApplyAllTwice<K, V>(m: seq<(K, V)>, xs: seq<MapOp<K, V>>, ys: seq<MapOp<K, V>>, zero: V,
      rank: K -> Rank)
    ensures ApplyAll(ApplyAll(m, xs, zero, rank), ys, zero, rank) == ApplyAll(m, ys + xs, zero, rank)
  {
    if ys == [] {
      assert ys + xs == xs;
    } else {
      assert (ys + xs)[1..] == ys[1..] + xs;
      ApplyAllTwice(m, xs, ys[1..], zero, rank);
    }
  }
}
