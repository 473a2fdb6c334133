/** What assigning lists to an ordered set field amounts to. */
module SetLaws {
  import opened Prelude
  import opened Ordered
  import opened Conversion

  /** Position `i` supplies an element: converted, not already in the set, and no later position has its rank. */
  ghost predicate Supplies<P, E>(prior: seq<E>, l: seq<P>, extract: P -> Option<E>, rank: E -> Rank, i: nat, e: E) {
    && Stop(l, extract) <= i < |l|
    && extract(l[i]) == Some(e)
    && First(prior, rank, rank(e)).None?
    && forall j {:trigger extract(l[j])} :: i < j < |l| ==> rank(extract(l[j]).value) != rank(e)
  }

  /** After any assignment, complete or cut short: exactly the old elements and the supplied ones, in order. */
  lemma DecodeSetContents<P, E>(prior: seq<E>, l: seq<P>, extract: P -> Option<E>, rank: E -> Rank)
    requires Sorted(prior, rank)
    ensures Sorted(SetAfter(prior, l, extract, rank), rank)
    ensures forall e :: e in SetAfter(prior, l, extract, rank) <==>
                        e in prior || exists i: nat :: Supplies(prior, l, extract, rank, i, e)
  {
    var xs := Reached(l, extract);
    var s := SetAfter(prior, l, extract, rank);
    InsertAllMeaning(prior, xs, rank);
    forall e ensures e in s <==> e in prior || exists i: nat :: Supplies(prior, l, extract, rank, i, e) {
      assert First(s, rank, rank(e)) == Prefer(First(prior, rank, rank(e)), Last(xs, rank, rank(e)));
      if e in s {
        SortedFind(s, rank, e);
        if First(prior, rank, rank(e)).None? {
          var k := LastPosition(xs, rank, rank(e));
          assert Supplies(prior, l, extract, rank, Stop(l, extract) + k, e) by {
            forall j | Stop(l, extract) + k < j < |l| ensures rank(extract(l[j]).value) != rank(e) {
              assert extract(l[j]) == Some(xs[j - Stop(l, extract)]);
            }
          }
        }
      }
      if e in prior {
        SortedFind(prior, rank, e);
      }
      if i: nat :| Supplies(prior, l, extract, rank, i, e) {
        SuppliedIsLast(prior, l, extract, rank, i, e);
      }
    }
  }

  lemma SuppliedIsLast<P, E>(prior: seq<E>, l: seq<P>, extract: P -> Option<E>, rank: E -> Rank, i: nat, e: E)
    requires Supplies(prior, l, extract, rank, i, e)
    ensures Last(Reached(l, extract), rank, rank(e)) == Some(e)
  {
    var xs := Reached(l, extract);
    var b := Stop(l, extract);
    forall j | i - b < j < |xs| ensures rank(xs[j]) != rank(e) {
      assert extract(l[b + j]) == Some(xs[j]);
    }
    assert extract(l[b + (i - b)]) == Some(xs[i - b]);
    SearchPositions(xs, rank, i - b);
  }

  // ----- order, multiplicity, repetition -----

  ghost predicate SameElements<T>(xs: seq<T>, ys: seq<T>) {
    (forall x :: x in xs ==> x in ys) && (forall y :: y in ys ==> y in xs)
  }

  /** No two different elements compete for a place that is still free. */
  ghost predicate Unambiguous<T>(s: seq<T>, xs: seq<T>, rank: T -> Rank) {
    forall x, y :: x in xs && y in xs && rank(x) == rank(y) && First(s, rank, rank(x)).None? ==> x == y
  }

  /**
   * Order and multiplicity of the assigned list are irrelevant exactly when equally ranked elements
   * of it are equal, places already taken in the set aside.
   */
  lemma OrderIrrelevantIff<T>(s: seq<T>, xs: seq<T>, rank: T -> Rank)
    requires Sorted(s, rank)
    ensures (forall ys :: SameElements(xs, ys) ==> InsertAll(s, xs, rank) == InsertAll(s, ys, rank))
            <==> Unambiguous(s, xs, rank)
  {
    if Unambiguous(s, xs, rank) {
      forall ys | SameElements(xs, ys) ensures InsertAll(s, xs, rank) == InsertAll(s, ys, rank) {
        SameElementsSameSet(s, xs, ys, rank);
      }
    }
    if forall ys :: SameElements(xs, ys) ==> InsertAll(s, xs, rank) == InsertAll(s, ys, rank) {
      forall x, y | x in xs && y in xs && rank(x) == rank(y) && First(s, rank, rank(x)).None? ensures x == y {
        AppendedWins(s, xs, x, rank);
        AppendedWins(s, xs, y, rank);
        assert SameElements(xs, xs + [x]) && SameElements(xs, xs + [y]);
      }
    }
  }

  /** It does matter for two elements the comparator cannot tell apart: the one later in the list stays. */
  lemma OrderCanMatter()
    ensures var rank := (e: (int, int)) => e.0 as real;
            && InsertAll([], [(7, 1), (7, 2)], rank) == [(7, 2)]
            && InsertAll([], [(7, 2), (7, 1)], rank) == [(7, 1)]
  {
    var rank := (e: (int, int)) => e.0 as real;
    assert [(7, 1), (7, 2)][1..] == [(7, 2)] && [(7, 2)][1..] == [];
    assert [(7, 2), (7, 1)][1..] == [(7, 1)] && [(7, 1)][1..] == [];
    assert InsertAll([], [(7, 2)], rank) == [(7, 2)];
    assert InsertAll([], [(7, 1)], rank) == [(7, 1)];
  }

  lemma AppendedWins<T>(s: seq<T>, xs: seq<T>, x: T, rank: T -> Rank)
    requires Sorted(s, rank) && First(s, rank, rank(x)).None?
    ensures First(InsertAll(s, xs + [x], rank), rank, rank(x)) == Some(x)
  {
    InsertAllMeaning(s, xs + [x], rank);
    SearchAppend(xs, [x], rank, rank(x));
  }

  lemma SameElementsSameSet<T>(s: seq<T>, xs: seq<T>, ys: seq<T>, rank: T -> Rank)
    requires Sorted(s, rank) && SameElements(xs, ys) && Unambiguous(s, xs, rank)
    ensures InsertAll(s, xs, rank) == InsertAll(s, ys, rank)
  {
    InsertAllMeaning(s, xs, rank);
    InsertAllMeaning(s, ys, rank);
    forall r ensures First(InsertAll(s, xs, rank), rank, r) == First(InsertAll(s, ys, rank), rank, r) {
      if First(s, rank, r).None? {
        assert Last(xs, rank, r) == Last(ys, rank, r);
      }
    }
    SortedUnique(InsertAll(s, xs, rank), InsertAll(s, ys, rank), rank);
  }

  lemma AssignedTwice<T>(s: seq<T>, xs: seq<T>, ys: seq<T>, rank: T -> Rank, r: Rank)
    requires Sorted(s, rank)
    ensures var twice := InsertAll(InsertAll(s, xs, rank), ys, rank);
            Sorted(twice, rank) &&
            First(twice, rank, r) == Prefer(First(s, rank, r), Prefer(Last(xs, rank, r), Last(ys, rank, r)))
  {
    InsertAllTwice(s, xs, ys, rank);
    InsertAllMeaning(s, ys + xs, rank);
    SearchAppend(ys, xs, rank, r);
  }

  /** The lists do not bring different elements to a free place at rank `r`. */
  ghost predicate AgreeAt<T>(s: seq<T>, xs: seq<T>, ys: seq<T>, rank: T -> Rank, r: Rank) {
    First(s, rank, r).None? && Last(xs, rank, r).Some? && Last(ys, rank, r).Some? ==>
      Last(xs, rank, r) == Last(ys, rank, r)
  }

  /** Two assignments commute exactly when, at each free place both reach, they bring the same element. */
  lemma AssignmentsCommuteIff<T>(s: seq<T>, xs: seq<T>, ys: seq<T>, rank: T -> Rank)
    requires Sorted(s, rank)
    ensures InsertAll(InsertAll(s, xs, rank), ys, rank) == InsertAll(InsertAll(s, ys, rank), xs, rank)
            <==> forall r :: AgreeAt(s, xs, ys, rank, r)
  {
    var a := InsertAll(InsertAll(s, xs, rank), ys, rank);
    var b := InsertAll(InsertAll(s, ys, rank), xs, rank);
    forall r ensures First(a, rank, r) == First(b, rank, r) <==> AgreeAt(s, xs, ys, rank, r) {
      AssignedTwice(s, xs, ys, rank, r);
      AssignedTwice(s, ys, xs, rank, r);
    }
    if forall r :: AgreeAt(s, xs, ys, rank, r) {
      AssignedTwice(s, xs, ys, rank, 0.0);
      AssignedTwice(s, ys, xs, rank, 0.0);
      SortedUnique(a, b, rank);
    }
  }

  /** Assigning the same list again changes nothing. */
  lemma AssignmentIdempotent<T>(s: seq<T>, xs: seq<T>, rank: T -> Rank)
    requires Sorted(s, rank)
    ensures InsertAll(InsertAll(s, xs, rank), xs, rank) == InsertAll(s, xs, rank)
  {
    var once := InsertAll(s, xs, rank);
    var twice := InsertAll(once, xs, rank);
    InsertAllMeaning(s, xs, rank);
    InsertAllMeaning(once, xs, rank);
    forall r ensures First(twice, rank, r) == First(once, rank, r) {
      assert First(once, rank, r) == Prefer(First(s, rank, r), Last(xs, rank, r));
    }
    SortedUnique(twice, once, rank);
  }

  // ----- assignment is not replacement -----

  /** The field ends up as if it had been empty before exactly when each old element is the list's last of its rank. */
  lemma SetReplacedIff<P, E>(prior: seq<E>, l: seq<P>, extract: P -> Option<E>, rank: E -> Rank)
    requires Sorted(prior, rank)
    ensures SetAfter(prior, l, extract, rank) == SetAfter([], l, extract, rank) <==>
            forall e :: e in prior ==> Last(Reached(l, extract), rank, rank(e)) == Some(e)
  {
    var xs := Reached(l, extract);
    var kept, anew := SetAfter(prior, l, extract, rank), SetAfter([], l, extract, rank);
    InsertAllMeaning(prior, xs, rank);
    InsertAllMeaning([], xs, rank);
    if kept == anew {
      forall e | e in prior ensures Last(xs, rank, rank(e)) == Some(e) {
        SortedFind(prior, rank, e);
        assert First(kept, rank, rank(e)) == First(anew, rank, rank(e));
      }
    }
    if forall e :: e in prior ==> Last(xs, rank, rank(e)) == Some(e) {
      forall r ensures First(kept, rank, r) == First(anew, rank, r) {
        if First(prior, rank, r).Some? {
          var e := First(prior, rank, r).value;
          assert e in prior && rank(e) == r;
        }
      }
      SortedUnique(kept, anew, rank);
    }
  }

  /** Assigning [2] to a field that holds 1 leaves both. */
  lemma OldElementStays()
    ensures var rank := (e: int) => e as real;
            SetAfter([1], [2], (p: int) => Some(p), rank) == [1, 2] != SetAfter([], [2], (p: int) => Some(p), rank)
  {
    var rank := (e: int) => e as real;
    var same := (p: int) => Some(p);
    assert Reached([2], same) == [2];
    assert InsertAll([1], [2], rank) == Insert(InsertAll([1], [], rank), 2, rank);
    assert InsertAll([], [2], rank) == Insert(InsertAll([], [], rank), 2, rank);
    assert [1][1..] == [];
  }

  // ----- with the getter -----

  /** Inserting all elements of one set into another adds just those at free places. */
  lemma MergeSets<T>(s: seq<T>, t: seq<T>, rank: T -> Rank)
    requires Sorted(s, rank) && Sorted(t, rank)
    ensures InsertAll([], t, rank) == t && InsertAll(t, t, rank) == t
    ensures forall e :: e in InsertAll(s, t, rank) <==> e in s || (e in t && First(s, rank, rank(e)).None?)
  {
    InsertAllMeaning([], t, rank);
    InsertAllMeaning(t, t, rank);
    forall r ensures Last(t, rank, r) == First(t, rank, r) {
      if x :| x in t && rank(x) == r {
        SortedFind(t, rank, x);
      }
    }
    SortedUnique(InsertAll([], t, rank), t, rank);
    SortedUnique(InsertAll(t, t, rank), t, rank);
    InsertAllMeaning(s, t, rank);
    var both := InsertAll(s, t, rank);
    forall e ensures e in both <==> e in s || (e in t && First(s, rank, rank(e)).None?) {
      assert First(both, rank, rank(e)) == Prefer(First(s, rank, rank(e)), First(t, rank, rank(e)));
      if e in s { SortedFind(s, rank, e); }
      if e in t { SortedFind(t, rank, e); }
      if e in both { SortedFind(both, rank, e); }
    }
  }

  /** Reading a set and assigning the result restores it into an empty field and leaves the field itself as it is. */
  lemma SetRoundTrip<P, E>(s: seq<E>, from: E -> P, extract: P -> Option<E>, rank: E -> Rank)
    requires Sorted(s, rank)
    requires forall e :: e in s ==> extract(from(e)) == Some(e)
    ensures OutcomeOf(MapSeq(s, from), extract) == Done
    ensures SetAfter([], MapSeq(s, from), extract, rank) == s
    ensures SetAfter(s, MapSeq(s, from), extract, rank) == s
  {
    ReachedOfConverted(s, from, extract, e => e);
    assert Reached(MapSeq(s, from), extract) == s;
    MergeSets(s, s, rank);
  }
}
