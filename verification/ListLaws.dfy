/** What assigning lists to a vector field amounts to. */
module ListLaws {
  import opened Prelude
  import opened Conversion

  /** Position `i` of the vector afterwards: converted, or, below where the walk ended, old or default. */
  ghost predicate ElementAfter<P, V>(prior: seq<V>, l: seq<P>, extract: P -> Option<V>, blank: V, i: nat)
    requires i < |l|
  {
    var v := ListAfter(prior, l, extract, blank);
    if i < Stop(l, extract) then v[i] == (if i < |prior| then prior[i] else blank)
    else extract(l[i]) == Some(v[i])
  }

  lemma ElementAfterHolds<P, V>(prior: seq<V>, l: seq<P>, extract: P -> Option<V>, blank: V, i: nat)
    requires i < |l|
    ensures ElementAfter(prior, l, extract, blank, i)
  {
    if i >= Stop(l, extract) {
      ReachedAt(l, extract, i);
    }
  }

  /**
   * Cut short at position `Stop - 1`: the new length, new values above, old or default values at and
   * below. A complete assignment leaves nothing of the old vector.
   */
  lemma DecodeListContents<P, V>(prior: seq<V>, l: seq<P>, extract: P -> Option<V>, blank: V)
    ensures var v := ListAfter(prior, l, extract, blank);
            && |v| == |l|
            && (forall i :: 0 <= i < |l| ==> ElementAfter(prior, l, extract, blank, i))
            && (OutcomeOf(l, extract) == Done ==> v == ListAfter([], l, extract, blank))
  {
    forall i | 0 <= i < |l| ensures ElementAfter(prior, l, extract, blank, i) {
      ElementAfterHolds(prior, l, extract, blank, i);
    }
    if OutcomeOf(l, extract) == Done {
      assert ListAfter(prior, l, extract, blank) == Reached(l, extract) == ListAfter([], l, extract, blank);
    }
  }

  /** The same in terms of the outcome. */
  lemma ElementsMean<P, V>(prior: seq<V>, l: seq<P>, extract: P -> Option<V>, blank: V)
    ensures var v, o := ListAfter(prior, l, extract, blank), OutcomeOf(l, extract);
            forall i :: 0 <= i < |l| ==>
              if o == Done || i > o.at then extract(l[i]) == Some(v[i])
              else v[i] == if i < |prior| then prior[i] else blank
  {
    forall i | 0 <= i < |l| ensures ElementAfter(prior, l, extract, blank, i) {
      ElementAfterHolds(prior, l, extract, blank, i);
    }
  }

  /** A trip of a vector through the getter and the setter is the element-wise trip, whatever was in the target. */
  lemma ListRoundTrip<P, V>(v: seq<V>, prior: seq<V>, from: V -> P, extract: P -> Option<V>, norm: V -> V, blank: V)
    requires forall x :: x in v ==> extract(from(x)) == Some(norm(x))
    ensures OutcomeOf(MapSeq(v, from), extract) == Done
    ensures ListAfter(prior, MapSeq(v, from), extract, blank) == MapSeq(v, norm)
    ensures (forall x :: x in v ==> norm(x) == x) ==> ListAfter(prior, MapSeq(v, from), extract, blank) == v
  {
    ReachedOfConverted(v, from, extract, norm);
    assert forall i :: 0 <= i < |v| ==> v[i] in v;
  }

  /** The getter gives back an assigned list exactly when each of its elements survives its own trip. */
  lemma PythonListRoundTripIff<P, V>(l: seq<P>, prior: seq<V>, from: V -> P, extract: P -> Option<V>, blank: V)
    requires OutcomeOf(l, extract) == Done
    ensures MapSeq(ListAfter(prior, l, extract, blank), from) == l <==>
            forall p :: p in l ==> from(extract(p).value) == p
  {
    var v := ListAfter(prior, l, extract, blank);
    DecodeListContents(prior, l, extract, blank);
    if forall p :: p in l ==> from(extract(p).value) == p {
      assert forall i :: 0 <= i < |l| ==> l[i] in l;
    } else {
      var p :| p in l && from(extract(p).value) != p;
      var i :| 0 <= i < |l| && l[i] == p;
      assert MapSeq(v, from)[i] != l[i];
    }
  }

  // ----- optional values -----

  function OptionalToPython<P, V>(o: Option<V>, from: V -> P, none: P): P {
    if o.Some? then from(o.value) else none
  }

  /** None (of the outer option) stands for a failed conversion. */
  function OptionalFromPython<P(==), V>(p: P, extract: P -> Option<V>, none: P): (r: Option<Option<V>>)
    ensures r == None <==> p != none && extract(p).None?
    ensures r == Some(None) <==> p == none
    ensures r.Some? && r.value.Some? ==> r.value == extract(p)
  {
    if p == none then Some(None)
    else
      var v := extract(p);
      if v.Some? then Some(v) else None
  }

  /** An optional survives the trip exactly when Python's None is not what its value converts to. */
  lemma OptionalRoundTripIff<P, V>(o: Option<V>, from: V -> P, extract: P -> Option<V>, none: P)
    requires o.Some? ==> extract(from(o.value)) == Some(o.value)
    ensures OptionalFromPython(OptionalToPython(o, from, none), extract, none) == Some(o)
            <==> o.None? || from(o.value) != none
  {
  }
}
