/** The free-standing converters of the wallet and the batched lookups composed from them. */
module Lookups {
  import opened Prelude
  import opened Ordered
  import opened Conversion
  import SetLaws
  import ListLaws
  import PyDict

  /** None stands for the Python exception; the half-built vector dies with the call. */
  method VectorFromList<P, V>(l: seq<P>, extract: P -> Option<V>, blank: V) returns (r: Option<seq<V>>)
    ensures r.None? <==> exists p :: p in l && extract(p).None?
    ensures r.Some? ==> |r.value| == |l| && forall i :: 0 <= i < |l| ==> extract(l[i]) == Some(r.value[i])
    ensures r.Some? ==> forall prior :: r.value == ListAfter(prior, l, extract, blank)
  {
    var len := |l|;
    var obj: seq<V> := seq(len, _ => blank);
    while len > 0
      invariant 0 <= len <= |l| == |obj|
      invariant forall i :: len <= i < |l| ==> extract(l[i]) == Some(obj[i])
    {
      len := len - 1;
      var v := extract(l[len]);
      if v.None? {
        assert l[len] in l;
        return None;
      }
      obj := obj[len := v.value];
    }
    forall prior: seq<V> ensures obj == ListAfter(prior, l, extract, blank) {
      ListWalkEnds(prior, obj, l, extract, blank, 0);
    }
    return Some(obj);
  }

  /** Sorted, and the same as assigning the list to an empty set field. */
  method SetFromList<P, E>(l: seq<P>, extract: P -> Option<E>, rank: E -> Rank) returns (r: Option<seq<E>>)
    ensures r.None? <==> exists p :: p in l && extract(p).None?
    ensures r.Some? ==> r.value == SetAfter([], l, extract, rank) && Sorted(r.value, rank)
  {
    var len := |l|;
    var obj: seq<E> := [];
    ghost var done: seq<E> := [];
    while len > 0
      invariant 0 <= len <= |l| && Walked(l, extract, len, done)
      invariant obj == InsertAll([], done, rank)
    {
      len := len - 1;
      var v := extract(l[len]);
      if v.None? {
        assert l[len] in l;
        return None;
      }
      WalkDown(l, extract, len, v.value, done);
      obj := Insert(obj, v.value, rank);
      assert ([v.value] + done)[1..] == done;
      done := [v.value] + done;
    }
    WalkEnds(l, extract, 0, done);
    InsertAllMeaning([], done, rank);
    return Some(obj);
  }

  method ToList<V, P>(container: seq<V>, from: V -> P) returns (l: seq<P>)
    ensures l == MapSeq(container, from)
  {
    l := [];
    for i := 0 to |container|
      invariant l == MapSeq(container[..i], from)
    {
      l := l + [from(container[i])];
    }
    assert container[..|container|] == container;
  }

  method ToOptionalList<V, P>(container: seq<Option<V>>, from: V -> P, none: P) returns (l: seq<P>)
    ensures |l| == |container|
    ensures forall i :: 0 <= i < |l| ==>
              l[i] == match container[i] case None => none case Some(v) => from(v)
  {
    l := [];
    for i := 0 to |container|
      invariant |l| == i
      invariant forall j :: 0 <= j < i ==> l[j] == match container[j] case None => none case Some(v) => from(v)
    {
      match container[i]
      case Some(v) => l := l + [from(v)];
      case None => l := l + [none];
    }
  }

  /**
   * For each Python-equal key the first pair wins. Where no keys collide nothing is lost and the
   * order is kept. The result is what the dict getter returns for the same entries.
   */
  method ToDict<P(==), K, M>(c: MapCodec<P, K, M>, container: seq<(K, M)>) returns (d: seq<(P, P)>)
    ensures d == DictOf(c, container) && PyDict.IsDict(d, c.canon)
    ensures forall j: nat :: FirstOfItsKey(c, container, j) ==>
              (c.fromKey(container[j].0), c.fromMapped(container[j].1)) in d
    ensures forall p :: p in d ==>
              exists j: nat :: FirstOfItsKey(c, container, j) &&
                               p == (c.fromKey(container[j].0), c.fromMapped(container[j].1))
    ensures (forall j :: 0 <= j < |container| ==> FirstOfItsKey(c, container, j)) ==>
              && |d| == |container|
              && forall i :: 0 <= i < |d| ==> d[i] == (c.fromKey(container[i].0), c.fromMapped(container[i].1))
  {
    ghost var items := MapSeq(container, FromEntry(c));
    d := [];
    for i := 0 to |container|
      invariant d == PyDict.Collect(items[..i], c.canon)
    {
      d := PyDict.SetDefault(d, c.fromKey(container[i].0), c.fromMapped(container[i].1), c.canon);
      assert items[..i + 1][..i] == items[..i];
    }
    assert items[..|container|] == items;
    PyDict.CollectMeaning(items, c.canon);
    GetterEntries(c, container);
    if forall j :: 0 <= j < |container| ==> FirstOfItsKey(c, container, j) {
      GetterInOrder(c, container);
    }
  }

  /**
   * `get_accounts`, `get_assets`, `get_miners`, `list_votes`, `get_non_fungible_tokens`: the query
   * answers identifier by identifier. One position per identifier, duplicates and order kept, None
   * exactly where there is no answer; no query is made when an identifier does not convert.
   */
  method GetByIds<P, Id, Obj(!new)>(ids: seq<P>, toId: P -> Option<Id>, blankId: Id, query: Id -> Option<Obj>,
      from: Obj -> P, none: P)
    returns (r: Option<seq<P>>)
    ensures r.None? <==> exists p :: p in ids && toId(p).None?
    ensures r.Some? ==>
              && |r.value| == |ids|
              && forall i :: 0 <= i < |ids| ==>
                   && toId(ids[i]).Some?
                   && r.value[i] == match query(toId(ids[i]).value) case None => none case Some(o) => from(o)
    ensures r.Some? && (forall o :: from(o) != none) ==>
              forall i :: 0 <= i < |ids| ==>
                toId(ids[i]).Some? && (r.value[i] == none <==> query(toId(ids[i]).value).None?)
  {
    var v := VectorFromList(ids, toId, blankId);
    if v.None? {
      return None;
    }
    var answers := MapSeq(v.value, query);
    var l := ToOptionalList(answers, from, none);
    assert forall i :: 0 <= i < |ids| ==> toId(ids[i]) == Some(v.value[i]) && answers[i] == query(v.value[i]);
    return Some(l);
  }
}
