/**
 * Python dicts, as the sequence of their entries in insertion order.
 *
 * `canon` maps a key to the representative of its class under Python's `==`. For a class without
 * `__eq__` (the object ids: identity comparison) every object is its own class.
 */
module PyDict {
  import opened Prelude

  ghost predicate IsDict<P, W>(d: seq<(P, W)>, canon: P -> P) {
    DistinctBy(d, OnKey(canon))
  }

  /** `d.get(k)`, with `none` for Python's None. */
  function Get<P(==), W>(d: seq<(P, W)>, k: P, canon: P -> P, none: W): W {
    var e := First(d, OnKey(canon), canon(k));
    if e.Some? then e.value.1 else none
  }

  function SetDefault<P(==), W>(d: seq<(P, W)>, k: P, w: W, canon: P -> P): seq<(P, W)> {
    if First(d, OnKey(canon), canon(k)).Some? then d else d + [(k, w)]
  }

  /** The dict grown from `{}` by one `setdefault` for each item. */
  function Collect<P(==), W>(items: seq<(P, W)>, canon: P -> P): seq<(P, W)> {
    if items == [] then []
    else
      var n := |items| - 1;
      SetDefault(Collect(items[..n], canon), items[n].0, items[n].1, canon)
  }

  lemma GetOwnKey<P, W>(d: seq<(P, W)>, i: nat, canon: P -> P, none: W)
    requires IsDict(d, canon) && i < |d|
    ensures Get(d, d[i].0, canon, none) == d[i].1
  {
    SearchPositions(d, OnKey(canon), i);
  }

  /** The result is a dict; for each Python-equal key it keeps the first item seen, and nothing else. */
  lemma {:induction false} CollectMeaning<P, W>(items: seq<(P, W)>, canon: P -> P)
    ensures IsDict(Collect(items, canon), canon)
    ensures forall c :: First(Collect(items, canon), OnKey(canon), c) == First(items, OnKey(canon), c)
    ensures forall e {:trigger e in Collect(items, canon)} ::
              e in Collect(items, canon) <==> First(items, OnKey(canon), canon(e.0)) == Some(e)
  {
    if items != [] {
      var n := |items| - 1;
      var d := Collect(items[..n], canon);
      CollectMeaning(items[..n], canon);
      assert items == items[..n] + [items[n]];
      forall c ensures First(Collect(items, canon), OnKey(canon), c) == First(items, OnKey(canon), c) {
        SearchAppend(items[..n], [items[n]], OnKey(canon), c);
        SearchAppend(d, [items[n]], OnKey(canon), c);
      }
      DictEntries(Collect(items, canon), canon);
      forall e ensures e in Collect(items, canon) <==> First(items, OnKey(canon), canon(e.0)) == Some(e) {
        assert First(Collect(items, canon), OnKey(canon), canon(e.0)) == First(items, OnKey(canon), canon(e.0));
      }
    }
  }

  lemma {:induction false} CollectSubset<P, W>(items: seq<(P, W)>, canon: P -> P)
    ensures forall e :: e in Collect(items, canon) ==> e in items
  {
    if items != [] {
      CollectSubset(items[..|items| - 1], canon);
    }
  }

  /** The entries of a dict are the ones a search finds. */
  lemma DictEntries<P, W>(d: seq<(P, W)>, canon: P -> P)
    requires IsDict(d, canon)
    ensures forall e :: e in d <==> First(d, OnKey(canon), canon(e.0)) == Some(e)
  {
    forall e | e in d ensures First(d, OnKey(canon), canon(e.0)) == Some(e) {
      var i :| 0 <= i < |d| && d[i] == e;
      SearchPositions(d, OnKey(canon), i);
    }
  }

  lemma DictSnoc<P, W>(items: seq<(P, W)>, e: (P, W), canon: P -> P)
    ensures IsDict(items + [e], canon) <==> IsDict(items, canon) && First(items, OnKey(canon), canon(e.0)).None?
  {
    var all := items + [e];
    if IsDict(all, canon) {
      SearchPositions(all, OnKey(canon), |items|);
      SearchAppend(items, [e], OnKey(canon), canon(e.0));
      assert forall i :: 0 <= i < |items| ==> all[i] == items[i];
      forall x | x in items ensures canon(x.0) != canon(e.0) {
        var i :| 0 <= i < |items| && items[i] == x;
        assert OnKey<P, W, P>(canon)(all[i]) != OnKey<P, W, P>(canon)(all[|items|]);
      }
    }
  }

  /** Nothing is dropped exactly when no two items have Python-equal keys; then the order is kept too. */
  lemma {:induction false} CollectKeepsAll<P, W>(items: seq<(P, W)>, canon: P -> P)
    ensures |Collect(items, canon)| <= |items|
    ensures |Collect(items, canon)| == |items| <==> IsDict(items, canon)
    ensures IsDict(items, canon) ==> Collect(items, canon) == items
  {
    if items != [] {
      var n := |items| - 1;
      CollectKeepsAll(items[..n], canon);
      CollectMeaning(items[..n], canon);
      assert items == items[..n] + [items[n]];
      DictSnoc(items[..n], items[n], canon);
    }
  }
}
