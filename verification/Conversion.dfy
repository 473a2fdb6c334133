/**
 * What one setter call leaves behind, as a function of the field before and the Python value.
 *
 * `bp::extract` is a partial function from Python values to C++ values; where it is None, reading
 * the extracted value throws. All setters walk from the last position down to the first.
 */
module Conversion {
  import opened Prelude
  import opened Ordered
  import PyDict

  /** One past the position whose conversion throws; 0 when every conversion succeeds. */
  function Stop<P, V>(l: seq<P>, extract: P -> Option<V>): (b: nat)
    ensures b <= |l|
    ensures b > 0 ==> extract(l[b - 1]).None?
    ensures forall i :: b <= i < |l| ==> extract(l[i]).Some?
  {
    if l == [] then 0
    else
      var t := Stop(l[1..], extract);
      if t > 0 then t + 1 else if extract(l[0]).None? then 1 else 0
  }

  /** The conversions of the positions from `n` up. */
  function Suffix<P, V>(l: seq<P>, extract: P -> Option<V>, n: nat): (r: seq<V>)
    requires n <= |l| && forall i :: n <= i < |l| ==> extract(l[i]).Some?
    ensures |r| == |l| - n
    ensures forall i :: 0 <= i < |r| ==> extract(l[n + i]) == Some(r[i])
  {
    seq(|l| - n, i requires 0 <= i < |l| - n => extract(l[n + i]).value)
  }

  /** The values converted before the walk ends, in list order. */
  function Reached<P, V>(l: seq<P>, extract: P -> Option<V>): (r: seq<V>)
    ensures |r| == |l| - Stop(l, extract)
    ensures forall i :: 0 <= i < |r| ==> extract(l[Stop(l, extract) + i]) == Some(r[i])
  {
    Suffix(l, extract, Stop(l, extract))
  }

  lemma ReachedAt<P, V>(l: seq<P>, extract: P -> Option<V>, i: nat)
    requires Stop(l, extract) <= i < |l|
    ensures extract(l[i]) == Some(Reached(l, extract)[i - Stop(l, extract)])
  {
    assert l[Stop(l, extract) + (i - Stop(l, extract))] == l[i];
  }

  /** A list made of converted values converts back, value by value. */
  lemma ReachedOfConverted<V, P, W>(s: seq<V>, from: V -> P, extract: P -> Option<W>, norm: V -> W)
    requires forall v :: v in s ==> extract(from(v)) == Some(norm(v))
    ensures Stop(MapSeq(s, from), extract) == 0
    ensures Reached(MapSeq(s, from), extract) == MapSeq(s, norm)
  {
    var l := MapSeq(s, from);
    assert forall i :: 0 <= i < |s| ==> s[i] in s;
    assert forall i :: 0 <= i < |s| ==> extract(l[i]) == Some(norm(s[i]));
    forall i | 0 <= i < |s| ensures Reached(l, extract)[i] == norm(s[i]) {
      assert extract(l[Stop(l, extract) + i]) == Some(Reached(l, extract)[i]);
    }
  }

  function OutcomeOf<P, V>(l: seq<P>, extract: P -> Option<V>): Outcome {
    var b := Stop(l, extract);
    if b == 0 then Done else Raised(b - 1)
  }

  /** A walk is done exactly when everything converts, and raises at the highest position that does not. */
  lemma OutcomeMeans<P, V>(l: seq<P>, extract: P -> Option<V>)
    ensures OutcomeOf(l, extract) == Done <==> forall i :: 0 <= i < |l| ==> extract(l[i]).Some?
    ensures forall i: nat :: OutcomeOf(l, extract) == Raised(i) <==>
              i < |l| && extract(l[i]).None? && forall j :: i < j < |l| ==> extract(l[j]).Some?
  {
  }

  /** Every position from `i` up converts: the walk gets past it. */
  ghost predicate ConvertsFrom<P, V>(l: seq<P>, extract: P -> Option<V>, i: nat) {
    forall j :: i <= j < |l| ==> extract(l[j]).Some?
  }

  lemma ConvertsFromIff<P, V>(l: seq<P>, extract: P -> Option<V>, i: nat)
    requires i < |l|
    ensures ConvertsFrom(l, extract, i) <==> OutcomeOf(l, extract) == Done || i > OutcomeOf(l, extract).at
  {
    assert Stop(l, extract) > 0 && i < Stop(l, extract) ==> extract(l[Stop(l, extract) - 1]).None?;
  }

  /** `std::vector::resize`. */
  function Resize<V>(s: seq<V>, n: nat, blank: V): (r: seq<V>)
    ensures |r| == n
    ensures forall i :: 0 <= i < n ==> r[i] == if i < |s| then s[i] else blank
  {
    if n <= |s| then s[..n] else s + seq(n - |s|, _ => blank)
  }

  function ListAfter<P, V>(prior: seq<V>, l: seq<P>, extract: P -> Option<V>, blank: V): (r: seq<V>)
    ensures |r| == |l|
  {
    Resize(prior, |l|, blank)[..Stop(l, extract)] + Reached(l, extract)
  }

  function SetAfter<P, E>(prior: seq<E>, l: seq<P>, extract: P -> Option<E>, rank: E -> Rank): seq<E> {
    InsertAll(prior, Reached(l, extract), rank)
  }

  /**
   * What the template arguments, Boost.Python's registry and the compiler fix for a map field:
   * conversions of keys and mapped values (`to...` may fail), the comparator, the default mapped
   * value, Python's key equality, and whether `container[key]` is evaluated before the value in
   * the assignment of the dict setter (C++14 leaves this open).
   */
  datatype MapCodec<!P, !K, !M> = MapCodec(
    toKey: P -> Option<K>, fromKey: K -> P, rank: K -> Rank,
    toMapped: P -> Option<M>, fromMapped: M -> P, blank: M,
    canon: P -> P, slotFirst: bool)

  predicate EntryConverts<P, K, M>(c: MapCodec<P, K, M>, k: P, w: P) {
    c.toKey(k).Some? && c.toMapped(w).Some?
  }

  /** A dict entry converts when its key and its value do. */
  function ToEntry<P, K, M>(c: MapCodec<P, K, M>): ((P, P)) -> Option<(K, M)> {
    (e: (P, P)) =>
      var k := c.toKey(e.0);
      var v := c.toMapped(e.1);
      if k.Some? && v.Some? then Some((k.value, v.value)) else None
  }

  function FromEntry<P, K, M>(c: MapCodec<P, K, M>): ((K, M)) -> (P, P) {
    (e: (K, M)) => (c.fromKey(e.0), c.fromMapped(e.1))
  }

  /** What the dict getter returns for the entries `m`. */
  function DictOf<P(==), K, M>(c: MapCodec<P, K, M>, m: seq<(K, M)>): seq<(P, P)> {
    PyDict.Collect(MapSeq(m, FromEntry(c)), c.canon)
  }

  /** The same for a dict, where an entry needs both its key and its value. */
  lemma DictOutcomeMeans<P, K, M>(c: MapCodec<P, K, M>, d: seq<(P, P)>)
    ensures OutcomeOf(d, ToEntry(c)) == Done <==>
            forall i :: 0 <= i < |d| ==> c.toKey(d[i].0).Some? && c.toMapped(d[i].1).Some?
    ensures forall i: nat :: OutcomeOf(d, ToEntry(c)) == Raised(i) <==>
              && i < |d|
              && (c.toKey(d[i].0).None? || c.toMapped(d[i].1).None?)
              && forall j :: i < j < |d| ==> c.toKey(d[j].0).Some? && c.toMapped(d[j].1).Some?
  {
    OutcomeMeans(d, ToEntry(c));
  }

  // ----- what the dict getter returns -----

  /** No stored entry before position `j` converts to a Python-equal key. */
  ghost predicate FirstOfItsKey<P, K, M>(c: MapCodec<P, K, M>, m: seq<(K, M)>, j: nat) {
    && j < |m|
    && forall h :: 0 <= h < j ==> c.canon(c.fromKey(m[h].0)) != c.canon(c.fromKey(m[j].0))
  }

  /** Exactly the converted key and value of each stored entry that is the first of its key. */
  lemma GetterEntries<P, K, M>(c: MapCodec<P, K, M>, m: seq<(K, M)>)
    ensures forall j: nat :: FirstOfItsKey(c, m, j) ==> (c.fromKey(m[j].0), c.fromMapped(m[j].1)) in DictOf(c, m)
    ensures forall p {:trigger p in DictOf(c, m)} :: p in DictOf(c, m) ==>
              exists j: nat :: FirstOfItsKey(c, m, j) && p == (c.fromKey(m[j].0), c.fromMapped(m[j].1))
  {
    forall j: nat | FirstOfItsKey(c, m, j) ensures (c.fromKey(m[j].0), c.fromMapped(m[j].1)) in DictOf(c, m) {
      GetterFirst(c, m, j);
    }
    forall p | p in DictOf(c, m)
      ensures exists j: nat :: FirstOfItsKey(c, m, j) && p == (c.fromKey(m[j].0), c.fromMapped(m[j].1))
    {
      var j := GetterSource(c, m, p);
    }
  }

  lemma GetterSource<P, K, M>(c: MapCodec<P, K, M>, m: seq<(K, M)>, p: (P, P)) returns (j: nat)
    requires p in DictOf(c, m)
    ensures FirstOfItsKey(c, m, j) && p == (c.fromKey(m[j].0), c.fromMapped(m[j].1))
  {
    var items := MapSeq(m, FromEntry(c));
    PyDict.CollectMeaning(items, c.canon);
    assert p in PyDict.Collect(items, c.canon);
    j := FirstPosition(items, OnKey(c.canon), c.canon(p.0));
    assert forall h :: 0 <= h < j ==> OnKey<P, P, P>(c.canon)(items[h]) == c.canon(c.fromKey(m[h].0));
  }

  lemma GetterFirst<P, K, M>(c: MapCodec<P, K, M>, m: seq<(K, M)>, j: nat)
    requires FirstOfItsKey(c, m, j)
    ensures (c.fromKey(m[j].0), c.fromMapped(m[j].1)) in DictOf(c, m)
  {
    var items := MapSeq(m, FromEntry(c));
    PyDict.CollectMeaning(items, c.canon);
    assert forall h :: 0 <= h <= j ==> OnKey<P, P, P>(c.canon)(items[h]) == c.canon(c.fromKey(m[h].0));
    SearchPositions(items, OnKey(c.canon), j);
    assert items[j] in PyDict.Collect(items, c.canon);
  }

  /** When no converted keys are Python-equal, that is every entry, in the container's order. */
  lemma GetterInOrder<P, K, M>(c: MapCodec<P, K, M>, m: seq<(K, M)>)
    requires forall j :: 0 <= j < |m| ==> FirstOfItsKey(c, m, j)
    ensures |DictOf(c, m)| == |m|
    ensures forall i :: 0 <= i < |m| ==> DictOf(c, m)[i] == (c.fromKey(m[i].0), c.fromMapped(m[i].1))
  {
    var items := MapSeq(m, FromEntry(c));
    forall h, j | 0 <= h < j < |items| ensures OnKey<P, P, P>(c.canon)(items[h]) != OnKey<P, P, P>(c.canon)(items[j]) {
      assert FirstOfItsKey(c, m, j);
    }
    PyDict.CollectKeepsAll(items, c.canon);
  }

  function Puts<K, M>(es: seq<(K, M)>): (r: seq<MapOp<K, M>>)
    ensures |r| == |es|
    ensures forall i :: 0 <= i < |es| ==> r[i] == Put(es[i].0, es[i].1)
  {
    seq(|es|, i requires 0 <= i < |es| => Put(es[i].0, es[i].1))
  }

  /**
   * The key for which a dict assignment that throws leaves an entry it did not write: its value
   * failed to convert after `container[key]` had been evaluated.
   */
  function LeftBehind<P, K, M>(c: MapCodec<P, K, M>, d: seq<(P, P)>): Option<K> {
    var b := Stop(d, ToEntry(c));
    if b > 0 && c.slotFirst then c.toKey(d[b - 1].0) else None
  }

  /** The uses of `operator[]` made by one dict assignment, last one first. */
  function DictOps<P, K, M>(c: MapCodec<P, K, M>, d: seq<(P, P)>): seq<MapOp<K, M>> {
    var puts := Puts(Reached(d, ToEntry(c)));
    var left := LeftBehind(c, d);
    if left.Some? then [Touch(left.value)] + puts else puts
  }

  function DictAfter<P, K, M>(c: MapCodec<P, K, M>, prior: seq<(K, M)>, d: seq<(P, P)>): seq<(K, M)> {
    ApplyAll(prior, DictOps(c, d), c.blank, c.rank)
  }

  // ----- the count-down walk itself -----

  /** Every position from `n` up has been converted, with results `done`. */
  ghost predicate Walked<P, V>(l: seq<P>, extract: P -> Option<V>, n: nat, done: seq<V>) {
    && |done| + n == |l|
    && forall i :: n <= i < |l| ==> extract(l[i]) == Some(done[i - n])
  }

  lemma WalkDown<P, V>(l: seq<P>, extract: P -> Option<V>, n: nat, v: V, done: seq<V>)
    requires Walked(l, extract, n + 1, done) && extract(l[n]) == Some(v)
    ensures Walked(l, extract, n, [v] + done)
  {
  }

  lemma WalkEnds<P, V>(l: seq<P>, extract: P -> Option<V>, n: nat, done: seq<V>)
    requires Walked(l, extract, n, done) && (n > 0 ==> extract(l[n - 1]).None?)
    ensures Stop(l, extract) == n && Reached(l, extract) == done
    ensures OutcomeOf(l, extract) == if n == 0 then Done else Raised(n - 1)
  {
  }

  /** The same for the list setter, which overwrites in place. */
  lemma ListWalkEnds<P, V>(prior: seq<V>, list: seq<V>, l: seq<P>, extract: P -> Option<V>, blank: V, n: nat)
    requires n <= |l| == |list|
    requires forall i :: 0 <= i < n ==> list[i] == Resize(prior, |l|, blank)[i]
    requires forall i :: n <= i < |l| ==> extract(l[i]) == Some(list[i])
    requires n > 0 ==> extract(l[n - 1]).None?
    ensures list == ListAfter(prior, l, extract, blank)
    ensures OutcomeOf(l, extract) == if n == 0 then Done else Raised(n - 1)
  {
    assert Stop(l, extract) == n;
  }

  // ----- the same walk in the dict setter, where each step changes the map -----

  /** `container[key] = value` for one dict entry; when a conversion throws, what is left behind. */
  function StoreEntry<P, K, M>(c: MapCodec<P, K, M>, m: seq<(K, M)>, k: P, w: P): seq<(K, M)> {
    var key := c.toKey(k);
    var value := c.toMapped(w);
    if key.None? then m
    else if value.Some? then ApplyOp(m, Put(key.value, value.value), c.blank, c.rank)
    else if c.slotFirst then ApplyOp(m, Touch(key.value), c.blank, c.rank)
    else m
  }

  /** The map `m` is what the entries from position `n` up have made of `prior`. */
  ghost predicate Storing<P, K, M>(c: MapCodec<P, K, M>, d: seq<(P, P)>, n: nat, prior: seq<(K, M)>, m: seq<(K, M)>) {
    && n <= |d|
    && (forall i :: n <= i < |d| ==> ToEntry(c)(d[i]).Some?)
    && m == ApplyAll(prior, Puts(Suffix(d, ToEntry(c), n)), c.blank, c.rank)
  }

  lemma StoringStep<P, K, M>(c: MapCodec<P, K, M>, d: seq<(P, P)>, n: nat, prior: seq<(K, M)>, m: seq<(K, M)>)
    requires n < |d| && Storing(c, d, n + 1, prior, m)
    requires EntryConverts(c, d[n].0, d[n].1)
    ensures Storing(c, d, n, prior, StoreEntry(c, m, d[n].0, d[n].1))
  {
    var after := Puts(Suffix(d, ToEntry(c), n));
    assert after[1..] == Puts(Suffix(d, ToEntry(c), n + 1));
  }

  lemma StoringEnds<P, K, M>(c: MapCodec<P, K, M>, d: seq<(P, P)>, n: nat, prior: seq<(K, M)>, m: seq<(K, M)>)
    requires Storing(c, d, n, prior, m)
    requires n > 0 ==> !EntryConverts(c, d[n - 1].0, d[n - 1].1)
    ensures OutcomeOf(d, ToEntry(c)) == if n == 0 then Done else Raised(n - 1)
    ensures DictAfter(c, prior, d) == if n == 0 then m else StoreEntry(c, m, d[n - 1].0, d[n - 1].1)
  {
    var puts := Puts(Suffix(d, ToEntry(c), n));
    assert Stop(d, ToEntry(c)) == n;
    if n > 0 && c.slotFirst && c.toKey(d[n - 1].0).Some? {
      assert ([Touch(c.toKey(d[n - 1].0).value)] + puts)[1..] == puts;
    }
  }
}
