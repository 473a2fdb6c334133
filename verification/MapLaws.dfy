/** What assigning dicts to an ordered map field amounts to. */
module MapLaws {
  import opened Prelude
  import opened Ordered
  import opened Conversion
  import PyDict

  /** What a search for rank `r` finds after the entries `es` have been assigned, last one first. */
  function PutAfter<K, M>(was: Option<(K, M)>, es: seq<(K, M)>, rank: K -> Rank, r: Rank): Option<(K, M)> {
    var earliest := First(es, OnKey(rank), r);
    var latest := Last(es, OnKey(rank), r);
    if earliest.None? || latest.None? then was
    else Some((if was.Some? then was.value.0 else latest.value.0, earliest.value.1))
  }

  lemma {:induction false} PutsSearch<K, M>(es: seq<(K, M)>, rank: K -> Rank, r: Rank)
    ensures First(Puts(es), PutRank(rank), (r, true)) ==
            (var e := First(es, OnKey(rank), r); if e.Some? then Some(Put(e.value.0, e.value.1)) else None)
    ensures Last(Puts(es), OpRank(rank), r) ==
            (var e := Last(es, OnKey(rank), r); if e.Some? then Some(Put(e.value.0, e.value.1)) else None)
  {
    if es != [] {
      assert Puts(es)[1..] == Puts(es[1..]);
      PutsSearch(es[1..], rank, r);
    }
  }

  lemma PutsMeaning<K, M>(m: seq<(K, M)>, es: seq<(K, M)>, blank: M, rank: K -> Rank)
    requires Sorted(m, OnKey(rank))
    ensures Sorted(ApplyAll(m, Puts(es), blank, rank), OnKey(rank))
    ensures forall r :: First(ApplyAll(m, Puts(es), blank, rank), OnKey(rank), r) ==
                        PutAfter(First(m, OnKey(rank), r), es, rank, r)
  {
    ApplyAllMeaning(m, Puts(es), blank, rank);
    forall r ensures First(ApplyAll(m, Puts(es), blank, rank), OnKey(rank), r) ==
                     PutAfter(First(m, OnKey(rank), r), es, rank, r)
    {
      PutsSearch(es, rank, r);
    }
  }

  /**
   * After any assignment, complete or cut short. For each rank the value is that of the earliest
   * dict entry converted with it, else the old one; the key object is the old one, else that of the
   * latest such entry. No old key goes away. The only other entry is the one `LeftBehind` names,
   * default-valued, when nothing else has its rank.
   */
  lemma DecodeDictContents<P, K, M>(c: MapCodec<P, K, M>, prior: seq<(K, M)>, d: seq<(P, P)>)
    requires Sorted(prior, OnKey(c.rank))
    ensures var m := DictAfter(c, prior, d);
            var left := LeftBehind(c, d);
            && Sorted(m, OnKey(c.rank))
            && forall r :: First(m, OnKey(c.rank), r) ==
                 (var found := PutAfter(First(prior, OnKey(c.rank), r), Reached(d, ToEntry(c)), c.rank, r);
                  if found.None? && left.Some? && c.rank(left.value) == r then Some((left.value, c.blank)) else found)
  {
    var es := Reached(d, ToEntry(c));
    var left := LeftBehind(c, d);
    PutsMeaning(prior, es, c.blank, c.rank);
    if left.Some? {
      assert ([Touch(left.value)] + Puts(es))[1..] == Puts(es);
      ApplyOpMeaning(ApplyAll(prior, Puts(es), c.blank, c.rank), Touch(left.value), c.blank, c.rank);
    }
  }

  /** When the compiler evaluates the value first, an exception leaves nothing behind. */
  lemma NothingLeftBehind<P, K, M>(c: MapCodec<P, K, M>, prior: seq<(K, M)>, d: seq<(P, P)>)
    requires !c.slotFirst
    ensures DictAfter(c, prior, d) == ApplyAll(prior, Puts(Reached(d, ToEntry(c))), c.blank, c.rank)
  {
  }

  /**
   * Otherwise a raising entry whose key converts has a place afterwards: the one it had without the
   * slot, or else a new one with the default value.
   */
  lemma SlotLeftBehind<P, K, M>(c: MapCodec<P, K, M>, prior: seq<(K, M)>, d: seq<(P, P)>, i: nat)
    requires Sorted(prior, OnKey(c.rank)) && c.slotFirst
    requires OutcomeOf(d, ToEntry(c)) == Raised(i) && c.toKey(d[i].0).Some?
    ensures var r := c.rank(c.toKey(d[i].0).value);
            var without := First(ApplyAll(prior, Puts(Reached(d, ToEntry(c))), c.blank, c.rank), OnKey(c.rank), r);
            First(DictAfter(c, prior, d), OnKey(c.rank), r) ==
              if without.Some? then without else Some((c.toKey(d[i].0).value, c.blank))
  {
    var r := c.rank(c.toKey(d[i].0).value);
    var found := PutAfter(First(prior, OnKey(c.rank), r), Reached(d, ToEntry(c)), c.rank, r);
    assert First(ApplyAll(prior, Puts(Reached(d, ToEntry(c))), c.blank, c.rank), OnKey(c.rank), r) == found by {
      PutsMeaning(prior, Reached(d, ToEntry(c)), c.blank, c.rank);
    }
    assert LeftBehind(c, d) == c.toKey(d[i].0);
    DecodeDictContents(c, prior, d);
  }

  // ----- the same, one rank at a time -----

  /** The key object an assignment brings to rank `r`: that of the latest entry, else the one it leaves behind. */
  function KeyBrought<P, K, M>(c: MapCodec<P, K, M>, d: seq<(P, P)>, r: Rank): Option<K> {
    var latest := Last(Reached(d, ToEntry(c)), OnKey(c.rank), r);
    var left := LeftBehind(c, d);
    if latest.Some? then Some(latest.value.0)
    else if left.Some? && c.rank(left.value) == r then left
    else None
  }

  /** The value it brings there: that of the earliest entry. */
  function ValueBrought<P, K, M>(c: MapCodec<P, K, M>, d: seq<(P, P)>, r: Rank): Option<M> {
    var earliest := First(Reached(d, ToEntry(c)), OnKey(c.rank), r);
    if earliest.Some? then Some(earliest.value.1) else None
  }

  /** An entry after such an assignment. */
  function BroughtTo<K, M>(was: Option<(K, M)>, key: Option<K>, value: Option<M>, blank: M): Option<(K, M)> {
    if key.None? then was
    else Some((
      if was.Some? then was.value.0 else key.value,
      if value.Some? then value.value else if was.Some? then was.value.1 else blank))
  }

  lemma DictAfterAt<P, K, M>(c: MapCodec<P, K, M>, prior: seq<(K, M)>, d: seq<(P, P)>, r: Rank)
    requires Sorted(prior, OnKey(c.rank))
    ensures Sorted(DictAfter(c, prior, d), OnKey(c.rank))
    ensures First(DictAfter(c, prior, d), OnKey(c.rank), r) ==
            BroughtTo(First(prior, OnKey(c.rank), r), KeyBrought(c, d, r), ValueBrought(c, d, r), c.blank)
  {
    DecodeDictContents(c, prior, d);
    FirstIffLast(Reached(d, ToEntry(c)), OnKey(c.rank), r);
  }

  lemma FirstIffLast<T, C>(s: seq<T>, key: T -> C, c: C)
    ensures First(s, key, c).Some? <==> Last(s, key, c).Some?
  {
  }

  // ----- the same, one position of the dict at a time -----

  /** Key and value convert at position `i` and at every position above. */
  ghost predicate EntriesConvertFrom<P, K, M>(c: MapCodec<P, K, M>, d: seq<(P, P)>, i: nat) {
    forall j :: i <= j < |d| ==> c.toKey(d[j].0).Some? && c.toMapped(d[j].1).Some?
  }

  lemma ReachedEntry<P, K, M>(c: MapCodec<P, K, M>, d: seq<(P, P)>, i: nat)
    requires i < |d|
    ensures Stop(d, ToEntry(c)) <= i <==> EntriesConvertFrom(c, d, i)
    ensures Stop(d, ToEntry(c)) <= i ==>
              var e := Reached(d, ToEntry(c))[i - Stop(d, ToEntry(c))];
              c.toKey(d[i].0) == Some(e.0) && c.toMapped(d[i].1) == Some(e.1)
  {
    var b := Stop(d, ToEntry(c));
    if b <= i {
      forall j | i <= j < |d| ensures c.toKey(d[j].0).Some? && c.toMapped(d[j].1).Some? {
        assert ToEntry(c)(d[j]).Some?;
      }
      ReachedAt(d, ToEntry(c), i);
    } else {
      assert ToEntry(c)(d[b - 1]).None?;
    }
  }

  lemma PositionFound<K, M>(es: seq<(K, M)>, rank: K -> Rank, h: nat)
    requires h < |es|
    ensures First(es, OnKey(rank), rank(es[h].0)).Some? && Last(es, OnKey(rank), rank(es[h].0)).Some?
    ensures (forall j :: 0 <= j < h ==> rank(es[j].0) != rank(es[h].0)) ==>
              First(es, OnKey(rank), rank(es[h].0)) == Some(es[h])
    ensures (forall j :: h < j < |es| ==> rank(es[j].0) != rank(es[h].0)) ==>
              Last(es, OnKey(rank), rank(es[h].0)) == Some(es[h])
  {
    SearchPositions(es, OnKey(rank), h);
    assert es[h] in es;
  }

  lemma ReachedEntryAt<P, K, M>(c: MapCodec<P, K, M>, d: seq<(P, P)>, h: nat)
    requires h < |Reached(d, ToEntry(c))|
    ensures var b, e := Stop(d, ToEntry(c)), Reached(d, ToEntry(c))[h];
            c.toKey(d[b + h].0) == Some(e.0) && c.toMapped(d[b + h].1) == Some(e.1) && EntriesConvertFrom(c, d, b + h)
  {
    ReachedEntry(c, d, Stop(d, ToEntry(c)) + h);
  }

  lemma ValueBroughtBy<P, K, M>(c: MapCodec<P, K, M>, d: seq<(P, P)>, i: nat)
    requires i < |d| && EntriesConvertFrom(c, d, i)
    requires forall j :: 0 <= j < i && EntriesConvertFrom(c, d, j) ==>
               c.rank(c.toKey(d[j].0).value) != c.rank(c.toKey(d[i].0).value)
    ensures ValueBrought(c, d, c.rank(c.toKey(d[i].0).value)) == c.toMapped(d[i].1)
  {
    var b, es := Stop(d, ToEntry(c)), Reached(d, ToEntry(c));
    ReachedEntry(c, d, i);
    forall h | 0 <= h < i - b ensures c.rank(es[h].0) != c.rank(es[i - b].0) {
      ReachedEntryAt(c, d, h);
      assert EntriesConvertFrom(c, d, b + h);
    }
    PositionFound(es, c.rank, i - b);
  }

  lemma KeyBroughtBy<P, K, M>(c: MapCodec<P, K, M>, d: seq<(P, P)>, i: nat)
    requires i < |d| && EntriesConvertFrom(c, d, i)
    requires forall j :: i < j < |d| ==> c.rank(c.toKey(d[j].0).value) != c.rank(c.toKey(d[i].0).value)
    ensures KeyBrought(c, d, c.rank(c.toKey(d[i].0).value)) == c.toKey(d[i].0)
  {
    var b, es := Stop(d, ToEntry(c)), Reached(d, ToEntry(c));
    ReachedEntry(c, d, i);
    forall h | i - b < h < |es| ensures c.rank(es[h].0) != c.rank(es[i - b].0) {
      ReachedEntryAt(c, d, h);
    }
    PositionFound(es, c.rank, i - b);
  }

  /** The value of a reached position is stored unless an earlier reached position has an equally ranked key. */
  lemma DecodeDictValue<P, K, M>(c: MapCodec<P, K, M>, prior: seq<(K, M)>, d: seq<(P, P)>, i: nat)
    requires Sorted(prior, OnKey(c.rank)) && i < |d| && EntriesConvertFrom(c, d, i)
    requires forall j :: 0 <= j < i && EntriesConvertFrom(c, d, j) ==>
               c.rank(c.toKey(d[j].0).value) != c.rank(c.toKey(d[i].0).value)
    ensures var now := First(DictAfter(c, prior, d), OnKey(c.rank), c.rank(c.toKey(d[i].0).value));
            now.Some? && c.toMapped(d[i].1) == Some(now.value.1)
  {
    var r := c.rank(c.toKey(d[i].0).value);
    ValueBroughtBy(c, d, i);
    DictAfterAt(c, prior, d, r);
    FirstIffLast(Reached(d, ToEntry(c)), OnKey(c.rank), r);
  }

  /** Its key object is the stored one unless there was one before, or a later position has an equally ranked key. */
  lemma DecodeDictKey<P, K, M>(c: MapCodec<P, K, M>, prior: seq<(K, M)>, d: seq<(P, P)>, i: nat)
    requires Sorted(prior, OnKey(c.rank)) && i < |d| && EntriesConvertFrom(c, d, i)
    requires forall j :: i < j < |d| ==> c.rank(c.toKey(d[j].0).value) != c.rank(c.toKey(d[i].0).value)
    ensures var r := c.rank(c.toKey(d[i].0).value);
            var was, now := First(prior, OnKey(c.rank), r), First(DictAfter(c, prior, d), OnKey(c.rank), r);
            now.Some? && Some(now.value.0) == if was.Some? then Some(was.value.0) else c.toKey(d[i].0)
  {
    KeyBroughtBy(c, d, i);
    DictAfterAt(c, prior, d, c.rank(c.toKey(d[i].0).value));
  }

  // ----- assignment is not replacement -----

  /** The assignment brings the key object of `e`, and writes to it unless it holds the default already. */
  ghost predicate Replaces<P, K, M>(c: MapCodec<P, K, M>, d: seq<(P, P)>, e: (K, M)) {
    && KeyBrought(c, d, c.rank(e.0)) == Some(e.0)
    && (ValueBrought(c, d, c.rank(e.0)).Some? || e.1 == c.blank)
  }

  /** The field ends up as if it had been empty before exactly when every old entry is replaced. */
  lemma DictReplacedIff<P, K, M>(c: MapCodec<P, K, M>, prior: seq<(K, M)>, d: seq<(P, P)>)
    requires Sorted(prior, OnKey(c.rank))
    ensures DictAfter(c, prior, d) == DictAfter(c, [], d) <==> forall e :: e in prior ==> Replaces(c, d, e)
  {
    var kept, anew := DictAfter(c, prior, d), DictAfter(c, [], d);
    if kept == anew {
      forall e | e in prior ensures Replaces(c, d, e) {
        SortedFind(prior, OnKey(c.rank), e);
        DictAfterAt(c, prior, d, c.rank(e.0));
        DictAfterAt(c, [], d, c.rank(e.0));
      }
    }
    if forall e :: e in prior ==> Replaces(c, d, e) {
      forall r ensures First(kept, OnKey(c.rank), r) == First(anew, OnKey(c.rank), r) {
        DictAfterAt(c, prior, d, r);
        DictAfterAt(c, [], d, r);
        var was := First(prior, OnKey(c.rank), r);
        assert was.Some? ==> Replaces(c, d, was.value);
      }
      DictAfterAt(c, prior, d, 0.0);
      DictAfterAt(c, [], d, 0.0);
      SortedUnique(kept, anew, OnKey(c.rank));
    }
  }

  /** A map from integers to integers whose negative values do not convert. */
  function SampleCodec(slotFirst: bool): MapCodec<int, int, int> {
    MapCodec((p: int) => Some(p), (k: int) => k, (k: int) => k as real,
             (p: int) => if p < 0 then None else Some(p), (v: int) => v, 0, (p: int) => p, slotFirst)
  }

  /** Assigning {2: 20} to a field that holds {1: 10} leaves both. */
  lemma OldEntryStays(slotFirst: bool)
    ensures (1, 10) in DictAfter(SampleCodec(slotFirst), [(1, 10)], [(2, 20)])
    ensures (1, 10) !in DictAfter(SampleCodec(slotFirst), [], [(2, 20)])
  {
    var c := SampleCodec(slotFirst);
    DictAfterAt(c, [(1, 10)], [(2, 20)], 1.0);
    DictAfterAt(c, [], [(2, 20)], 1.0);
    assert KeyBrought(c, [(2, 20)], 1.0) == None;
  }

  // ----- two assignments -----

  /**
   * If both assignments reach rank `r`, they bring the same value, unless one brings none, and the
   * same key object, unless there was one.
   */
  ghost predicate AgreeAt<P, K, M>(c: MapCodec<P, K, M>, prior: seq<(K, M)>, d: seq<(P, P)>, d': seq<(P, P)>, r: Rank)
  {
    KeyBrought(c, d, r).Some? && KeyBrought(c, d', r).Some? ==>
      && (ValueBrought(c, d, r).Some? && ValueBrought(c, d', r).Some? ==>
            ValueBrought(c, d, r) == ValueBrought(c, d', r))
      && (First(prior, OnKey(c.rank), r).None? ==> KeyBrought(c, d, r) == KeyBrought(c, d', r))
  }

  lemma TwiceAt<P, K, M>(c: MapCodec<P, K, M>, prior: seq<(K, M)>, d: seq<(P, P)>, d': seq<(P, P)>, r: Rank)
    requires Sorted(prior, OnKey(c.rank))
    ensures Sorted(DictAfter(c, DictAfter(c, prior, d), d'), OnKey(c.rank))
    ensures First(DictAfter(c, DictAfter(c, prior, d), d'), OnKey(c.rank), r) ==
            BroughtTo(BroughtTo(First(prior, OnKey(c.rank), r), KeyBrought(c, d, r), ValueBrought(c, d, r), c.blank),
                      KeyBrought(c, d', r), ValueBrought(c, d', r), c.blank)
    ensures ValueBrought(c, d, r).Some? ==> KeyBrought(c, d, r).Some?
  {
    DictAfterAt(c, prior, d, r);
    DictAfterAt(c, DictAfter(c, prior, d), d', r);
    FirstIffLast(Reached(d, ToEntry(c)), OnKey(c.rank), r);
  }

  /** Two dict assignments, complete or cut short, commute exactly when they agree at every rank both reach. */
  lemma DictAssignmentsCommuteIff<P, K, M>(c: MapCodec<P, K, M>, prior: seq<(K, M)>, d: seq<(P, P)>, d': seq<(P, P)>)
    requires Sorted(prior, OnKey(c.rank))
    ensures DictAfter(c, DictAfter(c, prior, d), d') == DictAfter(c, DictAfter(c, prior, d'), d) <==>
            forall r :: AgreeAt(c, prior, d, d', r)
  {
    var a, b := DictAfter(c, DictAfter(c, prior, d), d'), DictAfter(c, DictAfter(c, prior, d'), d);
    forall r ensures First(a, OnKey(c.rank), r) == First(b, OnKey(c.rank), r) <==> AgreeAt(c, prior, d, d', r) {
      TwiceAt(c, prior, d, d', r);
      TwiceAt(c, prior, d', d, r);
    }
    if forall r :: AgreeAt(c, prior, d, d', r) {
      TwiceAt(c, prior, d, d', 0.0);
      TwiceAt(c, prior, d', d, 0.0);
      SortedUnique(a, b, OnKey(c.rank));
    }
  }

  // ----- collisions -----

  /** Every entry gets a place of its own exactly when no two keys have the same rank. */
  lemma {:induction false} PutsKeepAll<K, M>(es: seq<(K, M)>, blank: M, rank: K -> Rank)
    ensures |ApplyAll([], Puts(es), blank, rank)| <= |es|
    ensures |ApplyAll([], Puts(es), blank, rank)| == |es| <==> DistinctBy(es, OnKey(rank))
  {
    if es != [] {
      var rest := ApplyAll([], Puts(es[1..]), blank, rank);
      assert Puts(es)[1..] == Puts(es[1..]);
      PutsKeepAll(es[1..], blank, rank);
      PutsMeaning([], es[1..], blank, rank);
      ApplyOpMeaning(rest, Put(es[0].0, es[0].1), blank, rank);
      assert First(rest, OnKey(rank), rank(es[0].0)) ==
             PutAfter(None, es[1..], rank, rank(es[0].0));
      DistinctCons(es, OnKey(rank));
    }
  }

  lemma DistinctCons<T, C>(s: seq<T>, key: T -> C)
    requires s != []
    ensures DistinctBy(s, key) <==> DistinctBy(s[1..], key) && First(s[1..], key, key(s[0])).None?
  {
    assert forall i :: 0 < i < |s| ==> s[i] == s[1..][i - 1];
    assert forall i :: 0 <= i < |s| - 1 ==> s[1..][i] == s[i + 1];
    if DistinctBy(s, key) {
      forall x | x in s[1..] ensures key(x) != key(s[0]) {
        var i :| 0 <= i < |s| - 1 && s[1..][i] == x;
        assert key(s[i + 1]) != key(s[0]);
      }
      forall i, j | 0 <= i < j < |s| - 1 ensures key(s[1..][i]) != key(s[1..][j]) {
        assert key(s[i + 1]) != key(s[j + 1]);
      }
    } else if DistinctBy(s[1..], key) && First(s[1..], key, key(s[0])).None? {
      forall i, j | 0 <= i < j < |s| ensures key(s[i]) != key(s[j]) {
        assert s[j] == s[1..][j - 1] && s[j] in s[1..];
        if i > 0 {
          assert key(s[1..][i - 1]) != key(s[1..][j - 1]);
        }
      }
    }
  }

  lemma SortedDistinct<T>(s: seq<T>, rank: T -> Rank)
    requires Sorted(s, rank)
    ensures DistinctBy(s, rank)
    ensures forall r :: First(s, rank, r) == Last(s, rank, r)
  {
    forall r ensures First(s, rank, r) == Last(s, rank, r) {
      if x :| x in s && rank(x) == r {
        SortedFind(s, rank, x);
      }
    }
  }

  // ----- with the getter -----

  /** Assigning a map's own entries, into an empty field or over themselves, gives the map. */
  lemma PutOwnEntries<K, M>(m: seq<(K, M)>, blank: M, rank: K -> Rank)
    requires Sorted(m, OnKey(rank))
    ensures ApplyAll([], Puts(m), blank, rank) == m == ApplyAll(m, Puts(m), blank, rank)
  {
    PutsMeaning([], m, blank, rank);
    PutsMeaning(m, m, blank, rank);
    SortedDistinct(m, OnKey(rank));
    SortedUnique(ApplyAll([], Puts(m), blank, rank), m, OnKey(rank));
    SortedUnique(ApplyAll(m, Puts(m), blank, rank), m, OnKey(rank));
  }

  /** Both conversions of `e` can be undone. */
  ghost predicate Restorable<P, K, M>(c: MapCodec<P, K, M>, e: (K, M)) {
    c.toKey(c.fromKey(e.0)) == Some(e.0) && c.toMapped(c.fromMapped(e.1)) == Some(e.1)
  }

  /** The getter's items for `m` are a dict as they stand exactly when the converted keys differ for Python. */
  lemma ItemsAreDict<P, K, M>(c: MapCodec<P, K, M>, m: seq<(K, M)>)
    ensures PyDict.IsDict(MapSeq(m, FromEntry(c)), c.canon) <==>
            forall i, j {:trigger m[i], m[j]} :: 0 <= i < j < |m| ==>
              c.canon(c.fromKey(m[i].0)) != c.canon(c.fromKey(m[j].0))
  {
    var items := MapSeq(m, FromEntry(c));
    assert forall i :: 0 <= i < |m| ==> OnKey<P, P, P>(c.canon)(items[i]) == c.canon(c.fromKey(m[i].0));
    if PyDict.IsDict(items, c.canon) {
      forall i, j | 0 <= i < j < |m| ensures c.canon(c.fromKey(m[i].0)) != c.canon(c.fromKey(m[j].0)) {
        assert OnKey<P, P, P>(c.canon)(items[i]) != OnKey<P, P, P>(c.canon)(items[j]);
      }
    }
  }

  /** Everything the getter returns for restorable entries converts back. */
  lemma GetterConverts<P, K, M>(c: MapCodec<P, K, M>, m: seq<(K, M)>)
    requires forall e :: e in m ==> Restorable(c, e)
    ensures Stop(DictOf(c, m), ToEntry(c)) == 0
  {
    var items := MapSeq(m, FromEntry(c));
    var d := DictOf(c, m);
    PyDict.CollectSubset(items, c.canon);
    forall i | 0 <= i < |d| ensures ToEntry(c)(d[i]).Some? {
      assert d[i] in d;
      var j :| 0 <= j < |items| && items[j] == d[i];
      assert Restorable(c, m[j]);
    }
  }

  lemma RestorableConverts<P, K, M>(c: MapCodec<P, K, M>, m: seq<(K, M)>)
    requires forall e :: e in m ==> Restorable(c, e)
    ensures forall e :: e in m ==> ToEntry(c)(FromEntry(c)(e)) == Some(e)
  {
    forall e | e in m ensures ToEntry(c)(FromEntry(c)(e)) == Some(e) {
      assert Restorable(c, e);
    }
  }

  /** If no key collides for Python, the getter's dict converts back to the entries themselves. */
  lemma GetterInverted<P, K, M>(c: MapCodec<P, K, M>, m: seq<(K, M)>)
    requires forall e :: e in m ==> Restorable(c, e)
    requires PyDict.IsDict(MapSeq(m, FromEntry(c)), c.canon)
    ensures Reached(DictOf(c, m), ToEntry(c)) == m
  {
    assert DictOf(c, m) == MapSeq(m, FromEntry(c)) by {
      PyDict.CollectKeepsAll(MapSeq(m, FromEntry(c)), c.canon);
    }
    ConvertedBack(c, m);
  }

  lemma ConvertedBack<P, K, M>(c: MapCodec<P, K, M>, m: seq<(K, M)>)
    requires forall e :: e in m ==> Restorable(c, e)
    ensures Reached(MapSeq(m, FromEntry(c)), ToEntry(c)) == m
  {
    RestorableConverts(c, m);
    ReachedOfConverted(m, FromEntry(c), ToEntry(c), e => e);
    assert MapSeq(m, e => e) == m;
  }

  /** What the getter's dict, assigned to an empty field, makes of it is no larger than the dict. */
  lemma DictAfterSize<P, K, M>(c: MapCodec<P, K, M>, d: seq<(P, P)>)
    requires Stop(d, ToEntry(c)) == 0
    ensures DictAfter(c, [], d) == ApplyAll([], Puts(Reached(d, ToEntry(c))), c.blank, c.rank)
    ensures |DictAfter(c, [], d)| <= |d|
  {
    PutsKeepAll(Reached(d, ToEntry(c)), c.blank, c.rank);
  }

  /**
   * Map to dict and back into an empty field: the same map exactly when its converted keys are
   * pairwise different for Python.
   */
  lemma MapRoundTripIff<P, K, M>(c: MapCodec<P, K, M>, m: seq<(K, M)>)
    requires Sorted(m, OnKey(c.rank))
    requires forall e :: e in m ==> Restorable(c, e)
    ensures OutcomeOf(DictOf(c, m), ToEntry(c)) == Done
    ensures DictAfter(c, [], DictOf(c, m)) == m <==>
            forall i, j {:trigger m[i], m[j]} :: 0 <= i < j < |m| ==>
              c.canon(c.fromKey(m[i].0)) != c.canon(c.fromKey(m[j].0))
  {
    var items := MapSeq(m, FromEntry(c));
    GetterConverts(c, m);
    DictAfterSize(c, DictOf(c, m));
    assert DictAfter(c, [], DictOf(c, m)) == m <==> PyDict.IsDict(items, c.canon) by {
      assert |DictOf(c, m)| == |m| <==> PyDict.IsDict(items, c.canon) by {
        PyDict.CollectKeepsAll(items, c.canon);
      }
      assert |DictOf(c, m)| <= |m| by {
        PyDict.CollectKeepsAll(items, c.canon);
      }
      if PyDict.IsDict(items, c.canon) {
        GetterInverted(c, m);
        PutOwnEntries(m, c.blank, c.rank);
      }
    }
    ItemsAreDict(c, m);
  }

  /**
   * Dict to map and back, starting from an empty field: one entry per dict entry exactly when no
   * two keys extract to the same C++ key, and then the converted entries are exactly those of the dict.
   */
  lemma DictRoundTripIff<P, K, M>(c: MapCodec<P, K, M>, d: seq<(P, P)>)
    requires OutcomeOf(d, ToEntry(c)) == Done
    requires forall j, k :: c.rank(j) != c.rank(k) ==> c.canon(c.fromKey(j)) != c.canon(c.fromKey(k))
    ensures var es := Reached(d, ToEntry(c));
            var d2 := DictOf(c, DictAfter(c, [], d));
            && |d2| <= |d|
            && (|d2| == |d| <==> DistinctBy(es, OnKey(c.rank)))
            && (DistinctBy(es, OnKey(c.rank)) ==>
                  forall p {:trigger p in d2} :: p in d2 <==>
                    exists i :: 0 <= i < |es| && p == (c.fromKey(es[i].0), c.fromMapped(es[i].1)))
  {
    var es := Reached(d, ToEntry(c));
    var m := DictAfter(c, [], d);
    var items := MapSeq(m, FromEntry(c));
    DictAfterSize(c, d);
    PutsKeepAll(es, c.blank, c.rank);
    PutsMeaning([], es, c.blank, c.rank);
    SortedItemsAreDict(c, m);
    PyDict.CollectKeepsAll(items, c.canon);
    if DistinctBy(es, OnKey(c.rank)) {
      SameEntries(m, es, c.rank);
      SameConverted(m, es, FromEntry(c));
      forall p ensures p in MapSeq(es, FromEntry(c)) <==>
                       exists i :: 0 <= i < |es| && p == (c.fromKey(es[i].0), c.fromMapped(es[i].1))
      {
        ConvertedEntry(c, es, p);
      }
    }
  }

  lemma ConvertedEntry<P, K, M>(c: MapCodec<P, K, M>, es: seq<(K, M)>, p: (P, P))
    ensures p in MapSeq(es, FromEntry(c)) <==>
            exists i :: 0 <= i < |es| && p == (c.fromKey(es[i].0), c.fromMapped(es[i].1))
  {
    assert forall i :: 0 <= i < |es| ==>
             MapSeq(es, FromEntry(c))[i] == (c.fromKey(es[i].0), c.fromMapped(es[i].1));
  }

  lemma SortedItemsAreDict<P, K, M>(c: MapCodec<P, K, M>, m: seq<(K, M)>)
    requires Sorted(m, OnKey(c.rank))
    requires forall j, k :: c.rank(j) != c.rank(k) ==> c.canon(c.fromKey(j)) != c.canon(c.fromKey(k))
    ensures PyDict.IsDict(MapSeq(m, FromEntry(c)), c.canon)
  {
    forall i, j | 0 <= i < j < |m| ensures c.canon(c.fromKey(m[i].0)) != c.canon(c.fromKey(m[j].0)) {
      assert OnKey<K, M, Rank>(c.rank)(m[i]) < OnKey<K, M, Rank>(c.rank)(m[j]);
    }
    ItemsAreDict(c, m);
  }

  lemma SameEntries<K, M>(m: seq<(K, M)>, es: seq<(K, M)>, rank: K -> Rank)
    requires Sorted(m, OnKey(rank)) && DistinctBy(es, OnKey(rank))
    requires forall r :: First(m, OnKey(rank), r) == PutAfter(None, es, rank, r)
    ensures forall e :: e in m <==> e in es
  {
    forall e ensures e in m <==> e in es {
      assert First(m, OnKey(rank), rank(e.0)) == PutAfter(None, es, rank, rank(e.0));
      if e in m {
        SortedFind(m, OnKey(rank), e);
        var x := First(es, OnKey(rank), rank(e.0)).value;
        var i :| 0 <= i < |es| && es[i] == x;
        SearchPositions(es, OnKey(rank), i);
      }
      if e in es {
        var i :| 0 <= i < |es| && es[i] == e;
        SearchPositions(es, OnKey(rank), i);
      }
    }
  }

  lemma SameConverted<A, B>(s: seq<A>, t: seq<A>, f: A -> B)
    requires forall x :: x in s <==> x in t
    ensures forall y :: y in MapSeq(s, f) <==> y in MapSeq(t, f)
  {
    forall y ensures y in MapSeq(s, f) <==> y in MapSeq(t, f) {
      if i :| 0 <= i < |s| && MapSeq(s, f)[i] == y {
        assert s[i] in t;
        var j :| 0 <= j < |t| && t[j] == s[i];
        assert MapSeq(t, f)[j] == y;
      }
      if i :| 0 <= i < |t| && MapSeq(t, f)[i] == y {
        assert t[i] in s;
        var j :| 0 <= j < |s| && s[j] == t[i];
        assert MapSeq(s, f)[j] == y;
      }
    }
  }
}
