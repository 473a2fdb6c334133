/**
 * Assigning again after an exception, with a value that agrees with the failed one above the
 * position that raised. Is anything left of the failed attempt?
 */
module Retries {
  import opened Prelude
  import opened Ordered
  import opened Conversion
  import ListLaws
  import MapLaws

  /** `l'` repairs `l`: same length and same elements above the position that raised. */
  ghost predicate Repairs<P, V>(l: seq<P>, l': seq<P>, extract: P -> Option<V>) {
    |l'| == |l| && forall i :: Stop(l, extract) <= i < |l| ==> l'[i] == l[i]
  }

  lemma RetryGoesFurther<P, V>(l: seq<P>, l': seq<P>, extract: P -> Option<V>)
    requires Repairs(l, l', extract)
    ensures Stop(l', extract) <= Stop(l, extract)
  {
    assert forall i :: Stop(l, extract) <= i < |l| ==> extract(l'[i]) == extract(l[i]);
  }

  lemma ReachedAgainAt<P, V>(l: seq<P>, l': seq<P>, extract: P -> Option<V>, j: nat)
    requires Repairs(l, l', extract) && Stop(l', extract) <= Stop(l, extract) && j < |Reached(l, extract)|
    ensures Reached(l', extract)[Stop(l, extract) - Stop(l', extract) + j] == Reached(l, extract)[j]
  {
    ReachedAt(l, extract, Stop(l, extract) + j);
    ReachedAt(l', extract, Stop(l, extract) + j);
  }

  lemma SplitAt<T>(ys: seq<T>, k: nat, xs: seq<T>)
    requires |ys| == k + |xs| && forall j :: 0 <= j < |xs| ==> ys[k + j] == xs[j]
    ensures ys == ys[..k] + xs
  {
  }

  /** What the failed walk converted is the end of what the repaired walk converts. */
  lemma ReachedAgain<P, V>(l: seq<P>, l': seq<P>, extract: P -> Option<V>)
    requires Repairs(l, l', extract)
    ensures Stop(l', extract) <= Stop(l, extract)
    ensures Reached(l', extract) ==
            Reached(l', extract)[..Stop(l, extract) - Stop(l', extract)] + Reached(l, extract)
  {
    RetryGoesFurther(l, l', extract);
    var k := Stop(l, extract) - Stop(l', extract);
    forall j | 0 <= j < |Reached(l, extract)| ensures Reached(l', extract)[k + j] == Reached(l, extract)[j] {
      ReachedAgainAt(l, l', extract, j);
    }
    SplitAt(Reached(l', extract), k, Reached(l, extract));
  }

  /** A vector keeps nothing of the failed attempt, even if the retry fails further down. */
  lemma ListRetry<P, V>(prior: seq<V>, l: seq<P>, l': seq<P>, extract: P -> Option<V>, blank: V)
    requires Repairs(l, l', extract) || OutcomeOf(l', extract) == Done
    ensures ListAfter(ListAfter(prior, l, extract, blank), l', extract, blank) == ListAfter(prior, l', extract, blank)
  {
    var failed := ListAfter(prior, l, extract, blank);
    ListLaws.DecodeListContents(prior, l, extract, blank);
    ListLaws.DecodeListContents(failed, l', extract, blank);
    ListLaws.DecodeListContents(prior, l', extract, blank);
    if Repairs(l, l', extract) {
      RetryGoesFurther(l, l', extract);
      forall i | 0 <= i < |l'|
        ensures ListAfter(failed, l', extract, blank)[i] == ListAfter(prior, l', extract, blank)[i]
      {
        assert ListLaws.ElementAfter(prior, l, extract, blank, i);
        assert ListLaws.ElementAfter(failed, l', extract, blank, i);
        assert ListLaws.ElementAfter(prior, l', extract, blank, i);
      }
    }
  }

  /** A set ends up as if the failed attempt had not been made, even if the retry fails further down. */
  lemma SetRetry<P, E>(prior: seq<E>, l: seq<P>, l': seq<P>, extract: P -> Option<E>, rank: E -> Rank)
    requires Sorted(prior, rank) && Repairs(l, l', extract)
    ensures SetAfter(SetAfter(prior, l, extract, rank), l', extract, rank) == SetAfter(prior, l', extract, rank)
  {
    var xs, ys := Reached(l, extract), Reached(l', extract);
    var pre := ys[..Stop(l, extract) - Stop(l', extract)];
    ReachedAgain(l, l', extract);
    InsertAllTwice(prior, xs, ys, rank);
    InsertAllMeaning(prior, ys + xs, rank);
    InsertAllMeaning(prior, ys, rank);
    forall r ensures First(InsertAll(prior, ys + xs, rank), rank, r) == First(InsertAll(prior, ys, rank), rank, r) {
      SearchAppend(ys, xs, rank, r);
      SearchAppend(pre, xs, rank, r);
    }
    SortedUnique(InsertAll(prior, ys + xs, rank), InsertAll(prior, ys, rank), rank);
  }

  /**
   * The entry left behind by the failed attempt disappears into the result of the retry: there was
   * none, or its place was taken before, or the retry brings the same key object there.
   */
  ghost predicate Absorbed<P, K, M>(c: MapCodec<P, K, M>, prior: seq<(K, M)>, d: seq<(P, P)>, d': seq<(P, P)>) {
    var left := LeftBehind(c, d);
    left.Some? ==>
      || First(prior, OnKey(c.rank), c.rank(left.value)).Some?
      || First(Reached(d, ToEntry(c)), OnKey(c.rank), c.rank(left.value)).Some?
      || MapLaws.KeyBrought(c, d', c.rank(left.value)) == left
  }

  /**
   * A map ends up as if the failed attempt had not been made exactly when its left-over entry is
   * absorbed. The retry may fail in turn.
   */
  lemma DictRetryIff<P, K, M>(c: MapCodec<P, K, M>, prior: seq<(K, M)>, d: seq<(P, P)>, d': seq<(P, P)>)
    requires Sorted(prior, OnKey(c.rank)) && Repairs(d, d', ToEntry(c))
    ensures DictAfter(c, DictAfter(c, prior, d), d') == DictAfter(c, prior, d') <==> Absorbed(c, prior, d, d')
  {
    var with, without := DictAfter(c, DictAfter(c, prior, d), d'), DictAfter(c, prior, d');
    var left := LeftBehind(c, d);
    forall r ensures First(with, OnKey(c.rank), r) == First(without, OnKey(c.rank), r) <==>
                     (left.Some? && c.rank(left.value) == r ==> Absorbed(c, prior, d, d'))
    {
      DictRetryAt(c, prior, d, d', r);
    }
    if Absorbed(c, prior, d, d') {
      MapLaws.TwiceAt(c, prior, d, d', 0.0);
      MapLaws.DictAfterAt(c, prior, d', 0.0);
      SortedUnique(with, without, OnKey(c.rank));
    } else {
      assert First(with, OnKey(c.rank), c.rank(left.value)) != First(without, OnKey(c.rank), c.rank(left.value));
    }
  }

  /** The previous lemma at one rank. */
  lemma DictRetryAt<P, K, M>(c: MapCodec<P, K, M>, prior: seq<(K, M)>, d: seq<(P, P)>, d': seq<(P, P)>, r: Rank)
    requires Sorted(prior, OnKey(c.rank)) && Repairs(d, d', ToEntry(c))
    ensures First(DictAfter(c, DictAfter(c, prior, d), d'), OnKey(c.rank), r) ==
            First(DictAfter(c, prior, d'), OnKey(c.rank), r) <==>
            (LeftBehind(c, d).Some? && c.rank(LeftBehind(c, d).value) == r ==> Absorbed(c, prior, d, d'))
  {
    MapLaws.TwiceAt(c, prior, d, d', r);
    MapLaws.DictAfterAt(c, prior, d', r);
    RetryBringsAgain(c, d, d', r);
  }

  /** Where the failed attempt wrote, the retry writes too, with the same key object. */
  lemma RetryBringsAgain<P, K, M>(c: MapCodec<P, K, M>, d: seq<(P, P)>, d': seq<(P, P)>, r: Rank)
    requires Repairs(d, d', ToEntry(c))
    ensures First(Reached(d, ToEntry(c)), OnKey(c.rank), r).Some? ==>
              MapLaws.ValueBrought(c, d, r).Some? && MapLaws.ValueBrought(c, d', r).Some? &&
              MapLaws.KeyBrought(c, d, r).Some? && MapLaws.KeyBrought(c, d', r) == MapLaws.KeyBrought(c, d, r)
  {
    var xs, ys := Reached(d, ToEntry(c)), Reached(d', ToEntry(c));
    var pre := ys[..Stop(d, ToEntry(c)) - Stop(d', ToEntry(c))];
    ReachedAgain(d, d', ToEntry(c));
    SearchAppend(pre, xs, OnKey(c.rank), r);
    MapLaws.FirstIffLast(xs, OnKey(c.rank), r);
    MapLaws.FirstIffLast(ys, OnKey(c.rank), r);
  }

  /** {1: -1} fails and leaves key 1 behind if the slot is evaluated first; retrying with {2: 5} does not remove it. */
  lemma RetryCanKeepLeftOver()
    ensures var c := MapLaws.SampleCodec(true);
            && OutcomeOf([(1, -1)], ToEntry(c)) == Raised(0)
            && Repairs([(1, -1)], [(2, 5)], ToEntry(c)) && OutcomeOf([(2, 5)], ToEntry(c)) == Done
            && DictAfter(c, DictAfter(c, [], [(1, -1)]), [(2, 5)]) != DictAfter(c, [], [(2, 5)])
  {
    var c := MapLaws.SampleCodec(true);
    assert Stop([(1, -1)], ToEntry(c)) == 1;
    assert Reached([(1, -1)], ToEntry(c)) == [];
    assert LeftBehind(c, [(1, -1)]) == Some(1);
    assert MapLaws.KeyBrought(c, [(2, 5)], 1.0) == None;
    DictRetryIff(c, [], [(1, -1)], [(2, 5)]);
  }
}
