/** Whole runs of assignments to one object; any of them may be cut short by an exception. */
module Runs {
  import opened Prelude
  import opened Ordered
  import opened Conversion
  import opened Fields
  import ListLaws
  import MapLaws

  function Run<P, V, E, K, M, O>(c: Codec<P, V, E, K, M, O>, s: FieldState<V, E, K, M, O>,
      calls: seq<Call<P>>): FieldState<V, E, K, M, O>
    decreases calls
  {
    if calls == [] then s else Run(c, After(c, s, calls[0]), calls[1..])
  }

  ghost predicate AllDone<P, V, E, K, M, O>(c: Codec<P, V, E, K, M, O>, calls: seq<Call<P>>) {
    forall i :: 0 <= i < |calls| ==> ResultOf(c, calls[i]) == Done
  }

  lemma {:induction false} RunStaysSorted<P, V, E, K, M, O>(c: Codec<P, V, E, K, M, O>, s: FieldState<V, E, K, M, O>,
      calls: seq<Call<P>>)
    requires ContainersSorted(c, s)
    ensures ContainersSorted(c, Run(c, s, calls))
    decreases calls
  {
    if calls != [] {
      AfterStaysSorted(c, s, calls[0]);
      RunStaysSorted(c, After(c, s, calls[0]), calls[1..]);
    }
  }

  // ----- the set field -----

  /** What the earliest assignment that reaches rank `r` brings there: its last element with that rank. */
  function Brought<P, V, E, K, M, O>(c: Codec<P, V, E, K, M, O>, calls: seq<Call<P>>, r: Rank): Option<E> {
    if calls == [] then None
    else
      Prefer(
        if calls[0].SetSet? then Last(Reached(calls[0].l, c.toElem), c.rankElem, r) else None,
        Brought(c, calls[1..], r))
  }

  /** A place in the set is filled once and for all; nothing is ever removed or replaced. */
  lemma {:induction false} RunOfSets<P, V, E, K, M, O>(c: Codec<P, V, E, K, M, O>, s: FieldState<V, E, K, M, O>,
      calls: seq<Call<P>>, r: Rank)
    requires ContainersSorted(c, s)
    ensures First(Run(c, s, calls).elems, c.rankElem, r) == Prefer(First(s.elems, c.rankElem, r), Brought(c, calls, r))
    decreases calls
  {
    if calls != [] {
      AfterStaysSorted(c, s, calls[0]);
      RunOfSets(c, After(c, s, calls[0]), calls[1..], r);
      if calls[0].SetSet? {
        InsertAllMeaning(s.elems, Reached(calls[0].l, c.toElem), c.rankElem);
      }
    }
  }

  /** The call converts some element of rank `r` for the set. */
  ghost predicate ReachesRank<P, V, E, K, M, O>(c: Codec<P, V, E, K, M, O>, call: Call<P>, r: Rank) {
    call.SetSet? && exists e :: e in Reached(call.l, c.toElem) && c.rankElem(e) == r
  }

  /** The ranks of the final set are those of the initial one and of everything converted on the way. */
  lemma RunRanks<P, V, E, K, M, O>(c: Codec<P, V, E, K, M, O>, s: FieldState<V, E, K, M, O>, calls: seq<Call<P>>,
      r: Rank)
    requires ContainersSorted(c, s)
    ensures (exists e :: e in Run(c, s, calls).elems && c.rankElem(e) == r) <==>
            (exists e :: e in s.elems && c.rankElem(e) == r) ||
            exists i :: 0 <= i < |calls| && ReachesRank(c, calls[i], r)
  {
    RunOfSets(c, s, calls, r);
    BroughtIff(c, calls, r);
  }

  lemma {:induction false} BroughtIff<P, V, E, K, M, O>(c: Codec<P, V, E, K, M, O>, calls: seq<Call<P>>, r: Rank)
    ensures Brought(c, calls, r).Some? <==> exists i :: 0 <= i < |calls| && ReachesRank(c, calls[i], r)
  {
    if calls != [] {
      BroughtIff(c, calls[1..], r);
      assert forall i :: 0 < i < |calls| ==> calls[i] == calls[1..][i - 1];
      assert forall i :: 0 <= i < |calls| - 1 ==> calls[1..][i] == calls[i + 1];
    }
  }

  // ----- the map field -----

  /** All uses of `operator[]` made in a run, last one first. */
  function RunOps<P, V, E, K, M, O>(c: Codec<P, V, E, K, M, O>, calls: seq<Call<P>>): seq<MapOp<K, M>> {
    if calls == [] then []
    else RunOps(c, calls[1..]) + if calls[0].SetDict? then DictOps(c.dict, calls[0].d) else []
  }

  /** A run on the map is the fold of these uses, left-over entries and key objects included. */
  lemma {:induction false} RunEntries<P, V, E, K, M, O>(c: Codec<P, V, E, K, M, O>, s: FieldState<V, E, K, M, O>,
      calls: seq<Call<P>>)
    ensures Run(c, s, calls).entries == ApplyAll(s.entries, RunOps(c, calls), c.dict.blank, c.dict.rank)
    decreases calls
  {
    if calls != [] {
      var next := After(c, s, calls[0]);
      var ops := if calls[0].SetDict? then DictOps(c.dict, calls[0].d) else [];
      assert next.entries == ApplyAll(s.entries, ops, c.dict.blank, c.dict.rank);
      RunEntries(c, next, calls[1..]);
      ApplyAllTwice(s.entries, ops, RunOps(c, calls[1..]), c.dict.blank, c.dict.rank);
    }
  }

  /** So each final entry has the old key object or that of the first use, and the value written last. */
  lemma RunEntryAt<P, V, E, K, M, O>(c: Codec<P, V, E, K, M, O>, s: FieldState<V, E, K, M, O>, calls: seq<Call<P>>,
      r: Rank)
    requires ContainersSorted(c, s)
    ensures First(Run(c, s, calls).entries, OnKey(c.dict.rank), r) ==
            EntryAfter(First(s.entries, OnKey(c.dict.rank), r), RunOps(c, calls), c.dict.blank, c.dict.rank, r)
  {
    RunEntries(c, s, calls);
    ApplyAllMeaning(s.entries, RunOps(c, calls), c.dict.blank, c.dict.rank);
  }

  /** The value one call writes at rank `r`. */
  function Written<P, V, E, K, M, O>(c: Codec<P, V, E, K, M, O>, call: Call<P>, r: Rank): Option<M> {
    if call.SetDict? then
      var e := First(Reached(call.d, ToEntry(c.dict)), OnKey(c.dict.rank), r);
      if e.Some? then Some(e.value.1) else None
    else None
  }

  /** The value the latest assignment that reaches rank `r` writes there: that of its earliest entry. */
  function LatestValue<P, V, E, K, M, O>(c: Codec<P, V, E, K, M, O>, calls: seq<Call<P>>, r: Rank): Option<M> {
    if calls == [] then None else Prefer(LatestValue(c, calls[1..], r), Written(c, calls[0], r))
  }

  /**
   * From `was` to `now` at one rank, with `latest` the value written last: the key object stays, the
   * value is the one written last, and where nothing was written the entry is as it was or, after
   * an exception only, a default.
   */
  ghost predicate Overridden<K, M>(was: Option<(K, M)>, now: Option<(K, M)>, latest: Option<M>, blank: M, done: bool) {
    && (was.Some? ==> now.Some? && now.value.0 == was.value.0)
    && (latest.Some? ==> now.Some? && now.value.1 == latest.value)
    && (latest.None? && was.Some? ==> now == was)
    && (latest.None? && was.None? && now.Some? ==> now.value.1 == blank && !done)
  }

  lemma OverriddenTwice<K, M>(was: Option<(K, M)>, mid: Option<(K, M)>, now: Option<(K, M)>,
      first: Option<M>, second: Option<M>, blank: M, done: bool, done': bool)
    requires Overridden(was, mid, first, blank, done) && Overridden(mid, now, second, blank, done')
    ensures Overridden(was, now, Prefer(second, first), blank, done && done')
  {
  }

  lemma CallOverrides<P, V, E, K, M, O>(c: Codec<P, V, E, K, M, O>, s: FieldState<V, E, K, M, O>, call: Call<P>,
      r: Rank)
    requires ContainersSorted(c, s)
    ensures Overridden(First(s.entries, OnKey(c.dict.rank), r), First(After(c, s, call).entries, OnKey(c.dict.rank), r),
                       Written(c, call, r), c.dict.blank, ResultOf(c, call) == Done)
  {
    if call.SetDict? {
      MapLaws.DecodeDictContents(c.dict, s.entries, call.d);
      MapLaws.FirstIffLast(Reached(call.d, ToEntry(c.dict)), OnKey(c.dict.rank), r);
    }
  }

  /** Read off the fold: over a run, values are overridden and keys stay. */
  lemma {:induction false} RunOfDicts<P, V, E, K, M, O>(c: Codec<P, V, E, K, M, O>, s: FieldState<V, E, K, M, O>,
      calls: seq<Call<P>>, r: Rank)
    requires ContainersSorted(c, s)
    ensures Overridden(First(s.entries, OnKey(c.dict.rank), r), First(Run(c, s, calls).entries, OnKey(c.dict.rank), r),
                       LatestValue(c, calls, r), c.dict.blank, AllDone(c, calls))
    decreases calls
  {
    if calls != [] {
      var next := After(c, s, calls[0]);
      AfterStaysSorted(c, s, calls[0]);
      CallOverrides(c, s, calls[0], r);
      RunOfDicts(c, next, calls[1..], r);
      OverriddenTwice(First(s.entries, OnKey(c.dict.rank), r), First(next.entries, OnKey(c.dict.rank), r),
                      First(Run(c, s, calls).entries, OnKey(c.dict.rank), r),
                      Written(c, calls[0], r), LatestValue(c, calls[1..], r),
                      c.dict.blank, ResultOf(c, calls[0]) == Done, AllDone(c, calls[1..]));
    }
  }

  // ----- the vector field and the optional field -----

  function LastList<P>(calls: seq<Call<P>>): Option<seq<P>> {
    if calls == [] then None
    else Prefer(LastList(calls[1..]), if calls[0].SetList? then Some(calls[0].l) else None)
  }

  function LastOptional<P, V, E, K, M, O>(c: Codec<P, V, E, K, M, O>, calls: seq<Call<P>>): Option<O> {
    if calls == [] then None
    else Prefer(LastOptional(c, calls[1..]), if calls[0].SetOptional? then c.toOpt(calls[0].p) else None)
  }

  /** The vector has the length of the list assigned last, and if that assignment succeeded, its values. */
  lemma {:induction false} RunOfLists<P, V, E, K, M, O>(c: Codec<P, V, E, K, M, O>, s: FieldState<V, E, K, M, O>,
      calls: seq<Call<P>>)
    ensures var v := Run(c, s, calls).list;
            match LastList(calls)
            case None => v == s.list
            case Some(l) =>
              |v| == |l| && (OutcomeOf(l, c.toItem) == Done ==> v == ListAfter([], l, c.toItem, c.blankItem))
    ensures Run(c, s, calls).opt == Prefer(LastOptional(c, calls), s.opt)
    decreases calls
  {
    if calls != [] {
      RunOfLists(c, After(c, s, calls[0]), calls[1..]);
      if calls[0].SetList? {
        ListLaws.DecodeListContents(s.list, calls[0].l, c.toItem, c.blankItem);
      }
    }
  }

  lemma {:induction false} RunAppend<P, V, E, K, M, O>(c: Codec<P, V, E, K, M, O>, s: FieldState<V, E, K, M, O>,
      xs: seq<Call<P>>, ys: seq<Call<P>>)
    ensures Run(c, s, xs + ys) == Run(c, Run(c, s, xs), ys)
    decreases xs
  {
    if xs == [] {
      assert xs + ys == ys;
    } else {
      assert (xs + ys)[1..] == xs[1..] + ys;
      RunAppend(c, After(c, s, xs[0]), xs[1..], ys);
    }
  }

  lemma {:induction false} RunKeepsList<P, V, E, K, M, O>(c: Codec<P, V, E, K, M, O>, s: FieldState<V, E, K, M, O>,
      calls: seq<Call<P>>)
    requires forall i :: 0 <= i < |calls| ==> !calls[i].SetList?
    ensures Run(c, s, calls).list == s.list
    decreases calls
  {
    if calls != [] {
      RunKeepsList(c, After(c, s, calls[0]), calls[1..]);
    }
  }

  /**
   * The vector after a run, position by position: converted from the list assigned last where that
   * list converts from there up, and otherwise what the run before that assignment had there, or
   * the default.
   */
  lemma RunListExact<P, V, E, K, M, O>(c: Codec<P, V, E, K, M, O>, s: FieldState<V, E, K, M, O>,
      before: seq<Call<P>>, l: seq<P>, rest: seq<Call<P>>)
    requires forall i :: 0 <= i < |rest| ==> !rest[i].SetList?
    ensures var u, v := Run(c, s, before).list, Run(c, s, before + [SetList(l)] + rest).list;
            && |v| == |l|
            && forall i :: 0 <= i < |l| ==>
                 if ConvertsFrom(l, c.toItem, i) then c.toItem(l[i]) == Some(v[i])
                 else v[i] == if i < |u| then u[i] else c.blankItem
  {
    var mid := Run(c, s, before);
    RunAppend(c, s, before + [SetList(l)], rest);
    RunAppend(c, s, before, [SetList(l)]);
    assert Run(c, mid, [SetList(l)]) == Run(c, After(c, mid, SetList(l)), [SetList(l)][1..]);
    RunKeepsList(c, After(c, mid, SetList(l)), rest);
    AssignmentPerforms(c, mid, SetList(l));
    forall i | 0 <= i < |l|
      ensures ConvertsFrom(l, c.toItem, i) <==> OutcomeOf(l, c.toItem) == Done || i > OutcomeOf(l, c.toItem).at
    {
      ConvertsFromIff(l, c.toItem, i);
    }
  }

  // ----- together -----

  ghost predicate HasKey<K, M>(m: seq<(K, M)>, k: K) {
    exists j :: 0 <= j < |m| && m[j].0 == k
  }

  lemma KeyKept<K, M>(s: seq<(K, M)>, t: seq<(K, M)>, rank: K -> Rank, k: K)
    requires Sorted(s, OnKey(rank)) && HasKey(s, k)
    requires var was, now := First(s, OnKey(rank), rank(k)), First(t, OnKey(rank), rank(k));
             was.Some? ==> now.Some? && now.value.0 == was.value.0
    ensures HasKey(t, k)
  {
    var i :| 0 <= i < |s| && s[i].0 == k;
    SortedFind(s, OnKey(rank), s[i]);
    var e := First(t, OnKey(rank), rank(k)).value;
    var j :| 0 <= j < |t| && t[j] == e;
    assert t[j].0 == k;
  }

  /**
   * Over every run, successful or not: the containers stay sorted, the set never loses an element,
   * the map never loses a key object, and an optional once given stays given.
   */
  lemma RunSafety<P, V, E, K, M, O>(c: Codec<P, V, E, K, M, O>, s: FieldState<V, E, K, M, O>, calls: seq<Call<P>>)
    requires ContainersSorted(c, s)
    ensures ContainersSorted(c, Run(c, s, calls))
    ensures forall e :: e in s.elems ==> e in Run(c, s, calls).elems
    ensures forall k :: HasKey(s.entries, k) ==> HasKey(Run(c, s, calls).entries, k)
    ensures s.opt.Some? ==> Run(c, s, calls).opt.Some?
  {
    var t := Run(c, s, calls);
    RunStaysSorted(c, s, calls);
    RunOfLists(c, s, calls);
    forall e | e in s.elems ensures e in t.elems {
      SortedFind(s.elems, c.rankElem, e);
      RunOfSets(c, s, calls, c.rankElem(e));
    }
    forall k | HasKey(s.entries, k) ensures HasKey(t.entries, k) {
      RunOfDicts(c, s, calls, c.dict.rank(k));
      KeyKept(s.entries, t.entries, c.dict.rank, k);
    }
  }
}
