/**
 * A C++ object exposed to Python through the container accessors: one vector field, one ordered
 * set field, one ordered map field and one optional field.
 */
module Fields {
  import opened Prelude
  import opened Ordered
  import opened Conversion
  import ListLaws
  import PyDict

  /** The conversions and comparators of the four fields, and Python's None. */
  datatype Codec<!P, !V, !E, !K, !M, !O> = Codec(
    none: P,
    toItem: P -> Option<V>, fromItem: V -> P, blankItem: V,
    toElem: P -> Option<E>, fromElem: E -> P, rankElem: E -> Rank,
    dict: MapCodec<P, K, M>,
    toOpt: P -> Option<O>, fromOpt: O -> P)

  datatype FieldState<V, E, K, M, O> =
    FieldState(list: seq<V>, elems: seq<E>, entries: seq<(K, M)>, opt: Option<O>)

  /** A Python assignment to one of the four properties. */
  datatype Call<P> =
    | SetList(l: seq<P>)
    | SetSet(l: seq<P>)
    | SetDict(d: seq<(P, P)>)
    | SetOptional(p: P)

  /** The fields after one assignment, whether or not it raises. */
  function After<P, V, E, K, M, O>(c: Codec<P, V, E, K, M, O>, s: FieldState<V, E, K, M, O>,
      call: Call<P>): FieldState<V, E, K, M, O> {
    match call
    case SetList(l) => s.(list := ListAfter(s.list, l, c.toItem, c.blankItem))
    case SetSet(l) => s.(elems := SetAfter(s.elems, l, c.toElem, c.rankElem))
    case SetDict(d) => s.(entries := DictAfter(c.dict, s.entries, d))
    case SetOptional(p) => s.(opt := Prefer(c.toOpt(p), s.opt))
  }

  function ResultOf<P, V, E, K, M, O>(c: Codec<P, V, E, K, M, O>, call: Call<P>): Outcome {
    match call
    case SetList(l) => OutcomeOf(l, c.toItem)
    case SetSet(l) => OutcomeOf(l, c.toElem)
    case SetDict(d) => OutcomeOf(d, ToEntry(c.dict))
    case SetOptional(p) => if c.toOpt(p).Some? then Done else Raised(0)
  }

  ghost predicate ContainersSorted<P, V, E, K, M, O>(c: Codec<P, V, E, K, M, O>, s: FieldState<V, E, K, M, O>) {
    Sorted(s.elems, c.rankElem) && Sorted(s.entries, OnKey(c.dict.rank))
  }

  /** No assignment, not even one cut short by an exception, breaks the order of a container. */
  lemma AfterStaysSorted<P, V, E, K, M, O>(c: Codec<P, V, E, K, M, O>, s: FieldState<V, E, K, M, O>, call: Call<P>)
    requires ContainersSorted(c, s)
    ensures ContainersSorted(c, After(c, s, call))
  {
    match call
    case SetList(l) =>
    case SetSet(l) => InsertAllMeaning(s.elems, Reached(l, c.toElem), c.rankElem);
    case SetDict(d) => ApplyAllMeaning(s.entries, DictOps(c.dict, d), c.dict.blank, c.dict.rank);
    case SetOptional(p) =>
  }

  /**
   * What an assignment that takes `s` to `t` with outcome `o` promises, in terms of the conversions:
   * it raises at the highest position that does not convert and is done if there is none; other
   * fields stay; a vector is converted above that position and old or default at and below it.
   */
  ghost predicate Performed<P, V, E, K, M, O>(c: Codec<P, V, E, K, M, O>, s: FieldState<V, E, K, M, O>, call: Call<P>,
      o: Outcome, t: FieldState<V, E, K, M, O>)
  {
    match call
    case SetList(l) =>
      && (o == Done <==> forall i :: 0 <= i < |l| ==> c.toItem(l[i]).Some?)
      && (forall i: nat :: o == Raised(i) <==>
            i < |l| && c.toItem(l[i]).None? && forall j :: i < j < |l| ==> c.toItem(l[j]).Some?)
      && |t.list| == |l|
      && (forall i :: 0 <= i < |l| ==>
            if o == Done || i > o.at then c.toItem(l[i]) == Some(t.list[i])
            else t.list[i] == if i < |s.list| then s.list[i] else c.blankItem)
      && t == s.(list := t.list)
    case SetSet(l) =>
      && (o == Done <==> forall i :: 0 <= i < |l| ==> c.toElem(l[i]).Some?)
      && (forall i: nat :: o == Raised(i) <==>
            i < |l| && c.toElem(l[i]).None? && forall j :: i < j < |l| ==> c.toElem(l[j]).Some?)
      && t == s.(elems := SetAfter(s.elems, l, c.toElem, c.rankElem))
    case SetDict(d) =>
      && (o == Done <==> forall i :: 0 <= i < |d| ==> c.dict.toKey(d[i].0).Some? && c.dict.toMapped(d[i].1).Some?)
      && (forall i: nat :: o == Raised(i) <==>
            && i < |d|
            && (c.dict.toKey(d[i].0).None? || c.dict.toMapped(d[i].1).None?)
            && forall j :: i < j < |d| ==> c.dict.toKey(d[j].0).Some? && c.dict.toMapped(d[j].1).Some?)
      && t == s.(entries := DictAfter(c.dict, s.entries, d))
    case SetOptional(p) =>
      && o == (if c.toOpt(p).Some? then Done else Raised(0))
      && t == s.(opt := if c.toOpt(p).Some? then c.toOpt(p) else s.opt)
  }

  lemma AssignmentPerforms<P, V, E, K, M, O>(c: Codec<P, V, E, K, M, O>, s: FieldState<V, E, K, M, O>, call: Call<P>)
    ensures Performed(c, s, call, ResultOf(c, call), After(c, s, call))
  {
    match call
    case SetList(l) => ListPerforms(c, s, l);
    case SetSet(l) => OutcomeMeans(l, c.toElem);
    case SetDict(d) => DictOutcomeMeans(c.dict, d);
    case SetOptional(p) =>
  }

  lemma ListPerforms<P, V, E, K, M, O>(c: Codec<P, V, E, K, M, O>, s: FieldState<V, E, K, M, O>, l: seq<P>)
    ensures Performed(c, s, SetList(l), ResultOf(c, SetList(l)), After(c, s, SetList(l)))
  {
    OutcomeMeans(l, c.toItem);
    ListLaws.ElementsMean(s.list, l, c.toItem, c.blankItem);
  }

  class BoundObject<P(==), V, E, K, M, O> {
    const codec: Codec<P, V, E, K, M, O>
    var list: seq<V>
    var elems: seq<E>
    var entries: seq<(K, M)>
    var opt: Option<O>

    ghost predicate Valid()
      reads this
    {
      ContainersSorted(codec, State())
    }

    function State(): FieldState<V, E, K, M, O>
      reads this
    {
      FieldState(list, elems, entries, opt)
    }

    constructor (codec: Codec<P, V, E, K, M, O>)
      ensures Valid() && this.codec == codec && State() == FieldState([], [], [], None)
    {
      this.codec := codec;
      list, elems, entries, opt := [], [], [], None;
    }

    /** Resizes, then overwrites from the last position down. */
    method DecodeList(l: seq<P>) returns (o: Outcome)
      modifies this`list
      ensures o == OutcomeOf(l, codec.toItem)
      ensures list == ListAfter(old(list), l, codec.toItem, codec.blankItem)
    {
      var len := |l|;
      list := Resize(list, len, codec.blankItem);
      while len > 0
        invariant 0 <= len <= |l| == |list|
        invariant forall i :: 0 <= i < len ==> list[i] == Resize(old(list), |l|, codec.blankItem)[i]
        invariant forall i :: len <= i < |l| ==> codec.toItem(l[i]) == Some(list[i])
      {
        len := len - 1;
        var v := codec.toItem(l[len]);
        if v.None? {
          ListWalkEnds(old(list), list, l, codec.toItem, codec.blankItem, len + 1);
          return Raised(len);
        }
        list := list[len := v.value];
      }
      ListWalkEnds(old(list), list, l, codec.toItem, codec.blankItem, 0);
      return Done;
    }

    /** Inserts from the last position down; never clears. */
    method DecodeSet(l: seq<P>) returns (o: Outcome)
      modifies this`elems
      ensures o == OutcomeOf(l, codec.toElem)
      ensures elems == SetAfter(old(elems), l, codec.toElem, codec.rankElem)
    {
      var len := |l|;
      ghost var done: seq<E> := [];
      while len > 0
        invariant 0 <= len <= |l| && Walked(l, codec.toElem, len, done)
        invariant elems == InsertAll(old(elems), done, codec.rankElem)
      {
        len := len - 1;
        var v := codec.toElem(l[len]);
        if v.None? {
          WalkEnds(l, codec.toElem, len + 1, done);
          return Raised(len);
        }
        WalkDown(l, codec.toElem, len, v.value, done);
        elems := Insert(elems, v.value, codec.rankElem);
        assert ([v.value] + done)[1..] == done;
        done := [v.value] + done;
      }
      WalkEnds(l, codec.toElem, 0, done);
      return Done;
    }

    /** One `container[key] = value`; `stored` is false when a conversion throws. */
    method AssignEntry(k: P, w: P) returns (stored: bool)
      modifies this`entries
      ensures stored <==> EntryConverts(codec.dict, k, w)
      ensures entries == StoreEntry(codec.dict, old(entries), k, w)
    {
      var c := codec.dict;
      var key := c.toKey(k);
      if key.None? {
        return false;
      }
      var v := c.toMapped(w);
      if v.None? {
        if c.slotFirst {
          entries := ApplyOp(entries, Touch(key.value), c.blank, c.rank);
        }
        return false;
      }
      entries := ApplyOp(entries, Put(key.value, v.value), c.blank, c.rank);
      return true;
    }

    /** Assigns through `operator[]` from the last key down; never clears. */
    method DecodeDict(d: seq<(P, P)>) returns (o: Outcome)
      requires PyDict.IsDict(d, codec.dict.canon)
      modifies this`entries
      ensures o == OutcomeOf(d, ToEntry(codec.dict))
      ensures entries == DictAfter(codec.dict, old(entries), d)
    {
      var keys := seq(|d|, i requires 0 <= i < |d| => d[i].0);
      var len := |keys|;
      while len > 0
        invariant 0 <= len <= |d|
        invariant Storing(codec.dict, d, len, old(entries), entries)
      {
        len := len - 1;
        PyDict.GetOwnKey(d, len, codec.dict.canon, codec.none);
        ghost var m := entries;
        var stored := AssignEntry(keys[len], PyDict.Get(d, keys[len], codec.dict.canon, codec.none));
        if !stored {
          StoringEnds(codec.dict, d, len + 1, old(entries), m);
          return Raised(len);
        }
        StoringStep(codec.dict, d, len, old(entries), m);
      }
      StoringEnds(codec.dict, d, 0, old(entries), entries);
      return Done;
    }

    /** Boost.Python converts the argument before the setter runs; there is no way to clear the field. */
    method EncodeOptional(p: P) returns (o: Outcome)
      modifies this`opt
      ensures o == if codec.toOpt(p).Some? then Done else Raised(0)
      ensures opt == Prefer(codec.toOpt(p), old(opt))
    {
      var v := codec.toOpt(p);
      if v.None? {
        return Raised(0);
      }
      opt := v;
      return Done;
    }

    /** `obj.property = value` in Python; other properties keep their values. */
    method Assign(call: Call<P>) returns (o: Outcome)
      requires Valid() && (call.SetDict? ==> PyDict.IsDict(call.d, codec.dict.canon))
      modifies this
      ensures Valid()
      ensures o == ResultOf(codec, call) && State() == After(codec, old(State()), call)
      ensures Performed(codec, old(State()), call, o, State())
    {
      AfterStaysSorted(codec, State(), call);
      AssignmentPerforms(codec, State(), call);
      match call
      case SetList(l) => o := DecodeList(l);
      case SetSet(l) => o := DecodeSet(l);
      case SetDict(d) => o := DecodeDict(d);
      case SetOptional(p) => o := EncodeOptional(p);
    }

    method EncodeList() returns (l: seq<P>)
      ensures l == MapSeq(list, codec.fromItem)
    {
      l := [];
      for i := 0 to |list|
        invariant l == MapSeq(list[..i], codec.fromItem)
      {
        l := l + [codec.fromItem(list[i])];
      }
      assert list[..|list|] == list;
    }

    method EncodeSet() returns (l: seq<P>)
      ensures l == MapSeq(elems, codec.fromElem)
    {
      l := [];
      for i := 0 to |elems|
        invariant l == MapSeq(elems[..i], codec.fromElem)
      {
        l := l + [codec.fromElem(elems[i])];
      }
      assert elems[..|elems|] == elems;
    }

    method EncodeDict() returns (d: seq<(P, P)>)
      ensures d == DictOf(codec.dict, entries) && PyDict.IsDict(d, codec.dict.canon)
      ensures forall j: nat :: FirstOfItsKey(codec.dict, entries, j) ==>
                (codec.dict.fromKey(entries[j].0), codec.dict.fromMapped(entries[j].1)) in d
      ensures forall p :: p in d ==>
                exists j: nat :: FirstOfItsKey(codec.dict, entries, j) &&
                                 p == (codec.dict.fromKey(entries[j].0), codec.dict.fromMapped(entries[j].1))
      ensures (forall j :: 0 <= j < |entries| ==> FirstOfItsKey(codec.dict, entries, j)) ==>
                && |d| == |entries|
                && forall i :: 0 <= i < |d| ==>
                     d[i] == (codec.dict.fromKey(entries[i].0), codec.dict.fromMapped(entries[i].1))
    {
      d := [];
      ghost var items := MapSeq(entries, FromEntry(codec.dict));
      for i := 0 to |entries|
        invariant d == PyDict.Collect(items[..i], codec.dict.canon)
      {
        var k, w := codec.dict.fromKey(entries[i].0), codec.dict.fromMapped(entries[i].1);
        d := PyDict.SetDefault(d, k, w, codec.dict.canon);
        assert items[..i + 1][..i] == items[..i];
      }
      assert items[..|entries|] == items;
      PyDict.CollectMeaning(items, codec.dict.canon);
      GetterEntries(codec.dict, entries);
      if forall j :: 0 <= j < |entries| ==> FirstOfItsKey(codec.dict, entries, j) {
        GetterInOrder(codec.dict, entries);
      }
    }

    method DecodeOptional() returns (p: P)
      ensures p == ListLaws.OptionalToPython(opt, codec.fromOpt, codec.none)
    {
      p := if opt.Some? then codec.fromOpt(opt.value) else codec.none;
    }
  }
}
