/** Asset options: one field of one extension type, read and written through the ordered extension set. */
module Extensions {
  import opened Prelude
  import opened Ordered

  /** An extension object: its static-variant tag, the addressed field and the other fields of its type. */
  datatype Extension<V, R> = Extension(tag: nat, field: V, rest: R)

  /** The extension set is ordered by tag. */
  function ByTag<V, R>(): Extension<V, R> -> Rank {
    (e: Extension<V, R>) => e.tag as real
  }

  function WithField<V, R>(v: V): Extension<V, R> -> Extension<V, R> {
    (e: Extension<V, R>) => e.(field := v)
  }

  function GetField<V, R>(s: seq<Extension<V, R>>, tag: nat): Option<V> {
    var it := First(s, ByTag(), tag as real);
    if it.Some? then Some(it.value.field) else None
  }

  /** Inserts a default-constructed extension when there is none, then overwrites the field in place. */
  function PutField<V, R>(s: seq<Extension<V, R>>, blank: Extension<V, R>, v: V): seq<Extension<V, R>> {
    var found := if First(s, ByTag(), blank.tag as real).None? then Insert(s, blank, ByTag()) else s;
    Modify(found, ByTag(), blank.tag as real, WithField(v))
  }

  class AssetOptions<V, R> {
    var extensions: seq<Extension<V, R>>

    constructor ()
      ensures extensions == []
    {
      extensions := [];
    }

    method DecodeExtension(tag: nat) returns (r: Option<V>)
      ensures r == GetField(extensions, tag)
    {
      var it := First(extensions, ByTag(), tag as real);
      if it.None? {
        return None;
      }
      return Some(it.value.field);
    }

    method EncodeExtension(blank: Extension<V, R>, v: V)
      requires Sorted(extensions, ByTag())
      modifies this
      ensures Sorted(extensions, ByTag())
      ensures extensions == PutField(old(extensions), blank, v)
    {
      PutFieldSorted(extensions, blank, v);
      if First(extensions, ByTag(), blank.tag as real).None? {
        extensions := Insert(extensions, blank, ByTag());
      }
      extensions := Modify(extensions, ByTag(), blank.tag as real, WithField(v));
    }
  }

  /** What the write leaves at its own tag: the element found there, or the blank one, with the new field. */
  function Written<V, R>(was: Option<Extension<V, R>>, blank: Extension<V, R>, v: V): Extension<V, R> {
    (if was.Some? then was.value else blank).(field := v)
  }

  /** The write touches its own tag only. */
  lemma PutFieldFind<V, R>(s: seq<Extension<V, R>>, blank: Extension<V, R>, v: V, r: Rank)
    requires Sorted(s, ByTag())
    ensures First(PutField(s, blank, v), ByTag(), r) ==
            if r == blank.tag as real then Some(Written(First(s, ByTag(), r), blank, v)) else First(s, ByTag(), r)
  {
    var c := blank.tag as real;
    if First(s, ByTag(), c).None? {
      InsertSorted(s, blank, ByTag());
      InsertFind(s, blank, ByTag(), r);
      InsertFind(s, blank, ByTag(), c);
      ModifyMeaning(Insert(s, blank, ByTag()), ByTag(), c, WithField(v));
    } else {
      ModifyMeaning(s, ByTag(), c, WithField(v));
    }
  }

  /** The set stays sorted, so there is one extension per tag at most; the write adds one only where there was none. */
  lemma PutFieldSorted<V, R>(s: seq<Extension<V, R>>, blank: Extension<V, R>, v: V)
    requires Sorted(s, ByTag())
    ensures Sorted(PutField(s, blank, v), ByTag())
    ensures |PutField(s, blank, v)| == |s| + if GetField(s, blank.tag).None? then 1 else 0
  {
    InsertMeaning(s, blank, ByTag());
    ModifyMeaning(s, ByTag(), blank.tag as real, WithField(v));
    ModifyMeaning(Insert(s, blank, ByTag()), ByTag(), blank.tag as real, WithField(v));
  }

  lemma PutThenGet<V, R>(s: seq<Extension<V, R>>, blank: Extension<V, R>, v: V, tag: nat)
    requires Sorted(s, ByTag())
    ensures GetField(PutField(s, blank, v), tag) == if tag == blank.tag then Some(v) else GetField(s, tag)
  {
    PutFieldFind(s, blank, v, tag as real);
  }

  /** Writing changes nothing exactly when the value is already there. */
  lemma PutIsNoOpIff<V, R>(s: seq<Extension<V, R>>, blank: Extension<V, R>, v: V)
    requires Sorted(s, ByTag())
    ensures PutField(s, blank, v) == s <==> GetField(s, blank.tag) == Some(v)
  {
    PutFieldFind(s, blank, v, blank.tag as real);
    PutFieldSorted(s, blank, v);
    if GetField(s, blank.tag) == Some(v) {
      forall r ensures First(PutField(s, blank, v), ByTag(), r) == First(s, ByTag(), r) {
        PutFieldFind(s, blank, v, r);
      }
      SortedUnique(PutField(s, blank, v), s, ByTag());
    }
  }

  /** The later write to a tag wins. */
  lemma PutTwice<V, R>(s: seq<Extension<V, R>>, blank: Extension<V, R>, v: V, w: V)
    requires Sorted(s, ByTag())
    ensures PutField(PutField(s, blank, v), blank, w) == PutField(s, blank, w)
  {
    var once := PutField(s, blank, v);
    PutFieldSorted(s, blank, v);
    PutFieldSorted(s, blank, w);
    PutFieldSorted(once, blank, w);
    forall r ensures First(PutField(once, blank, w), ByTag(), r) == First(PutField(s, blank, w), ByTag(), r) {
      PutFieldFind(s, blank, v, r);
      PutFieldFind(s, blank, w, r);
      PutFieldFind(once, blank, w, r);
    }
    SortedUnique(PutField(once, blank, w), PutField(s, blank, w), ByTag());
  }

  /** Writes to different tags commute. */
  lemma PutsCommute<V, R>(s: seq<Extension<V, R>>, blank: Extension<V, R>, v: V, blank': Extension<V, R>, w: V)
    requires Sorted(s, ByTag()) && blank.tag != blank'.tag
    ensures PutField(PutField(s, blank, v), blank', w) == PutField(PutField(s, blank', w), blank, v)
  {
    var one, other := PutField(s, blank, v), PutField(s, blank', w);
    PutFieldSorted(s, blank, v);
    PutFieldSorted(s, blank', w);
    PutFieldSorted(one, blank', w);
    PutFieldSorted(other, blank, v);
    forall r ensures First(PutField(one, blank', w), ByTag(), r) == First(PutField(other, blank, v), ByTag(), r) {
      PutFieldFind(s, blank, v, r);
      PutFieldFind(s, blank', w, r);
      PutFieldFind(one, blank', w, r);
      PutFieldFind(other, blank, v, r);
    }
    SortedUnique(PutField(one, blank', w), PutField(other, blank, v), ByTag());
  }
}
