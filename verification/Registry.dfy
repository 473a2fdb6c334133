/**
 * Static variants and the Python classes that expose them: one constructor for each alternative
 * and a table of read-only accessors, each of which answers for one alternative.
 */
module Registry {
  import opened Prelude

  /** A static variant holding the alternative `which`. */
  datatype StaticVariant<T, X> = Holding(which: T, content: X)

  function DecodeStaticVariant<T(==), X>(v: StaticVariant<T, X>, tag: T): Option<X> {
    if v.which == tag then Some(v.content) else None
  }

  /** One `add_property(name, decode_static_variant<V, T>)`. */
  datatype Accessor<N, T> = Accessor(name: N, tag: T)

  function ByName<N, T>(): Accessor<N, T> -> N {
    (a: Accessor<N, T>) => a.name
  }

  function ByTag<N, T>(): Accessor<N, T> -> T {
    (a: Accessor<N, T>) => a.tag
  }

  /**
   * The Python attribute `name`: None when there is none, or when the value is another alternative.
   * A later entry replaces an earlier one.
   */
  function Read<N(==), T(==), X>(table: seq<Accessor<N, T>>, name: N, v: StaticVariant<T, X>): Option<X> {
    var a := Last(table, ByName(), name);
    if a.None? then None else DecodeStaticVariant(v, a.value.tag)
  }

  /** The attribute `name` answers for the alternative `tag`. */
  ghost predicate Answers<N, T>(table: seq<Accessor<N, T>>, name: N, tag: T) {
    var a := Last(table, ByName(), name);
    a.Some? && a.value.tag == tag
  }

  /** Reading gives the content exactly where the attribute answers, and re-wrapping that gives the value back. */
  lemma ReadThenWrap<N, T, X>(table: seq<Accessor<N, T>>, name: N, v: StaticVariant<T, X>)
    ensures Read(table, name, v).Some? <==> Answers(table, name, v.which)
    ensures Read(table, name, v).Some? ==>
            Holding(Last(table, ByName(), name).value.tag, Read(table, name, v).value) == v
  {
  }

  /** With distinct names, every entry is in force. */
  lemma DistinctNamesInForce<N, T>(table: seq<Accessor<N, T>>, name: N, tag: T)
    requires DistinctBy(table, ByName<N, T>())
    ensures Answers(table, name, tag) <==> Accessor(name, tag) in table
  {
    if Accessor(name, tag) in table {
      var i :| 0 <= i < |table| && table[i] == Accessor(name, tag);
      SearchPositions(table, ByName(), i);
    }
  }

  /** With distinct names, the attribute of an entry answers for its alternative and no other. */
  lemma EntryReads<N, T, X>(table: seq<Accessor<N, T>>, i: nat, v: StaticVariant<T, X>)
    requires DistinctBy(table, ByName<N, T>()) && i < |table|
    ensures Read(table, table[i].name, v) == DecodeStaticVariant(v, table[i].tag)
  {
    EntryInForce(table, i);
  }

  lemma EntryGivesContent<N, T(!new), X(!new)>(table: seq<Accessor<N, T>>, i: nat)
    requires DistinctBy(table, ByName<N, T>()) && i < |table|
    ensures forall v: StaticVariant<T, X> ::
              Read(table, table[i].name, v) == if v.which == table[i].tag then Some(v.content) else None
  {
    forall v: StaticVariant<T, X>
      ensures Read(table, table[i].name, v) == if v.which == table[i].tag then Some(v.content) else None
    {
      EntryReads(table, i, v);
    }
  }

  /** With distinct names and distinct tags, a registered value has one accessor that is not None, its own. */
  lemma OneAccessorAnswers<N, T, X>(table: seq<Accessor<N, T>>, i: nat, v: StaticVariant<T, X>)
    requires DistinctBy(table, ByName<N, T>()) && DistinctBy(table, ByTag<N, T>())
    requires i < |table| && table[i].tag == v.which
    ensures Read(table, table[i].name, v) == Some(v.content)
    ensures forall n :: n != table[i].name ==> Read(table, n, v).None?
  {
    DistinctNamesInForce(table, table[i].name, v.which);
    assert table[i] == Accessor(table[i].name, v.which);
    forall n | n != table[i].name ensures Read(table, n, v).None? {
      DistinctNamesInForce(table, n, v.which);
      if j :| 0 <= j < |table| && table[j] == Accessor(n, v.which) {
        DistinctIndex(table, ByTag<N, T>(), i, j);
      }
    }
  }

  ghost predicate Readable<N(!new), T>(table: seq<Accessor<N, T>>, tag: T) {
    exists n :: Answers(table, n, tag)
  }

  /** When no two entries are for the same alternative, all of them can be read exactly when no name is used twice. */
  lemma AllReadableIff<N(!new), T>(table: seq<Accessor<N, T>>)
    requires DistinctBy(table, ByTag<N, T>())
    ensures (forall i :: 0 <= i < |table| ==> Readable(table, table[i].tag)) <==> DistinctBy(table, ByName<N, T>())
  {
    if DistinctBy(table, ByName<N, T>()) {
      forall i | 0 <= i < |table| ensures Readable(table, table[i].tag) {
        EntryInForce(table, i);
      }
    } else if forall i :: 0 <= i < |table| ==> Readable(table, table[i].tag) {
      AllReadableNames(table);
    }
  }

  lemma EntryInForce<N, T>(table: seq<Accessor<N, T>>, i: nat)
    requires DistinctBy(table, ByName<N, T>()) && i < |table|
    ensures Answers(table, table[i].name, table[i].tag)
  {
    DistinctNamesInForce(table, table[i].name, table[i].tag);
    assert table[i] == Accessor(table[i].name, table[i].tag);
  }

  lemma AllReadableNames<N(!new), T>(table: seq<Accessor<N, T>>)
    requires DistinctBy(table, ByTag<N, T>())
    requires forall i :: 0 <= i < |table| ==> Readable(table, table[i].tag)
    ensures DistinctBy(table, ByName<N, T>())
  {
    forall i, j | 0 <= i < j < |table| ensures ByName<N, T>()(table[i]) != ByName<N, T>()(table[j]) {
      assert Readable(table, table[i].tag);
      var n :| Answers(table, n, table[i].tag);
      InForceIsLast(table, n, i);
    }
  }

  /** If some name answers for entry `i`, it is that entry's name, and no later entry has it. */
  lemma InForceIsLast<N, T>(table: seq<Accessor<N, T>>, n: N, i: nat)
    requires DistinctBy(table, ByTag<N, T>()) && i < |table| && Answers(table, n, table[i].tag)
    ensures table[i].name == n
    ensures forall j :: i < j < |table| ==> table[j].name != n
  {
    var k := LastPosition(table, ByName(), n);
    forall j | k < j < |table| ensures table[j].name != n {
      assert ByName<N, T>()(table[j]) != n;
    }
    DistinctIndex(table, ByTag<N, T>(), k, i);
  }

  // ----- the Predicate class -----

  datatype PredicateType = AccountNameEqLit | AssetSymbolEqLit | BlockId

  const PREDICATE_TABLE: seq<Accessor<string, PredicateType>> := [
    Accessor("linear", AccountNameEqLit),
    Accessor("cdd", AssetSymbolEqLit),
    Accessor("cdd", BlockId)]

  /**
   * The second "cdd" replaces the first: a predicate can be read through some attribute exactly
   * when it is not an asset-symbol predicate.
   */
  lemma PredicateReadableIff<X>(v: StaticVariant<PredicateType, X>)
    ensures (exists n :: Read(PREDICATE_TABLE, n, v).Some?) <==> v.which != AssetSymbolEqLit
    ensures Read(PREDICATE_TABLE, "linear", v).Some? <==> v.which == AccountNameEqLit
    ensures Read(PREDICATE_TABLE, "cdd", v).Some? <==> v.which == BlockId
  {
    var a, b, c := PREDICATE_TABLE[0], PREDICATE_TABLE[1], PREDICATE_TABLE[2];
    assert PREDICATE_TABLE == [a, b, c];
    assert "linear"[0] != "cdd"[0];
    SearchPositions(PREDICATE_TABLE, ByName(), 0);
    SearchPositions(PREDICATE_TABLE, ByName(), 2);
    assert Last(PREDICATE_TABLE, ByName(), "linear") == Some(a);
    assert Last(PREDICATE_TABLE, ByName(), "cdd") == Some(c);
    assert v.which == AccountNameEqLit ==> Read(PREDICATE_TABLE, "linear", v).Some?;
    assert v.which == BlockId ==> Read(PREDICATE_TABLE, "cdd", v).Some?;
    forall n | Read(PREDICATE_TABLE, n, v).Some? ensures n == "linear" || n == "cdd" {
      assert Last(PREDICATE_TABLE, ByName(), n).value in [a, b, c];
    }
  }
}
