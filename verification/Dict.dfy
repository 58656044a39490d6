/** A Python dictionary where insertion order matters: the keys in order, and their values. */
module Dict {
  import opened Strings

  datatype Dict<V> = Dict(order: seq<string>, values: map<string, V>) {
    /** Each key stands once in the order. */
    ghost predicate Valid() {
      && Distinct(order)
      && forall k :: k in order <==> k in values
    }
  }

  /** The keys, in order, that a dictionary does not have yet. */
  function NewKeys(order: seq<string>, known: set<string>): (r: seq<string>)
    ensures forall k :: k in r <==> k in order && k !in known
  {
    if order == [] then []
    else (if order[0] in known then [] else [order[0]]) + NewKeys(order[1..], known)
  }

  /** Merging `e` into `d`: keys of `d` keep their places, new keys follow, values of `e` win. */
  function Merge<V>(d: Dict<V>, e: Dict<V>): Dict<V> {
    Dict(d.order + NewKeys(e.order, d.values.Keys), d.values + e.values)
  }

  /** New keys keep the order they came in. */
  lemma {:induction false} NewKeysConcat(a: seq<string>, b: seq<string>, known: set<string>)
    ensures NewKeys(a + b, known) == NewKeys(a, known) + NewKeys(b, known)
  {
    if a == [] {
      assert a + b == b;
    } else {
      assert (a + b)[1..] == a[1..] + b;
      NewKeysConcat(a[1..], b, known);
    }
  }

  lemma NewKeysOne(k: string, known: set<string>)
    ensures NewKeys([k], known) == if k in known then [] else [k]
  {
    assert [k][1..] == [];
  }

  lemma {:induction false} NewKeysDistinct(order: seq<string>, known: set<string>)
    requires Distinct(order)
    ensures Distinct(NewKeys(order, known))
  {
    if order != [] {
      NewKeysDistinct(order[1..], known);
      assert order[0] !in NewKeys(order[1..], known);
    }
  }

  lemma MergeValid<V>(d: Dict<V>, e: Dict<V>)
    requires d.Valid() && e.Valid()
    ensures Merge(d, e).Valid() && d.order <= Merge(d, e).order
  {
    NewKeysDistinct(e.order, d.values.Keys);
    var m := Merge(d, e);
    forall i, j | 0 <= i < j < |m.order| ensures m.order[i] != m.order[j] {
      if i < |d.order| <= j {
        assert m.order[i] in d.values.Keys;
        assert m.order[j] in NewKeys(e.order, d.values.Keys);
      }
    }
  }
}
