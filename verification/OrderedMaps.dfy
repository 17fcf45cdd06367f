/** A mapping that remembers the order its keys were first inserted in: Python's `dict`,
    JavaScript's `Map`. Overwriting a key keeps its place. */
module OrderedMaps {

  /** No element is repeated. Stated element by element, so that it is used only where asked for. */
  ghost predicate Distinct<T>(xs: seq<T>)
  {
    forall i :: 0 <= i < |xs| ==> Unrepeated(xs, i)
  }

  ghost predicate Unrepeated<T>(xs: seq<T>, i: nat)
    requires i < |xs|
  {
    xs[i] !in xs[..i]
  }

  lemma {:induction false} DistinctStep<T>(xs: seq<T>, i: nat)
    requires Distinct(xs) && i < |xs|
    ensures xs[i] !in xs[..i] && xs[..i + 1] == xs[..i] + [xs[i]]
    ensures forall j :: 0 <= j < i ==> xs[j] != xs[i]
  {
    assert Unrepeated(xs, i);
    assert forall j :: 0 <= j < i ==> xs[j] == xs[..i][j];
  }

  lemma {:induction false} DistinctAt<T>(xs: seq<T>, i: nat, j: nat)
    requires Distinct(xs) && i < |xs| && j < |xs|
    ensures xs[i] == xs[j] <==> i == j
  {
    assert Unrepeated(xs, i) && Unrepeated(xs, j);
    assert i < j ==> xs[..j][i] == xs[i];
    assert j < i ==> xs[..i][j] == xs[j];
  }

  lemma {:induction false} DistinctAppend<T>(xs: seq<T>, x: T)
    requires Distinct(xs) && x !in xs
    ensures Distinct(xs + [x])
  {
    forall i | 0 <= i < |xs + [x]| ensures Unrepeated(xs + [x], i) {
      assert (xs + [x])[..i] == xs[..i];
      if i < |xs| { assert Unrepeated(xs, i); }
    }
  }

  datatype OrderedMap<K(==), V> = OrderedMap(keys: seq<K>, entries: map<K, V>)
  {
    ghost predicate Valid()
    {
      && Distinct(keys)
      && (forall k :: k in keys ==> k in entries)
      && (forall k :: k in entries ==> k in keys)
    }

    function Put(k: K, v: V): (m: OrderedMap<K, V>)
      ensures m.entries == entries[k := v]
      ensures Valid() ==> m.Valid()
      ensures keys <= m.keys
      ensures m.keys == if k in entries then keys else keys + [k]
    {
      assert Valid() && k !in entries ==> Distinct(keys + [k]) by {
        if Valid() && k !in entries { DistinctAppend(keys, k); }
      }
      OrderedMap(if k in entries then keys else keys + [k], entries[k := v])
    }

    function Get(k: K, default: V): V
    {
      if k in entries then entries[k] else default
    }
  }


  lemma {:induction false} GetAfterPut<K, V>(m: OrderedMap<K, V>, k: K, v: V, k': K, default: V)
    ensures m.Put(k, v).Get(k', default) == if k == k' then v else m.Get(k', default)
  {
  }
}
