/** Counting the edges of a list, or the places in any list, that satisfy a predicate. */
module CortexCounting {
  import opened CortexModel

  ghost function CountIf(edges: seq<Edge>, p: Edge -> bool, n: nat): nat
    requires n <= |edges|
  {
    if n == 0 then 0 else CountIf(edges, p, n - 1) + if p(edges[n - 1]) then 1 else 0
  }

  lemma {:induction false} CountConcat(xs: seq<Edge>, ys: seq<Edge>, p: Edge -> bool, n: nat)
    requires n <= |ys|
    ensures CountIf(xs + ys, p, |xs| + n) == CountIf(xs, p, |xs|) + CountIf(ys, p, n)
    decreases n, |xs|
  {
    if n > 0 { CountConcat(xs, ys, p, n - 1); } else { CountPrefix(xs, ys, p, |xs|); }
  }

  lemma {:induction false} CountPrefix(xs: seq<Edge>, ys: seq<Edge>, p: Edge -> bool, n: nat)
    requires n <= |xs|
    ensures CountIf(xs + ys, p, n) == CountIf(xs, p, n)
  {
    if n > 0 { CountPrefix(xs, ys, p, n - 1); }
  }

  lemma {:induction false} CountNone(xs: seq<Edge>, p: Edge -> bool, n: nat)
    requires n <= |xs| && forall e :: e in xs ==> !p(e)
    ensures CountIf(xs, p, n) == 0
  {
    if n > 0 { CountNone(xs, p, n - 1); }
  }

  lemma {:induction false} CountEvery(xs: seq<Edge>, p: Edge -> bool, n: nat)
    requires n <= |xs| && forall e :: e in xs ==> p(e)
    ensures CountIf(xs, p, n) == n
  {
    if n > 0 { CountEvery(xs, p, n - 1); }
  }

  lemma {:induction false} CountAll(xs: seq<Edge>, ys: seq<Edge>, p: Edge -> bool)
    ensures CountIf(xs + ys, p, |xs + ys|) == CountIf(xs, p, |xs|) + CountIf(ys, p, |ys|)
  {
    CountConcat(xs, ys, p, |ys|);
  }

  /** Where in a list a predicate holds. */
  ghost function Places<T>(xs: seq<T>, p: T -> bool): set<nat>
  {
    set i: nat | i < |xs| && p(xs[i])
  }

  lemma {:induction false} PlacesStep<T>(xs: seq<T>, p: T -> bool, n: nat)
    requires n < |xs|
    ensures |Places(xs[..n + 1], p)| == |Places(xs[..n], p)| + if p(xs[n]) then 1 else 0
  {
    var before, after := Places(xs[..n], p), Places(xs[..n + 1], p);
    assert after == before + if p(xs[n]) then {n} else {};
  }

  lemma {:induction false} NoPlaces<T>(xs: seq<T>, p: T -> bool)
    ensures |Places(xs[..0], p)| == 0 && xs[..|xs|] == xs
  {
    assert Places(xs[..0], p) == {};
  }

  lemma {:induction false} PlaceExists<T>(xs: seq<T>, p: T -> bool)
    ensures |Places(xs, p)| > 0 <==> exists i :: 0 <= i < |xs| && p(xs[i])
  {
    if i :| 0 <= i < |xs| && p(xs[i]) { assert i in Places(xs, p); }
    if |Places(xs, p)| > 0 { var i :| i in Places(xs, p); }
  }
}
