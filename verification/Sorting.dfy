/** The stable sort both Python's `sorted`/`list.sort` and the JavaScript `sort` provide. */
module Sorting {

  ghost predicate TotalPreorder<T(!new)>(leq: (T, T) -> bool)
  {
    && (forall x, y :: leq(x, y) || leq(y, x))
    && (forall x, y, z :: leq(x, y) && leq(y, z) ==> leq(x, z))
  }

  ghost predicate SortedBy<T>(xs: seq<T>, leq: (T, T) -> bool)
  {
    forall i, j :: 0 <= i < j < |xs| ==> leq(xs[i], xs[j])
  }

  function Insert<T>(x: T, xs: seq<T>, leq: (T, T) -> bool): seq<T>
  {
    if xs == [] || leq(x, xs[0]) then [x] + xs else [xs[0]] + Insert(x, xs[1..], leq)
  }

  function Sort<T>(xs: seq<T>, leq: (T, T) -> bool): seq<T>
  {
    if xs == [] then [] else Insert(xs[0], Sort(xs[1..], leq), leq)
  }

  lemma {:induction false} InsertKeepsElements<T>(x: T, xs: seq<T>, leq: (T, T) -> bool)
    ensures multiset(Insert(x, xs, leq)) == multiset{x} + multiset(xs)
    ensures |Insert(x, xs, leq)| == |xs| + 1
  {
    if !(xs == [] || leq(x, xs[0])) {
      InsertKeepsElements(x, xs[1..], leq);
      assert xs == [xs[0]] + xs[1..];
    }
  }

  lemma {:induction false} SortKeepsElements<T>(xs: seq<T>, leq: (T, T) -> bool)
    ensures multiset(Sort(xs, leq)) == multiset(xs)
    ensures |Sort(xs, leq)| == |xs|
  {
    if xs != [] {
      SortKeepsElements(xs[1..], leq);
      InsertKeepsElements(xs[0], Sort(xs[1..], leq), leq);
      assert xs == [xs[0]] + xs[1..];
    }
  }

  lemma {:induction false} InsertSorts<T(!new)>(x: T, xs: seq<T>, leq: (T, T) -> bool)
    requires TotalPreorder(leq) && SortedBy(xs, leq)
    ensures SortedBy(Insert(x, xs, leq), leq)
  {
    if !(xs == [] || leq(x, xs[0])) {
      InsertSorts(x, xs[1..], leq);
      InsertKeepsElements(x, xs[1..], leq);
      var tail := Insert(x, xs[1..], leq);
      forall j | 0 <= j < |tail| ensures leq(xs[0], tail[j]) {
        assert tail[j] in multiset(tail);
        assert tail[j] == x || tail[j] in xs[1..];
      }
    }
  }

  lemma {:induction false} SortSorts<T(!new)>(xs: seq<T>, leq: (T, T) -> bool)
    requires TotalPreorder(leq)
    ensures SortedBy(Sort(xs, leq), leq)
  {
    if xs != [] {
      SortSorts(xs[1..], leq);
      InsertSorts(xs[0], Sort(xs[1..], leq), leq);
    }
  }

  /** The elements a predicate holds of, in order. */
  function Keeping<T>(xs: seq<T>, p: T -> bool): seq<T>
  {
    if xs == [] then [] else (if p(xs[0]) then [xs[0]] else []) + Keeping(xs[1..], p)
  }

  lemma {:induction false} InsertStable<T>(x: T, xs: seq<T>, leq: (T, T) -> bool, p: T -> bool)
    requires p(x) ==> forall i :: 0 <= i < |xs| && p(xs[i]) ==> leq(x, xs[i])
    ensures Keeping(Insert(x, xs, leq), p) == (if p(x) then [x] else []) + Keeping(xs, p)
  {
    if xs == [] || leq(x, xs[0]) {
      KeepingCons(x, xs, p);
    } else {
      assert p(x) ==> !p(xs[0]);
      forall i | 0 <= i < |xs[1..]| && p(x) && p(xs[1..][i]) ensures leq(x, xs[1..][i]) {
        assert xs[1..][i] == xs[i + 1];
      }
      InsertStable(x, xs[1..], leq, p);
      KeepingCons(xs[0], Insert(x, xs[1..], leq), p);
      KeepingCons(xs[0], xs[1..], p);
      assert [xs[0]] + xs[1..] == xs;
    }
  }

  lemma {:induction false} KeepingCons<T>(x: T, xs: seq<T>, p: T -> bool)
    ensures Keeping([x] + xs, p) == (if p(x) then [x] else []) + Keeping(xs, p)
  {
    assert ([x] + xs)[1..] == xs;
  }

  /** Elements that tie keep their order. */
  lemma {:induction false} SortStable<T>(xs: seq<T>, leq: (T, T) -> bool, p: T -> bool)
    requires forall y, z :: y in xs && z in xs && p(y) && p(z) ==> leq(y, z)
    ensures Keeping(Sort(xs, leq), p) == Keeping(xs, p)
  {
    if xs != [] {
      SortStable(xs[1..], leq, p);
      SortKeepsElements(xs[1..], leq);
      var tail := Sort(xs[1..], leq);
      forall i | 0 <= i < |tail| ensures tail[i] in xs { assert tail[i] in multiset(xs[1..]); }
      InsertStable(xs[0], Sort(xs[1..], leq), leq, p);
    }
  }
}
