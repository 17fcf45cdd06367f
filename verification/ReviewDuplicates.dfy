/** Detecting possible duplicates among the drafts of one review lane. Title normalisation and the
    tokens of a title are given; an absent source path or heading is the empty string. */
module ReviewDuplicates {
  import opened Results

  datatype Item = Item(filename: string, title: string, sourcePath: string, firstHeading: string)

  datatype Reason = SameTitle | SameSource | SameHeading | SimilarTokens

  datatype Duplicate = Duplicate(itemA: string, itemB: string, reason: Reason)

  // ----- equal keys

  type Key = Item -> Option<string>

  function TitleKey(norm: string -> string): Key { (item: Item) => Some(norm(item.title)) }
  function SourceKey(): Key { (item: Item) => if item.sourcePath == "" then None else Some(item.sourcePath) }
  function HeadingKey(norm: string -> string): Key
  {
    (item: Item) => if item.firstHeading == "" then None else Some(norm(item.firstHeading))
  }

  /** The first of the first `n` items with a given key. */
  function Earliest(key: Key, items: seq<Item>, n: nat, k: string): (i: Option<nat>)
    requires n <= |items|
    ensures i.Some? ==> i.value < n && key(items[i.value]) == Some(k)
    ensures i.Some? ==> forall j :: 0 <= j < i.value ==> key(items[j]) != Some(k)
    ensures i.None? ==> forall j :: 0 <= j < n ==> key(items[j]) != Some(k)
  {
    if n == 0 then None
    else
      match Earliest(key, items, n - 1, k)
      case Some(i) => Some(i)
      case None => if key(items[n - 1]) == Some(k) then Some(n - 1) else None
  }

  /** An item is reported with the first item before it that has the same key. */
  function Entry(key: Key, reason: Reason, items: seq<Item>, k: nat): seq<Duplicate>
    requires k < |items|
  {
    if key(items[k]).None? then []
    else
      match Earliest(key, items, k, key(items[k]).value)
      case None => []
      case Some(i) => [Duplicate(items[i].filename, items[k].filename, reason)]
  }

  function EqualKeys(norm: string -> string, items: seq<Item>, n: nat): seq<Duplicate>
    requires n <= |items|
  {
    if n == 0 then []
    else
      EqualKeys(norm, items, n - 1)
      + Entry(TitleKey(norm), SameTitle, items, n - 1)
      + Entry(SourceKey(), SameSource, items, n - 1)
      + Entry(HeadingKey(norm), SameHeading, items, n - 1)
  }

  // ----- similar titles

  type Tokens = string -> set<string>

  /** Jaccard similarity of at least 0.7, as a ratio of integers. */
  predicate Similar(tokens: Tokens, a: Item, b: Item)
  {
    var x, y := tokens(a.title), tokens(b.title);
    x != {} && y != {} && 10 * |x * y| >= 7 * |x + y|
  }

  predicate SamePair(d: Duplicate, a: string, b: string)
  {
    (d.itemA == a && d.itemB == b) || (d.itemB == a && d.itemA == b)
  }

  predicate Reported(found: seq<Duplicate>, a: string, b: string)
  {
    exists k :: 0 <= k < |found| && SamePair(found[k], a, b)
  }

  function Compare(tokens: Tokens, found: seq<Duplicate>, a: Item, b: Item): seq<Duplicate>
  {
    if Similar(tokens, a, b) && !Reported(found, a.filename, b.filename)
    then found + [Duplicate(a.filename, b.filename, SimilarTokens)] else found
  }

  /** Item `i` compared with the items after it, up to `j`. */
  function Row(tokens: Tokens, items: seq<Item>, found: seq<Duplicate>, i: nat, j: nat): seq<Duplicate>
    requires i < j <= |items|
    decreases j
  {
    if j == i + 1 then found
    else Compare(tokens, Row(tokens, items, found, i, j - 1), items[i], items[j - 1])
  }

  function Rows(tokens: Tokens, items: seq<Item>, found: seq<Duplicate>, n: nat): seq<Duplicate>
    requires n <= |items|
  {
    if n == 0 then found else Row(tokens, items, Rows(tokens, items, found, n - 1), n - 1, |items|)
  }

  function Detected(norm: string -> string, tokens: Tokens, items: seq<Item>): seq<Duplicate>
  {
    Rows(tokens, items, EqualKeys(norm, items, |items|), |items|)
  }

  // ----- the loops

  /** A seen-map holds, for every key met so far, the first item with it. */
  ghost predicate Seen(key: Key, items: seq<Item>, n: nat, seen: map<string, Item>)
    requires n <= |items|
  {
    forall k ::
      var first := Earliest(key, items, n, k);
      (k in seen <==> first.Some?) && (k in seen ==> seen[k] == items[first.value])
  }

  /** One key of one item, against one seen-map. */
  method Meet(key: Key, reason: Reason, ghost items: seq<Item>, ghost n: nat, item: Item, seen: map<string, Item>)
    returns (entry: seq<Duplicate>, seen': map<string, Item>)
    requires n < |items| && items[n] == item && Seen(key, items, n, seen)
    ensures entry == Entry(key, reason, items, n) && Seen(key, items, n + 1, seen')
  {
    entry, seen' := [], seen;
    var k := key(item);
    if k.Some? {
      if k.value in seen {
        entry := [Duplicate(seen[k.value].filename, item.filename, reason)];
      } else {
        seen' := seen[k.value := item];
      }
    }
  }

  method AnyReported(found: seq<Duplicate>, a: string, b: string) returns (already: bool)
    ensures already <==> Reported(found, a, b)
  {
    already := false;
    for k := 0 to |found|
      invariant already <==> exists m :: 0 <= m < k && SamePair(found[m], a, b)
    {
      if SamePair(found[k], a, b) { already := true; }
    }
  }

  method DetectPossibleDuplicates(norm: string -> string, tokens: Tokens, items: seq<Item>)
    returns (found: seq<Duplicate>)
    ensures found == Detected(norm, tokens, items)
  {
    hide Entry, Seen, Similar, TitleKey, SourceKey, HeadingKey;
    found := [];
    var titles: map<string, Item>, sources: map<string, Item>, headings: map<string, Item> := map[], map[], map[];
    NothingSeen(TitleKey(norm), items);
    NothingSeen(SourceKey(), items);
    NothingSeen(HeadingKey(norm), items);
    for n := 0 to |items|
      invariant found == EqualKeys(norm, items, n)
      invariant Seen(TitleKey(norm), items, n, titles)
      invariant Seen(SourceKey(), items, n, sources)
      invariant Seen(HeadingKey(norm), items, n, headings)
    {
      var entry: seq<Duplicate>;
      entry, titles := Meet(TitleKey(norm), SameTitle, items, n, items[n], titles);
      found := found + entry;
      entry, sources := Meet(SourceKey(), SameSource, items, n, items[n], sources);
      found := found + entry;
      entry, headings := Meet(HeadingKey(norm), SameHeading, items, n, items[n], headings);
      found := found + entry;
    }
    for i := 0 to |items|
      invariant found == Rows(tokens, items, EqualKeys(norm, items, |items|), i)
    {
      for j := i + 1 to |items|
        invariant found == Row(tokens, items, Rows(tokens, items, EqualKeys(norm, items, |items|), i), i, j)
      {
        if Similar(tokens, items[i], items[j]) {
          var already := AnyReported(found, items[i].filename, items[j].filename);
          if !already {
            found := found + [Duplicate(items[i].filename, items[j].filename, SimilarTokens)];
          }
        }
      }
    }
  }

  lemma {:induction false} NothingSeen(key: Key, items: seq<Item>)
    ensures Seen(key, items, 0, map[])
  {
  }
}
