/** The duplicate detector finds every similar pair, reports nothing without cause, and its token pass
    never repeats a pair. */
module ReviewDuplicateLaws {
  import opened ReviewDuplicates

  // ----- completeness and no repetition

  lemma {:induction false} RowExtends(tokens: Tokens, items: seq<Item>, found: seq<Duplicate>, i: nat, j: nat)
    requires i < j <= |items|
    ensures found <= Row(tokens, items, found, i, j)
    decreases j
  {
    hide Similar, Reported;
    if j > i + 1 { RowExtends(tokens, items, found, i, j - 1); }
  }

  lemma {:induction false} StillReported(found: seq<Duplicate>, more: seq<Duplicate>, a: string, b: string)
    requires found <= more && Reported(found, a, b)
    ensures Reported(more, a, b)
  {
    var k :| 0 <= k < |found| && SamePair(found[k], a, b);
    assert more[k] == found[k];
  }

  lemma {:induction false} CompareReports(tokens: Tokens, found: seq<Duplicate>, a: Item, b: Item)
    requires Similar(tokens, a, b)
    ensures Reported(Compare(tokens, found, a, b), a.filename, b.filename)
  {
    hide Similar;
    var after := Compare(tokens, found, a, b);
    if !Reported(found, a.filename, b.filename) { assert SamePair(after[|found|], a.filename, b.filename); }
  }

  lemma {:induction false} RowReports(tokens: Tokens, items: seq<Item>, found: seq<Duplicate>, i: nat, j: nat, k: nat)
    requires i < k < j <= |items| && Similar(tokens, items[i], items[k])
    ensures Reported(Row(tokens, items, found, i, j), items[i].filename, items[k].filename)
    decreases j
  {
    hide Similar, Reported, Compare;
    if k == j - 1 {
      CompareReports(tokens, Row(tokens, items, found, i, j - 1), items[i], items[k]);
    } else {
      RowReports(tokens, items, found, i, j - 1, k);
      CompareExtends(tokens, Row(tokens, items, found, i, j - 1), items[i], items[j - 1]);
      StillReported(Row(tokens, items, found, i, j - 1), Row(tokens, items, found, i, j), items[i].filename,
          items[k].filename);
    }
  }

  lemma {:induction false} CompareExtends(tokens: Tokens, found: seq<Duplicate>, a: Item, b: Item)
    ensures found <= Compare(tokens, found, a, b)
  {
    hide Similar, Reported;
  }

  lemma {:induction false} RowsReport(tokens: Tokens, items: seq<Item>, found: seq<Duplicate>, n: nat, i: nat, j: nat)
    requires i < n <= |items| && i < j < |items| && Similar(tokens, items[i], items[j])
    ensures Reported(Rows(tokens, items, found, n), items[i].filename, items[j].filename)
  {
    hide Similar, Reported, Row;
    if i == n - 1 {
      RowReports(tokens, items, Rows(tokens, items, found, n - 1), i, |items|, j);
    } else {
      RowsReport(tokens, items, found, n - 1, i, j);
      RowExtends(tokens, items, Rows(tokens, items, found, n - 1), n - 1, |items|);
      StillReported(Rows(tokens, items, found, n - 1), Rows(tokens, items, found, n), items[i].filename,
          items[j].filename);
    }
  }

  /** The token sets of both titles are not empty and share at least seven tenths of their union. */
  predicate Alike(x: set<string>, y: set<string>) { x != {} && y != {} && |x * y| * 10 >= |x + y| * 7 }

  lemma {:induction false} AlikeExactly(tokens: Tokens, a: Item, b: Item)
    ensures Alike(tokens(a.title), tokens(b.title)) <==> Similar(tokens, a, b)
  {
  }

  lemma {:induction false} ReportedExactly(found: seq<Duplicate>, a: string, b: string)
    ensures Reported(found, a, b) <==> exists k :: 0 <= k < |found| && {found[k].itemA, found[k].itemB} == {a, b}
  {
    forall k | 0 <= k < |found| ensures SamePair(found[k], a, b) <==> {found[k].itemA, found[k].itemB} == {a, b} {
      assert found[k].itemA in {found[k].itemA, found[k].itemB} && found[k].itemB in {found[k].itemA, found[k].itemB};
      assert a in {a, b} && b in {a, b};
    }
  }

  /** Every pair of items with alike titles is named by some entry. */
  lemma {:induction false} DetectionComplete(norm: string -> string, tokens: Tokens, items: seq<Item>, i: nat, j: nat)
    requires i < j < |items| && Alike(tokens(items[i].title), tokens(items[j].title))
    ensures exists d ::
      d in Detected(norm, tokens, items) && {d.itemA, d.itemB} == {items[i].filename, items[j].filename}
  {
    hide Similar, Reported, Rows, EqualKeys, Alike;
    AlikeExactly(tokens, items[i], items[j]);
    RowsReport(tokens, items, EqualKeys(norm, items, |items|), |items|, i, j);
    var found := Detected(norm, tokens, items);
    ReportedExactly(found, items[i].filename, items[j].filename);
    var k :| 0 <= k < |found| && {found[k].itemA, found[k].itemB} == {items[i].filename, items[j].filename};
    assert found[k] in found;
  }

  // ----- what the token pass adds

  /** Entry `k` was added by the token pass: it joins two items with alike titles, in order, and no entry
      before it names the pair in either orientation. */
  ghost predicate TokenEntry(tokens: Tokens, items: seq<Item>, found: seq<Duplicate>, k: nat)
    requires k < |found|
  {
    && found[k].reason == SimilarTokens
    && (forall m :: 0 <= m < k ==> {found[m].itemA, found[m].itemB} != {found[k].itemA, found[k].itemB})
    && exists i, j :: 0 <= i < j < |items| && JoinsSimilar(tokens, items, found[k], i, j)
  }

  ghost predicate JoinsSimilar(tokens: Tokens, items: seq<Item>, d: Duplicate, i: nat, j: nat)
    requires i < |items| && j < |items|
  {
    && d.itemA == items[i].filename && d.itemB == items[j].filename
    && Alike(tokens(items[i].title), tokens(items[j].title))
  }

  ghost predicate TokenEntriesFrom(tokens: Tokens, items: seq<Item>, found: seq<Duplicate>, from: nat)
  {
    forall k :: from <= k < |found| ==> TokenEntry(tokens, items, found, k)
  }

  lemma {:induction false} CompareAddsTokenEntry(tokens: Tokens, items: seq<Item>, found: seq<Duplicate>, from: nat,
      i: nat, j: nat)
    requires i < j < |items| && from <= |found| && TokenEntriesFrom(tokens, items, found, from)
    ensures TokenEntriesFrom(tokens, items, Compare(tokens, found, items[i], items[j]), from)
  {
    hide Similar, Reported, Alike;
    AlikeExactly(tokens, items[i], items[j]);
    ReportedExactly(found, items[i].filename, items[j].filename);
    var after := Compare(tokens, found, items[i], items[j]);
    forall k | from <= k < |after| ensures TokenEntry(tokens, items, after, k) {
      if k < |found| {
        assert after[k] == found[k];
        assert TokenEntry(tokens, items, found, k);
      } else {
        assert JoinsSimilar(tokens, items, after[k], i, j);
      }
    }
  }

  lemma {:induction false} RowAddsTokenEntries(tokens: Tokens, items: seq<Item>, found: seq<Duplicate>, from: nat,
      i: nat, j: nat)
    requires i < j <= |items| && from <= |found| && TokenEntriesFrom(tokens, items, found, from)
    ensures TokenEntriesFrom(tokens, items, Row(tokens, items, found, i, j), from)
    decreases j
  {
    hide TokenEntriesFrom, Compare;
    if j > i + 1 {
      RowAddsTokenEntries(tokens, items, found, from, i, j - 1);
      RowExtends(tokens, items, found, i, j - 1);
      CompareAddsTokenEntry(tokens, items, Row(tokens, items, found, i, j - 1), from, i, j - 1);
    }
  }

  lemma {:induction false} RowsAddTokenEntries(tokens: Tokens, items: seq<Item>, found: seq<Duplicate>, n: nat)
    requires n <= |items|
    ensures found <= Rows(tokens, items, found, n)
    ensures TokenEntriesFrom(tokens, items, Rows(tokens, items, found, n), |found|)
  {
    hide TokenEntry, Row;
    if n > 0 {
      RowsAddTokenEntries(tokens, items, found, n - 1);
      RowExtends(tokens, items, Rows(tokens, items, found, n - 1), n - 1, |items|);
      RowAddsTokenEntries(tokens, items, Rows(tokens, items, found, n - 1), |found|, n - 1, |items|);
    }
  }

  /** The result is the equal-key entries followed by token entries, none of which repeats a pair
      reported before it in either orientation. */
  lemma {:induction false} TokenPassNeverRepeats(norm: string -> string, tokens: Tokens, items: seq<Item>)
    ensures var found, equal := Detected(norm, tokens, items), EqualKeys(norm, items, |items|);
      equal <= found && TokenEntriesFrom(tokens, items, found, |equal|)
  {
    hide TokenEntriesFrom, Rows, EqualKeys;
    RowsAddTokenEntries(tokens, items, EqualKeys(norm, items, |items|), |items|);
  }

  // ----- soundness of the first pass

  function KeyOf(norm: string -> string, reason: Reason): Key
    requires reason != SimilarTokens
  {
    match reason
    case SameTitle => TitleKey(norm)
    case SameSource => SourceKey()
    case SameHeading => HeadingKey(norm)
  }

  /** The entry names item `j` and the first item with `j`'s key, which stands before it. */
  ghost predicate NamesFirst(key: Key, items: seq<Item>, d: Duplicate, i: nat, j: nat)
    requires i < |items| && j < |items|
  {
    && d.itemA == items[i].filename && d.itemB == items[j].filename
    && i < j && key(items[j]).Some? && key(items[i]) == key(items[j])
    && forall k :: 0 <= k < i ==> key(items[k]) != key(items[j])
  }

  ghost predicate KeyEntry(norm: string -> string, items: seq<Item>, d: Duplicate)
  {
    d.reason != SimilarTokens &&
    exists i, j :: 0 <= i < |items| && 0 <= j < |items| && NamesFirst(KeyOf(norm, d.reason), items, d, i, j)
  }

  lemma {:induction false} EntryJustified(norm: string -> string, reason: Reason, items: seq<Item>, k: nat)
    requires reason != SimilarTokens && k < |items|
    ensures forall d :: d in Entry(KeyOf(norm, reason), reason, items, k) ==> KeyEntry(norm, items, d)
  {
    hide KeyOf;
    var key := KeyOf(norm, reason);
    if key(items[k]).Some? {
      var i := Earliest(key, items, k, key(items[k]).value);
      if i.Some? {
        assert NamesFirst(key, items, Duplicate(items[i.value].filename, items[k].filename, reason), i.value, k);
      }
    }
  }

  /** Every equal-key entry names an item and the first item before it with the same key. */
  lemma {:induction false} EqualKeysJustified(norm: string -> string, items: seq<Item>, n: nat)
    requires n <= |items|
    ensures forall d :: d in EqualKeys(norm, items, n) ==> KeyEntry(norm, items, d)
  {
    hide Entry, KeyEntry;
    if n > 0 {
      EqualKeysJustified(norm, items, n - 1);
      EntryJustified(norm, SameTitle, items, n - 1);
      EntryJustified(norm, SameSource, items, n - 1);
      EntryJustified(norm, SameHeading, items, n - 1);
    }
  }

  lemma {:induction false} KeyEntryReason(norm: string -> string, items: seq<Item>, d: Duplicate)
    requires KeyEntry(norm, items, d)
    ensures d.reason != SimilarTokens
  {
  }

  /** Every entry of the result is justified by its reason. */
  lemma {:induction false} DetectionSound(norm: string -> string, tokens: Tokens, items: seq<Item>, k: nat)
    requires k < |Detected(norm, tokens, items)|
    ensures var found := Detected(norm, tokens, items);
      if found[k].reason == SimilarTokens
      then exists i, j :: 0 <= i < j < |items| && JoinsSimilar(tokens, items, found[k], i, j)
      else KeyEntry(norm, items, found[k])
  {
    hide KeyEntry, Detected, EqualKeys, JoinsSimilar;
    var found, equal := Detected(norm, tokens, items), EqualKeys(norm, items, |items|);
    TokenPassNeverRepeats(norm, tokens, items);
    EqualKeysJustified(norm, items, |items|);
    if k < |equal| {
      assert found[k] == equal[k] && equal[k] in equal;
      KeyEntryReason(norm, items, equal[k]);
    } else {
      assert TokenEntry(tokens, items, found, k);
    }
  }

  // ----- the equal-key entries, written out

  lemma {:induction false} EntryPresent(norm: string -> string, reason: Reason, items: seq<Item>, n: nat, i: nat,
      j: nat)
    requires reason != SimilarTokens && j < n <= |items| && i < |items|
    requires NamesFirst(KeyOf(norm, reason), items, Duplicate(items[i].filename, items[j].filename, reason), i, j)
    ensures Duplicate(items[i].filename, items[j].filename, reason) in EqualKeys(norm, items, n)
  {
    hide TitleKey, SourceKey, HeadingKey, Entry;
    if j < n - 1 {
      EntryPresent(norm, reason, items, n - 1, i, j);
    } else {
      EntryIs(KeyOf(norm, reason), reason, items, i, j);
    }
  }

  lemma {:induction false} EntryIs(key: Key, reason: Reason, items: seq<Item>, i: nat, j: nat)
    requires i < |items| && j < |items|
    requires NamesFirst(key, items, Duplicate(items[i].filename, items[j].filename, reason), i, j)
    ensures Entry(key, reason, items, j) == [Duplicate(items[i].filename, items[j].filename, reason)]
  {
  }

  /** An equal-key entry is there exactly when two items have the key it speaks of in common, and the one
      named first is the first to have it. */
  lemma {:induction false} KeyEntryExactly(norm: string -> string, tokens: Tokens, items: seq<Item>, d: Duplicate)
    requires d.reason != SimilarTokens
    ensures d in Detected(norm, tokens, items) <==> KeyEntry(norm, items, d)
  {
    hide EqualKeys, Detected, KeyOf, NamesFirst;
    var found, equal := Detected(norm, tokens, items), EqualKeys(norm, items, |items|);
    if d in found {
      var k :| 0 <= k < |found| && found[k] == d;
      DetectionSound(norm, tokens, items, k);
    }
    if KeyEntry(norm, items, d) {
      var i, j :| 0 <= i < |items| && 0 <= j < |items| && NamesFirst(KeyOf(norm, d.reason), items, d, i, j);
      EntryNamed(KeyOf(norm, d.reason), items, d, i, j);
      EntryPresent(norm, d.reason, items, |items|, i, j);
      TokenPassNeverRepeats(norm, tokens, items);
      var k :| 0 <= k < |equal| && equal[k] == d;
      assert found[k] == d;
    }
  }

  lemma {:induction false} EntryNamed(key: Key, items: seq<Item>, d: Duplicate, i: nat, j: nat)
    requires i < |items| && j < |items| && NamesFirst(key, items, d, i, j)
    ensures d == Duplicate(items[i].filename, items[j].filename, d.reason)
  {
  }

  ghost predicate Joins(items: seq<Item>, d: Duplicate, i: nat, j: nat)
  {
    i < j < |items| && d.itemA == items[i].filename && d.itemB == items[j].filename
  }

  /** Two items have one normalised title, and the first of them is the first with it. */
  ghost predicate TitleEntry(norm: string -> string, items: seq<Item>, d: Duplicate)
  {
    exists i: nat, j: nat :: Joins(items, d, i, j) && norm(items[i].title) == norm(items[j].title)
      && forall k :: 0 <= k < i ==> norm(items[k].title) != norm(items[j].title)
  }

  /** Two items have one source path, not empty, and the first of them is the first with it. */
  ghost predicate SourceEntry(items: seq<Item>, d: Duplicate)
  {
    exists i: nat, j: nat :: Joins(items, d, i, j)
      && items[i].sourcePath == items[j].sourcePath && items[j].sourcePath != ""
      && forall k :: 0 <= k < i ==> items[k].sourcePath != items[j].sourcePath
  }

  /** Two items with first headings have one when normalised, and the first of them is the first with it. */
  ghost predicate HeadingEntry(norm: string -> string, items: seq<Item>, d: Duplicate)
  {
    exists i: nat, j: nat :: Joins(items, d, i, j) && items[i].firstHeading != "" && items[j].firstHeading != ""
      && norm(items[i].firstHeading) == norm(items[j].firstHeading)
      && forall k :: 0 <= k < i && items[k].firstHeading != "" ==>
           norm(items[k].firstHeading) != norm(items[j].firstHeading)
  }

  lemma {:induction false} TitleEntryExactly(norm: string -> string, tokens: Tokens, items: seq<Item>, d: Duplicate)
    requires d.reason == SameTitle
    ensures d in Detected(norm, tokens, items) <==> TitleEntry(norm, items, d)
  {
    hide Detected;
    KeyEntryExactly(norm, tokens, items, d);
    if TitleEntry(norm, items, d) {
      var i: nat, j: nat :| Joins(items, d, i, j) && norm(items[i].title) == norm(items[j].title)
        && forall k :: 0 <= k < i ==> norm(items[k].title) != norm(items[j].title);
      assert NamesFirst(KeyOf(norm, SameTitle), items, d, i, j);
    }
    if KeyEntry(norm, items, d) {
      var i, j :| 0 <= i < |items| && 0 <= j < |items| && NamesFirst(KeyOf(norm, SameTitle), items, d, i, j);
      assert Joins(items, d, i, j);
    }
  }

  lemma {:induction false} SourceEntryExactly(norm: string -> string, tokens: Tokens, items: seq<Item>, d: Duplicate)
    requires d.reason == SameSource
    ensures d in Detected(norm, tokens, items) <==> SourceEntry(items, d)
  {
    hide Detected;
    KeyEntryExactly(norm, tokens, items, d);
    if SourceEntry(items, d) {
      var i: nat, j: nat :| Joins(items, d, i, j)
        && items[i].sourcePath == items[j].sourcePath && items[j].sourcePath != ""
        && forall k :: 0 <= k < i ==> items[k].sourcePath != items[j].sourcePath;
      assert NamesFirst(KeyOf(norm, SameSource), items, d, i, j);
    }
    if KeyEntry(norm, items, d) {
      var i, j :| 0 <= i < |items| && 0 <= j < |items| && NamesFirst(KeyOf(norm, SameSource), items, d, i, j);
      assert Joins(items, d, i, j);
    }
  }

  lemma {:induction false} HeadingEntryExactly(norm: string -> string, tokens: Tokens, items: seq<Item>, d: Duplicate)
    requires d.reason == SameHeading
    ensures d in Detected(norm, tokens, items) <==> HeadingEntry(norm, items, d)
  {
    hide Detected;
    KeyEntryExactly(norm, tokens, items, d);
    if HeadingEntry(norm, items, d) {
      var i: nat, j: nat :| Joins(items, d, i, j) && items[i].firstHeading != "" && items[j].firstHeading != ""
        && norm(items[i].firstHeading) == norm(items[j].firstHeading)
        && forall k :: 0 <= k < i && items[k].firstHeading != "" ==>
             norm(items[k].firstHeading) != norm(items[j].firstHeading);
      assert NamesFirst(KeyOf(norm, SameHeading), items, d, i, j);
    }
    if KeyEntry(norm, items, d) {
      var i, j :| 0 <= i < |items| && 0 <= j < |items| && NamesFirst(KeyOf(norm, SameHeading), items, d, i, j);
      assert Joins(items, d, i, j);
    }
  }

  // ----- order

  function PassOf(reason: Reason): nat
  {
    match reason case SameTitle => 0 case SameSource => 1 case SameHeading => 2 case SimilarTokens => 3
  }

  /** `at[k]` is the item whose keys gave entry `k`: item after item, and for one item first the title, then
      the source, then the heading. */
  ghost predicate ByItem(items: seq<Item>, n: nat, entries: seq<Duplicate>, at: seq<nat>)
  {
    && |at| == |entries|
    && (forall k :: 0 <= k < |at| ==>
         at[k] < n <= |items| && entries[k].itemB == items[at[k]].filename && entries[k].reason != SimilarTokens)
    && (forall k, l :: 0 <= k < l < |at| ==>
         at[k] < at[l] || (at[k] == at[l] && PassOf(entries[k].reason) < PassOf(entries[l].reason)))
  }

  lemma {:induction false} OneMoreEntry(key: Key, reason: Reason, items: seq<Item>, i: nat, entries: seq<Duplicate>,
      at: seq<nat>) returns (at': seq<nat>)
    requires i < |items| && reason != SimilarTokens && ByItem(items, i + 1, entries, at)
    requires forall k :: 0 <= k < |at| && at[k] == i ==> PassOf(entries[k].reason) < PassOf(reason)
    ensures ByItem(items, i + 1, entries + Entry(key, reason, items, i), at')
    ensures at <= at'
    ensures forall k :: |at| <= k < |at'| ==>
      at'[k] == i && (entries + Entry(key, reason, items, i))[k].reason == reason
  {
    hide PassOf;
    var entry := Entry(key, reason, items, i);
    assert |entry| <= 1;
    at' := at + seq(|entry|, _ => i);
  }

  lemma {:induction false} KeysInOrder(norm: string -> string, items: seq<Item>, n: nat) returns (at: seq<nat>)
    requires n <= |items|
    ensures ByItem(items, n, EqualKeys(norm, items, n), at)
  {
    hide Entry;
    if n == 0 {
      at := [];
    } else {
      var before := KeysInOrder(norm, items, n - 1);
      var entries := EqualKeys(norm, items, n - 1);
      var one := OneMoreEntry(TitleKey(norm), SameTitle, items, n - 1, entries, before);
      var titled := entries + Entry(TitleKey(norm), SameTitle, items, n - 1);
      var two := OneMoreEntry(SourceKey(), SameSource, items, n - 1, titled, one);
      var sourced := titled + Entry(SourceKey(), SameSource, items, n - 1);
      at := OneMoreEntry(HeadingKey(norm), SameHeading, items, n - 1, sourced, two);
    }
  }

  predicate Before(a: (nat, nat), b: (nat, nat)) { a.0 < b.0 || (a.0 == b.0 && a.1 < b.1) }

  /** `pairs[k]` are the two items token entry `k` names: the earlier item first, row by row. */
  ghost predicate ByPair(items: seq<Item>, entries: seq<Duplicate>, pairs: seq<(nat, nat)>)
  {
    && |pairs| == |entries|
    && (forall k :: 0 <= k < |pairs| ==>
         pairs[k].0 < pairs[k].1 < |items| &&
         entries[k] == Duplicate(items[pairs[k].0].filename, items[pairs[k].1].filename, SimilarTokens))
    && (forall k, l :: 0 <= k < l < |pairs| ==> Before(pairs[k], pairs[l]))
  }

  lemma {:induction false} RowInOrder(tokens: Tokens, items: seq<Item>, equal: seq<Duplicate>, found: seq<Duplicate>,
      i: nat, j: nat, before: seq<(nat, nat)>) returns (pairs: seq<(nat, nat)>)
    requires i < j <= |items| && equal <= found && ByPair(items, found[|equal|..], before)
    requires forall k :: 0 <= k < |before| ==> before[k].0 < i
    ensures var row := Row(tokens, items, found, i, j); equal <= row && ByPair(items, row[|equal|..], pairs)
    ensures forall k :: 0 <= k < |pairs| ==> pairs[k].0 < i || (pairs[k].0 == i && pairs[k].1 < j)
    decreases j
  {
    hide Similar, Reported;
    if j == i + 1 {
      pairs := before;
    } else {
      pairs := RowInOrder(tokens, items, equal, found, i, j - 1, before);
      var row, longer := Row(tokens, items, found, i, j - 1), Row(tokens, items, found, i, j);
      if longer != row {
        pairs := pairs + [(i, j - 1)];
        assert longer[|equal|..]
            == row[|equal|..] + [Duplicate(items[i].filename, items[j - 1].filename, SimilarTokens)];
      }
    }
  }

  lemma {:induction false} RowsInOrder(tokens: Tokens, items: seq<Item>, equal: seq<Duplicate>, n: nat)
    returns (pairs: seq<(nat, nat)>)
    requires n <= |items|
    ensures var rows := Rows(tokens, items, equal, n); equal <= rows && ByPair(items, rows[|equal|..], pairs)
    ensures forall k :: 0 <= k < |pairs| ==> pairs[k].0 < n
  {
    hide Row;
    if n == 0 {
      pairs := [];
    } else {
      pairs := RowsInOrder(tokens, items, equal, n - 1);
      pairs := RowInOrder(tokens, items, equal, Rows(tokens, items, equal, n - 1), n - 1, |items|, pairs);
    }
  }

  /** The order of the result: first the equal-key entries, item after item, then the token entries, row
      after row. */
  lemma {:induction false} EntriesInOrder(norm: string -> string, tokens: Tokens, items: seq<Item>)
    returns (at: seq<nat>, pairs: seq<(nat, nat)>)
    ensures |Detected(norm, tokens, items)| == |at| + |pairs|
    ensures ByItem(items, |items|, Detected(norm, tokens, items)[..|at|], at)
    ensures ByPair(items, Detected(norm, tokens, items)[|at|..], pairs)
  {
    hide EqualKeys, Rows;
    at := KeysInOrder(norm, items, |items|);
    var equal := EqualKeys(norm, items, |items|);
    pairs := RowsInOrder(tokens, items, equal, |items|);
    assert Detected(norm, tokens, items)[..|at|] == equal;
  }

  // ----- counting

  function Count(found: seq<Duplicate>, reason: Reason): nat
  {
    if found == [] then 0
    else Count(found[..|found| - 1], reason) + if found[|found| - 1].reason == reason then 1 else 0
  }

  lemma {:induction false} CountConcat(a: seq<Duplicate>, b: seq<Duplicate>, reason: Reason)
    ensures Count(a + b, reason) == Count(a, reason) + Count(b, reason)
    decreases |b|
  {
    if b == [] {
      assert a + b == a;
    } else {
      CountConcat(a, b[..|b| - 1], reason);
      assert (a + b)[..|a + b| - 1] == a + b[..|b| - 1];
    }
  }

  /** The distinct keys among the first `n` items, and how many items have one. */
  function Keys(key: Key, items: seq<Item>, n: nat): set<string>
    requires n <= |items|
  {
    set i | 0 <= i < n && key(items[i]).Some? :: key(items[i]).value
  }

  function Keyed(key: Key, items: seq<Item>, n: nat): nat
    requires n <= |items|
  {
    if n == 0 then 0 else Keyed(key, items, n - 1) + if key(items[n - 1]).Some? then 1 else 0
  }

  lemma {:induction false} KeysStep(key: Key, items: seq<Item>, n: nat)
    requires n < |items|
    ensures key(items[n]).None? ==> Keys(key, items, n + 1) == Keys(key, items, n)
    ensures key(items[n]).Some? && key(items[n]).value in Keys(key, items, n) ==>
        Keys(key, items, n + 1) == Keys(key, items, n)
    ensures key(items[n]).Some? && key(items[n]).value !in Keys(key, items, n) ==>
      Keys(key, items, n + 1) == Keys(key, items, n) + {key(items[n]).value}
    ensures key(items[n]).Some? ==>
      (key(items[n]).value in Keys(key, items, n) <==> Earliest(key, items, n, key(items[n]).value).Some?)
  {
  }

  lemma {:induction false} EntryCounts(key: Key, mine: Reason, items: seq<Item>, n: nat, reason: Reason)
    requires n < |items|
    ensures Count(Entry(key, mine, items, n), reason)
         == if mine == reason && key(items[n]).Some? && key(items[n]).value in Keys(key, items, n) then 1 else 0
  {
    KeysStep(key, items, n);
    hide Keys;
    var entry := Entry(key, mine, items, n);
    if entry != [] { assert entry[..0] == []; }
  }

  lemma {:induction false} EqualKeysCount(norm: string -> string, items: seq<Item>, n: nat, reason: Reason)
    requires n <= |items| && reason != SimilarTokens
    ensures var key := KeyOf(norm, reason);
      Count(EqualKeys(norm, items, n), reason) + |Keys(key, items, n)| == Keyed(key, items, n)
  {
    hide Entry, TitleKey, SourceKey, HeadingKey, Keys;
    var key := KeyOf(norm, reason);
    if n == 0 {
      NoKeys(key, items);
    } else {
      var m := n - 1;
      EqualKeysCount(norm, items, m, reason);
      var title, source, heading := Entry(TitleKey(norm), SameTitle, items, m),
          Entry(SourceKey(), SameSource, items, m),
                                    Entry(HeadingKey(norm), SameHeading, items, m);
      CountConcat(EqualKeys(norm, items, m) + title + source, heading, reason);
      CountConcat(EqualKeys(norm, items, m) + title, source, reason);
      CountConcat(EqualKeys(norm, items, m), title, reason);
      EntryCounts(TitleKey(norm), SameTitle, items, m, reason);
      EntryCounts(SourceKey(), SameSource, items, m, reason);
      EntryCounts(HeadingKey(norm), SameHeading, items, m, reason);
      KeysStep(key, items, m);
      assert Count(EqualKeys(norm, items, n), reason) == Count(EqualKeys(norm, items, m), reason)
        + if key(items[m]).Some? && key(items[m]).value in Keys(key, items, m) then 1 else 0;
    }
  }

  lemma {:induction false} NoKeys(key: Key, items: seq<Item>)
    ensures Keys(key, items, 0) == {}
  {
  }

  lemma {:induction false} TokenEntriesCountNothing(found: seq<Duplicate>, equal: seq<Duplicate>, reason: Reason)
    requires equal <= found && forall k :: |equal| <= k < |found| ==> found[k].reason != reason
    ensures Count(found, reason) == Count(equal, reason)
    decreases |found|
  {
    if |found| == |equal| {
      assert found == equal;
    } else {
      TokenEntriesCountNothing(found[..|found| - 1], equal, reason);
    }
  }

  /** For each reason of equality: entries number the items that have the key, less the distinct keys. */
  lemma {:induction false} EntriesCounted(norm: string -> string, tokens: Tokens, items: seq<Item>, reason: Reason)
    requires reason != SimilarTokens
    ensures var key := KeyOf(norm, reason);
      Count(Detected(norm, tokens, items), reason) == Keyed(key, items, |items|) - |Keys(key, items, |items|)|
  {
    hide EqualKeys, Detected, Keys, Keyed, Count;
    var found, equal := Detected(norm, tokens, items), EqualKeys(norm, items, |items|);
    TokenPassNeverRepeats(norm, tokens, items);
    EqualKeysCount(norm, items, |items|, reason);
    forall k | |equal| <= k < |found| ensures found[k].reason != reason {
      assert TokenEntry(tokens, items, found, k);
    }
    TokenEntriesCountNothing(found, equal, reason);
  }

  lemma {:induction false} EveryItemTitled(norm: string -> string, items: seq<Item>, n: nat)
    requires n <= |items|
    ensures Keyed(TitleKey(norm), items, n) == n
  {
    if n > 0 { EveryItemTitled(norm, items, n - 1); }
  }

  /** Same-title entries number the items less the distinct normalised titles. */
  lemma {:induction false} SameTitlesCounted(norm: string -> string, tokens: Tokens, items: seq<Item>)
    ensures Count(Detected(norm, tokens, items), SameTitle)
         == |items| - |set i | 0 <= i < |items| :: norm(items[i].title)|
  {
    hide Detected, Count, Keyed;
    EntriesCounted(norm, tokens, items, SameTitle);
    EveryItemTitled(norm, items, |items|);
    assert Keys(TitleKey(norm), items, |items|) == set i | 0 <= i < |items| :: norm(items[i].title);
  }
}
