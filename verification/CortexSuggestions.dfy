/** Title similarity and missing-link suggestions: the unpruned specification and its laws. */
module CortexSuggestions {
  import opened OrderedMaps
  import opened CortexModel
  import opened CortexCounting
  import Strings

  /** The text analysis the engine relies on, left uninterpreted. */
  datatype Lexicon = Lexicon(titleWords: string -> set<string>, lower: string -> string, words: string -> seq<string>)

  // ----- ordered pairs of a list

  /** What `emit` yields for the pairs `(i, i+1) .. (i, j-1)`. */
  function PairRow<T>(emit: (NodeId, NodeId) -> seq<T>, ks: seq<NodeId>, i: nat, j: nat): seq<T>
    requires i < j <= |ks|
    decreases j
  {
    if j == i + 1 then [] else PairRow(emit, ks, i, j - 1) + emit(ks[i], ks[j - 1])
  }

  /** What `emit` yields for every pair whose first index is below `i`. */
  function PairRows<T>(emit: (NodeId, NodeId) -> seq<T>, ks: seq<NodeId>, i: nat): seq<T>
    requires i <= |ks|
  {
    if i == 0 then [] else PairRows(emit, ks, i - 1) + PairRow(emit, ks, i - 1, |ks|)
  }

  lemma {:induction false} PairRowMember<T>(emit: (NodeId, NodeId) -> seq<T>, ks: seq<NodeId>, i: nat, j: nat, x: T)
    requires i < j <= |ks|
    ensures x in PairRow(emit, ks, i, j) <==> exists b :: i < b < j && x in emit(ks[i], ks[b])
    decreases j
  {
    if j > i + 1 { PairRowMember(emit, ks, i, j - 1, x); }
  }

  /** Nothing is emitted but for a pair in list order, and every pair is tried. */
  lemma {:induction false} PairRowsMember<T>(emit: (NodeId, NodeId) -> seq<T>, ks: seq<NodeId>, i: nat, x: T)
    requires i <= |ks|
    ensures x in PairRows(emit, ks, i) <==> exists a, b :: 0 <= a < i && a < b < |ks| && x in emit(ks[a], ks[b])
  {
    hide PairRow;
    if i > 0 {
      PairRowsMember(emit, ks, i - 1, x);
      PairRowMember(emit, ks, i - 1, |ks|, x);
    }
  }

  /** A row that can yield nothing may be skipped. */
  lemma {:induction false} PairRowEmpty<T>(emit: (NodeId, NodeId) -> seq<T>, ks: seq<NodeId>, i: nat, j: nat)
    requires i < j <= |ks| && forall b :: i < b < |ks| ==> emit(ks[i], ks[b]) == []
    ensures PairRow(emit, ks, i, j) == []
    decreases j
  {
    if j > i + 1 { PairRowEmpty(emit, ks, i, j - 1); }
  }

  // ----- similar titles

  function SharedWords(lex: Lexicon, m: map<NodeId, Node>, a: NodeId, b: NodeId): set<string>
  {
    if a in m && b in m then lex.titleWords(m[a].title) * lex.titleWords(m[b].title) else {}
  }

  predicate Similar(lex: Lexicon, m: map<NodeId, Node>, a: NodeId, b: NodeId) { |SharedWords(lex, m, a, b)| >= 2 }

  ghost function SimilarityEmit(lex: Lexicon, m: map<NodeId, Node>): (NodeId, NodeId) -> seq<Edge>
  {
    (a, b) => if Similar(lex, m, a, b) then [Edge(a, b, SimilarTitle)] else []
  }

  ghost function SimilarityEdges(lex: Lexicon, m: map<NodeId, Node>, ks: seq<NodeId>): seq<Edge>
  {
    PairRows(SimilarityEmit(lex, m), ks, |ks|)
  }

  lemma {:induction false} SharedWithin(lex: Lexicon, m: map<NodeId, Node>, a: NodeId, b: NodeId)
    requires a in m
    ensures |SharedWords(lex, m, a, b)| <= |lex.titleWords(m[a].title)|
  {
    Subset(SharedWords(lex, m, a, b), lex.titleWords(m[a].title));
  }

  lemma {:induction false} Subset<T>(a: set<T>, b: set<T>)
    requires a <= b
    ensures |a| <= |b|
  {
    if a != {} {
      var x :| x in a;
      Subset(a - {x}, b - {x});
    }
  }

  lemma {:induction false} SimilarityEmitted(lex: Lexicon, m: map<NodeId, Node>, a: NodeId, b: NodeId)
    requires a in m && b in m
    ensures SimilarityEmit(lex, m)(a, b)
      == if |lex.titleWords(m[a].title) * lex.titleWords(m[b].title)| >= 2 then [Edge(a, b, SimilarTitle)] else []
  {
  }

  /** A note with fewer than two title words shares two with nobody. */
  lemma {:induction false} PrunedRow(lex: Lexicon, m: map<NodeId, Node>, ks: seq<NodeId>, i: nat)
    requires i < |ks| && Present(m, ks) && |lex.titleWords(m[ks[i]].title)| < 2
    ensures PairRow(SimilarityEmit(lex, m), ks, i, |ks|) == []
  {
    forall b | i < b < |ks| ensures SimilarityEmit(lex, m)(ks[i], ks[b]) == [] {
      SharedWithin(lex, m, ks[i], ks[b]);
    }
    PairRowEmpty(SimilarityEmit(lex, m), ks, i, |ks|);
  }

  lemma {:induction false} SimilarSymmetric(lex: Lexicon, m: map<NodeId, Node>, a: NodeId, b: NodeId)
    ensures SharedWords(lex, m, a, b) == SharedWords(lex, m, b, a)
  {
  }

  /** Edges between two notes, in either direction. */
  ghost function Joining(x: NodeId, y: NodeId): Edge -> bool
  {
    (e: Edge) => (e.source == x && e.target == y) || (e.source == y && e.target == x)
  }

  lemma {:induction false} EmitCount(lex: Lexicon, m: map<NodeId, Node>, ks: seq<NodeId>, i: nat, j: nat, a: nat,
      b: nat)
    requires i < j < |ks| && a < b < |ks| && Distinct(ks)
    ensures var row := SimilarityEmit(lex, m)(ks[i], ks[j]);
      CountIf(row, Joining(ks[a], ks[b]), |row|) == if a == i && b == j && Similar(lex, m, ks[a], ks[b]) then 1 else 0
  {
    hide Similar;
    DistinctAt(ks, i, a);
    DistinctAt(ks, j, b);
    DistinctAt(ks, i, b);
    DistinctAt(ks, j, a);
    if Similar(lex, m, ks[i], ks[j]) {
      assert SimilarityEmit(lex, m)(ks[i], ks[j]) == [Edge(ks[i], ks[j], SimilarTitle)];
      assert CountIf([Edge(ks[i], ks[j], SimilarTitle)], Joining(ks[a], ks[b]), 0) == 0;
    }
  }

  lemma {:induction false} RowCount(lex: Lexicon, m: map<NodeId, Node>, ks: seq<NodeId>, i: nat, j: nat, a: nat, b: nat)
    requires i < j <= |ks| && a < b < |ks| && Distinct(ks)
    ensures var row := PairRow(SimilarityEmit(lex, m), ks, i, j);
      CountIf(row, Joining(ks[a], ks[b]), |row|) == if a == i && b < j && Similar(lex, m, ks[a], ks[b]) then 1 else 0
    decreases j
  {
    hide Similar, SimilarityEmit, Distinct, Joining;
    if j > i + 1 {
      RowCount(lex, m, ks, i, j - 1, a, b);
      EmitCount(lex, m, ks, i, j - 1, a, b);
      CountAll(PairRow(SimilarityEmit(lex, m), ks, i, j - 1), SimilarityEmit(lex, m)(ks[i], ks[j - 1]),
          Joining(ks[a], ks[b]));
    }
  }

  lemma {:induction false} RowsCount(lex: Lexicon, m: map<NodeId, Node>, ks: seq<NodeId>, i: nat, a: nat, b: nat)
    requires i <= |ks| && a < b < |ks| && Distinct(ks)
    ensures var rows := PairRows(SimilarityEmit(lex, m), ks, i);
      CountIf(rows, Joining(ks[a], ks[b]), |rows|) == if a < i && Similar(lex, m, ks[a], ks[b]) then 1 else 0
  {
    hide Similar, SimilarityEmit, Distinct, PairRow, Joining;
    if i > 0 {
      RowsCount(lex, m, ks, i - 1, a, b);
      RowCount(lex, m, ks, i - 1, |ks|, a, b);
      CountAll(PairRows(SimilarityEmit(lex, m), ks, i - 1), PairRow(SimilarityEmit(lex, m), ks, i - 1, |ks|),
          Joining(ks[a], ks[b]));
    }
  }

  lemma {:induction false} JoiningSymmetric(edges: seq<Edge>, n: nat, x: NodeId, y: NodeId)
    requires n <= |edges|
    ensures CountIf(edges, Joining(x, y), n) == CountIf(edges, Joining(y, x), n)
  {
    if n > 0 { JoiningSymmetric(edges, n - 1, x, y); }
  }

  /** Every unordered pair of notes with two shared title words gets exactly one edge, every other
      pair none. */
  lemma {:induction false} SimilarityExact(lex: Lexicon, m: map<NodeId, Node>, ks: seq<NodeId>, x: NodeId, y: NodeId)
    requires Distinct(ks) && x in ks && y in ks && x != y
    ensures var edges := SimilarityEdges(lex, m, ks);
      CountIf(edges, Joining(x, y), |edges|)
      == if x in m && y in m && |lex.titleWords(m[x].title) * lex.titleWords(m[y].title)| >= 2 then 1 else 0
  {
    hide Joining, SimilarityEmit, PairRows, CountIf;
    var a :| 0 <= a < |ks| && ks[a] == x;
    var b :| 0 <= b < |ks| && ks[b] == y;
    var edges := SimilarityEdges(lex, m, ks);
    if a < b {
      RowsCount(lex, m, ks, |ks|, a, b);
    } else {
      RowsCount(lex, m, ks, |ks|, b, a);
      JoiningSymmetric(edges, |edges|, x, y);
      SimilarSymmetric(lex, m, x, y);
    }
  }

  lemma {:induction false} SimilarityOnly(lex: Lexicon, m: map<NodeId, Node>, ks: seq<NodeId>, e: Edge)
    requires Distinct(ks) && e in SimilarityEdges(lex, m, ks)
    ensures e.kind == SimilarTitle && e.source in ks && e.target in ks && e.source != e.target
    ensures exists a, b :: 0 <= a < b < |ks| && ks[a] == e.source && ks[b] == e.target
    ensures e.source in m && e.target in m
        && |lex.titleWords(m[e.source].title) * lex.titleWords(m[e.target].title)| >= 2
  {
    PairRowsMember(SimilarityEmit(lex, m), ks, |ks|, e);
    var a, b :| 0 <= a < |ks| && a < b < |ks| && e in SimilarityEmit(lex, m)(ks[a], ks[b]);
    DistinctAt(ks, a, b);
  }

  // ----- suggestions

  datatype Confidence = Medium | Low
  datatype Reason = SharedTag(tag: string) | TitleOverlap(shared: set<string>) | MentionedByText(title: string)
  datatype Suggestion = Suggestion(source: NodeId, target: NodeId, reason: Reason, confidence: Confidence)

  type Links = set<(NodeId, NodeId)>

  /** Both directions of every explicit link. */
  function LinksOf(edges: seq<Edge>, n: nat): Links
    requires n <= |edges|
  {
    if n == 0 then {}
    else LinksOf(edges, n - 1) + LinkPair(edges[n - 1])
  }
  function LinkPair(e: Edge): Links
  {
    if e.kind == WikiLink || e.kind == MarkdownLink then {(e.source, e.target), (e.target, e.source)} else {}
  }

  /** One of the first `n` edges is an explicit link between the two, in either direction. */
  ghost predicate DirectlyLinked(edges: seq<Edge>, n: nat, a: NodeId, b: NodeId)
    requires n <= |edges|
  {
    exists i :: 0 <= i < n && (a, b) in LinkPair(edges[i])
  }

  lemma {:induction false} LinksOfExact(edges: seq<Edge>, n: nat, a: NodeId, b: NodeId)
    requires n <= |edges|
    ensures (a, b) in LinksOf(edges, n) <==> DirectlyLinked(edges, n, a, b)
  {
    if n > 0 { LinksOfExact(edges, n - 1, a, b); }
  }

  /** The notes in dictionary order. */
  function NoteKeys(m: map<NodeId, Node>, keys: seq<NodeId>, n: nat): (ks: seq<NodeId>)
    requires n <= |keys| && Present(m, keys)
    ensures Present(m, ks)
  {
    if n == 0 then []
    else NoteKeys(m, keys, n - 1) + if m[keys[n - 1]].kind.Structural() then [] else [keys[n - 1]]
  }

  function PathOf(m: map<NodeId, Node>, k: NodeId): NodeId
  {
    if k in m && m[k].path != "" then Id(m[k].path) else k
  }

  ghost function TagEmit(m: map<NodeId, Node>, links: Links, tag: string): (NodeId, NodeId) -> seq<Suggestion>
  {
    (a, b) => if (a, b) in links then [] else [Suggestion(PathOf(m, a), PathOf(m, b), SharedTag(tag), Medium)]
  }

  ghost function TitleEmit(lex: Lexicon, m: map<NodeId, Node>, links: Links): (NodeId, NodeId) -> seq<Suggestion>
  {
    (a, b) => if (a, b) in links || !Similar(lex, m, a, b) then []
              else [Suggestion(PathOf(m, a), PathOf(m, b), TitleOverlap(SharedWords(lex, m, a, b)), Low)]
  }

  type TagTable = OrderedMap<string, seq<NodeId>>

  /** The table of notes per tag after `j` tags of one note. */
  function TagRow(t: TagTable, k: NodeId, tags: seq<string>, j: nat): (row: TagTable)
    requires j <= |tags|
    ensures t.Valid() ==> row.Valid()
  {
    if j == 0 then t
    else
      var before := TagRow(t, k, tags, j - 1);
      before.Put(tags[j - 1], before.Get(tags[j - 1], []) + [k])
  }

  function TagRows(m: map<NodeId, Node>, ks: seq<NodeId>, n: nat): (t: TagTable)
    requires n <= |ks| && Present(m, ks)
    ensures t.Valid()
  {
    if n == 0 then OrderedMap([], map[])
    else TagRow(TagRows(m, ks, n - 1), ks[n - 1], m[ks[n - 1]].tags, |m[ks[n - 1]].tags|)
  }

  /** The notes carrying a tag, in order. */
  function Tagged(m: map<NodeId, Node>, ks: seq<NodeId>, tag: string, n: nat): seq<NodeId>
    requires n <= |ks| && Present(m, ks)
  {
    if n == 0 then []
    else Tagged(m, ks, tag, n - 1) + if tag in m[ks[n - 1]].tags then [ks[n - 1]] else []
  }

  /** Tags on fewer than two or more than twenty notes suggest nothing. */
  predicate UsefulGroup(ids: seq<NodeId>) { 2 <= |ids| <= 20 }

  ghost function TagSuggestions(m: map<NodeId, Node>, links: Links, t: TagTable, n: nat): seq<Suggestion>
    requires n <= |t.keys| && t.Valid()
  {
    if n == 0 then []
    else
      var tag := t.keys[n - 1];
      assert tag in t.keys;
      var ids := t.entries[tag];
      TagSuggestions(m, links, t, n - 1) +
      if UsefulGroup(ids) then PairRows(TagEmit(m, links, tag), ids, |ids|) else []
  }

  predicate PromotionKind(k: NodeKind) { k.PromotionDraft? || k.PromotionReport? || k.Synthesis? }
  predicate TargetKind(k: NodeKind) { k.Doctrine? || k.Decision? || k.Concept? || k.Project? }

  function OfKind(m: map<NodeId, Node>, ks: seq<NodeId>, p: NodeKind -> bool, n: nat): (some: seq<NodeId>)
    requires n <= |ks| && Present(m, ks)
    ensures Present(m, some)
  {
    if n == 0 then [] else OfKind(m, ks, p, n - 1) + if p(m[ks[n - 1]].kind) then [ks[n - 1]] else []
  }

  function Significant(ws: seq<string>): seq<string>
  {
    if ws == [] then [] else (if |ws[0]| >= 4 then [ws[0]] else []) + Significant(ws[1..])
  }

  function Matches(text: string, ws: seq<string>): nat
  {
    if ws == [] then 0 else (if Strings.Contains(text, ws[0]) then 1 else 0) + Matches(text, ws[1..])
  }

  /** The text of one note mentions at least two significant words of the other's title. */
  predicate Mentions(lex: Lexicon, m: map<NodeId, Node>, p: NodeId, t: NodeId)
  {
    && p in m && t in m
    && var ws := Significant(lex.words(lex.lower(m[t].title)));
       |ws| >= 2 && Matches(lex.lower(m[p].content), ws) >= 2
  }

  ghost function MentionEmit(lex: Lexicon, m: map<NodeId, Node>, links: Links): (NodeId, NodeId) -> seq<Suggestion>
  {
    (p, t) => if (p, t) in links || !Mentions(lex, m, p, t) then []
              else [Suggestion(PathOf(m, p), PathOf(m, t), MentionedByText(if t in m then m[t].title else ""), Medium)]
  }

  function CrossRow<T>(emit: (NodeId, NodeId) -> seq<T>, p: NodeId, ts: seq<NodeId>, n: nat): seq<T>
    requires n <= |ts|
  {
    if n == 0 then [] else CrossRow(emit, p, ts, n - 1) + emit(p, ts[n - 1])
  }

  function CrossRows<T>(emit: (NodeId, NodeId) -> seq<T>, ps: seq<NodeId>, ts: seq<NodeId>, n: nat): seq<T>
    requires n <= |ps|
  {
    if n == 0 then [] else CrossRows(emit, ps, ts, n - 1) + CrossRow(emit, ps[n - 1], ts, |ts|)
  }

  lemma {:induction false} CrossRowMember<T>(emit: (NodeId, NodeId) -> seq<T>, p: NodeId, ts: seq<NodeId>, n: nat, x: T)
    requires n <= |ts|
    ensures x in CrossRow(emit, p, ts, n) <==> exists j :: 0 <= j < n && x in emit(p, ts[j])
  {
    if n > 0 { CrossRowMember(emit, p, ts, n - 1, x); }
  }

  lemma {:induction false} CrossRowsMember<T>(emit: (NodeId, NodeId) -> seq<T>, ps: seq<NodeId>, ts: seq<NodeId>,
      n: nat, x: T)
    requires n <= |ps|
    ensures x in CrossRows(emit, ps, ts, n) <==> exists i, j :: 0 <= i < n && 0 <= j < |ts| && x in emit(ps[i], ts[j])
  {
    hide CrossRow;
    if n > 0 {
      CrossRowsMember(emit, ps, ts, n - 1, x);
      CrossRowMember(emit, ps[n - 1], ts, |ts|, x);
    }
  }

  /** Everything suggested, in order: by tag, by title, by mention. */
  ghost function Candidates(lex: Lexicon, nodes: Nodes, edges: seq<Edge>): seq<Suggestion>
    requires Present(nodes.entries, nodes.keys)
  {
    var m, ks, links := nodes.entries, NoteKeys(nodes.entries, nodes.keys, |nodes.keys|), LinksOf(edges, |edges|);
    var t := TagRows(m, ks, |ks|);
    TagSuggestions(m, links, t, |t.keys|) +
    PairRows(TitleEmit(lex, m, links), ks, |ks|) +
    CrossRows(MentionEmit(lex, m, links), OfKind(m, ks, PromotionKind, |ks|), OfKind(m, ks, TargetKind, |ks|),
              |OfKind(m, ks, PromotionKind, |ks|)|)
  }

  lemma {:induction false} TagEmitted(m: map<NodeId, Node>, links: Links, tag: string, a: NodeId, b: NodeId)
    ensures TagEmit(m, links, tag)(a, b)
      == if (a, b) in links then [] else [Suggestion(PathOf(m, a), PathOf(m, b), SharedTag(tag), Medium)]
  {
  }

  lemma {:induction false} TitleEmitted(lex: Lexicon, m: map<NodeId, Node>, links: Links, a: NodeId, b: NodeId)
    requires a in m && b in m
    ensures var shared := lex.titleWords(m[a].title) * lex.titleWords(m[b].title);
      TitleEmit(lex, m, links)(a, b)
      == if (a, b) in links || |shared| < 2 then []
          else [Suggestion(PathOf(m, a), PathOf(m, b), TitleOverlap(shared), Low)]
  {
  }

  lemma {:induction false} PrunedTitleRow(lex: Lexicon, m: map<NodeId, Node>, links: Links, ks: seq<NodeId>, i: nat)
    requires i < |ks| && Present(m, ks) && |lex.titleWords(m[ks[i]].title)| < 2
    ensures PairRow(TitleEmit(lex, m, links), ks, i, |ks|) == []
  {
    forall b | i < b < |ks| ensures TitleEmit(lex, m, links)(ks[i], ks[b]) == [] {
      SharedWithin(lex, m, ks[i], ks[b]);
    }
    PairRowEmpty(TitleEmit(lex, m, links), ks, i, |ks|);
  }

  lemma {:induction false} MentionEmitted(lex: Lexicon, m: map<NodeId, Node>, links: Links, p: NodeId, t: NodeId)
    requires p in m && t in m
    ensures var ws := Significant(lex.words(lex.lower(m[t].title)));
      MentionEmit(lex, m, links)(p, t)
      == if (p, t) in links || !(|ws| >= 2 && Matches(lex.lower(m[p].content), ws) >= 2) then []
         else [Suggestion(PathOf(m, p), PathOf(m, t), MentionedByText(m[t].title), Medium)]
  {
    hide Significant, Matches;
  }

  // ----- first wins

  /** The unordered pair, as the smaller and the larger path. */
  function Key(s: Suggestion): (NodeId, NodeId)
  {
    if Strings.Leq(s.source.text, s.target.text) then (s.source, s.target) else (s.target, s.source)
  }

  lemma {:induction false} KeyIsUnordered(s: Suggestion, t: Suggestion)
    ensures Key(s) == Key(t) <==> {s.source, s.target} == {t.source, t.target}
  {
    Strings.LeqTotal(s.source.text, s.target.text);
    Strings.LeqTotal(t.source.text, t.target.text);
    if Strings.Leq(s.source.text, s.target.text) && Strings.Leq(s.target.text, s.source.text) {
      Strings.LeqAntisymmetric(s.source.text, s.target.text);
    }
    if Strings.Leq(t.source.text, t.target.text) && Strings.Leq(t.target.text, t.source.text) {
      Strings.LeqAntisymmetric(t.source.text, t.target.text);
    }
    assert s.source in {s.source, s.target} && s.target in {s.source, s.target};
    assert t.source in {t.source, t.target} && t.target in {t.source, t.target};
  }

  function Keys(cs: seq<Suggestion>, n: nat): set<(NodeId, NodeId)>
    requires n <= |cs|
  {
    if n == 0 then {} else Keys(cs, n - 1) + {Key(cs[n - 1])}
  }

  function Unique(cs: seq<Suggestion>, n: nat): seq<Suggestion>
    requires n <= |cs|
  {
    if n == 0 then []
    else Unique(cs, n - 1) + if Key(cs[n - 1]) in Keys(cs, n - 1) then [] else [cs[n - 1]]
  }

  /** What the caller sees: the first hundred survivors. */
  function Shown(cs: seq<Suggestion>): seq<Suggestion>
  {
    var unique := Unique(cs, |cs|);
    if |unique| <= 100 then unique else unique[..100]
  }

  ghost predicate FirstWith(cs: seq<Suggestion>, i: nat)
    requires i < |cs|
  {
    forall j :: 0 <= j < i ==> Key(cs[j]) != Key(cs[i])
  }

  lemma {:induction false} KeysExact(cs: seq<Suggestion>, n: nat, k: (NodeId, NodeId))
    requires n <= |cs|
    ensures k in Keys(cs, n) <==> exists i :: 0 <= i < n && Key(cs[i]) == k
  {
    if n > 0 { KeysExact(cs, n - 1, k); }
  }

  /** The survivors are exactly the first candidates of their pair. */
  lemma {:induction false} UniqueMembers(cs: seq<Suggestion>, n: nat, s: Suggestion)
    requires n <= |cs|
    ensures s in Unique(cs, n) <==> exists i :: 0 <= i < n && cs[i] == s && FirstWith(cs, i)
  {
    if n > 0 {
      UniqueMembers(cs, n - 1, s);
      KeysExact(cs, n - 1, Key(cs[n - 1]));
    }
  }

  lemma {:induction false} UniqueKeysDiffer(cs: seq<Suggestion>, n: nat)
    requires n <= |cs|
    ensures forall i, j :: 0 <= i < j < |Unique(cs, n)| ==> Key(Unique(cs, n)[i]) != Key(Unique(cs, n)[j])
    ensures forall i :: 0 <= i < |Unique(cs, n)| ==> Key(Unique(cs, n)[i]) in Keys(cs, n)
  {
    if n > 0 { UniqueKeysDiffer(cs, n - 1); }
  }

  lemma {:induction false} FirstExists(cs: seq<Suggestion>, n: nat, k: (NodeId, NodeId)) returns (i: nat)
    requires n <= |cs| && exists j :: 0 <= j < n && Key(cs[j]) == k
    ensures i < n && Key(cs[i]) == k && FirstWith(cs, i)
  {
    if exists j :: 0 <= j < n - 1 && Key(cs[j]) == k {
      i := FirstExists(cs, n - 1, k);
    } else {
      i := n - 1;
    }
  }
}
