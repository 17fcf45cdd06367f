/** Which reason a suggested pair is shown with, and in which order the suggestions stand. */
module CortexReasons {
  import opened OrderedMaps
  import opened CortexModel
  import opened CortexCounting
  import opened CortexSuggestions
  import opened CortexSuggestionLaws
  import Strings

  /** The notes that carry a tag. */
  ghost function Carrying(nodes: Nodes, tag: string): set<NodeId>
  {
    set k | k in nodes.entries && nodes.entries[k].kind !in {Tag, Folder, ExternalLink} && tag in nodes.entries[k].tags
  }

  /** Both notes carry `tag`, and 2 to 20 notes do. */
  ghost predicate CommonTag(nodes: Nodes, a: NodeId, b: NodeId, tag: string)
  {
    && a in nodes.entries && b in nodes.entries && tag in nodes.entries[a].tags && tag in nodes.entries[b].tags
    && 2 <= |Carrying(nodes, tag)| <= 20
  }

  ghost predicate TwoTitleWords(lex: Lexicon, nodes: Nodes, a: NodeId, b: NodeId)
  {
    && a in nodes.entries && b in nodes.entries
    && |lex.titleWords(nodes.entries[a].title) * lex.titleWords(nodes.entries[b].title)| >= 2
  }

  ghost function ElementsOf(xs: seq<NodeId>): set<NodeId> { set x | x in xs }

  lemma {:induction false} DistinctSize(xs: seq<NodeId>)
    requires Distinct(xs)
    ensures |ElementsOf(xs)| == |xs|
  {
    if xs != [] {
      var init := xs[..|xs| - 1];
      forall i | 0 <= i < |init| ensures Unrepeated(init, i) {
        assert Unrepeated(xs, i) && init[..i] == xs[..i];
      }
      DistinctSize(init);
      DistinctStep(xs, |xs| - 1);
      assert xs == init + [xs[|xs| - 1]];
      assert ElementsOf(xs) == ElementsOf(init) + {xs[|xs| - 1]};
    }
  }

  lemma {:induction false} CommonTagShared(nodes: Nodes, a: NodeId, b: NodeId, tag: string)
    requires NotesInOrder(nodes) && a in nodes.entries && b in nodes.entries
    ensures CommonTag(nodes, a, b, tag) <==> ShareTag(nodes, tag, a, b)
  {
    hide Tagged, Notes, Distinct;
    NotesExact(nodes);
    TagGroup(nodes, tag);
    var ids := Tagged(nodes.entries, Notes(nodes), tag, |Notes(nodes)|);
    DistinctSize(ids);
    assert ElementsOf(ids) == Carrying(nodes, tag);
  }

  // ----- the three parts of the candidates

  ghost function ByTag(nodes: Nodes, edges: seq<Edge>): seq<Suggestion>
    requires Present(nodes.entries, nodes.keys)
  {
    var t := TagRows(nodes.entries, Notes(nodes), |Notes(nodes)|);
    TagSuggestions(nodes.entries, LinksOf(edges, |edges|), t, |t.keys|)
  }

  ghost function ByTitle(lex: Lexicon, nodes: Nodes, edges: seq<Edge>): seq<Suggestion>
    requires Present(nodes.entries, nodes.keys)
  {
    PairRows(TitleEmit(lex, nodes.entries, LinksOf(edges, |edges|)), Notes(nodes), |Notes(nodes)|)
  }

  ghost function ByMention(lex: Lexicon, nodes: Nodes, edges: seq<Edge>): seq<Suggestion>
    requires Present(nodes.entries, nodes.keys)
  {
    var m, ks := nodes.entries, Notes(nodes);
    var ps := OfKind(m, ks, PromotionKind, |ks|);
    CrossRows(MentionEmit(lex, m, LinksOf(edges, |edges|)), ps, OfKind(m, ks, TargetKind, |ks|), |ps|)
  }

  lemma {:induction false} InParts(lex: Lexicon, nodes: Nodes, edges: seq<Edge>)
    requires Present(nodes.entries, nodes.keys)
    ensures Candidates(lex, nodes, edges)
        == ByTag(nodes, edges) + ByTitle(lex, nodes, edges) + ByMention(lex, nodes, edges)
  {
    hide TagSuggestions, PairRows, CrossRows, OfKind, NoteKeys, TagRows, LinksOf;
  }

  /** Tags come first, then titles, then mentions. */
  function Rank(r: Reason): nat
  {
    match r case SharedTag(_) => 0 case TitleOverlap(_) => 1 case MentionedByText(_) => 2
  }

  lemma {:induction false} TagRank(nodes: Nodes, edges: seq<Edge>, s: Suggestion)
    requires NotesInOrder(nodes) && s in ByTag(nodes, edges)
    ensures s.reason.SharedTag?
  {
    hide PairRows, TagRows, LinksOf, NoteKeys;
    var m, links, t := nodes.entries, LinksOf(edges, |edges|), TagRows(nodes.entries, Notes(nodes), |Notes(nodes)|);
    TagSuggestionsMember(m, links, t, |t.keys|, s);
    var i :| 0 <= i < |t.keys| && t.keys[i] in t.entries && UsefulGroup(t.entries[t.keys[i]]) &&
             s in PairRows(TagEmit(m, links, t.keys[i]), t.entries[t.keys[i]], |t.entries[t.keys[i]]|);
    PairRowsMember(TagEmit(m, links, t.keys[i]), t.entries[t.keys[i]], |t.entries[t.keys[i]]|, s);
  }

  lemma {:induction false} TitleRank(lex: Lexicon, nodes: Nodes, edges: seq<Edge>, s: Suggestion)
    requires NotesInOrder(nodes) && s in ByTitle(lex, nodes, edges)
    ensures s.reason.TitleOverlap?
  {
    hide PairRows, LinksOf, NoteKeys;
    PairRowsMember(TitleEmit(lex, nodes.entries, LinksOf(edges, |edges|)), Notes(nodes), |Notes(nodes)|, s);
  }

  lemma {:induction false} MentionRank(lex: Lexicon, nodes: Nodes, edges: seq<Edge>, s: Suggestion)
    requires NotesInOrder(nodes) && s in ByMention(lex, nodes, edges)
    ensures s.reason.MentionedByText?
  {
    hide CrossRows, LinksOf, NoteKeys, OfKind, Mentions;
    var m, ks := nodes.entries, Notes(nodes);
    var ps := OfKind(m, ks, PromotionKind, |ks|);
    CrossRowsMember(MentionEmit(lex, m, LinksOf(edges, |edges|)), ps, OfKind(m, ks, TargetKind, |ks|), |ps|, s);
  }

  ghost predicate Ranked(cs: seq<Suggestion>)
  {
    forall i, j :: 0 <= i < j < |cs| ==> Rank(cs[i].reason) <= Rank(cs[j].reason)
  }

  lemma {:induction false} CandidatesRanked(lex: Lexicon, nodes: Nodes, edges: seq<Edge>)
    requires NotesInOrder(nodes)
    ensures Ranked(Candidates(lex, nodes, edges))
  {
    hide Candidates, ByTag, ByTitle, ByMention;
    InParts(lex, nodes, edges);
    var a, b, c := ByTag(nodes, edges), ByTitle(lex, nodes, edges), ByMention(lex, nodes, edges);
    forall s | s in a ensures Rank(s.reason) == 0 { TagRank(nodes, edges, s); }
    forall s | s in b ensures Rank(s.reason) == 1 { TitleRank(lex, nodes, edges, s); }
    forall s | s in c ensures Rank(s.reason) == 2 { MentionRank(lex, nodes, edges, s); }
    forall i | 0 <= i < |a + b + c|
      ensures Rank((a + b + c)[i].reason) == if i < |a| then 0 else if i < |a| + |b| then 1 else 2
    {
    }
  }

  lemma {:induction false} UniqueRanked(cs: seq<Suggestion>, n: nat)
    requires n <= |cs| && Ranked(cs)
    ensures Ranked(Unique(cs, n))
  {
    hide Key, Keys, Rank;
    if n > 0 {
      UniqueRanked(cs, n - 1);
      forall s | s in Unique(cs, n - 1) ensures Rank(s.reason) <= Rank(cs[n - 1].reason) {
        UniqueMembers(cs, n - 1, s);
      }
    }
  }

  /** A survivor ranks no higher than any candidate for its pair. */
  lemma {:induction false} BestRank(cs: seq<Suggestion>, s: Suggestion, t: Suggestion)
    requires Ranked(cs) && s in Unique(cs, |cs|) && t in cs && {s.source, s.target} == {t.source, t.target}
    ensures Rank(s.reason) <= Rank(t.reason)
  {
    hide Key, Rank;
    UniqueMembers(cs, |cs|, s);
    var i :| 0 <= i < |cs| && cs[i] == s && FirstWith(cs, i);
    var j :| 0 <= j < |cs| && cs[j] == t;
    KeyIsUnordered(s, t);
  }

  /** The reason of every survivor: a common tag if there is one, else two title words if the titles share
      them, else a mention; with the confidence that goes with it. */
  lemma {:induction false} ReasonsExactly(lex: Lexicon, nodes: Nodes, edges: seq<Edge>, s: Suggestion)
    requires NotesInOrder(nodes) && s in Unique(Candidates(lex, nodes, edges), |Candidates(lex, nodes, edges)|)
    ensures s.reason.SharedTag? <==> exists tag :: CommonTag(nodes, s.source, s.target, tag)
    ensures s.reason.TitleOverlap? <==>
      TwoTitleWords(lex, nodes, s.source, s.target) && !exists tag :: CommonTag(nodes, s.source, s.target, tag)
    ensures s.confidence == if s.reason.TitleOverlap? then Low else Medium
  {
    hide Candidates, Unique, CommonTag, TwoTitleWords, Notes, DirectlyLinked, Artifact, ShareTag;
    var cs, a, b := Candidates(lex, nodes, edges), s.source, s.target;
    UniqueMembers(cs, |cs|, s);
    CandidateSound(lex, nodes, edges, s);
    CandidatesRanked(lex, nodes, edges);
    forall tag ensures CommonTag(nodes, a, b, tag) <==> ShareTag(nodes, tag, a, b) {
      CommonTagShared(nodes, a, b, tag);
    }
    TwoWordsSimilar(lex, nodes, a, b);
    if tag :| CommonTag(nodes, a, b, tag) {
      var t := SharedTagCandidate(lex, nodes, edges, tag, a, b);
      BestRank(cs, s, t);
    } else if TwoTitleWords(lex, nodes, a, b) {
      var t := TitleCandidate(lex, nodes, edges, a, b);
      BestRank(cs, s, t);
    }
  }

  lemma {:induction false} TwoWordsSimilar(lex: Lexicon, nodes: Nodes, a: NodeId, b: NodeId)
    requires a in nodes.entries && b in nodes.entries
    ensures TwoTitleWords(lex, nodes, a, b) <==> Similar(lex, nodes.entries, a, b)
  {
  }

  /** Shared tags stand before title overlaps and these before mentions, and up to a hundred survivors all
      are shown, of more the first hundred. */
  lemma {:induction false} ShownInOrder(lex: Lexicon, nodes: Nodes, edges: seq<Edge>)
    requires NotesInOrder(nodes)
    ensures var unique, r :=
        Unique(Candidates(lex, nodes, edges), |Candidates(lex, nodes, edges)|), Shown(Candidates(lex, nodes, edges));
      && (forall i, j :: 0 <= i < j < |unique| && unique[j].reason.SharedTag? ==> unique[i].reason.SharedTag?)
      && (forall i, j :: 0 <= i < j < |unique| && unique[i].reason.MentionedByText? ==>
            unique[j].reason.MentionedByText?)
      && r <= unique && |r| == if |unique| <= 100 then |unique| else 100
  {
    hide Candidates, Unique;
    CandidatesRanked(lex, nodes, edges);
    UniqueRanked(Candidates(lex, nodes, edges), |Candidates(lex, nodes, edges)|);
  }

  // ----- the grounds, in numbers

  /** The words of a title that are long enough, and those of them that a text contains. */
  ghost function Long(): string -> bool { (w: string) => |w| >= 4 }
  ghost function Found(text: string): string -> bool { (w: string) => |w| >= 4 && Strings.Contains(text, w) }

  lemma {:induction false} SignificantAppend(ws: seq<string>, w: string)
    ensures Significant(ws + [w]) == Significant(ws) + if |w| >= 4 then [w] else []
  {
    if ws == [] {
      assert ws + [w] == [w] && [w][1..] == [];
    } else {
      SignificantAppend(ws[1..], w);
      assert (ws + [w])[1..] == ws[1..] + [w];
    }
  }

  lemma {:induction false} MatchesAppend(text: string, ws: seq<string>, w: string)
    ensures Matches(text, ws + [w]) == Matches(text, ws) + if Strings.Contains(text, w) then 1 else 0
  {
    hide Strings.Contains;
    if ws == [] {
      assert ws + [w] == [w] && [w][1..] == [];
    } else {
      MatchesAppend(text, ws[1..], w);
      assert (ws + [w])[1..] == ws[1..] + [w];
    }
  }

  lemma {:induction false} SignificantCount(text: string, ws: seq<string>, n: nat)
    requires n <= |ws|
    ensures |Significant(ws[..n])| == |Places(ws[..n], Long())|
    ensures Matches(text, Significant(ws[..n])) == |Places(ws[..n], Found(text))|
  {
    hide Strings.Contains, Places;
    if n == 0 {
      NoPlaces(ws, Long());
      NoPlaces(ws, Found(text));
    } else {
      SignificantCount(text, ws, n - 1);
      var w, before := ws[n - 1], Significant(ws[..n - 1]);
      assert ws[..n] == ws[..n - 1] + [w];
      SignificantAppend(ws[..n - 1], w);
      MatchesAppend(text, before, w);
      assert before + [] == before;
      PlacesStep(ws, Long(), n - 1);
      PlacesStep(ws, Found(text), n - 1);
    }
  }

  /** `p` is a draft, report or synthesis whose text contains at least two of the words of four letters or
      more in the title of `t`, a doctrine, decision, concept or project. */
  ghost predicate NamesInText(lex: Lexicon, nodes: Nodes, p: NodeId, t: NodeId)
  {
    && p in nodes.entries && t in nodes.entries
    && nodes.entries[p].kind in {PromotionDraft, PromotionReport, Synthesis}
    && nodes.entries[t].kind in {Doctrine, Decision, Concept, Project}
    && var words := lex.words(lex.lower(nodes.entries[t].title));
       |Places(words, Long())| >= 2 && |Places(words, Found(lex.lower(nodes.entries[p].content)))| >= 2
  }

  lemma {:induction false} NamedExactly(lex: Lexicon, nodes: Nodes, p: NodeId, t: NodeId)
    requires p in nodes.entries && t in nodes.entries
    ensures NamesInText(lex, nodes, p, t) <==> Artifact(lex, nodes, p, t)
  {
    hide Places, Significant, Matches;
    var words := lex.words(lex.lower(nodes.entries[t].title));
    SignificantCount(lex.lower(nodes.entries[p].content), words, |words|);
    assert words[..|words|] == words;
  }

  /** A wiki or markdown edge joins the two, in either direction. */
  ghost predicate Linked(edges: seq<Edge>, a: NodeId, b: NodeId)
  {
    exists i :: 0 <= i < |edges| && edges[i].kind in {WikiLink, MarkdownLink}
      && ((edges[i].source == a && edges[i].target == b) || (edges[i].source == b && edges[i].target == a))
  }

  lemma {:induction false} LinkedExactly(edges: seq<Edge>, a: NodeId, b: NodeId)
    ensures Linked(edges, a, b) <==> DirectlyLinked(edges, |edges|, a, b)
  {
  }

  ghost predicate Related(lex: Lexicon, nodes: Nodes, a: NodeId, b: NodeId)
  {
    || (exists tag :: CommonTag(nodes, a, b, tag))
    || TwoTitleWords(lex, nodes, a, b)
    || NamesInText(lex, nodes, a, b)
    || NamesInText(lex, nodes, b, a)
  }

  /** Two notes are suggested before the cut exactly when no wiki or markdown edge joins them and they
      share a tag that 2 to 20 notes carry, share two title words, or one names the other in its text. */
  lemma {:induction false} PairsExactly(lex: Lexicon, nodes: Nodes, edges: seq<Edge>, a: NodeId, b: NodeId)
    requires NotesInOrder(nodes) && a in Notes(nodes) && b in Notes(nodes) && a != b
    ensures var unique := Unique(Candidates(lex, nodes, edges), |Candidates(lex, nodes, edges)|);
      (exists s :: s in unique && {s.source, s.target} == {a, b}) <==> !Linked(edges, a, b) && Related(lex, nodes, a, b)
  {
    hide Candidates, Unique, CommonTag, TwoTitleWords, DirectlyLinked, Linked, NamesInText, Artifact, ShareTag, Similar;
    NotesExact(nodes);
    SuggestedExactly(lex, nodes, edges, a, b);
    LinkedExactly(edges, a, b);
    forall tag ensures CommonTag(nodes, a, b, tag) <==> ShareTag(nodes, tag, a, b) {
      CommonTagShared(nodes, a, b, tag);
    }
    TwoWordsSimilar(lex, nodes, a, b);
    NamedExactly(lex, nodes, a, b);
    NamedExactly(lex, nodes, b, a);
  }

  // ----- which end is the source, and which tag is shown

  /** `a` stands before `b` in the dictionary. */
  ghost predicate Precedes(nodes: Nodes, a: NodeId, b: NodeId)
  {
    exists i, j :: 0 <= i < j < |nodes.keys| && nodes.keys[i] == a && nodes.keys[j] == b
  }

  lemma {:induction false} NotesInOrderOfKeys(m: map<NodeId, Node>, keys: seq<NodeId>, n: nat, a: nat, b: nat)
    returns (i: nat, j: nat)
    requires n <= |keys| && Present(m, keys) && a < b < |NoteKeys(m, keys, n)|
    ensures i < j < n && keys[i] == NoteKeys(m, keys, n)[a] && keys[j] == NoteKeys(m, keys, n)[b]
  {
    if b < |NoteKeys(m, keys, n - 1)| {
      i, j := NotesInOrderOfKeys(m, keys, n - 1, a, b);
    } else {
      j := n - 1;
      NoteKeysExact(m, keys, n - 1, NoteKeys(m, keys, n - 1)[a]);
      i :| 0 <= i < n - 1 && keys[i] == NoteKeys(m, keys, n - 1)[a];
    }
  }

  /** The notes are walked in the order of the dictionary. */
  lemma {:induction false} NotesPrecede(nodes: Nodes, a: nat, b: nat)
    requires Present(nodes.entries, nodes.keys) && a < b < |Notes(nodes)|
    ensures Precedes(nodes, Notes(nodes)[a], Notes(nodes)[b])
  {
    hide NoteKeys;
    var i, j := NotesInOrderOfKeys(nodes.entries, nodes.keys, |nodes.keys|, a, b);
  }

  lemma {:induction false} TaggedInOrder(m: map<NodeId, Node>, ks: seq<NodeId>, tag: string, n: nat, a: nat, b: nat)
    returns (i: nat, j: nat)
    requires n <= |ks| && Present(m, ks) && a < b < |Tagged(m, ks, tag, n)|
    ensures i < j < n && ks[i] == Tagged(m, ks, tag, n)[a] && ks[j] == Tagged(m, ks, tag, n)[b]
  {
    if b < |Tagged(m, ks, tag, n - 1)| {
      i, j := TaggedInOrder(m, ks, tag, n - 1, a, b);
    } else {
      j := n - 1;
      TaggedExact(m, ks, tag, n - 1, Tagged(m, ks, tag, n - 1)[a]);
      i :| 0 <= i < n - 1 && ks[i] == Tagged(m, ks, tag, n - 1)[a];
    }
  }

  lemma {:induction false} TagCandidateGroup(nodes: Nodes, edges: seq<Edge>, n: nat, s: Suggestion) returns (g: nat)
    requires NotesInOrder(nodes)
    requires n <= |TagRows(nodes.entries, Notes(nodes), |Notes(nodes)|).keys|
    requires var t := TagRows(nodes.entries, Notes(nodes), |Notes(nodes)|);
             s in TagSuggestions(nodes.entries, LinksOf(edges, |edges|), t, n)
    ensures g < n && s.reason == SharedTag(TagRows(nodes.entries, Notes(nodes), |Notes(nodes)|).keys[g])
    ensures Precedes(nodes, s.source, s.target)
  {
    hide PairRows, TagRows, LinksOf, Notes, Tagged, UsefulGroup, TagEmit, Precedes, Distinct;
    var m, ks, links := nodes.entries, Notes(nodes), LinksOf(edges, |edges|);
    var t := TagRows(m, ks, |ks|);
    TagSuggestionsMember(m, links, t, n, s);
    g :| 0 <= g < n && t.keys[g] in t.entries && UsefulGroup(t.entries[t.keys[g]]) &&
         s in PairRows(TagEmit(m, links, t.keys[g]), t.entries[t.keys[g]], |t.entries[t.keys[g]]|);
    TagGroup(nodes, t.keys[g]);
    TagPairOrdered(nodes, links, t.keys[g], s);
  }

  lemma {:induction false} TagPairOrdered(nodes: Nodes, links: Links, tag: string, s: Suggestion)
    requires NotesInOrder(nodes)
    requires var ids := Tagged(nodes.entries, Notes(nodes), tag, |Notes(nodes)|);
             s in PairRows(TagEmit(nodes.entries, links, tag), ids, |ids|)
    ensures s.reason == SharedTag(tag) && Precedes(nodes, s.source, s.target)
  {
    hide PairRows, NoteKeys, Tagged, TagEmit, Distinct, Precedes;
    var m, ks := nodes.entries, Notes(nodes);
    var ids := Tagged(m, ks, tag, |ks|);
    PairRowsMember(TagEmit(m, links, tag), ids, |ids|, s);
    var a, b :| 0 <= a < |ids| && a < b < |ids| && s in TagEmit(m, links, tag)(ids[a], ids[b]);
    TagEmitted(m, links, tag, ids[a], ids[b]);
    var i, j := TaggedInOrder(m, ks, tag, |ks|, a, b);
    NotesExact(nodes);
    NotesPrecede(nodes, i, j);
    assert ks[i] in ks && ks[j] in ks;
    OwnPath(nodes, ks[i]);
    OwnPath(nodes, ks[j]);
  }

  lemma {:induction false} OwnPath(nodes: Nodes, k: NodeId)
    requires NotesInOrder(nodes) && k in nodes.entries && !nodes.entries[k].kind.Structural()
    ensures PathOf(nodes.entries, k) == k
  {
  }

  /** The `j`-th tag of the `i`-th note. */
  ghost predicate SeenAt(m: map<NodeId, Node>, ks: seq<NodeId>, i: nat, j: nat, tag: string)
    requires Present(m, ks)
  {
    i < |ks| && j < |m[ks[i]].tags| && m[ks[i]].tags[j] == tag
  }

  predicate Sooner(i: nat, j: nat, i': nat, j': nat) { i < i' || (i == i' && j < j') }

  /** `t` is met before `u` on a walk over the notes and their tags. */
  ghost predicate MetBefore(m: map<NodeId, Node>, ks: seq<NodeId>, t: string, u: string)
    requires Present(m, ks)
  {
    exists i: nat, j: nat :: SeenAt(m, ks, i, j, t) &&
      forall i': nat, j': nat :: SeenAt(m, ks, i', j', u) ==> Sooner(i, j, i', j')
  }

  ghost predicate MetIn(m: map<NodeId, Node>, ks: seq<NodeId>, n: nat, j: nat, tag: string)
    requires Present(m, ks)
  {
    exists i': nat, j': nat :: SeenAt(m, ks, i', j', tag) && Sooner(i', j', n, j)
  }

  ghost predicate InOrderMet(m: map<NodeId, Node>, ks: seq<NodeId>, keys: seq<string>)
    requires Present(m, ks)
  {
    forall a, b :: 0 <= a < b < |keys| ==> MetBefore(m, ks, keys[a], keys[b])
  }

  /** The table before the `j`-th tag of the `n`-th note. */
  ghost function TableAt(m: map<NodeId, Node>, ks: seq<NodeId>, n: nat, j: nat): (t: TagTable)
    requires Present(m, ks) && n < |ks| && j <= |m[ks[n]].tags|
    ensures t.Valid()
  {
    TagRow(TagRows(m, ks, n), ks[n], m[ks[n]].tags, j)
  }

  lemma {:induction false} TableStep(m: map<NodeId, Node>, ks: seq<NodeId>, n: nat, j: nat)
    requires Present(m, ks) && n < |ks| && j < |m[ks[n]].tags|
    ensures var before, tag := TableAt(m, ks, n, j), m[ks[n]].tags[j];
      TableAt(m, ks, n, j + 1).keys == if tag in before.keys then before.keys else before.keys + [tag]
  {
    hide TagRows, Distinct, OrderedMap.Get;
  }

  lemma {:induction false} TableStart(m: map<NodeId, Node>, ks: seq<NodeId>, n: nat)
    requires Present(m, ks) && n < |ks|
    ensures n == 0 ==> TableAt(m, ks, n, 0).keys == []
    ensures n > 0 ==> TableAt(m, ks, n, 0) == TableAt(m, ks, n - 1, |m[ks[n - 1]].tags|)
  {
    NoTagRow(TagRows(m, ks, n), ks[n], m[ks[n]].tags);
  }

  lemma {:induction false} TableKeys(m: map<NodeId, Node>, ks: seq<NodeId>, n: nat, j: nat)
    requires Present(m, ks) && n < |ks| && j <= |m[ks[n]].tags|
    ensures forall t :: t in TableAt(m, ks, n, j).keys <==> MetIn(m, ks, n, j, t)
    ensures InOrderMet(m, ks, TableAt(m, ks, n, j).keys)
  {
    hide TableAt, InOrderMet, MetIn;
    if j > 0 {
      TableKeys(m, ks, n, j - 1);
      TableStep(m, ks, n, j - 1);
      var tag, before := m[ks[n]].tags[j - 1], TableAt(m, ks, n, j - 1).keys;
      forall t ensures MetIn(m, ks, n, j, t) <==> MetIn(m, ks, n, j - 1, t) || t == tag { MetStep(m, ks, n, j, t); }
      if tag !in before { NewLast(m, ks, n, j - 1, before); }
    } else {
      TableStart(m, ks, n);
      if n > 0 {
        TableKeys(m, ks, n - 1, |m[ks[n - 1]].tags|);
        forall t
          ensures MetIn(m, ks, n, 0, t) <==> MetIn(m, ks, n - 1, |m[ks[n - 1]].tags|, t) { MetOver(m, ks, n, t); }
      } else {
        NothingMet(m, ks);
      }
    }
  }

  lemma {:induction false} NothingMet(m: map<NodeId, Node>, ks: seq<NodeId>)
    requires Present(m, ks)
    ensures InOrderMet(m, ks, []) && forall t :: !MetIn(m, ks, 0, 0, t)
  {
  }

  lemma {:induction false} MetStep(m: map<NodeId, Node>, ks: seq<NodeId>, n: nat, j: nat, t: string)
    requires Present(m, ks) && n < |ks| && 0 < j <= |m[ks[n]].tags|
    ensures MetIn(m, ks, n, j, t) <==> MetIn(m, ks, n, j - 1, t) || t == m[ks[n]].tags[j - 1]
  {
    if t == m[ks[n]].tags[j - 1] { assert SeenAt(m, ks, n, j - 1, t) && Sooner(n, j - 1, n, j); }
    if i', j' :| SeenAt(m, ks, i', j', t) && Sooner(i', j', n, j - 1) { assert Sooner(i', j', n, j); }
    if i', j' :| SeenAt(m, ks, i', j', t) && Sooner(i', j', n, j) {
      assert Sooner(i', j', n, j - 1) || (i' == n && j' == j - 1);
    }
  }

  lemma {:induction false} MetOver(m: map<NodeId, Node>, ks: seq<NodeId>, n: nat, t: string)
    requires Present(m, ks) && 0 < n < |ks|
    ensures MetIn(m, ks, n, 0, t) <==> MetIn(m, ks, n - 1, |m[ks[n - 1]].tags|, t)
  {
    if i', j' :| SeenAt(m, ks, i', j', t) && Sooner(i', j', n, 0) { assert Sooner(i', j', n - 1, |m[ks[n - 1]].tags|); }
    if i', j' :| SeenAt(m, ks, i', j', t) && Sooner(i', j', n - 1, |m[ks[n - 1]].tags|) { assert Sooner(i', j', n, 0); }
  }

  /** A tag first met at `(n, j)` is met after all those in the table. */
  lemma {:induction false} NewLast(m: map<NodeId, Node>, ks: seq<NodeId>, n: nat, j: nat, before: seq<string>)
    requires Present(m, ks) && n < |ks| && j < |m[ks[n]].tags| && InOrderMet(m, ks, before)
    requires forall t :: t in before ==> MetIn(m, ks, n, j, t)
    requires !MetIn(m, ks, n, j, m[ks[n]].tags[j])
    ensures InOrderMet(m, ks, before + [m[ks[n]].tags[j]])
  {
    var tag := m[ks[n]].tags[j];
    forall a | 0 <= a < |before| ensures MetBefore(m, ks, before[a], tag) {
      assert MetIn(m, ks, n, j, before[a]);
      var i', j' :| SeenAt(m, ks, i', j', before[a]) && Sooner(i', j', n, j);
      forall x: nat, y: nat | SeenAt(m, ks, x, y, tag) ensures Sooner(i', j', x, y) {
        assert !Sooner(x, y, n, j);
      }
    }
  }

  /** All tags of the notes, in the order they are met. */
  ghost function TagOrder(nodes: Nodes): seq<string>
    requires Present(nodes.entries, nodes.keys)
  {
    TagRows(nodes.entries, Notes(nodes), |Notes(nodes)|).keys
  }

  lemma {:induction false} TagOrderMet(nodes: Nodes)
    requires Present(nodes.entries, nodes.keys)
    ensures InOrderMet(nodes.entries, Notes(nodes), TagOrder(nodes))
  {
    hide InOrderMet, TagRow;
    var m, ks := nodes.entries, Notes(nodes);
    if ks == [] {
      NothingMet(m, ks);
    } else {
      TableKeys(m, ks, |ks| - 1, |m[ks[|ks| - 1]].tags|);
    }
  }

  lemma {:induction false} TagSuggestionsPrefix(m: map<NodeId, Node>, links: Links, t: TagTable, n: nat, k: nat)
    requires n <= k <= |t.keys| && t.Valid()
    ensures TagSuggestions(m, links, t, n) <= TagSuggestions(m, links, t, k)
  {
    hide PairRows, UsefulGroup;
    if n < k { TagSuggestionsPrefix(m, links, t, n, k - 1); }
  }

  /** The candidate two notes get from one common tag. */
  lemma {:induction false} GroupCandidate(nodes: Nodes, edges: seq<Edge>, g: nat, x: NodeId, y: NodeId)
    returns (s: Suggestion)
    requires NotesInOrder(nodes) && x in Notes(nodes) && y in Notes(nodes) && x != y && g < |TagOrder(nodes)|
    requires ShareTag(nodes, TagOrder(nodes)[g], x, y) && !DirectlyLinked(edges, |edges|, x, y)
    ensures var t := TagRows(nodes.entries, Notes(nodes), |Notes(nodes)|);
      s in TagSuggestions(nodes.entries, LinksOf(edges, |edges|), t, g + 1)
    ensures {s.source, s.target} == {x, y}
  {
    hide Tagged, NoteKeys, TagRows, TagEmit, LinksOf, DirectlyLinked, PairRows, TagSuggestions, Distinct;
    var m, ks, links := nodes.entries, Notes(nodes), LinksOf(edges, |edges|);
    NotesExact(nodes);
    var t, tag := TagRows(m, ks, |ks|), TagOrder(nodes)[g];
    var ids := Tagged(m, ks, tag, |ks|);
    TagGroup(nodes, tag);
    var i :| 0 <= i < |ids| && ids[i] == x;
    var j :| 0 <= j < |ids| && ids[j] == y;
    var a, b := if i < j then i else j, if i < j then j else i;
    LinksOfExact(edges, |edges|, x, y);
    LinksOfExact(edges, |edges|, y, x);
    LinkSymmetric(edges, x, y);
    s := Suggestion(ids[a], ids[b], SharedTag(tag), Medium);
    TagEmitted(m, links, tag, ids[a], ids[b]);
    OwnPath(nodes, ids[a]);
    OwnPath(nodes, ids[b]);
    assert s in TagEmit(m, links, tag)(ids[a], ids[b]);
    PairRowsMember(TagEmit(m, links, tag), ids, |ids|, s);
    TagSuggestionsMember(m, links, t, g + 1, s);
  }

  /** The tag shown is met no later than any other common tag. */
  lemma {:induction false} FirstGroup(lex: Lexicon, nodes: Nodes, edges: seq<Edge>, s: Suggestion, g: nat, h: nat)
    requires NotesInOrder(nodes) && s in Unique(Candidates(lex, nodes, edges), |Candidates(lex, nodes, edges)|)
    requires g < |TagOrder(nodes)| && h < |TagOrder(nodes)| && s.reason == SharedTag(TagOrder(nodes)[g])
    requires s.source in nodes.entries && s.target in nodes.entries
    requires ShareTag(nodes, TagOrder(nodes)[h], s.source, s.target)
    ensures g <= h
  {
    hide Candidates, Unique, TagSuggestions, Key, LinksOf, Sound, ShareTag, TagRows, Distinct, NoteKeys;
    var cs, m, ks, links := Candidates(lex, nodes, edges), nodes.entries, Notes(nodes), LinksOf(edges, |edges|);
    var t := TagRows(m, ks, |ks|);
    SurvivorEnds(lex, nodes, edges, s);
    var other := GroupCandidate(nodes, edges, h, s.source, s.target);
    InParts(lex, nodes, edges);
    TagSuggestionsPrefix(m, links, t, h + 1, |t.keys|);
    FirstInPrefix(cs, TagSuggestions(m, links, t, h + 1), s, other);
    var k := TagCandidateGroup(nodes, edges, h + 1, s);
    DistinctAt(t.keys, k, g);
  }

  lemma {:induction false} SurvivorEnds(lex: Lexicon, nodes: Nodes, edges: seq<Edge>, s: Suggestion)
    requires NotesInOrder(nodes) && s in Unique(Candidates(lex, nodes, edges), |Candidates(lex, nodes, edges)|)
    ensures s.source in Notes(nodes) && s.target in Notes(nodes) && s.source != s.target
    ensures !DirectlyLinked(edges, |edges|, s.source, s.target)
  {
    hide Candidates, Unique, Notes;
    UniqueMembers(Candidates(lex, nodes, edges), |Candidates(lex, nodes, edges)|, s);
    CandidateSound(lex, nodes, edges, s);
  }

  /** A survivor is no later than any candidate for its pair. */
  lemma {:induction false} FirstInPrefix(cs: seq<Suggestion>, some: seq<Suggestion>, s: Suggestion, t: Suggestion)
    requires some <= cs && s in Unique(cs, |cs|) && t in some && {s.source, s.target} == {t.source, t.target}
    ensures s in some
  {
    hide Key, Unique;
    UniqueMembers(cs, |cs|, s);
    var i :| 0 <= i < |cs| && cs[i] == s && FirstWith(cs, i);
    var j :| 0 <= j < |some| && some[j] == t;
    assert cs[j] == t;
    KeyIsUnordered(t, s);
    assert some[i] == s;
  }

  /** A survivor in full. A shared tag is the first common one on a walk over the notes and their tags, a
      title overlap is all the words shared, and either leads from the earlier note to the later; a mention
      leads from the artifact to the note it names. */
  lemma {:induction false} SuggestionInFull(lex: Lexicon, nodes: Nodes, edges: seq<Edge>, s: Suggestion)
    requires NotesInOrder(nodes) && s in Unique(Candidates(lex, nodes, edges), |Candidates(lex, nodes, edges)|)
    ensures s.source in nodes.entries && s.target in nodes.entries
    ensures !s.reason.MentionedByText? ==> Precedes(nodes, s.source, s.target)
    ensures s.reason.SharedTag? ==>
      && CommonTag(nodes, s.source, s.target, s.reason.tag)
      && forall tag :: tag != s.reason.tag && CommonTag(nodes, s.source, s.target, tag) ==>
           MetBefore(nodes.entries, Notes(nodes), s.reason.tag, tag)
    ensures var wordsA, wordsB :=
        lex.titleWords(nodes.entries[s.source].title), lex.titleWords(nodes.entries[s.target].title);
      s.reason.TitleOverlap? ==> s.reason.shared == wordsA * wordsB
    ensures s.reason.MentionedByText? ==>
      NamesInText(lex, nodes, s.source, s.target) && s.reason.title == nodes.entries[s.target].title
  {
    hide Candidates, Unique, Notes, DirectlyLinked, Artifact, ShareTag, CommonTag, NamesInText, Precedes, MetBefore;
    var cs := Candidates(lex, nodes, edges);
    UniqueMembers(cs, |cs|, s);
    CandidateSound(lex, nodes, edges, s);
    NamedExactly(lex, nodes, s.source, s.target);
    if s.reason.SharedTag? {
      SharedTagInFull(lex, nodes, edges, s);
    } else if s.reason.TitleOverlap? {
      TitleEnds(lex, nodes, edges, s);
    }
  }

  lemma {:induction false} TitleEnds(lex: Lexicon, nodes: Nodes, edges: seq<Edge>, s: Suggestion)
    requires NotesInOrder(nodes) && s in Candidates(lex, nodes, edges) && s.reason.TitleOverlap?
    ensures Precedes(nodes, s.source, s.target)
  {
    hide PairRows, LinksOf, NoteKeys, Candidates, ByTag, ByMention, Similar, SharedWords, Precedes;
    InParts(lex, nodes, edges);
    if s in ByTag(nodes, edges) { TagRank(nodes, edges, s); }
    if s in ByMention(lex, nodes, edges) { MentionRank(lex, nodes, edges, s); }
    var m, ks, links := nodes.entries, Notes(nodes), LinksOf(edges, |edges|);
    PairRowsMember(TitleEmit(lex, m, links), ks, |ks|, s);
    var a, b :| 0 <= a < |ks| && a < b < |ks| && s in TitleEmit(lex, m, links)(ks[a], ks[b]);
    NotesExact(nodes);
    NotesPrecede(nodes, a, b);
    assert ks[a] in ks && ks[b] in ks;
    OwnPath(nodes, ks[a]);
    OwnPath(nodes, ks[b]);
  }

  lemma {:induction false} SharedTagInFull(lex: Lexicon, nodes: Nodes, edges: seq<Edge>, s: Suggestion)
    requires NotesInOrder(nodes) && s in Unique(Candidates(lex, nodes, edges), |Candidates(lex, nodes, edges)|)
    requires s.reason.SharedTag? && s.source in nodes.entries && s.target in nodes.entries
    requires ShareTag(nodes, s.reason.tag, s.source, s.target)
    ensures Precedes(nodes, s.source, s.target) && CommonTag(nodes, s.source, s.target, s.reason.tag)
    ensures forall tag :: tag != s.reason.tag && CommonTag(nodes, s.source, s.target, tag) ==>
      MetBefore(nodes.entries, Notes(nodes), s.reason.tag, tag)
  {
    hide Candidates, Unique, Notes, ByTitle, ByMention, ShareTag, CommonTag, Precedes, MetBefore, TagRows,
         TagSuggestions, Distinct;
    var cs, t := Candidates(lex, nodes, edges), TagRows(nodes.entries, Notes(nodes), |Notes(nodes)|);
    CommonTagShared(nodes, s.source, s.target, s.reason.tag);
    UniqueMembers(cs, |cs|, s);
    InParts(lex, nodes, edges);
    if s in ByTitle(lex, nodes, edges) { TitleRank(lex, nodes, edges, s); }
    if s in ByMention(lex, nodes, edges) { MentionRank(lex, nodes, edges, s); }
    var g := TagCandidateGroup(nodes, edges, |t.keys|, s);
    TagOrderMet(nodes);
    forall tag | tag != s.reason.tag && CommonTag(nodes, s.source, s.target, tag)
      ensures MetBefore(nodes.entries, Notes(nodes), s.reason.tag, tag)
    {
      CommonTagShared(nodes, s.source, s.target, tag);
      var h := PlaceOfTag(nodes, tag, s.source, s.target);
      FirstGroup(lex, nodes, edges, s, g, h);
    }
  }

  lemma {:induction false} PlaceOfTag(nodes: Nodes, tag: string, a: NodeId, b: NodeId) returns (h: nat)
    requires NotesInOrder(nodes) && a in nodes.entries && b in nodes.entries && ShareTag(nodes, tag, a, b)
    ensures h < |TagOrder(nodes)| && TagOrder(nodes)[h] == tag
  {
    hide Tagged, Notes, TagRows, Distinct;
    TagGroup(nodes, tag);
    var t := TagRows(nodes.entries, Notes(nodes), |Notes(nodes)|);
    assert tag in t.keys;
    h :| 0 <= h < |t.keys| && t.keys[h] == tag;
  }
}
