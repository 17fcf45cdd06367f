/** Which pairs of notes are suggested: soundness, first-wins deduplication, and exactness before
    the cut. */
module CortexSuggestionLaws {
  import opened OrderedMaps
  import opened CortexModel
  import opened CortexSuggestions

  /** What the suggestion pass may rely on: a dictionary keyed by identifier whose notes are stored
      under their own path with a tag list free of repetitions. */
  ghost predicate NotesInOrder(nodes: Nodes)
  {
    && nodes.Valid() && Present(nodes.entries, nodes.keys)
    && forall k :: k in nodes.entries && !nodes.entries[k].kind.Structural() ==>
         Id(nodes.entries[k].path) == k && Distinct(nodes.entries[k].tags)
  }

  function Notes(nodes: Nodes): (ks: seq<NodeId>)
    requires Present(nodes.entries, nodes.keys)
    ensures Present(nodes.entries, ks)
  {
    NoteKeys(nodes.entries, nodes.keys, |nodes.keys|)
  }

  lemma {:induction false} NoteKeysExact(m: map<NodeId, Node>, keys: seq<NodeId>, n: nat, k: NodeId)
    requires n <= |keys| && Present(m, keys)
    ensures k in NoteKeys(m, keys, n) <==> exists i :: 0 <= i < n && keys[i] == k && !m[k].kind.Structural()
  {
    if n > 0 { NoteKeysExact(m, keys, n - 1, k); }
  }

  lemma {:induction false} NoteKeysDistinct(m: map<NodeId, Node>, keys: seq<NodeId>, n: nat)
    requires n <= |keys| && Present(m, keys) && Distinct(keys)
    ensures Distinct(NoteKeys(m, keys, n))
  {
    if n > 0 {
      NoteKeysDistinct(m, keys, n - 1);
      NoteKeysExact(m, keys, n - 1, keys[n - 1]);
      DistinctStep(keys, n - 1);
      DistinctAppend(NoteKeys(m, keys, n - 1), keys[n - 1]);
      assert NoteKeys(m, keys, n - 1) + [] == NoteKeys(m, keys, n - 1);
    }
  }

  lemma {:induction false} NotesExact(nodes: Nodes)
    requires NotesInOrder(nodes)
    ensures Distinct(Notes(nodes))
    ensures forall k :: k in Notes(nodes) <==> k in nodes.entries && !nodes.entries[k].kind.Structural()
  {
    NoteKeysDistinct(nodes.entries, nodes.keys, |nodes.keys|);
    forall k ensures k in Notes(nodes) <==> k in nodes.entries && !nodes.entries[k].kind.Structural() {
      NoteKeysExact(nodes.entries, nodes.keys, |nodes.keys|, k);
      assert k in nodes.keys <==> k in nodes.entries;
    }
  }

  // ----- the tag table

  lemma {:induction false} TakenOneMore(tags: seq<string>, j: nat, tag: string)
    requires 0 < j <= |tags| && Distinct(tags)
    ensures tag in tags[..j] <==> tag in tags[..j - 1] || tag == tags[j - 1]
    ensures tag in tags[..j - 1] ==> tag != tags[j - 1]
  {
    hide Distinct;
    DistinctStep(tags, j - 1);
  }

  lemma {:induction false} NoTagRow(t: TagTable, k: NodeId, tags: seq<string>)
    ensures TagRow(t, k, tags, 0) == t
  {
  }

  lemma {:induction false} TagRowStep(t: TagTable, k: NodeId, tags: seq<string>, j: nat, tag: string)
    requires 0 < j <= |tags|
    ensures tag in TagRow(t, k, tags, j).entries <==> tag in TagRow(t, k, tags, j - 1).entries || tag == tags[j - 1]
    ensures TagRow(t, k, tags, j).Get(tag, [])
         == TagRow(t, k, tags, j - 1).Get(tag, []) + if tag == tags[j - 1] then [k] else []
  {
    hide OrderedMap.Valid, OrderedMap.Get, OrderedMap.Put;
    var before, x := TagRow(t, k, tags, j - 1), tags[j - 1];
    GetAfterPut(before, x, before.Get(x, []) + [k], tag, []);
  }

  /** Visiting a note adds it under each of its tags, once. */
  lemma {:induction false} TagRowGet(t: TagTable, k: NodeId, tags: seq<string>, j: nat, tag: string)
    requires j <= |tags| && Distinct(tags)
    ensures TagRow(t, k, tags, j).Get(tag, []) == t.Get(tag, []) + if tag in tags[..j] then [k] else []
    ensures tag in TagRow(t, k, tags, j).entries <==> tag in t.entries || tag in tags[..j]
  {
    hide Distinct, OrderedMap.Valid, OrderedMap.Get, TagRow;
    if j == 0 {
      NoTagRow(t, k, tags);
    } else {
      TagRowGet(t, k, tags, j - 1, tag);
      TagRowStep(t, k, tags, j, tag);
      TakenOneMore(tags, j, tag);
    }
  }

  lemma {:induction false} TagRowsGet(m: map<NodeId, Node>, ks: seq<NodeId>, n: nat, tag: string)
    requires n <= |ks| && Present(m, ks) && forall i :: 0 <= i < |ks| ==> Distinct(m[ks[i]].tags)
    ensures TagRows(m, ks, n).Get(tag, []) == Tagged(m, ks, tag, n)
    ensures tag in TagRows(m, ks, n).entries <==> Tagged(m, ks, tag, n) != []
  {
    hide TagRow, Distinct, OrderedMap.Valid;
    if n > 0 {
      TagRowsGet(m, ks, n - 1, tag);
      var tags := m[ks[n - 1]].tags;
      TagRowGet(TagRows(m, ks, n - 1), ks[n - 1], tags, |tags|, tag);
      assert tags[..|tags|] == tags;
    }
  }

  lemma {:induction false} TaggedExact(m: map<NodeId, Node>, ks: seq<NodeId>, tag: string, n: nat, k: NodeId)
    requires n <= |ks| && Present(m, ks)
    ensures k in Tagged(m, ks, tag, n) <==> exists i :: 0 <= i < n && ks[i] == k && tag in m[k].tags
  {
    if n > 0 { TaggedExact(m, ks, tag, n - 1, k); }
  }

  lemma {:induction false} TaggedDistinct(m: map<NodeId, Node>, ks: seq<NodeId>, tag: string, n: nat)
    requires n <= |ks| && Present(m, ks) && Distinct(ks)
    ensures Distinct(Tagged(m, ks, tag, n))
  {
    if n > 0 {
      TaggedDistinct(m, ks, tag, n - 1);
      TaggedExact(m, ks, tag, n - 1, ks[n - 1]);
      DistinctStep(ks, n - 1);
      DistinctAppend(Tagged(m, ks, tag, n - 1), ks[n - 1]);
      assert Tagged(m, ks, tag, n - 1) + [] == Tagged(m, ks, tag, n - 1);
    }
  }

  lemma {:induction false} TagSuggestionsMember(m: map<NodeId, Node>, links: Links, t: TagTable, n: nat, x: Suggestion)
    requires n <= |t.keys| && t.Valid()
    ensures x in TagSuggestions(m, links, t, n) <==>
      exists i :: 0 <= i < n && t.keys[i] in t.entries && UsefulGroup(t.entries[t.keys[i]]) &&
                  x in PairRows(TagEmit(m, links, t.keys[i]), t.entries[t.keys[i]], |t.entries[t.keys[i]]|)
  {
    hide TagEmit;
    if n > 0 {
      TagSuggestionsMember(m, links, t, n - 1, x);
      assert t.keys[n - 1] in t.keys;
    }
  }

  lemma {:induction false} OfKindExact(m: map<NodeId, Node>, ks: seq<NodeId>, p: NodeKind -> bool, n: nat, k: NodeId)
    requires n <= |ks| && Present(m, ks)
    ensures k in OfKind(m, ks, p, n) <==> exists i :: 0 <= i < n && ks[i] == k && p(m[k].kind)
  {
    if n > 0 { OfKindExact(m, ks, p, n - 1, k); }
  }

  // ----- the grounds for a suggestion

  /** Both notes carry `tag`, and it is on two to twenty notes. */
  ghost predicate ShareTag(nodes: Nodes, tag: string, a: NodeId, b: NodeId)
    requires Present(nodes.entries, nodes.keys) && a in nodes.entries && b in nodes.entries
  {
    && tag in nodes.entries[a].tags && tag in nodes.entries[b].tags
    && UsefulGroup(Tagged(nodes.entries, Notes(nodes), tag, |Notes(nodes)|))
  }

  /** A promotion artifact that mentions the title of a doctrine, decision, concept or project. */
  ghost predicate Artifact(lex: Lexicon, nodes: Nodes, p: NodeId, t: NodeId)
    requires p in nodes.entries && t in nodes.entries
  {
    && PromotionKind(nodes.entries[p].kind) && TargetKind(nodes.entries[t].kind)
    && Mentions(lex, nodes.entries, p, t)
  }

  ghost predicate Sound(lex: Lexicon, nodes: Nodes, edges: seq<Edge>, s: Suggestion)
    requires NotesInOrder(nodes)
  {
    && s.source in Notes(nodes) && s.target in Notes(nodes) && s.source != s.target
    && s.source in nodes.entries && s.target in nodes.entries
    && !DirectlyLinked(edges, |edges|, s.source, s.target)
    && (|| (s.reason.SharedTag? && s.confidence == Medium && ShareTag(nodes, s.reason.tag, s.source, s.target))
        || (s.confidence == Low && s.reason == TitleOverlap(SharedWords(lex, nodes.entries, s.source, s.target)) &&
            Similar(lex, nodes.entries, s.source, s.target))
        || (s.confidence == Medium && s.reason == MentionedByText(nodes.entries[s.target].title) &&
            Artifact(lex, nodes, s.source, s.target)))
  }

  lemma {:induction false} TagGroup(nodes: Nodes, tag: string)
    requires NotesInOrder(nodes)
    ensures var m, ks := nodes.entries, Notes(nodes);
      && TagRows(m, ks, |ks|).Get(tag, []) == Tagged(m, ks, tag, |ks|)
      && (tag in TagRows(m, ks, |ks|).entries <==> Tagged(m, ks, tag, |ks|) != [])
      && Distinct(Tagged(m, ks, tag, |ks|))
      && (forall k :: k in Tagged(m, ks, tag, |ks|) <==> k in ks && k in m && tag in m[k].tags)
  {
    var m, ks := nodes.entries, Notes(nodes);
    NotesExact(nodes);
    assert forall i :: 0 <= i < |ks| ==> ks[i] in ks;
    TagRowsGet(m, ks, |ks|, tag);
    TaggedDistinct(m, ks, tag, |ks|);
    forall k ensures k in Tagged(m, ks, tag, |ks|) <==> k in ks && k in m && tag in m[k].tags {
      TaggedExact(m, ks, tag, |ks|, k);
    }
  }

  lemma {:induction false} TagCandidateSound(lex: Lexicon, nodes: Nodes, edges: seq<Edge>, s: Suggestion)
    requires NotesInOrder(nodes)
    requires var t := TagRows(nodes.entries, Notes(nodes), |Notes(nodes)|);
             s in TagSuggestions(nodes.entries, LinksOf(edges, |edges|), t, |t.keys|)
    ensures Sound(lex, nodes, edges, s)
  {
    hide TagSuggestions, TagRows, PairRows;
    var m, ks, links := nodes.entries, Notes(nodes), LinksOf(edges, |edges|);
    var t := TagRows(m, ks, |ks|);
    TagSuggestionsMember(m, links, t, |t.keys|, s);
    var i :| 0 <= i < |t.keys| && t.keys[i] in t.entries && UsefulGroup(t.entries[t.keys[i]]) &&
             s in PairRows(TagEmit(m, links, t.keys[i]), t.entries[t.keys[i]], |t.entries[t.keys[i]]|);
    TagGroup(nodes, t.keys[i]);
    TagPairSound(lex, nodes, edges, t.keys[i], s);
  }

  lemma {:induction false} TagPairSound(lex: Lexicon, nodes: Nodes, edges: seq<Edge>, tag: string, s: Suggestion)
    requires NotesInOrder(nodes)
    requires var ids := Tagged(nodes.entries, Notes(nodes), tag, |Notes(nodes)|);
             UsefulGroup(ids) && s in PairRows(TagEmit(nodes.entries, LinksOf(edges, |edges|), tag), ids, |ids|)
    ensures Sound(lex, nodes, edges, s)
  {
    hide Tagged, NoteKeys, PairRows, TagRows, SharedWords, Artifact, TagEmit, DirectlyLinked, LinksOf;
    var m, links := nodes.entries, LinksOf(edges, |edges|);
    var ids := Tagged(m, Notes(nodes), tag, |Notes(nodes)|);
    NotesExact(nodes);
    TagGroup(nodes, tag);
    PairRowsMember(TagEmit(m, links, tag), ids, |ids|, s);
    var a, b :| 0 <= a < |ids| && a < b < |ids| && s in TagEmit(m, links, tag)(ids[a], ids[b]);
    assert ids[a] in ids && ids[b] in ids;
    DistinctAt(ids, a, b);
    TagEmitted(m, links, tag, ids[a], ids[b]);
    LinksOfExact(edges, |edges|, ids[a], ids[b]);
    assert ShareTag(nodes, tag, ids[a], ids[b]);
  }

  lemma {:induction false} TitleCandidateSound(lex: Lexicon, nodes: Nodes, edges: seq<Edge>, s: Suggestion)
    requires NotesInOrder(nodes)
    requires s in PairRows(TitleEmit(lex, nodes.entries, LinksOf(edges, |edges|)), Notes(nodes), |Notes(nodes)|)
    ensures Sound(lex, nodes, edges, s)
  {
    hide TitleEmit, PairRows, NoteKeys, DirectlyLinked, LinksOf, Artifact, ShareTag;
    var m, ks, links := nodes.entries, Notes(nodes), LinksOf(edges, |edges|);
    NotesExact(nodes);
    PairRowsMember(TitleEmit(lex, m, links), ks, |ks|, s);
    var a, b :| 0 <= a < |ks| && a < b < |ks| && s in TitleEmit(lex, m, links)(ks[a], ks[b]);
    assert ks[a] in ks && ks[b] in ks;
    DistinctAt(ks, a, b);
    TitleEmitted(lex, m, links, ks[a], ks[b]);
    LinksOfExact(edges, |edges|, ks[a], ks[b]);
  }

  lemma {:induction false} MentionCandidateSound(lex: Lexicon, nodes: Nodes, edges: seq<Edge>, s: Suggestion)
    requires NotesInOrder(nodes)
    requires var m, ks := nodes.entries, Notes(nodes);
             var ps := OfKind(m, ks, PromotionKind, |ks|);
             s in CrossRows(MentionEmit(lex, m, LinksOf(edges, |edges|)), ps, OfKind(m, ks, TargetKind, |ks|), |ps|)
    ensures Sound(lex, nodes, edges, s)
  {
    hide MentionEmit, CrossRows, NoteKeys, DirectlyLinked, LinksOf, SharedWords, ShareTag, OfKind;
    var m, ks, links := nodes.entries, Notes(nodes), LinksOf(edges, |edges|);
    NotesExact(nodes);
    var ps, ts := OfKind(m, ks, PromotionKind, |ks|), OfKind(m, ks, TargetKind, |ks|);
    CrossRowsMember(MentionEmit(lex, m, links), ps, ts, |ps|, s);
    var i, j :| 0 <= i < |ps| && 0 <= j < |ts| && s in MentionEmit(lex, m, links)(ps[i], ts[j]);
    assert ps[i] in ps && ts[j] in ts;
    OfKindExact(m, ks, PromotionKind, |ks|, ps[i]);
    OfKindExact(m, ks, TargetKind, |ks|, ts[j]);
    MentionEmitted(lex, m, links, ps[i], ts[j]);
    LinksOfExact(edges, |edges|, ps[i], ts[j]);
  }

  lemma {:induction false} CandidateSound(lex: Lexicon, nodes: Nodes, edges: seq<Edge>, s: Suggestion)
    requires NotesInOrder(nodes) && s in Candidates(lex, nodes, edges)
    ensures Sound(lex, nodes, edges, s)
  {
    hide Sound, TagSuggestions, PairRows, CrossRows, TagEmit, TitleEmit, MentionEmit, LinksOf, TagRows, OfKind,
         NoteKeys;
    var m, ks, links := nodes.entries, Notes(nodes), LinksOf(edges, |edges|);
    var t := TagRows(m, ks, |ks|);
    if s in TagSuggestions(m, links, t, |t.keys|) {
      TagCandidateSound(lex, nodes, edges, s);
    } else if s in PairRows(TitleEmit(lex, m, links), ks, |ks|) {
      TitleCandidateSound(lex, nodes, edges, s);
    } else {
      MentionCandidateSound(lex, nodes, edges, s);
    }
  }

  /** Every suggestion shown joins two distinct notes without a direct link, for the reason it gives;
      no unordered pair is shown twice; and at most a hundred are. */
  lemma {:induction false} SuggestionsSound(lex: Lexicon, nodes: Nodes, edges: seq<Edge>)
    requires NotesInOrder(nodes)
    ensures var r := Shown(Candidates(lex, nodes, edges));
      && |r| <= 100
      && (forall s :: s in r ==> Sound(lex, nodes, edges, s))
      && (forall i, j :: 0 <= i < j < |r| ==> {r[i].source, r[i].target} != {r[j].source, r[j].target})
  {
    hide Sound, Candidates;
    var cs := Candidates(lex, nodes, edges);
    var r := Shown(cs);
    var unique := Unique(cs, |cs|);
    assert r <= unique;
    forall s | s in r ensures Sound(lex, nodes, edges, s) {
      assert s in unique;
      UniqueMembers(cs, |cs|, s);
      CandidateSound(lex, nodes, edges, s);
    }
    UniqueKeysDiffer(cs, |cs|);
    forall i, j | 0 <= i < j < |r| ensures {r[i].source, r[i].target} != {r[j].source, r[j].target} {
      assert r[i] == unique[i] && r[j] == unique[j];
      KeyIsUnordered(r[i], r[j]);
    }
  }

  /** Before the cut, each candidate's pair survives, represented by its first candidate. */
  lemma {:induction false} FirstReasonSurvives(cs: seq<Suggestion>, i: nat) returns (first: nat)
    requires i < |cs|
    ensures first <= i && {cs[first].source, cs[first].target} == {cs[i].source, cs[i].target}
    ensures forall j :: 0 <= j < first ==> {cs[j].source, cs[j].target} != {cs[i].source, cs[i].target}
    ensures cs[first] in Unique(cs, |cs|)
  {
    first := FirstExists(cs, i + 1, Key(cs[i]));
    KeyIsUnordered(cs[first], cs[i]);
    UniqueMembers(cs, |cs|, cs[first]);
    forall j | 0 <= j < first ensures {cs[j].source, cs[j].target} != {cs[i].source, cs[i].target} {
      KeyIsUnordered(cs[j], cs[i]);
    }
  }

  // ----- exactness

  ghost predicate Grounds(lex: Lexicon, nodes: Nodes, a: NodeId, b: NodeId)
    requires Present(nodes.entries, nodes.keys) && a in nodes.entries && b in nodes.entries
  {
    || (exists tag :: ShareTag(nodes, tag, a, b))
    || Similar(lex, nodes.entries, a, b)
    || Artifact(lex, nodes, a, b)
    || Artifact(lex, nodes, b, a)
  }

  ghost predicate Joins(s: Suggestion, a: NodeId, b: NodeId) { {s.source, s.target} == {a, b} }

  lemma {:induction false} LinkSymmetric(edges: seq<Edge>, a: NodeId, b: NodeId)
    ensures DirectlyLinked(edges, |edges|, a, b) <==> DirectlyLinked(edges, |edges|, b, a)
  {
  }

  lemma {:induction false} SharedTagCandidate(lex: Lexicon, nodes: Nodes, edges: seq<Edge>, tag: string, x: NodeId,
      y: NodeId) returns (s: Suggestion)
    requires NotesInOrder(nodes) && x in Notes(nodes) && y in Notes(nodes) && x != y
    requires ShareTag(nodes, tag, x, y) && !DirectlyLinked(edges, |edges|, x, y)
    ensures s in Candidates(lex, nodes, edges) && Joins(s, x, y)
    ensures s.reason.SharedTag?
  {
    hide Tagged, NoteKeys, TagRows, TagEmit, TitleEmit, MentionEmit, LinksOf, DirectlyLinked, PairRows, CrossRows,
         TagSuggestions;
    var m, ks, links := nodes.entries, Notes(nodes), LinksOf(edges, |edges|);
    NotesExact(nodes);
    var t, ids := TagRows(m, ks, |ks|), Tagged(m, ks, tag, |ks|);
    TagGroup(nodes, tag);
    assert tag in t.keys;
    var g :| 0 <= g < |t.keys| && t.keys[g] == tag;
    var i :| 0 <= i < |ids| && ids[i] == x;
    var j :| 0 <= j < |ids| && ids[j] == y;
    var a, b := if i < j then i else j, if i < j then j else i;
    LinksOfExact(edges, |edges|, x, y);
    LinksOfExact(edges, |edges|, y, x);
    LinkSymmetric(edges, x, y);
    s := Suggestion(ids[a], ids[b], SharedTag(tag), Medium);
    TagEmitted(m, links, tag, ids[a], ids[b]);
    assert s in TagEmit(m, links, tag)(ids[a], ids[b]);
    PairRowsMember(TagEmit(m, links, tag), ids, |ids|, s);
    TagSuggestionsMember(m, links, t, |t.keys|, s);
  }

  lemma {:induction false} TitleCandidate(lex: Lexicon, nodes: Nodes, edges: seq<Edge>, x: NodeId, y: NodeId)
    returns (s: Suggestion)
    requires NotesInOrder(nodes) && x in Notes(nodes) && y in Notes(nodes) && x != y
    requires Similar(lex, nodes.entries, x, y) && !DirectlyLinked(edges, |edges|, x, y)
    ensures s in Candidates(lex, nodes, edges) && Joins(s, x, y)
    ensures s.reason.TitleOverlap?
  {
    hide NoteKeys, TagEmit, TitleEmit, MentionEmit, LinksOf, DirectlyLinked, PairRows, CrossRows, TagSuggestions;
    var m, ks, links := nodes.entries, Notes(nodes), LinksOf(edges, |edges|);
    NotesExact(nodes);
    var i :| 0 <= i < |ks| && ks[i] == x;
    var j :| 0 <= j < |ks| && ks[j] == y;
    var a, b := if i < j then i else j, if i < j then j else i;
    LinksOfExact(edges, |edges|, x, y);
    LinksOfExact(edges, |edges|, y, x);
    LinkSymmetric(edges, x, y);
    SimilarSymmetric(lex, m, x, y);
    s := Suggestion(ks[a], ks[b], TitleOverlap(SharedWords(lex, m, x, y)), Low);
    TitleEmitted(lex, m, links, ks[a], ks[b]);
    assert s in TitleEmit(lex, m, links)(ks[a], ks[b]);
    PairRowsMember(TitleEmit(lex, m, links), ks, |ks|, s);
  }

  lemma {:induction false} ArtifactCandidate(lex: Lexicon, nodes: Nodes, edges: seq<Edge>, p: NodeId, t: NodeId)
    returns (s: Suggestion)
    requires NotesInOrder(nodes) && p in Notes(nodes) && t in Notes(nodes)
    requires Artifact(lex, nodes, p, t) && !DirectlyLinked(edges, |edges|, p, t)
    ensures s in Candidates(lex, nodes, edges) && Joins(s, p, t)
  {
    hide NoteKeys, TagEmit, TitleEmit, MentionEmit, LinksOf, DirectlyLinked, PairRows, CrossRows, TagSuggestions,
         OfKind;
    var m, ks, links := nodes.entries, Notes(nodes), LinksOf(edges, |edges|);
    NotesExact(nodes);
    var ps, ts := OfKind(m, ks, PromotionKind, |ks|), OfKind(m, ks, TargetKind, |ks|);
    OfKindExact(m, ks, PromotionKind, |ks|, p);
    OfKindExact(m, ks, TargetKind, |ks|, t);
    LinksOfExact(edges, |edges|, p, t);
    s := Suggestion(p, t, MentionedByText(m[t].title), Medium);
    MentionEmitted(lex, m, links, p, t);
    assert s in MentionEmit(lex, m, links)(p, t);
    var i :| 0 <= i < |ps| && ps[i] == p;
    var j :| 0 <= j < |ts| && ts[j] == t;
    CrossRowsMember(MentionEmit(lex, m, links), ps, ts, |ps|, s);
  }

  lemma {:induction false} SoundGrounds(lex: Lexicon, nodes: Nodes, edges: seq<Edge>, s: Suggestion, a: NodeId,
      b: NodeId)
    requires NotesInOrder(nodes) && Sound(lex, nodes, edges, s) && a in nodes.entries && b in nodes.entries
    requires Joins(s, a, b)
    ensures !DirectlyLinked(edges, |edges|, a, b) && Grounds(lex, nodes, a, b)
  {
    assert s.source in {a, b} && s.target in {a, b};
    LinkSymmetric(edges, a, b);
    SimilarSymmetric(lex, nodes.entries, a, b);
    if s.reason.SharedTag? { assert ShareTag(nodes, s.reason.tag, a, b); }
  }

  lemma {:induction false} GroundsCandidate(lex: Lexicon, nodes: Nodes, edges: seq<Edge>, a: NodeId, b: NodeId)
    returns (s: Suggestion)
    requires NotesInOrder(nodes) && a in Notes(nodes) && b in Notes(nodes) && a != b
    requires a in nodes.entries && b in nodes.entries
    requires !DirectlyLinked(edges, |edges|, a, b) && Grounds(lex, nodes, a, b)
    ensures s in Candidates(lex, nodes, edges) && Joins(s, a, b)
  {
    hide Candidates, ShareTag, Similar, Artifact, DirectlyLinked, Notes;
    LinkSymmetric(edges, a, b);
    if tag :| ShareTag(nodes, tag, a, b) {
      s := SharedTagCandidate(lex, nodes, edges, tag, a, b);
    } else if Similar(lex, nodes.entries, a, b) {
      s := TitleCandidate(lex, nodes, edges, a, b);
    } else if Artifact(lex, nodes, a, b) {
      s := ArtifactCandidate(lex, nodes, edges, a, b);
    } else {
      s := ArtifactCandidate(lex, nodes, edges, b, a);
      assert {b, a} == {a, b};
    }
  }

  /** Before the cut, two notes are suggested exactly when they are not directly linked and share a
      tag of moderate use, share two title words, or one is an artifact naming the other. */
  lemma {:induction false} SuggestedExactly(lex: Lexicon, nodes: Nodes, edges: seq<Edge>, a: NodeId, b: NodeId)
    requires NotesInOrder(nodes) && a in Notes(nodes) && b in Notes(nodes) && a != b
    ensures a in nodes.entries && b in nodes.entries
    ensures (exists s :: s in Unique(Candidates(lex, nodes, edges), |Candidates(lex, nodes, edges)|) && Joins(s, a, b))
      <==> !DirectlyLinked(edges, |edges|, a, b) && Grounds(lex, nodes, a, b)
  {
    hide Candidates, Grounds, DirectlyLinked, Notes, Unique, Sound;
    NotesExact(nodes);
    var cs := Candidates(lex, nodes, edges);
    if s :| s in Unique(cs, |cs|) && Joins(s, a, b) {
      UniqueMembers(cs, |cs|, s);
      CandidateSound(lex, nodes, edges, s);
      SoundGrounds(lex, nodes, edges, s, a, b);
    }
    if !DirectlyLinked(edges, |edges|, a, b) && Grounds(lex, nodes, a, b) {
      var s := GroundsCandidate(lex, nodes, edges, a, b);
      var i :| 0 <= i < |cs| && cs[i] == s;
      var first := FirstReasonSurvives(cs, i);
      assert Joins(cs[first], a, b);
    }
  }
}
