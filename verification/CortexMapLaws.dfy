/** The laws of the finished map: similarity edges keep the graph closed, and measuring again
    replaces the first measurement. */
module CortexMapLaws {
  import opened OrderedMaps
  import opened CortexModel
  import opened CortexGrowth
  import opened CortexMetrics
  import opened CortexSuggestions
  import CortexSuggestionLaws
  import CortexWellFormed

  // ----- measuring twice

  ghost predicate SameShape(m: map<NodeId, Node>, m': map<NodeId, Node>)
  {
    && m.Keys == m'.Keys
    && forall k :: k in m ==> m[k].folder == m'[k].folder && m[k].kind == m'[k].kind
  }

  lemma {:induction false} SameSeen(m: map<NodeId, Node>, m': map<NodeId, Node>, edges: seq<Edge>, v: NodeId, n: nat)
    requires SameShape(m, m') && n <= |edges|
    ensures NeighborFolders(m, edges, v, n) == NeighborFolders(m', edges, v, n)
    ensures NeighborKinds(m, edges, v, n) == NeighborKinds(m', edges, v, n)
  {
    if n > 0 {
      SameSeen(m, m', edges, v, n - 1);
      var e := edges[n - 1];
      assert FoldersSeen(m, e, v) == FoldersSeen(m', e, v) && KindsSeen(m, e, v) == KindsSeen(m', e, v);
    }
  }

  /** Metrics depend on folders, kinds and edges only. */
  lemma {:induction false} SameMetrics(m: map<NodeId, Node>, m': map<NodeId, Node>, edges: seq<Edge>, v: NodeId)
    requires SameShape(m, m') && v in m
    ensures MetricsOf(m, edges, v) == MetricsOf(m', edges, v)
  {
    hide NeighborFolders, NeighborKinds;
    SameSeen(m, m', edges, v, |edges|);
  }

  /** So the second measurement decides. */
  lemma {:induction false} MeasuringTwice(nodes: Nodes, first: seq<Edge>, second: seq<Edge>)
    ensures WithMetrics(WithMetrics(nodes, first), second) == WithMetrics(nodes, second)
  {
    hide MetricsOf;
    var once := WithMetrics(nodes, first);
    assert SameShape(nodes.entries, once.entries);
    forall k | k in nodes.entries ensures MetricsOf(once.entries, second, k) == MetricsOf(nodes.entries, second, k) {
      SameMetrics(once.entries, nodes.entries, second, k);
    }
    assert WithMetrics(once, second).entries == WithMetrics(nodes, second).entries;
  }

  // ----- the notes of the finished dictionary

  lemma {:induction false} BuiltInOrder(notes: seq<Note>, nodes: Nodes)
    requires AllParsed(notes) && Extends(Base(notes), nodes, BuiltIds(notes))
    ensures CortexSuggestionLaws.NotesInOrder(nodes)
    ensures forall k :: k in CortexSuggestionLaws.Notes(nodes) <==> k in Base(notes).entries
  {
    KeysPresent(nodes);
    forall k | k in nodes.entries
      ensures k in Base(notes).entries <==> !nodes.entries[k].kind.Structural()
      ensures k in Base(notes).entries ==> Id(nodes.entries[k].path) == k && Distinct(nodes.entries[k].tags)
    {
      if k in Base(notes).entries {
        var i := CortexWellFormed.BaseEntry(notes, |notes|, k);
        assert notes[i].Parsed();
      } else {
        assert Created(nodes.entries[k]);
      }
    }
    CortexSuggestionLaws.NotesExact(nodes);
  }

  /** The edges of the finished map. */
  ghost function MapEdges(lex: Lexicon, notes: seq<Note>, nodes: Nodes): seq<Edge>
    requires Present(nodes.entries, nodes.keys)
  {
    BuiltEdges(notes) + SimilarityEdges(lex, nodes.entries, CortexSuggestionLaws.Notes(nodes))
  }

  /** Built edges and similarity edges all join nodes of the dictionary, so the metric laws hold of
      the finished map. */
  lemma {:induction false} MapClosed(lex: Lexicon, notes: seq<Note>, nodes: Nodes, measured: Nodes)
    requires AllParsed(notes) && Extends(Base(notes), nodes, BuiltIds(notes)) && nodes.entries.Keys == BuiltIds(notes)
    requires measured.keys == nodes.keys && SameShape(nodes.entries, measured.entries)
        && Present(measured.entries, measured.keys)
    ensures Closed(nodes, MapEdges(lex, notes, measured))
  {
    BuiltInOrder(notes, nodes);
    CortexSuggestionLaws.NotesExact(nodes);
    SameNoteKeys(nodes.entries, measured.entries, nodes.keys, |nodes.keys|);
    var ks := CortexSuggestionLaws.Notes(measured);
    forall e | e in MapEdges(lex, notes, measured) ensures e.source in nodes.entries && e.target in nodes.entries {
      if e in BuiltEdges(notes) {
        CortexWellFormed.EdgesJustified(notes, e);
      } else {
        SimilarityOnly(lex, measured.entries, ks, e);
      }
    }
  }

  lemma {:induction false} SameNoteKeys(m: map<NodeId, Node>, m': map<NodeId, Node>, keys: seq<NodeId>, n: nat)
    requires SameShape(m, m') && Present(m, keys) && Present(m', keys) && n <= |keys|
    ensures NoteKeys(m, keys, n) == NoteKeys(m', keys, n)
  {
    if n > 0 { SameNoteKeys(m, m', keys, n - 1); }
  }

  lemma {:induction false} MeasuredSameShape(nodes: Nodes, edges: seq<Edge>)
    requires Present(nodes.entries, nodes.keys)
    ensures SameShape(nodes.entries, WithMetrics(nodes, edges).entries)
    ensures WithMetrics(nodes, edges).keys == nodes.keys && Present(WithMetrics(nodes, edges).entries, nodes.keys)
  {
    hide MetricsOf;
  }

  /** Measuring changes neither the notes nor their order. */
  lemma {:induction false} MeasuredInOrder(nodes: Nodes, edges: seq<Edge>)
    requires CortexSuggestionLaws.NotesInOrder(nodes)
    ensures CortexSuggestionLaws.NotesInOrder(WithMetrics(nodes, edges))
    ensures CortexSuggestionLaws.Notes(WithMetrics(nodes, edges)) == CortexSuggestionLaws.Notes(nodes)
  {
    hide MetricsOf, Distinct;
    MeasuredSameShape(nodes, edges);
    SameNoteKeys(nodes.entries, WithMetrics(nodes, edges).entries, nodes.keys, |nodes.keys|);
  }
}
