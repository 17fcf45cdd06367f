/** One run of the cortex map, from the scan to the suggestions. */
module CortexRun {
  import opened CortexModel
  import opened CortexGrowth
  import opened CortexMetrics
  import opened CortexSuggestions
  import opened CortexMapLaws
  import opened CortexBuilder
  import opened CortexScan
  import CortexSuggestionLaws

  /** What is said of a finished map: every edge joins two different nodes, the stored metrics are those
      of its edges, so the metric laws hold of it, and its notes are in order for the suggestion laws. */
  ghost predicate Finished(nodes: Nodes, edges: seq<Edge>)
  {
    && Closed(nodes, edges) && nodes == WithMetrics(nodes, edges)
    && (forall e :: e in edges ==> e.source != e.target)
    && CortexSuggestionLaws.NotesInOrder(nodes)
  }

  /** The nodes are those built of the notes, measured, and the edges those the passes build, then the
      similarity edges, and nothing else. */
  ghost predicate MadeOf(lex: Lexicon, notes: seq<Note>, built: Nodes, nodes: Nodes, edges: seq<Edge>)
  {
    && Extends(Base(notes), built, BuiltIds(notes)) && built.entries.Keys == BuiltIds(notes)
    && CortexSuggestionLaws.NotesInOrder(built) && nodes == WithMetrics(built, edges)
    && edges == BuiltEdges(notes) +
         SimilarityEdges(lex, WithMetrics(built, BuiltEdges(notes)).entries, CortexSuggestionLaws.Notes(built))
  }

  lemma {:induction false} MapEdgesNoSelfLoops(lex: Lexicon, scope: Scope, listing: Listing, notes: seq<Note>,
      built: Nodes, e: Edge)
    requires AllParsed(notes) && ReadFrom(notes, ScannedAll(scope, listing))
    requires CortexSuggestionLaws.NotesInOrder(built)
    requires e in BuiltEdges(notes) +
      SimilarityEdges(lex, WithMetrics(built, BuiltEdges(notes)).entries, CortexSuggestionLaws.Notes(built))
    ensures e.source != e.target
  {
    hide BuiltEdges, SimilarityEdges, WithMetrics, NoteKeys;
    if e in BuiltEdges(notes) {
      NoSelfLoops(scope, listing, notes, e);
    } else {
      CortexSuggestionLaws.NotesExact(built);
      SimilarityOnly(lex, WithMetrics(built, BuiltEdges(notes)).entries, CortexSuggestionLaws.Notes(built), e);
    }
  }

  lemma {:induction false} ClosedWhenMeasured(nodes: Nodes, edges: seq<Edge>)
    requires Closed(nodes, edges)
    ensures Closed(WithMetrics(nodes, edges), edges)
    ensures WithMetrics(nodes, edges) == WithMetrics(WithMetrics(nodes, edges), edges)
  {
    hide MetricsOf;
    MeasuredValid(nodes, edges);
    MeasuringTwice(nodes, edges, edges);
  }

  /** `parse` is what reading one file yields, `notes` what reading all scanned files does, and `built` the
      nodes made of them before they are measured. The suggestions join distinct notes of the map that have
      no link in either direction, each for the reason it gives, and no pair twice. */
  method CortexMap(lex: Lexicon, scope: Scope, listing: Listing, parse: string -> Note)
    returns (graph: CortexGraph, suggestions: seq<Suggestion>, ghost notes: seq<Note>, ghost built: Nodes)
    requires forall rel :: parse(rel).rel == rel && parse(rel).Parsed()
    ensures ReadFrom(notes, ScannedAll(scope, listing)) && AllParsed(notes)
    ensures forall i :: 0 <= i < |notes| ==> notes[i] == parse(notes[i].rel)
    ensures MadeOf(lex, notes, built, graph.nodes, graph.edges)
    ensures Finished(graph.nodes, graph.edges)
    ensures suggestions == Shown(Candidates(lex, graph.nodes, graph.edges)) && |suggestions| <= 100
    ensures forall s :: s in suggestions ==> CortexSuggestionLaws.Sound(lex, graph.nodes, graph.edges, s)
    ensures forall i, j :: 0 <= i < j < |suggestions| ==>
      {suggestions[i].source, suggestions[i].target} != {suggestions[j].source, suggestions[j].target}
  {
    hide Candidates, Shown, WithMetrics, SimilarityEdges, BuiltEdges, ScannedAll, CortexSuggestionLaws.Sound,
         CortexSuggestionLaws.NotesInOrder, Closed, Keyed, Extends, Base, BuiltIds, CortexSuggestionLaws.Notes;
    var rels := ScanCortexSources(scope, listing);
    var read := [];
    for i := 0 to |rels|
      invariant |read| == i && AllParsed(read)
      invariant forall k :: 0 <= k < i ==> read[k].rel == rels[k] && read[k] == parse(rels[k])
    {
      read := read + [parse(rels[i])];
    }
    notes := read;
    graph := new CortexGraph();
    built := graph.BuildMap(lex, read);
    ClosedWhenMeasured(built, graph.edges);
    forall e | e in graph.edges ensures e.source != e.target {
      MapEdgesNoSelfLoops(lex, scope, listing, notes, built, e);
    }
    suggestions := graph.SuggestMissingLinks(lex);
    CortexSuggestionLaws.SuggestionsSound(lex, graph.nodes, graph.edges);
  }
}
