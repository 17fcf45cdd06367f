/** The mutable graph of the cortex map and the passes that build it. */
module CortexBuilder {
  import opened OrderedMaps
  import opened CortexModel
  import opened CortexGrowth
  import opened CortexMetrics
  import opened CortexSuggestions
  import opened CortexMapLaws
  import CortexSuggestionLaws

  lemma {:induction false} MeasuredKeyed(nodes: Nodes, edges: seq<Edge>)
    requires Keyed(nodes)
    ensures Keyed(WithMetrics(nodes, edges)) && Present(WithMetrics(nodes, edges).entries, nodes.keys)
  {
    hide MetricsOf, Distinct;
    KeysPresent(nodes);
  }

  lemma {:induction false} MeasuredWhole(nodes: Nodes, edges: seq<Edge>)
    requires Keyed(nodes) && Present(nodes.entries, nodes.keys)
    ensures Measured(nodes, edges, |nodes.keys|) == WithMetrics(nodes, edges)
  {
    MeasuredAll(nodes, edges);
  }

  class CortexGraph {
    var nodes: Nodes
    var edges: seq<Edge>
    var stems: map<string, NodeId>

    ghost predicate Valid()
      reads this
    {
      Keyed(nodes) && Present(nodes.entries, nodes.keys)
    }

    constructor ()
      ensures nodes == OrderedMap([], map[]) && edges == [] && stems == map[]
    {
      nodes, edges, stems := OrderedMap([], map[]), [], map[];
    }

    method AddFolderEdges()
      requires Valid()
      modifies this`edges
      ensures edges == old(edges) + CollectAll(FolderOwed(nodes.entries.Keys), nodes)
    {
      hide Keyed, FolderOwed;
      ghost var owed := FolderOwed(nodes.entries.Keys);
      for i := 0 to |nodes.keys|
        invariant edges == old(edges) + Collect(owed, nodes.entries, nodes.keys, i)
      {
        AddFolderEdge(nodes.entries[nodes.keys[i]]);
      }
    }

    method AddFolderEdge(node: Node)
      modifies this`edges
      ensures edges == old(edges) + FolderOwed(nodes.entries.Keys)(node)
    {
      if node.kind.Tag? || node.kind.Folder? { return; }
      var folderId := FolderId(node.folder);
      if folderId in nodes.entries {
        edges := edges + [Edge(folderId, node.id, FolderContains)];
      }
    }

    /** Walks a snapshot of the nodes while inserting external nodes into the live dictionary. */
    method AddLinkEdges()
      requires Valid()
      modifies this`edges, this`nodes
      ensures edges == old(edges) + CollectAll(LinkOwed(stems), old(nodes))
      ensures nodes == WithLinked(old(nodes), old(nodes).entries, old(nodes).keys, |old(nodes).keys|)
    {
      hide Keyed, LinkOwed, WithExternals;
      var snapshot := nodes;
      ghost var owed := LinkOwed(stems);
      for i := 0 to |snapshot.keys|
        invariant edges == old(edges) + Collect(owed, snapshot.entries, snapshot.keys, i)
        invariant nodes == WithLinked(snapshot, snapshot.entries, snapshot.keys, i)
      {
        AddLinkEdgesFrom(snapshot.entries[snapshot.keys[i]]);
      }
    }

    method AddLinkEdgesFrom(node: Node)
      modifies this`edges, this`nodes
      ensures edges == old(edges) + LinkOwed(stems)(node)
      ensures nodes == WithExternals(old(nodes), node.mdLinks, |node.mdLinks|)
    {
      hide StemEdges, MdEdges, WithExternals;
      AddStemEdges(node.id, node.wikiLinks, WikiLink);
      AddMarkdownEdges(node.id, node.mdLinks);
    }

    /** Appends an edge for every name that resolves to another note. */
    method AddStemEdges(nid: NodeId, names: seq<string>, kind: EdgeKind)
      modifies this`edges
      ensures edges == old(edges) + StemEdges(stems, nid, names, kind, |names|)
    {
      for j := 0 to |names|
        invariant edges == old(edges) + StemEdges(stems, nid, names, kind, j)
      {
        AddStemEdge(nid, names[j], kind);
      }
    }

    method AddStemEdge(nid: NodeId, name: string, kind: EdgeKind)
      modifies this`edges
      ensures edges == old(edges) + StemEdge(stems, nid, name, kind)
    {
      if name in stems {
        var target := stems[name];
        if target != Id("") && target != nid {
          edges := edges + [Edge(nid, target, kind)];
        }
      }
    }

    method AddMarkdownEdges(nid: NodeId, links: seq<MdLink>)
      modifies this`edges, this`nodes
      ensures edges == old(edges) + MdEdges(stems, nid, links, |links|)
      ensures nodes == WithExternals(old(nodes), links, |links|)
    {
      hide IsExternal, ExternalNode, MdEdge;
      for j := 0 to |links|
        invariant edges == old(edges) + MdEdges(stems, nid, links, j)
        invariant nodes == WithExternals(old(nodes), links, j)
      {
        AddMarkdownEdge(nid, links[j]);
      }
    }

    method AddMarkdownEdge(nid: NodeId, link: MdLink)
      modifies this`edges, this`nodes
      ensures edges == old(edges) + MdEdge(stems, nid, link.href)
      ensures nodes == if IsExternal(link.href) then PutMissing(old(nodes), ExternalNode(link)) else old(nodes)
    {
      if IsExternal(link.href) {
        var extId := ExternalId(link.href);
        if extId !in nodes.entries {
          nodes := nodes.Put(extId, ExternalNode(link));
        }
        edges := edges + [Edge(nid, extId, MarkdownLink)];
      } else {
        AddStemEdge(nid, LinkStem(link.href), MarkdownLink);
      }
    }

    method AddTagEdges()
      requires Valid()
      modifies this`edges
      ensures edges == old(edges) + CollectAll(TagOwed(nodes.entries.Keys), nodes)
    {
      hide Keyed, TagOwed;
      ghost var owed := TagOwed(nodes.entries.Keys);
      for i := 0 to |nodes.keys|
        invariant edges == old(edges) + Collect(owed, nodes.entries, nodes.keys, i)
      {
        AddTagEdgesFrom(nodes.entries[nodes.keys[i]]);
      }
    }

    method AddTagEdgesFrom(node: Node)
      modifies this`edges
      ensures edges == old(edges) + TagOwed(nodes.entries.Keys)(node)
    {
      if node.kind.Structural() { return; }
      for j := 0 to |node.tags|
        invariant edges == old(edges) + TagEdges(nodes.entries.Keys, node.id, node.tags, j)
      {
        var tagId := TagId(node.tags[j]);
        if tagId in nodes.entries {
          edges := edges + [Edge(node.id, tagId, TaggedAs)];
        }
      }
    }

    method AddCitationEdges()
      requires Valid()
      modifies this`edges
      ensures edges == old(edges) + CollectAll(CiteOwed(stems), nodes)
    {
      hide Keyed, CiteOwed;
      ghost var owed := CiteOwed(stems);
      for i := 0 to |nodes.keys|
        invariant edges == old(edges) + Collect(owed, nodes.entries, nodes.keys, i)
      {
        AddCitationEdgesFrom(nodes.entries[nodes.keys[i]]);
      }
    }

    method AddCitationEdgesFrom(node: Node)
      modifies this`edges
      ensures edges == old(edges) + CiteOwed(stems)(node)
    {
      if node.kind.Structural() { return; }
      AddStemEdges(node.id, node.citations, SourceCites);
    }

    method AddNoteNodes(notes: seq<Note>) returns (allTags: set<string>, allFolders: set<string>)
      requires nodes == OrderedMap([], map[]) && stems == map[]
      modifies this`nodes, this`stems
      ensures nodes == Base(notes) && stems == Stems(notes)
      ensures allTags == AllTags(notes, |notes|) && allFolders == AllFolders(notes, |notes|)
    {
      hide NoteNode, TopFolder, Elements, OrderedMap.Put, OrderedMap.Valid;
      allTags, allFolders := {}, {};
      for i := 0 to |notes|
        invariant nodes == NoteNodes(notes, i) && stems == StemIds(notes, i)
        invariant allTags == AllTags(notes, i) && allFolders == AllFolders(notes, i)
      {
        var note := notes[i];
        stems := stems[note.stem := Id(note.rel)];
        allTags := allTags + Elements(note.tags);
        allFolders := allFolders + {TopFolder(note.rel)};
        nodes := nodes.Put(Id(note.rel), NoteNode(note));
      }
    }

    /** Python walks the set of tags in an order of its own; `order` is that order. */
    method AddTagNodes(tags: set<string>) returns (ghost order: seq<string>)
      modifies this`nodes
      ensures Elements(order) == tags
      ensures nodes == WithTags(old(nodes), order)
    {
      var todo := tags;
      order := [];
      while todo != {}
        invariant todo <= tags && Elements(order) == tags - todo
        invariant nodes == WithTags(old(nodes), order)
        decreases todo
      {
        var tag :| tag in todo;
        if TagId(tag) !in nodes.entries {
          nodes := nodes.Put(TagId(tag), TagNode(tag));
        }
        assert (order + [tag])[..|order|] == order;
        assert Elements(order + [tag]) == Elements(order) + {tag};
        order, todo := order + [tag], todo - {tag};
      }
    }

    method AddFolderNodes(folders: set<string>) returns (ghost order: seq<string>)
      modifies this`nodes
      ensures Elements(order) == folders
      ensures nodes == WithFolders(old(nodes), order)
    {
      var todo := folders;
      order := [];
      while todo != {}
        invariant todo <= folders && Elements(order) == folders - todo
        invariant nodes == WithFolders(old(nodes), order)
        decreases todo
      {
        var folder :| folder in todo;
        if FolderId(folder) !in nodes.entries {
          nodes := nodes.Put(FolderId(folder), FolderNode(folder));
        }
        assert (order + [folder])[..|order|] == order;
        assert Elements(order + [folder]) == Elements(order) + {folder};
        order, todo := order + [folder], todo - {folder};
      }
    }

    /** A node per note, then one per tag and per folder. */
    method AddNodes(notes: seq<Note>)
      requires nodes == OrderedMap([], map[]) && stems == map[]
      modifies this`nodes, this`stems
      ensures Valid() && stems == Stems(notes)
      ensures Extends(Base(notes), nodes, TagIds(notes) + FolderIds(notes)) && nodes.entries.Keys == LocalIds(notes)
      ensures CollectAll(FolderOwed(LocalIds(notes)), nodes) == CollectAll(FolderOwed(LocalIds(notes)), Base(notes))
    {
      hide Extends, Keyed, CollectAll, FolderOwed, WithTags, WithFolders, Base, Stems, LocalIds, TagIds, FolderIds;
      var tags, folders := AddNoteNodes(notes);
      ghost var tagOrder := AddTagNodes(tags);
      ghost var folderOrder := AddFolderNodes(folders);
      LocalNodes(notes, tagOrder, folderOrder);
    }

    /** All passes up to the metrics. Although the passes test for the presence of tag and folder
        nodes and walk dictionaries that grow, the edges come from the notes alone. */
    method AddAll(notes: seq<Note>)
      requires nodes == OrderedMap([], map[]) && edges == [] && stems == map[]
      modifies this
      ensures Valid()
      ensures Extends(Base(notes), nodes, BuiltIds(notes)) && nodes.entries.Keys == BuiltIds(notes)
      ensures edges == BuiltEdges(notes)
    {
      hide Extends, Keyed, CollectAll, FolderOwed, LinkOwed, TagOwed, CiteOwed, WithLinked, Base, Stems, LocalIds,
           BuiltIds, TagIds, FolderIds;
      AddNodes(notes);
      AddFolderEdges();
      LinkedNodes(notes, nodes);
      AddLinkEdges();
      AddTagEdges();
      AddCitationEdges();
    }

    method ComputeMetrics()
      requires Valid()
      modifies this`nodes
      ensures Valid()
      ensures nodes == WithMetrics(old(nodes), edges)
    {
      hide Count, Tick, Seen, See, Keyed, WithMetrics, InTallied, OutTallied, FoldersTallied, KindsTallied;
      var into: Counter, out: Counter := map[], map[];
      var folders: map<NodeId, set<string>>, kinds: map<NodeId, set<NodeKind>> := map[], map[];
      NothingTallied(nodes.entries, edges);
      for i := 0 to |edges|
        invariant nodes == old(nodes)
        invariant InTallied(into, edges, i) && OutTallied(out, edges, i)
        invariant FoldersTallied(folders, nodes.entries, edges, i) && KindsTallied(kinds, nodes.entries, edges, i)
      {
        InStep(into, edges, i);
        OutStep(out, edges, i);
        FoldersStep(folders, nodes.entries, edges, i);
        KindsStep(kinds, nodes.entries, edges, i);
        var e := edges[i];
        if e.kind == FolderContains { continue; }
        out, into := Tick(out, e.source), Tick(into, e.target);
        if e.source in nodes.entries && e.target in nodes.entries {
          var source, target := nodes.entries[e.source], nodes.entries[e.target];
          if source.folder != "" {
            folders := See(See(folders, e.source, target.folder), e.target, source.folder);
          }
          kinds := See(See(kinds, e.source, target.kind), e.target, source.kind);
        }
      }
      StoreMetrics(into, out, folders, kinds);
    }

    /** The second loop: every node's metrics are overwritten in place. */
    method StoreMetrics(into: Counter, out: Counter, folders: map<NodeId, set<string>>,
        kinds: map<NodeId, set<NodeKind>>)
      requires Valid()
      requires InTallied(into, edges, |edges|) && OutTallied(out, edges, |edges|)
      requires FoldersTallied(folders, nodes.entries, edges, |edges|)
          && KindsTallied(kinds, nodes.entries, edges, |edges|)
      modifies this`nodes
      ensures Valid()
      ensures nodes == WithMetrics(old(nodes), edges)
    {
      hide InTallied, OutTallied, FoldersTallied, KindsTallied, MetricsOf, WithMetrics, Keyed, Measured;
      ghost var before := nodes;
      MeasuredKeyed(nodes, edges);
      MeasuredWhole(nodes, edges);
      NothingMeasured(nodes, edges);
      for i := 0 to |nodes.keys|
        invariant nodes == Measured(before, edges, i)
      {
        MeasuredStep(into, out, folders, kinds, before, edges, i);
        var nid := nodes.keys[i];
        StoreReading(into, out, folders, kinds, nid);
      }
    }

    method StoreReading(into: Counter, out: Counter, folders: map<NodeId, set<string>>,
        kinds: map<NodeId, set<NodeKind>>, nid: NodeId)
      requires nid in nodes.entries
      modifies this`nodes
      ensures nodes == old(nodes).Put(nid, Reading(into, out, folders, kinds, old(nodes).entries[nid], nid))
    {
      var node := nodes.entries[nid];
      var ind, outd := Count(into, nid), Count(out, nid);
      var bridge := |Seen(folders, nid)| + |Seen(kinds, nid)|;
      nodes := nodes.Put(nid, node.(metrics :=
        Metrics(ind, outd, ind + outd, bridge, ind + outd == 0 && !node.kind.Structural())));
    }

    /** Skips a note with fewer than two title words without looking at the others. */
    method AddSimilarityEdges(lex: Lexicon)
      requires Valid()
      modifies this`edges
      ensures edges
          == old(edges) + SimilarityEdges(lex, nodes.entries, NoteKeys(nodes.entries, nodes.keys, |nodes.keys|))
    {
      hide Keyed, SimilarityEmit, Similar, NoteKeys, PairRow;
      var ks := NoteKeys(nodes.entries, nodes.keys, |nodes.keys|);
      ghost var emit := SimilarityEmit(lex, nodes.entries);
      for i := 0 to |ks|
        invariant edges == old(edges) + PairRows(emit, ks, i)
      {
        AddSimilarityRow(lex, ks, i);
      }
    }

    method AddSimilarityRow(lex: Lexicon, ks: seq<NodeId>, i: nat)
      requires i < |ks| && Present(nodes.entries, ks)
      modifies this`edges
      ensures edges == old(edges) + PairRow(SimilarityEmit(lex, nodes.entries), ks, i, |ks|)
    {
      hide SimilarityEmit;
      ghost var emit := SimilarityEmit(lex, nodes.entries);
      var wordsA := lex.titleWords(nodes.entries[ks[i]].title);
      if |wordsA| < 2 {
        PrunedRow(lex, nodes.entries, ks, i);
        return;
      }
      for j := i + 1 to |ks|
        invariant edges == old(edges) + PairRow(emit, ks, i, j)
      {
        SimilarityEmitted(lex, nodes.entries, ks[i], ks[j]);
        var shared := wordsA * lex.titleWords(nodes.entries[ks[j]].title);
        if |shared| >= 2 {
          edges := edges + [Edge(ks[i], ks[j], SimilarTitle)];
        }
      }
    }

    /** The whole map: build, measure, add similarity edges, measure again. `built` is the dictionary
        before any measurement. */
    method BuildMap(lex: Lexicon, notes: seq<Note>) returns (ghost built: Nodes)
      requires AllParsed(notes)
      requires nodes == OrderedMap([], map[]) && edges == [] && stems == map[]
      modifies this
      ensures Extends(Base(notes), built, BuiltIds(notes)) && built.entries.Keys == BuiltIds(notes)
      ensures Valid() && CortexSuggestionLaws.NotesInOrder(built) && CortexSuggestionLaws.NotesInOrder(nodes)
      ensures nodes == WithMetrics(built, edges)
      ensures Closed(built, edges)
      ensures edges == BuiltEdges(notes) +
        SimilarityEdges(lex, WithMetrics(built, BuiltEdges(notes)).entries, CortexSuggestionLaws.Notes(built))
    {
      hide Extends, Keyed, WithMetrics, Base, BuiltIds, BuiltEdges, SimilarityEdges, NoteKeys, Closed;
      AddAll(notes);
      built := nodes;
      BuiltInOrder(notes, built);
      ComputeMetrics();
      MeasuredSameShape(built, edges);
      MapClosed(lex, notes, built, nodes);
      SameNoteKeys(built.entries, nodes.entries, built.keys, |built.keys|);
      AddSimilarityEdges(lex);
      MeasuringTwice(built, BuiltEdges(notes), edges);
      ComputeMetrics();
      MeasuredInOrder(built, edges);
    }

    // ----- missing links (reads the graph only)

    method ExistingLinks() returns (links: Links)
      ensures links == LinksOf(edges, |edges|)
    {
      links := {};
      for i := 0 to |edges|
        invariant links == LinksOf(edges, i)
      {
        var e := edges[i];
        if e.kind == WikiLink || e.kind == MarkdownLink {
          links := links + {(e.source, e.target)};
          links := links + {(e.target, e.source)};
        }
      }
    }

    method NotesPerTag(ks: seq<NodeId>) returns (t: TagTable)
      requires Present(nodes.entries, ks)
      ensures t == TagRows(nodes.entries, ks, |ks|)
    {
      t := OrderedMap([], map[]);
      for i := 0 to |ks|
        invariant t == TagRows(nodes.entries, ks, i)
      {
        var tags := nodes.entries[ks[i]].tags;
        for j := 0 to |tags|
          invariant t == TagRow(TagRows(nodes.entries, ks, i), ks[i], tags, j)
        {
          t := t.Put(tags[j], t.Get(tags[j], []) + [ks[i]]);
        }
      }
    }

    method SuggestByTag(links: Links, t: TagTable) returns (r: seq<Suggestion>)
      requires t.Valid()
      ensures r == TagSuggestions(nodes.entries, links, t, |t.keys|)
    {
      r := [];
      for i := 0 to |t.keys|
        invariant r == TagSuggestions(nodes.entries, links, t, i)
      {
        assert t.keys[i] in t.keys;
        var ids := t.entries[t.keys[i]];
        if |ids| < 2 || |ids| > 20 { continue; }
        var group := SuggestWithin(links, t.keys[i], ids);
        r := r + group;
      }
    }

    method SuggestWithin(links: Links, tag: string, ids: seq<NodeId>) returns (r: seq<Suggestion>)
      ensures r == PairRows(TagEmit(nodes.entries, links, tag), ids, |ids|)
    {
      hide TagEmit;
      r := [];
      ghost var emit := TagEmit(nodes.entries, links, tag);
      for i := 0 to |ids|
        invariant r == PairRows(emit, ids, i)
      {
        for j := i + 1 to |ids|
          invariant r == PairRows(emit, ids, i) + PairRow(emit, ids, i, j)
        {
          TagEmitted(nodes.entries, links, tag, ids[i], ids[j]);
          if (ids[i], ids[j]) !in links {
            r := r + [Suggestion(PathOf(nodes.entries, ids[i]), PathOf(nodes.entries, ids[j]), SharedTag(tag), Medium)];
          }
        }
      }
    }

    method SuggestByTitle(lex: Lexicon, links: Links, ks: seq<NodeId>) returns (r: seq<Suggestion>)
      requires Present(nodes.entries, ks)
      ensures r == PairRows(TitleEmit(lex, nodes.entries, links), ks, |ks|)
    {
      hide TitleEmit;
      r := [];
      ghost var emit := TitleEmit(lex, nodes.entries, links);
      for i := 0 to |ks|
        invariant r == PairRows(emit, ks, i)
      {
        var wordsA := lex.titleWords(nodes.entries[ks[i]].title);
        if |wordsA| < 2 {
          PrunedTitleRow(lex, nodes.entries, links, ks, i);
          continue;
        }
        for j := i + 1 to |ks|
          invariant r == PairRows(emit, ks, i) + PairRow(emit, ks, i, j)
        {
          TitleEmitted(lex, nodes.entries, links, ks[i], ks[j]);
          if (ks[i], ks[j]) in links { continue; }
          var shared := wordsA * lex.titleWords(nodes.entries[ks[j]].title);
          if |shared| >= 2 {
            var source, target := PathOf(nodes.entries, ks[i]), PathOf(nodes.entries, ks[j]);
            r := r + [Suggestion(source, target, TitleOverlap(shared), Low)];
          }
        }
      }
    }

    method SuggestDraftReferences(lex: Lexicon, links: Links, ks: seq<NodeId>) returns (r: seq<Suggestion>)
      requires Present(nodes.entries, ks)
      ensures r == CrossRows(MentionEmit(lex, nodes.entries, links),
        OfKind(nodes.entries, ks, PromotionKind, |ks|), OfKind(nodes.entries, ks, TargetKind, |ks|),
        |OfKind(nodes.entries, ks, PromotionKind, |ks|)|)
    {
      hide MentionEmit, OfKind;
      var ps, ts := OfKind(nodes.entries, ks, PromotionKind, |ks|), OfKind(nodes.entries, ks, TargetKind, |ks|);
      r := [];
      ghost var emit := MentionEmit(lex, nodes.entries, links);
      for i := 0 to |ps|
        invariant r == CrossRows(emit, ps, ts, i)
      {
        var text := lex.lower(nodes.entries[ps[i]].content);
        for j := 0 to |ts|
          invariant r == CrossRows(emit, ps, ts, i) + CrossRow(emit, ps[i], ts, j)
        {
          MentionEmitted(lex, nodes.entries, links, ps[i], ts[j]);
          if (ps[i], ts[j]) in links { continue; }
          var significant := Significant(lex.words(lex.lower(nodes.entries[ts[j]].title)));
          if |significant| >= 2 && Matches(text, significant) >= 2 {
            r := r + [Suggestion(PathOf(nodes.entries, ps[i]), PathOf(nodes.entries, ts[j]),
                                 MentionedByText(nodes.entries[ts[j]].title), Medium)];
          }
        }
      }
    }

    /** Candidates by tag, by title and by mention; the first of each unordered pair; at most 100. */
    method SuggestMissingLinks(lex: Lexicon) returns (r: seq<Suggestion>)
      requires Valid()
      ensures r == Shown(Candidates(lex, nodes, edges))
    {
      hide TagEmit, TitleEmit, MentionEmit, LinksOf, PairRows, CrossRows, TagSuggestions, OfKind, NoteKeys, TagRows,
           Key, Keyed;
      var links := ExistingLinks();
      var ks := NoteKeys(nodes.entries, nodes.keys, |nodes.keys|);
      var perTag := NotesPerTag(ks);
      var byTag := SuggestByTag(links, perTag);
      var byTitle := SuggestByTitle(lex, links, ks);
      var byMention := SuggestDraftReferences(lex, links, ks);
      var candidates := byTag + byTitle + byMention;
      var seen: set<(NodeId, NodeId)> := {};
      var unique: seq<Suggestion> := [];
      for i := 0 to |candidates|
        invariant seen == Keys(candidates, i) && unique == Unique(candidates, i)
      {
        var key := Key(candidates[i]);
        if key !in seen {
          seen, unique := seen + {key}, unique + [candidates[i]];
        }
      }
      r := if |unique| <= 100 then unique else unique[..100];
    }
  }
}
