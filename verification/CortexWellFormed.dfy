/** What the built graph guarantees: closed edges, self-loops exactly when a note is named like its
    own tag or link, and the counts of structural edges. */
module CortexWellFormed {
  import opened OrderedMaps
  import opened CortexModel
  import opened CortexGrowth
  import opened CortexCounting

  // ----- where entries and edges come from

  lemma {:induction false} BaseEntry(notes: seq<Note>, n: nat, k: NodeId) returns (i: nat)
    requires n <= |notes| && k in NoteNodes(notes, n).entries
    ensures i < n && Id(notes[i].rel) == k && NoteNodes(notes, n).entries[k] == NoteNode(notes[i])
  {
    hide NoteNode, OrderedMap.Valid;
    if k == Id(notes[n - 1].rel) { i := n - 1; } else { i := BaseEntry(notes, n - 1, k); }
  }

  lemma {:induction false} EveryNotePresent(notes: seq<Note>, n: nat, i: nat)
    requires i < n <= |notes|
    ensures Id(notes[i].rel) in NoteNodes(notes, n).entries
    ensures forall t :: t in notes[i].tags ==> t in AllTags(notes, n)
    ensures TopFolder(notes[i].rel) in AllFolders(notes, n)
  {
    hide NoteNode, TopFolder, OrderedMap.Valid;
    if i < n - 1 { EveryNotePresent(notes, n - 1, i); }
  }

  lemma {:induction false} StemEntry(notes: seq<Note>, n: nat, s: string) returns (i: nat)
    requires n <= |notes| && s in StemIds(notes, n)
    ensures i < n && notes[i].stem == s && Id(notes[i].rel) == StemIds(notes, n)[s]
  {
    if s == notes[n - 1].stem { i := n - 1; } else { i := StemEntry(notes, n - 1, s); }
  }

  lemma {:induction false} CollectMember(owed: Owed, m: map<NodeId, Node>, keys: seq<NodeId>, n: nat, e: Edge)
    returns (i: nat)
    requires n <= |keys| && Present(m, keys) && e in Collect(owed, m, keys, n)
    ensures i < n && e in owed(m[keys[i]])
  {
    if e in owed(m[keys[n - 1]]) { i := n - 1; } else { i := CollectMember(owed, m, keys, n - 1, e); }
  }

  lemma {:induction false} CollectHas(owed: Owed, m: map<NodeId, Node>, keys: seq<NodeId>, n: nat, i: nat, e: Edge)
    requires i < n <= |keys| && Present(m, keys) && e in owed(m[keys[i]])
    ensures e in Collect(owed, m, keys, n)
  {
    if i < n - 1 { CollectHas(owed, m, keys, n - 1, i, e); }
  }

  lemma {:induction false} StemEdgesMember(stems: map<string, NodeId>, nid: NodeId, names: seq<string>, kind: EdgeKind,
      n: nat, e: Edge)
    requires n <= |names| && e in StemEdges(stems, nid, names, kind, n)
    ensures e.source == nid && e.kind == kind && e.target != nid && exists s :: s in stems && stems[s] == e.target
  {
    if e in StemEdge(stems, nid, names[n - 1], kind) {
      assert names[n - 1] in stems;
    } else {
      StemEdgesMember(stems, nid, names, kind, n - 1, e);
    }
  }

  lemma {:induction false} MdEdgesMember(stems: map<string, NodeId>, nid: NodeId, links: seq<MdLink>, n: nat, e: Edge)
    requires n <= |links| && e in MdEdges(stems, nid, links, n)
    ensures e.source == nid && e.kind == MarkdownLink
    ensures || (e.target != nid && exists s :: s in stems && stems[s] == e.target)
            || (exists j :: 0 <= j < n && IsExternal(links[j].href) && e.target == ExternalId(links[j].href))
  {
    hide IsExternal, LinkStem, ExternalId;
    if e in MdEdge(stems, nid, links[n - 1].href) {
      if !IsExternal(links[n - 1].href) {
        assert LinkStem(links[n - 1].href) in stems;
      }
    } else {
      MdEdgesMember(stems, nid, links, n - 1, e);
    }
  }

  lemma {:induction false} MdEdgesHas(stems: map<string, NodeId>, nid: NodeId, links: seq<MdLink>, n: nat, j: nat)
    requires j < n <= |links| && IsExternal(links[j].href)
    ensures Edge(nid, ExternalId(links[j].href), MarkdownLink) in MdEdges(stems, nid, links, n)
    ensures ExternalId(links[j].href) in ExternalIds(links, n)
  {
    if j < n - 1 { MdEdgesHas(stems, nid, links, n - 1, j); }
  }

  lemma {:induction false} TagEdgesMember(ids: set<NodeId>, nid: NodeId, tags: seq<string>, n: nat, e: Edge)
    requires n <= |tags| && e in TagEdges(ids, nid, tags, n)
    ensures e.source == nid && e.kind == TaggedAs && e.target in ids
    ensures exists j :: 0 <= j < n && e.target == TagId(tags[j])
  {
    if e in TagEdges(ids, nid, tags, n - 1) { TagEdgesMember(ids, nid, tags, n - 1, e); }
  }

  lemma {:induction false} TagEdgesHas(ids: set<NodeId>, nid: NodeId, tags: seq<string>, n: nat, j: nat)
    requires j < n <= |tags| && TagId(tags[j]) in ids
    ensures Edge(nid, TagId(tags[j]), TaggedAs) in TagEdges(ids, nid, tags, n)
  {
    if j < n - 1 { TagEdgesHas(ids, nid, tags, n - 1, j); }
  }

  lemma {:induction false} LinkedHas(m: map<NodeId, Node>, keys: seq<NodeId>, n: nat, i: nat, x: NodeId)
    requires i < n <= |keys| && Present(m, keys)
    requires x in ExternalIds(m[keys[i]].mdLinks, |m[keys[i]].mdLinks|)
    ensures x in LinkedIds(m, keys, n)
  {
    if i < n - 1 { LinkedHas(m, keys, n - 1, i, x); }
  }

  /** A top folder holds no separator, so its identifier is never the path it came from. */
  lemma {:induction false} TopFolderWhole(s: string, f: string)
    requires '/' !in f && '\\' !in f
    ensures '/' !in TopFolder(s) && '\\' !in TopFolder(s) && |TopFolder(s)| <= |s|
    ensures TopFolder(f) == f
    decreases |s| + |f|
  {
    if f != [] { TopFolderWhole(s, f[1..]); }
    else if s != [] && s[0] != '/' && s[0] != '\\' { TopFolderWhole(s[1..], f); }
  }

  lemma {:induction false} FolderIdDiffers(rel: string)
    ensures FolderId(TopFolder(rel)) != Id(rel)
  {
    TopFolderWhole(rel, "");
    var id := FolderId(TopFolder(rel)).text;
    assert '/' !in id && '\\' !in id;
    TopFolderWhole(rel, id);
  }

  // ----- one edge of the built graph

  /** What holds of an edge of each kind, relative to the note it was derived from. */
  ghost predicate Justified(notes: seq<Note>, e: Edge)
  {
    var notesById := Base(notes).entries;
    if e.kind == FolderContains then
      e.target in notesById && e.source == FolderId(notesById[e.target].folder)
    else
      && e.source in notesById
      && var n := notesById[e.source];
         match e.kind
         case TaggedAs => exists t :: t in n.tags && e.target == TagId(t)
         case MarkdownLink =>
           || (e.target in notesById && e.target != e.source)
           || (exists l :: l in n.mdLinks && IsExternal(l.href) && e.target == ExternalId(l.href))
         case _ => e.target in notesById && e.target != e.source
  }

  lemma {:induction false} StemTarget(notes: seq<Note>, e: Edge)
    requires exists s :: s in Stems(notes) && Stems(notes)[s] == e.target
    ensures e.target in Base(notes).entries
  {
    var s :| s in Stems(notes) && Stems(notes)[s] == e.target;
    var i := StemEntry(notes, |notes|, s);
    EveryNotePresent(notes, |notes|, i);
  }

  lemma {:induction false} LinkEdgeJustified(notes: seq<Note>, k: NodeId, e: Edge)
    requires k in Base(notes).entries && Base(notes).entries[k].id == k
    requires e in LinkOwed(Stems(notes))(Base(notes).entries[k])
    ensures Justified(notes, e) && e.kind in {WikiLink, MarkdownLink}
    ensures e.target in BuiltIds(notes)
  {
    var base, stems := Base(notes), Stems(notes);
    var n := base.entries[k];
    if e in StemEdges(stems, k, n.wikiLinks, WikiLink, |n.wikiLinks|) {
      StemEdgesMember(stems, k, n.wikiLinks, WikiLink, |n.wikiLinks|, e);
      StemTarget(notes, e);
    } else {
      MdEdgesMember(stems, k, n.mdLinks, |n.mdLinks|, e);
      if e.target != k && exists s :: s in stems && stems[s] == e.target {
        StemTarget(notes, e);
      } else {
        var j :| 0 <= j < |n.mdLinks| && IsExternal(n.mdLinks[j].href) && e.target == ExternalId(n.mdLinks[j].href);
        MdEdgesHas(stems, k, n.mdLinks, |n.mdLinks|, j);
        KeysPresent(base);
        assert k in base.keys;
        var i :| 0 <= i < |base.keys| && base.keys[i] == k;
        LinkedHas(base.entries, base.keys, |base.keys|, i, e.target);
      }
    }
  }

  lemma {:induction false} FolderEdgeJustified(notes: seq<Note>, k: NodeId, e: Edge)
    requires k in Base(notes).entries && e in FolderOwed(LocalIds(notes))(Base(notes).entries[k])
    ensures e.source in BuiltIds(notes) && e.target in BuiltIds(notes) && Justified(notes, e)
  {
    NoteNodesKeyed(notes, |notes|);
    KeysPresent(Base(notes));
  }

  lemma {:induction false} TagEdgeJustified(notes: seq<Note>, k: NodeId, e: Edge)
    requires k in Base(notes).entries && e in TagOwed(BuiltIds(notes))(Base(notes).entries[k])
    ensures e.source in BuiltIds(notes) && e.target in BuiltIds(notes) && Justified(notes, e)
  {
    NoteNodesKeyed(notes, |notes|);
    KeysPresent(Base(notes));
    var n := Base(notes).entries[k];
    TagEdgesMember(BuiltIds(notes), n.id, n.tags, |n.tags|, e);
  }

  /** Every edge of the built graph joins two of its nodes and is justified by the note it comes from. */
  lemma {:induction false} EdgesJustified(notes: seq<Note>, e: Edge)
    requires e in BuiltEdges(notes)
    ensures e.source in BuiltIds(notes) && e.target in BuiltIds(notes)
    ensures Justified(notes, e)
  {
    var base, stems := Base(notes), Stems(notes);
    NoteNodesKeyed(notes, |notes|);
    KeysPresent(base);
    if e in CollectAll(FolderOwed(LocalIds(notes)), base) {
      var i := CollectMember(FolderOwed(LocalIds(notes)), base.entries, base.keys, |base.keys|, e);
      FolderEdgeJustified(notes, base.keys[i], e);
    } else if e in CollectAll(LinkOwed(stems), base) {
      var i := CollectMember(LinkOwed(stems), base.entries, base.keys, |base.keys|, e);
      LinkEdgeJustified(notes, base.keys[i], e);
    } else if e in CollectAll(TagOwed(BuiltIds(notes)), base) {
      var i := CollectMember(TagOwed(BuiltIds(notes)), base.entries, base.keys, |base.keys|, e);
      TagEdgeJustified(notes, base.keys[i], e);
    } else {
      var i := CollectMember(CiteOwed(stems), base.entries, base.keys, |base.keys|, e);
      var n := base.entries[base.keys[i]];
      StemEdgesMember(stems, n.id, n.citations, SourceCites, |n.citations|, e);
      StemTarget(notes, e);
    }
  }

  // ----- self-loops

  /** A note whose path is the identifier of one of its own tags or external links. */
  ghost predicate NamedLikeOwnTarget(notes: seq<Note>)
  {
    exists k :: k in Base(notes).entries &&
      var n := Base(notes).entries[k];
      || (exists t :: t in n.tags && TagId(t) == k)
      || (exists l :: l in n.mdLinks && IsExternal(l.href) && ExternalId(l.href) == k)
  }

  /** The tag and external-link passes do not compare the two ends, so exactly such a note gets a
      self-loop. */
  lemma {:induction false} SelfLoopsExactly(notes: seq<Note>)
    requires AllParsed(notes)
    ensures (exists e :: e in BuiltEdges(notes) && e.source == e.target) <==> NamedLikeOwnTarget(notes)
  {
    NoteNodesKeyed(notes, |notes|);
    if e :| e in BuiltEdges(notes) && e.source == e.target {
      EdgesJustified(notes, e);
      if e.kind == FolderContains {
        var i := BaseEntry(notes, |notes|, e.target);
        FolderIdDiffers(e.target.text);
      }
    }
    if k :| k in Base(notes).entries &&
            var n := Base(notes).entries[k];
            || (exists t :: t in n.tags && TagId(t) == k)
            || (exists l :: l in n.mdLinks && IsExternal(l.href) && ExternalId(l.href) == k) {
      SelfLoopOf(notes, k);
    }
  }

  lemma {:induction false} SelfLoopOf(notes: seq<Note>, k: NodeId)
    requires AllParsed(notes) && k in Base(notes).entries
    requires var n := Base(notes).entries[k];
             || (exists t :: t in n.tags && TagId(t) == k)
             || (exists l :: l in n.mdLinks && IsExternal(l.href) && ExternalId(l.href) == k)
    ensures exists e :: e in BuiltEdges(notes) && e.source == e.target
  {
    var base, stems, ids := Base(notes), Stems(notes), BuiltIds(notes);
    var n := base.entries[k];
    NoteNodesKeyed(notes, |notes|);
    KeysPresent(base);
    assert k in base.keys;
    var i :| 0 <= i < |base.keys| && base.keys[i] == k;
    if t :| t in n.tags && TagId(t) == k {
      var j :| 0 <= j < |n.tags| && n.tags[j] == t;
      TagEdgesHas(ids, k, n.tags, |n.tags|, j);
      var source := BaseEntry(notes, |notes|, k);
      assert notes[source].Parsed();
      CollectHas(TagOwed(ids), base.entries, base.keys, |base.keys|, i, Edge(k, k, TaggedAs));
      assert Edge(k, k, TaggedAs) in BuiltEdges(notes);
    } else {
      var l :| l in n.mdLinks && IsExternal(l.href) && ExternalId(l.href) == k;
      var j :| 0 <= j < |n.mdLinks| && n.mdLinks[j] == l;
      MdEdgesHas(stems, k, n.mdLinks, |n.mdLinks|, j);
      CollectHas(LinkOwed(stems), base.entries, base.keys, |base.keys|, i, Edge(k, k, MarkdownLink));
      assert Edge(k, k, MarkdownLink) in BuiltEdges(notes);
    }
  }

  /** A graph over notes whose paths start like neither kind of identifier has no self-loop. */
  lemma {:induction false} PlainPathsNoSelfLoops(notes: seq<Note>, e: Edge)
    requires AllParsed(notes)
    requires forall i :: 0 <= i < |notes| ==> !("tag:" <= notes[i].rel) && !("ext:" <= notes[i].rel)
    requires e in BuiltEdges(notes)
    ensures e.source != e.target
  {
    SelfLoopsExactly(notes);
    forall k | k in Base(notes).entries ensures !("tag:" <= k.text) && !("ext:" <= k.text) {
      var i := BaseEntry(notes, |notes|, k);
    }
    assert !NamedLikeOwnTarget(notes);
  }

  /** A note at `tag:x` that carries the tag `x` is linked to itself. Scanned notes have no such path. */
  lemma {:induction false} SelfLoopExample() returns (notes: seq<Note>, e: Edge)
    ensures AllParsed(notes) && e in BuiltEdges(notes) && e.source == e.target
  {
    hide BuiltEdges;
    notes := [Note("tag:x", "n", PlainNote, ["x"], [], [], [], "")];
    assert notes[0].Parsed();
    assert AllParsed(notes);
    EveryNotePresent(notes, 1, 0);
    var i := BaseEntry(notes, 1, Id("tag:x"));
    assert Base(notes) == NoteNodes(notes, 1);
    assert "x" in ["x"] && TagId("x") == Id("tag:x");
    SelfLoopOf(notes, Id("tag:x"));
    e :| e in BuiltEdges(notes) && e.source == e.target;
  }

  // ----- sources

  /** In the finished dictionary an external node is never a source, and only folders contain. */
  lemma {:induction false} ExternalNeverSource(notes: seq<Note>, nodes: Nodes, e: Edge)
    requires AllParsed(notes) && Extends(Base(notes), nodes, BuiltIds(notes)) && e in BuiltEdges(notes)
    ensures e.source in nodes.entries && e.target in nodes.entries
    ensures nodes.entries[e.source].kind != ExternalLink
    ensures e.kind != FolderContains ==> !nodes.entries[e.source].kind.Structural()
    ensures e.kind == FolderContains ==> !nodes.entries[e.target].kind.Structural()
  {
    EdgesJustified(notes, e);
    var note := if e.kind == FolderContains then e.target else e.source;
    var i := BaseEntry(notes, |notes|, note);
    assert notes[i].Parsed();
    if e.kind == FolderContains {
      if e.source in Base(notes).entries {
        var j := BaseEntry(notes, |notes|, e.source);
        assert notes[j].Parsed();
      } else {
        var n := nodes.entries[e.source];
        assert Created(n) && n.id == e.source && n.id.text[0] == 'f';
      }
    }
  }

  // ----- counting

  ghost function IntoFolder(k: NodeId): Edge -> bool { (e: Edge) => e.kind == FolderContains && e.target == k }
  ghost function IsTagging(): Edge -> bool { (e: Edge) => e.kind == TaggedAs }

  /** The tags carried by the first `n` notes. */
  ghost function TagTotal(m: map<NodeId, Node>, keys: seq<NodeId>, n: nat): nat
    requires n <= |keys| && Present(m, keys)
  {
    if n == 0 then 0 else TagTotal(m, keys, n - 1) + |m[keys[n - 1]].tags|
  }

  lemma {:induction false} TagEdgesCount(ids: set<NodeId>, nid: NodeId, tags: seq<string>, n: nat)
    requires n <= |tags| && forall i :: 0 <= i < |tags| ==> TagId(tags[i]) in ids
    ensures |TagEdges(ids, nid, tags, n)| == n
  {
    if n > 0 { TagEdgesCount(ids, nid, tags, n - 1); }
  }

  lemma {:induction false} TagCollectCount(ids: set<NodeId>, m: map<NodeId, Node>, keys: seq<NodeId>, n: nat)
    requires n <= |keys| && Present(m, keys)
    requires forall i, t :: 0 <= i < |keys| && t in m[keys[i]].tags ==> TagId(t) in ids
    requires forall i :: 0 <= i < |keys| ==> !m[keys[i]].kind.Structural()
    ensures |Collect(TagOwed(ids), m, keys, n)| == TagTotal(m, keys, n)
  {
    if n > 0 {
      TagCollectCount(ids, m, keys, n - 1);
      var node := m[keys[n - 1]];
      TagEdgesCount(ids, node.id, node.tags, |node.tags|);
    }
  }

  lemma {:induction false} FolderCollectCount(ids: set<NodeId>, m: map<NodeId, Node>, keys: seq<NodeId>, n: nat,
      k: NodeId)
    requires n <= |keys| && Present(m, keys) && Distinct(keys)
    requires forall i :: 0 <= i < |keys| ==>
      m[keys[i]].id == keys[i] && !m[keys[i]].kind.Structural() && FolderId(m[keys[i]].folder) in ids
    ensures |Collect(FolderOwed(ids), m, keys, n)| == n
    ensures CountIf(Collect(FolderOwed(ids), m, keys, n), IntoFolder(k), n) == if k in keys[..n] then 1 else 0
  {
    if n > 0 {
      FolderCollectCount(ids, m, keys, n - 1, k);
      var init := Collect(FolderOwed(ids), m, keys, n - 1);
      var last := Edge(FolderId(m[keys[n - 1]].folder), keys[n - 1], FolderContains);
      CountPrefix(init, [last], IntoFolder(k), n - 1);
      DistinctStep(keys, n - 1);
      assert (init + [last])[n - 1] == last;
    }
  }

  lemma {:induction false} PassKinds(notes: seq<Note>)
    ensures forall e :: e in CollectAll(FolderOwed(LocalIds(notes)), Base(notes)) ==> e.kind == FolderContains
    ensures forall e :: e in CollectAll(LinkOwed(Stems(notes)), Base(notes)) ==> e.kind in {WikiLink, MarkdownLink}
    ensures forall e :: e in CollectAll(TagOwed(BuiltIds(notes)), Base(notes)) ==> e.kind == TaggedAs
    ensures forall e :: e in CollectAll(CiteOwed(Stems(notes)), Base(notes)) ==> e.kind == SourceCites
  {
    var base, stems := Base(notes), Stems(notes);
    NoteNodesKeyed(notes, |notes|);
    KeysPresent(base);
    forall e | e in CollectAll(FolderOwed(LocalIds(notes)), base) ensures e.kind == FolderContains {
      var i := CollectMember(FolderOwed(LocalIds(notes)), base.entries, base.keys, |base.keys|, e);
    }
    forall e | e in CollectAll(LinkOwed(stems), base) ensures e.kind in {WikiLink, MarkdownLink} {
      var i := CollectMember(LinkOwed(stems), base.entries, base.keys, |base.keys|, e);
      LinkEdgeJustified(notes, base.keys[i], e);
    }
    forall e | e in CollectAll(TagOwed(BuiltIds(notes)), base) ensures e.kind == TaggedAs {
      var i := CollectMember(TagOwed(BuiltIds(notes)), base.entries, base.keys, |base.keys|, e);
      var n := base.entries[base.keys[i]];
      TagEdgesMember(BuiltIds(notes), n.id, n.tags, |n.tags|, e);
    }
    forall e | e in CollectAll(CiteOwed(stems), base) ensures e.kind == SourceCites {
      var i := CollectMember(CiteOwed(stems), base.entries, base.keys, |base.keys|, e);
      var n := base.entries[base.keys[i]];
      StemEdgesMember(stems, n.id, n.citations, SourceCites, |n.citations|, e);
    }
  }

  lemma {:induction false} CountFour(a: seq<Edge>, b: seq<Edge>, c: seq<Edge>, d: seq<Edge>, p: Edge -> bool)
    ensures CountIf(a + b + c + d, p, |a + b + c + d|)
         == CountIf(a, p, |a|) + CountIf(b, p, |b|) + CountIf(c, p, |c|) + CountIf(d, p, |d|)
  {
    CountConcat(a + b + c, d, p, |d|);
    CountConcat(a + b, c, p, |c|);
    CountConcat(a, b, p, |b|);
  }

  lemma {:induction false} NoteFacts(notes: seq<Note>, k: NodeId)
    requires AllParsed(notes) && k in Base(notes).entries
    ensures !Base(notes).entries[k].kind.Structural()
    ensures FolderId(Base(notes).entries[k].folder) in LocalIds(notes)
    ensures forall t :: t in Base(notes).entries[k].tags ==> TagId(t) in BuiltIds(notes)
  {
    var j := BaseEntry(notes, |notes|, k);
    assert notes[j].Parsed();
    EveryNotePresent(notes, |notes|, j);
  }

  /** The edges accepted by `p` are found pass by pass. */
  lemma {:induction false} CountByPass(notes: seq<Note>, p: Edge -> bool)
    ensures Present(Base(notes).entries, Base(notes).keys)
    ensures
      var f, l := CollectAll(FolderOwed(LocalIds(notes)), Base(notes)), CollectAll(LinkOwed(Stems(notes)), Base(notes));
      var t, c := CollectAll(TagOwed(BuiltIds(notes)), Base(notes)), CollectAll(CiteOwed(Stems(notes)), Base(notes));
      CountIf(BuiltEdges(notes), p, |BuiltEdges(notes)|)
      == CountIf(f, p, |f|) + CountIf(l, p, |l|) + CountIf(t, p, |t|) + CountIf(c, p, |c|)
  {
    hide CollectAll, CountIf, Base, Stems, LocalIds, BuiltIds, FolderOwed, LinkOwed, TagOwed, CiteOwed;
    KeysPresent(Base(notes));
    CountFour(CollectAll(FolderOwed(LocalIds(notes)), Base(notes)), CollectAll(LinkOwed(Stems(notes)), Base(notes)),
              CollectAll(TagOwed(BuiltIds(notes)), Base(notes)), CollectAll(CiteOwed(Stems(notes)), Base(notes)), p);
  }

  lemma {:induction false} FolderPassCount(notes: seq<Note>, k: NodeId)
    requires AllParsed(notes)
    ensures Present(Base(notes).entries, Base(notes).keys)
    ensures var f := CollectAll(FolderOwed(LocalIds(notes)), Base(notes));
            CountIf(f, IntoFolder(k), |f|) == if k in Base(notes).entries then 1 else 0
  {
    var base := Base(notes);
    NoteNodesKeyed(notes, |notes|);
    forall i | 0 <= i < |base.keys|
      ensures !base.entries[base.keys[i]].kind.Structural()
          && FolderId(base.entries[base.keys[i]].folder) in LocalIds(notes)
    {
      NoteFacts(notes, base.keys[i]);
    }
    FolderCollectCount(LocalIds(notes), base.entries, base.keys, |base.keys|, k);
    assert base.keys[..|base.keys|] == base.keys;
  }

  /** Each note is contained in exactly one folder. */
  lemma {:induction false} OneFolderEdge(notes: seq<Note>, k: NodeId)
    requires AllParsed(notes)
    ensures CountIf(BuiltEdges(notes), IntoFolder(k), |BuiltEdges(notes)|) == if k in Base(notes).entries then 1 else 0
  {
    hide BuiltEdges, LocalIds, BuiltIds, FolderOwed, LinkOwed, TagOwed, CiteOwed, Collect, CountIf, Base, Stems;
    var base := Base(notes);
    FolderPassCount(notes, k);
    PassKinds(notes);
    CountByPass(notes, IntoFolder(k));
    CountNone(CollectAll(LinkOwed(Stems(notes)), base), IntoFolder(k), |CollectAll(LinkOwed(Stems(notes)), base)|);
    CountNone(CollectAll(TagOwed(BuiltIds(notes)), base), IntoFolder(k), |CollectAll(TagOwed(BuiltIds(notes)), base)|);
    CountNone(CollectAll(CiteOwed(Stems(notes)), base), IntoFolder(k), |CollectAll(CiteOwed(Stems(notes)), base)|);
  }

  /** The `tagged_as` edges number exactly the sum of the notes' tag sets. */
  lemma {:induction false} TaggingEdges(notes: seq<Note>)
    requires AllParsed(notes)
    ensures Present(Base(notes).entries, Base(notes).keys)
    ensures CountIf(BuiltEdges(notes), IsTagging(), |BuiltEdges(notes)|)
         == TagTotal(Base(notes).entries, Base(notes).keys, |Base(notes).keys|)
  {
    var base := Base(notes);
    NoteNodesKeyed(notes, |notes|);
    PassKinds(notes);
    CountByPass(notes, IsTagging());
    forall i | 0 <= i < |base.keys|
      ensures !base.entries[base.keys[i]].kind.Structural()
      ensures forall t :: t in base.entries[base.keys[i]].tags ==> TagId(t) in BuiltIds(notes)
    {
      NoteFacts(notes, base.keys[i]);
    }
    TagCollectCount(BuiltIds(notes), base.entries, base.keys, |base.keys|);
    var f, t := CollectAll(FolderOwed(LocalIds(notes)), base), CollectAll(TagOwed(BuiltIds(notes)), base);
    CountNone(f, IsTagging(), |f|);
    CountNone(CollectAll(LinkOwed(Stems(notes)), base), IsTagging(), |CollectAll(LinkOwed(Stems(notes)), base)|);
    CountEvery(t, IsTagging(), |t|);
    CountNone(CollectAll(CiteOwed(Stems(notes)), base), IsTagging(), |CollectAll(CiteOwed(Stems(notes)), base)|);
  }
}
