/** Which edges the passes build and how often, read off the notes alone. */
module CortexLinkLaws {
  import opened OrderedMaps
  import opened Strings
  import opened CortexModel
  import opened CortexGrowth
  import opened CortexCounting
  import opened CortexWellFormed

  // ----- the note behind an identifier, and the note behind a stem

  /** No later note has the path of note `i`. */
  ghost predicate Survives(notes: seq<Note>, i: nat)
    requires i < |notes|
  {
    forall k :: i < k < |notes| ==> notes[k].rel != notes[i].rel
  }

  /** `stem` is the stem of a note at `target`, and of no later note. */
  ghost predicate Names(notes: seq<Note>, stem: string, target: NodeId)
  {
    exists j :: 0 <= j < |notes| && LastNamed(notes, |notes|, j, stem) && Id(notes[j].rel) == target
  }

  ghost predicate LastNamed(notes: seq<Note>, n: nat, j: nat, stem: string)
    requires n <= |notes| && j < |notes|
  {
    notes[j].stem == stem && forall k :: j < k < n ==> notes[k].stem != stem
  }

  lemma {:induction false} NoteNodesStep(notes: seq<Note>, n: nat)
    requires 0 < n <= |notes|
    ensures NoteNodes(notes, n).entries
         == NoteNodes(notes, n - 1).entries[Id(notes[n - 1].rel) := NoteNode(notes[n - 1])]
  {
    hide NoteNode, OrderedMap.Valid;
  }

  lemma {:induction false} SurvivorEntry(notes: seq<Note>, n: nat, i: nat)
    requires i < n <= |notes| && forall k :: i < k < n ==> notes[k].rel != notes[i].rel
    ensures Id(notes[i].rel) in NoteNodes(notes, n).entries
    ensures NoteNodes(notes, n).entries[Id(notes[i].rel)] == NoteNode(notes[i])
  {
    hide NoteNode, NoteNodes;
    NoteNodesStep(notes, n);
    if i < n - 1 { SurvivorEntry(notes, n - 1, i); }
  }

  lemma {:induction false} LastStem(notes: seq<Note>, n: nat, s: string) returns (j: nat)
    requires n <= |notes| && s in StemIds(notes, n)
    ensures j < n && LastNamed(notes, n, j, s) && StemIds(notes, n)[s] == Id(notes[j].rel)
  {
    if s == notes[n - 1].stem { j := n - 1; } else { j := LastStem(notes, n - 1, s); }
  }

  lemma {:induction false} StemResolves(notes: seq<Note>, n: nat, j: nat, s: string)
    requires j < n <= |notes| && LastNamed(notes, n, j, s)
    ensures s in StemIds(notes, n) && StemIds(notes, n)[s] == Id(notes[j].rel)
  {
    if j < n - 1 { StemResolves(notes, n - 1, j, s); }
  }

  lemma {:induction false} NamesExactly(notes: seq<Note>, s: string, target: NodeId)
    ensures Names(notes, s, target) <==> s in Stems(notes) && Stems(notes)[s] == target
  {
    if Names(notes, s, target) {
      var j :| 0 <= j < |notes| && LastNamed(notes, |notes|, j, s) && Id(notes[j].rel) == target;
      StemResolves(notes, |notes|, j, s);
    }
    if s in Stems(notes) { var j := LastStem(notes, |notes|, s); }
  }

  // ----- counting in one pass

  /** When only the `i`-th node owes `e`, a pass adds it as often as that node owes it. */
  lemma {:induction false} CollectCounts(owed: Owed, m: map<NodeId, Node>, keys: seq<NodeId>, n: nat, i: nat, e: Edge)
    requires n <= |keys| && Present(m, keys) && i < |keys|
    requires forall j :: 0 <= j < |keys| && j != i ==> e !in owed(m[keys[j]])
    ensures multiset(Collect(owed, m, keys, n))[e] == if i < n then multiset(owed(m[keys[i]]))[e] else 0
  {
    if n > 0 { CollectCounts(owed, m, keys, n - 1, i, e); }
  }

  lemma {:induction false} CollectNone(owed: Owed, m: map<NodeId, Node>, keys: seq<NodeId>, n: nat, e: Edge)
    requires n <= |keys| && Present(m, keys)
    requires forall j :: 0 <= j < |keys| ==> e !in owed(m[keys[j]])
    ensures multiset(Collect(owed, m, keys, n))[e] == 0
  {
    if n > 0 { CollectNone(owed, m, keys, n - 1, e); }
  }

  /** The names that lead to `target`. */
  ghost function Naming(notes: seq<Note>, target: NodeId): string -> bool
  {
    (name: string) => Names(notes, name, target)
  }

  lemma {:induction false} StemEdgesCount(notes: seq<Note>, nid: NodeId, names: seq<string>, kind: EdgeKind, n: nat,
      target: NodeId)
    requires n <= |names|
    ensures multiset(StemEdges(Stems(notes), nid, names, kind, n))[Edge(nid, target, kind)]
         == if target == nid || target == Id("") then 0 else |Places(names[..n], Naming(notes, target))|
  {
    hide Names, Stems, Places;
    if n == 0 {
      NoPlaces(names, Naming(notes, target));
    } else {
      StemEdgesCount(notes, nid, names, kind, n - 1, target);
      PlacesStep(names, Naming(notes, target), n - 1);
      NamesExactly(notes, names[n - 1], target);
    }
  }

  /** The links that lead from `source` to `target`: an external one by the first 120 characters of its
      address, a relative one by the stem it names. */
  ghost function Linking(notes: seq<Note>, source: NodeId, target: NodeId): MdLink -> bool
  {
    (link: MdLink) =>
      if "http://" <= link.href || "https://" <= link.href then
        target == Id("ext:" + if |link.href| <= 120 then link.href else link.href[..120])
      else target != source && target != Id("") && Names(notes, LinkStem(link.href), target)
  }

  lemma {:induction false} MdEdgeCount(notes: seq<Note>, nid: NodeId, link: MdLink, target: NodeId)
    ensures multiset(MdEdge(Stems(notes), nid, link.href))[Edge(nid, target, MarkdownLink)]
         == if Linking(notes, nid, target)(link) then 1 else 0
  {
    hide Names, Stems, LinkStem;
    NamesExactly(notes, LinkStem(link.href), target);
  }

  lemma {:induction false} MdEdgesCount(notes: seq<Note>, nid: NodeId, links: seq<MdLink>, n: nat, target: NodeId)
    requires n <= |links|
    ensures multiset(MdEdges(Stems(notes), nid, links, n))[Edge(nid, target, MarkdownLink)]
         == |Places(links[..n], Linking(notes, nid, target))|
  {
    hide Linking, Stems, Places, MdEdge;
    if n == 0 {
      NoPlaces(links, Linking(notes, nid, target));
    } else {
      MdEdgesCount(notes, nid, links, n - 1, target);
      PlacesStep(links, Linking(notes, nid, target), n - 1);
      MdEdgeCount(notes, nid, links[n - 1], target);
    }
  }

  ghost function Tagging(target: NodeId): string -> bool { (tag: string) => target == Id("tag:" + tag) }

  lemma {:induction false} TagEdgesTally(ids: set<NodeId>, nid: NodeId, tags: seq<string>, n: nat, target: NodeId)
    requires n <= |tags| && forall t :: t in tags ==> TagId(t) in ids
    ensures multiset(TagEdges(ids, nid, tags, n))[Edge(nid, target, TaggedAs)] == |Places(tags[..n], Tagging(target))|
  {
    hide Places, Tagging, TagId;
    if n == 0 {
      NoPlaces(tags, Tagging(target));
    } else {
      TagEdgesTally(ids, nid, tags, n - 1, target);
      PlacesStep(tags, Tagging(target), n - 1);
      TaggingTells(tags[n - 1], target);
    }
  }

  lemma {:induction false} TaggingTells(tag: string, target: NodeId)
    ensures Tagging(target)(tag) <==> TagId(tag) == target
  {
  }

  // ----- counting in the whole graph

  /** An edge of a kind is found in its pass alone. */
  lemma {:induction false} CountInPass(notes: seq<Note>, e: Edge)
    ensures Present(Base(notes).entries, Base(notes).keys)
    ensures multiset(BuiltEdges(notes))[e] ==
      match e.kind
      case FolderContains => multiset(CollectAll(FolderOwed(LocalIds(notes)), Base(notes)))[e]
      case TaggedAs => multiset(CollectAll(TagOwed(BuiltIds(notes)), Base(notes)))[e]
      case SourceCites => multiset(CollectAll(CiteOwed(Stems(notes)), Base(notes)))[e]
      case SimilarTitle => 0
      case _ => multiset(CollectAll(LinkOwed(Stems(notes)), Base(notes)))[e]
  {
    hide CollectAll, FolderOwed, LinkOwed, TagOwed, CiteOwed, LocalIds, BuiltIds, Stems, Base;
    KeysPresent(Base(notes));
    PassKinds(notes);
  }

  /** Where a surviving note stands, and that no other note owes its edges. */
  lemma {:induction false} SurvivorPlace(notes: seq<Note>, i: nat) returns (k: nat)
    requires i < |notes| && Survives(notes, i)
    ensures var base := Base(notes);
      && k < |base.keys| && base.keys[k] == Id(notes[i].rel)
      && Present(base.entries, base.keys) && base.entries[base.keys[k]] == NoteNode(notes[i])
      && forall j :: 0 <= j < |base.keys| ==>
           base.entries[base.keys[j]].id == base.keys[j] && (j != k ==> base.keys[j] != base.keys[k])
  {
    hide NoteNode;
    var base := Base(notes);
    NoteNodesKeyed(notes, |notes|);
    KeysPresent(base);
    SurvivorEntry(notes, |notes|, i);
    k :| 0 <= k < |base.keys| && base.keys[k] == Id(notes[i].rel);
    forall j | 0 <= j < |base.keys| && j != k ensures base.keys[j] != base.keys[k] { DistinctAt(base.keys, j, k); }
  }

  lemma {:induction false} LinkSources(stems: map<string, NodeId>, n: Node, e: Edge)
    requires e in LinkOwed(stems)(n) || e in CiteOwed(stems)(n)
    ensures e.source == n.id
  {
    if e in StemEdges(stems, n.id, n.wikiLinks, WikiLink, |n.wikiLinks|) {
      StemEdgesMember(stems, n.id, n.wikiLinks, WikiLink, |n.wikiLinks|, e);
    } else if e in MdEdges(stems, n.id, n.mdLinks, |n.mdLinks|) {
      MdEdgesMember(stems, n.id, n.mdLinks, |n.mdLinks|, e);
    } else {
      StemEdgesMember(stems, n.id, n.citations, SourceCites, |n.citations|, e);
    }
  }

  lemma {:induction false} OwedByLinks(notes: seq<Note>, n: Node, target: NodeId)
    ensures multiset(LinkOwed(Stems(notes))(n))[Edge(n.id, target, WikiLink)]
         == if target == n.id || target == Id("") then 0 else |Places(n.wikiLinks, Naming(notes, target))|
    ensures multiset(LinkOwed(Stems(notes))(n))[Edge(n.id, target, MarkdownLink)]
         == |Places(n.mdLinks, Linking(notes, n.id, target))|
  {
    hide Stems, Places, Naming, Linking;
    var stems := Stems(notes);
    NoPlaces(n.wikiLinks, Naming(notes, target));
    NoPlaces(n.mdLinks, Linking(notes, n.id, target));
    StemEdgesCount(notes, n.id, n.wikiLinks, WikiLink, |n.wikiLinks|, target);
    MdEdgesCount(notes, n.id, n.mdLinks, |n.mdLinks|, target);
    var wiki, md := StemEdges(stems, n.id, n.wikiLinks, WikiLink, |n.wikiLinks|),
        MdEdges(stems, n.id, n.mdLinks, |n.mdLinks|);
    if Edge(n.id, target, MarkdownLink) in wiki {
      StemEdgesMember(stems, n.id, n.wikiLinks, WikiLink, |n.wikiLinks|, Edge(n.id, target, MarkdownLink));
    }
    if Edge(n.id, target, WikiLink) in md {
      MdEdgesMember(stems, n.id, n.mdLinks, |n.mdLinks|, Edge(n.id, target, WikiLink));
    }
    assert LinkOwed(stems)(n) == wiki + md;
  }

  /** A surviving note has as many wiki edges to `target` as it has wiki links naming it, and none to
      itself. */
  lemma {:induction false} WikiLinksExactly(notes: seq<Note>, i: nat, target: NodeId)
    requires i < |notes| && Survives(notes, i)
    ensures multiset(BuiltEdges(notes))[Edge(Id(notes[i].rel), target, WikiLink)]
         == if target == Id(notes[i].rel) || target == Id("") then 0
            else |Places(notes[i].wikiLinks, Naming(notes, target))|
  {
    hide BuiltEdges, Base, LinkOwed, Stems, Places, Naming, Collect;
    var e, base := Edge(Id(notes[i].rel), target, WikiLink), Base(notes);
    CountInPass(notes, e);
    var k := SurvivorPlace(notes, i);
    forall j | 0 <= j < |base.keys| && j != k ensures e !in LinkOwed(Stems(notes))(base.entries[base.keys[j]]) {
      if e in LinkOwed(Stems(notes))(base.entries[base.keys[j]]) {
        LinkSources(Stems(notes), base.entries[base.keys[j]], e);
      }
    }
    CollectCounts(LinkOwed(Stems(notes)), base.entries, base.keys, |base.keys|, k, e);
    OwedByLinks(notes, NoteNode(notes[i]), target);
  }

  /** Likewise its markdown links, external and relative. */
  lemma {:induction false} MarkdownLinksExactly(notes: seq<Note>, i: nat, target: NodeId)
    requires i < |notes| && Survives(notes, i)
    ensures multiset(BuiltEdges(notes))[Edge(Id(notes[i].rel), target, MarkdownLink)]
         == |Places(notes[i].mdLinks, Linking(notes, Id(notes[i].rel), target))|
  {
    hide BuiltEdges, Base, LinkOwed, Stems, Places, Linking, Collect;
    var e, base := Edge(Id(notes[i].rel), target, MarkdownLink), Base(notes);
    CountInPass(notes, e);
    var k := SurvivorPlace(notes, i);
    forall j | 0 <= j < |base.keys| && j != k ensures e !in LinkOwed(Stems(notes))(base.entries[base.keys[j]]) {
      if e in LinkOwed(Stems(notes))(base.entries[base.keys[j]]) {
        LinkSources(Stems(notes), base.entries[base.keys[j]], e);
      }
    }
    CollectCounts(LinkOwed(Stems(notes)), base.entries, base.keys, |base.keys|, k, e);
    OwedByLinks(notes, NoteNode(notes[i]), target);
  }

  /** And as many citation edges as it has citations naming the target. */
  lemma {:induction false} CitationsExactly(notes: seq<Note>, i: nat, target: NodeId)
    requires AllParsed(notes) && i < |notes| && Survives(notes, i)
    ensures multiset(BuiltEdges(notes))[Edge(Id(notes[i].rel), target, SourceCites)]
         == if target == Id(notes[i].rel) || target == Id("") then 0
            else |Places(notes[i].citations, Naming(notes, target))|
  {
    hide BuiltEdges, Base, CiteOwed, Stems, Places, Naming, Collect;
    var e, base := Edge(Id(notes[i].rel), target, SourceCites), Base(notes);
    CountInPass(notes, e);
    var k := SurvivorPlace(notes, i);
    forall j | 0 <= j < |base.keys| && j != k ensures e !in CiteOwed(Stems(notes))(base.entries[base.keys[j]]) {
      if e in CiteOwed(Stems(notes))(base.entries[base.keys[j]]) {
        LinkSources(Stems(notes), base.entries[base.keys[j]], e);
      }
    }
    CollectCounts(CiteOwed(Stems(notes)), base.entries, base.keys, |base.keys|, k, e);
    OwedByCitations(notes, i, target);
  }

  lemma {:induction false} OwedByCitations(notes: seq<Note>, i: nat, target: NodeId)
    requires AllParsed(notes) && i < |notes|
    ensures var n := NoteNode(notes[i]);
      multiset(CiteOwed(Stems(notes))(n))[Edge(n.id, target, SourceCites)]
      == if target == n.id || target == Id("") then 0 else |Places(n.citations, Naming(notes, target))|
  {
    hide Stems, Places, Naming;
    var n := NoteNode(notes[i]);
    assert notes[i].Parsed();
    NoPlaces(n.citations, Naming(notes, target));
    StemEdgesCount(notes, n.id, n.citations, SourceCites, |n.citations|, target);
  }

  /** A surviving note is tagged once with each of its tags and with nothing else. */
  lemma {:induction false} TagsExactly(notes: seq<Note>, i: nat, target: NodeId)
    requires AllParsed(notes) && i < |notes| && Survives(notes, i)
    ensures multiset(BuiltEdges(notes))[Edge(Id(notes[i].rel), target, TaggedAs)]
         == if exists t :: t in notes[i].tags && target == Id("tag:" + t) then 1 else 0
  {
    hide BuiltEdges, Base, TagOwed, BuiltIds, Collect, Distinct;
    var e, base := Edge(Id(notes[i].rel), target, TaggedAs), Base(notes);
    CountInPass(notes, e);
    var k := SurvivorPlace(notes, i);
    forall j | 0 <= j < |base.keys| && j != k ensures e !in TagOwed(BuiltIds(notes))(base.entries[base.keys[j]]) {
      if e in TagOwed(BuiltIds(notes))(base.entries[base.keys[j]]) {
        TagSource(BuiltIds(notes), base.entries[base.keys[j]], e);
      }
    }
    CollectCounts(TagOwed(BuiltIds(notes)), base.entries, base.keys, |base.keys|, k, e);
    OwedByTags(notes, i, target);
  }

  lemma {:induction false} TagSource(ids: set<NodeId>, n: Node, e: Edge)
    requires e in TagOwed(ids)(n)
    ensures e.source == n.id
  {
    TagEdgesMember(ids, n.id, n.tags, |n.tags|, e);
  }

  lemma {:induction false} OwedByTags(notes: seq<Note>, i: nat, target: NodeId)
    requires AllParsed(notes) && i < |notes| && Survives(notes, i)
    ensures var n := NoteNode(notes[i]);
      multiset(TagOwed(BuiltIds(notes))(n))[Edge(n.id, target, TaggedAs)]
      == if exists t :: t in n.tags && target == Id("tag:" + t) then 1 else 0
  {
    hide Places, BuiltIds, Tagging, TagEdges;
    var n, ids := NoteNode(notes[i]), BuiltIds(notes);
    assert notes[i].Parsed();
    SurvivorTags(notes, i);
    NoPlaces(n.tags, Tagging(target));
    TagEdgesTally(ids, n.id, n.tags, |n.tags|, target);
    OncePlaced(n.tags, target);
  }

  lemma {:induction false} SurvivorTags(notes: seq<Note>, i: nat)
    requires AllParsed(notes) && i < |notes| && Survives(notes, i)
    ensures forall t :: t in notes[i].tags ==> TagId(t) in BuiltIds(notes)
  {
    hide BuiltIds, NoteNodes;
    SurvivorEntry(notes, |notes|, i);
    NoteFacts(notes, Id(notes[i].rel));
  }

  lemma {:induction false} OncePlaced(tags: seq<string>, target: NodeId)
    requires Distinct(tags)
    ensures |Places(tags, Tagging(target))| == if exists t :: t in tags && target == Id("tag:" + t) then 1 else 0
  {
    if t :| t in tags && target == Id("tag:" + t) {
      var i :| 0 <= i < |tags| && tags[i] == t;
      forall j | j in Places(tags, Tagging(target)) ensures j == i {
        SameTail("tag:", tags[j], t);
        DistinctAt(tags, i, j);
      }
      assert Places(tags, Tagging(target)) == {i};
    } else {
      assert Places(tags, Tagging(target)) == {};
    }
  }

  /** The part of a path before its first separator. */
  lemma {:induction false} TopFolderSplits(top: string, rest: string)
    requires '/' !in top && '\\' !in top && (rest == "" || rest[0] == '/' || rest[0] == '\\')
    ensures TopFolder(top + rest) == top
  {
    if top == "" {
      assert top + rest == rest;
    } else {
      assert (top + rest)[1..] == top[1..] + rest;
      TopFolderSplits(top[1..], rest);
    }
  }

  /** A surviving note is contained once in the folder its path starts with and in no other. */
  lemma {:induction false} FolderExactly(notes: seq<Note>, i: nat, top: string, rest: string, folder: NodeId)
    requires AllParsed(notes) && i < |notes| && Survives(notes, i) && notes[i].rel == top + rest
    requires '/' !in top && '\\' !in top && (rest == "" || rest[0] == '/' || rest[0] == '\\')
    ensures multiset(BuiltEdges(notes))[Edge(folder, Id(notes[i].rel), FolderContains)]
         == if folder == Id("folder:" + top) then 1 else 0
  {
    hide BuiltEdges, Base, LocalIds, Collect, FolderOwed, TopFolder;
    var e, base, ids := Edge(folder, Id(notes[i].rel), FolderContains), Base(notes), LocalIds(notes);
    CountInPass(notes, e);
    var k := SurvivorPlace(notes, i);
    forall j | 0 <= j < |base.keys| && j != k ensures e !in FolderOwed(ids)(base.entries[base.keys[j]]) {
      FolderTarget(ids, base.entries[base.keys[j]], e);
    }
    CollectCounts(FolderOwed(ids), base.entries, base.keys, |base.keys|, k, e);
    TopFolderSplits(top, rest);
    assert notes[i].Parsed();
    NoteFacts(notes, Id(notes[i].rel));
    OwedFolder(ids, NoteNode(notes[i]), folder);
  }

  lemma {:induction false} FolderTarget(ids: set<NodeId>, n: Node, e: Edge)
    ensures e in FolderOwed(ids)(n) ==> e.target == n.id
  {
  }

  lemma {:induction false} OwedFolder(ids: set<NodeId>, n: Node, folder: NodeId)
    requires !n.kind.Structural() && FolderId(n.folder) in ids
    ensures multiset(FolderOwed(ids)(n))[Edge(folder, n.id, FolderContains)]
         == if folder == Id("folder:" + n.folder) then 1 else 0
  {
  }

  // ----- nothing else

  lemma {:induction false} Survivor(notes: seq<Note>, n: nat, k: NodeId) returns (i: nat)
    requires n <= |notes| && k in NoteNodes(notes, n).entries
    ensures i < n && Id(notes[i].rel) == k && forall j :: i < j < n ==> notes[j].rel != notes[i].rel
  {
    hide NoteNode, NoteNodes;
    if n > 0 { NoteNodesStep(notes, n); } else { assert k !in NoteNodes(notes, 0).entries by { NoNotes(notes); } }
    if k == Id(notes[n - 1].rel) { i := n - 1; } else { i := Survivor(notes, n - 1, k); }
  }

  lemma {:induction false} NoNotes(notes: seq<Note>)
    ensures NoteNodes(notes, 0).entries == map[]
  {
  }

  /** Every built edge is one of those counted: it leaves a surviving note, or contains one. */
  lemma {:induction false} EdgesOfSurvivors(notes: seq<Note>, e: Edge) returns (i: nat)
    requires e in BuiltEdges(notes)
    ensures i < |notes| && Survives(notes, i) && e.kind != SimilarTitle
    ensures Id(notes[i].rel) == if e.kind == FolderContains then e.target else e.source
  {
    hide BuiltEdges;
    EdgesJustified(notes, e);
    CountInPass(notes, e);
    i := Survivor(notes, |notes|, if e.kind == FolderContains then e.target else e.source);
  }

  /** So a wiki edge joins two notes exactly when a surviving note names the other: `[[b]]` in one leads to
      the last note with the stem `b`. */
  lemma {:induction false} WikiLinked(notes: seq<Note>, i: nat, j: nat)
    requires i < |notes| && Survives(notes, i) && j < |notes| && notes[j].rel !in ["", notes[i].rel]
    ensures Edge(Id(notes[i].rel), Id(notes[j].rel), WikiLink) in BuiltEdges(notes) <==>
      exists name :: name in notes[i].wikiLinks && Names(notes, name, Id(notes[j].rel))
  {
    hide BuiltEdges, Names;
    var target := Id(notes[j].rel);
    WikiLinksExactly(notes, i, target);
    PlaceExists(notes[i].wikiLinks, Naming(notes, target));
  }

  // ----- the stem a relative link names

  /** A file name as a link spells it. */
  function Encoded(name: string): string
  {
    if name == "" then "" else EncodedCharacter(name[0]) + Encoded(name[1..])
  }
  function EncodedCharacter(c: char): string { if c == ' ' then "%20" else [c] }

  function Cleaned(s: string): string { ReplaceAll(ReplaceAll(s, "%20", " "), ".md", "") }

  /** Only the last segment of the path matters. */
  lemma {:induction false} LastSegmentNames(dirs: string, segment: string)
    requires '/' !in segment
    ensures LinkStem(segment) == Cleaned(segment) && LinkStem(dirs + "/" + segment) == Cleaned(segment)
  {
    hide Split, ReplaceAll;
    ReplaceAllParts(dirs, '/', segment, "%20", " ");
    ReplaceAllParts(ReplaceAll(dirs, "%20", " "), '/', ReplaceAll(segment, "%20", " "), ".md", "");
    NoSlash(segment, "%20", " ");
    NoSlash(ReplaceAll(segment, "%20", " "), ".md", "");
    SplitLast(Cleaned(segment), '/');
    SplitConcat(Cleaned(dirs), Cleaned(segment), '/');
  }

  lemma {:induction false} NoSlash(s: string, pattern: string, replacement: string)
    requires pattern != "" && '/' !in s && '/' !in replacement
    ensures '/' !in ReplaceAll(s, pattern, replacement)
    decreases |s|
  {
    if s != "" {
      if StartsWith(s, pattern) { NoSlash(s[|pattern|..], pattern, replacement); }
      else { NoSlash(s[1..], pattern, replacement); }
    }
  }

  /** Decoding, for any pattern of three characters that only `%` can start. */
  lemma {:induction false} Decoded(name: string, tail: string, p: string)
    requires p == ['%', '2', '0'] && !Contains(name, p) && (tail == "" || tail == ".md")
    ensures ReplaceAll(Encoded(name) + tail, p, " ") == name + tail
  {
    hide Contains, Encoded, EncodedCharacter, ReplaceAll, StartsWith;
    if name == "" {
      TailStays(tail, p);
    } else {
      EncodedStep(name);
      OccursBehind(name, p, 0);
      OccursBehind(name, p, 1);
      assert name[0..] == name;
      Decoded(name[1..], tail, p);
      if name[0] != ' ' { EncodedStart(name, tail, p); }
      DecodedStep(name[0], Encoded(name[1..]) + tail, p);
      assert Encoded(name) + tail == EncodedCharacter(name[0]) + (Encoded(name[1..]) + tail);
    }
  }

  lemma {:induction false} DecodedStep(c: char, rest: string, p: string)
    requires p == ['%', '2', '0'] && (c != ' ' ==> !StartsWith([c] + rest, p))
    ensures ReplaceAll(EncodedCharacter(c) + rest, p, " ") == [c] + ReplaceAll(rest, p, " ")
  {
    var s := EncodedCharacter(c) + rest;
    if c == ' ' {
      assert s[..3] == p && s[3..] == rest;
    } else {
      assert s[1..] == rest;
    }
  }

  lemma {:induction false} TailStays(tail: string, p: string)
    requires p == ['%', '2', '0'] && (tail == "" || tail == ".md")
    ensures ReplaceAll(tail, p, " ") == tail && Encoded("") + tail == tail
  {
    if tail != "" { ReplaceAllFree(tail, p, " "); }
  }

  lemma {:induction false} EncodedStart(name: string, tail: string, p: string)
    requires p == ['%', '2', '0'] && name != "" && name[0] != ' ' && !StartsWith(name, p)
    requires tail == "" || tail[0] == '.'
    ensures !StartsWith([name[0]] + (Encoded(name[1..]) + tail), p)
  {
    hide Encoded, StartsWith;
    StartsThree(name, p);
    var s := [name[0]] + (Encoded(name[1..]) + tail);
    StartsThree(s, p);
    EncodedHead(name[1..], tail);
    if name[0] == '%' && |name| > 1 && name[1] == '2' {
      EncodedHead(name[2..], tail);
      EncodedStep(name[1..]);
      assert name[1..][1..] == name[2..];
      assert s == [name[0], name[1]] + (Encoded(name[2..]) + tail);
    }
  }

  lemma {:induction false} StartsThree(s: string, p: string)
    requires |p| == 3
    ensures StartsWith(s, p) <==> |s| >= 3 && s[0] == p[0] && s[1] == p[1] && s[2] == p[2]
  {
    if |s| >= 3 { assert s[..3][0] == s[0] && s[..3][1] == s[1] && s[..3][2] == s[2]; }
  }

  lemma {:induction false} EncodedStep(name: string)
    requires name != ""
    ensures Encoded(name) == EncodedCharacter(name[0]) + Encoded(name[1..])
  {
  }

  lemma {:induction false} EncodedHead(name: string, tail: string)
    requires tail == "" || tail[0] == '.'
    ensures var s := Encoded(name) + tail;
      s != "" ==> s[0] == if name == "" then '.' else if name[0] == ' ' then '%' else name[0]
  {
  }

  lemma {:induction false} Dropped(name: string)
    requires !Contains(name, ".md")
    ensures ReplaceAll(name, ".md", "") == name && ReplaceAll(name + ".md", ".md", "") == name
  {
    if name == "" {
      assert name + ".md" == ".md";
    } else {
      OccursBehind(name, ".md", 0);
      OccursBehind(name, ".md", 1);
      assert name[0..] == name;
      Dropped(name[1..]);
      var s := name + ".md";
      assert s[1..] == name[1..] + ".md";
      NoEarlierEnd(name);
    }
  }

  lemma {:induction false} NoEarlierEnd(name: string)
    requires name != "" && !StartsWith(name, ".md")
    ensures !StartsWith(name + ".md", ".md")
  {
    if |name| < 3 {
      OtherStart(name + ".md", ".md", |name|);
    } else {
      assert (name + ".md")[..3] == name[..3];
    }
  }

  /** So a link to the file `name.md` in any folder, spaces written `%20`, names the stem `name`. */
  lemma {:induction false} FileLinkNames(dirs: string, name: string)
    requires '/' !in name && !Contains(name, "%20") && !Contains(name, ".md")
    ensures LinkStem(Encoded(name) + ".md") == name && LinkStem(dirs + "/" + Encoded(name) + ".md") == name
    ensures LinkStem(Encoded(name)) == name && LinkStem(dirs + "/" + Encoded(name)) == name
  {
    hide LinkStem, Contains, ReplaceAll;
    NoSlashEncoded(name);
    LastSegmentNames(dirs, Encoded(name));
    LastSegmentNames(dirs, Encoded(name) + ".md");
    assert dirs + "/" + (Encoded(name) + ".md") == dirs + "/" + Encoded(name) + ".md";
    Decoded(name, "", "%20");
    Decoded(name, ".md", "%20");
    assert Encoded(name) + "" == Encoded(name) && name + "" == name;
    Dropped(name);
  }

  lemma {:induction false} NoSlashEncoded(name: string)
    requires '/' !in name
    ensures '/' !in Encoded(name) && '/' !in Encoded(name) + ".md"
  {
    if name != "" { NoSlashEncoded(name[1..]); }
  }

  // ----- the dictionary

  /** The identifiers of the built graph. */
  lemma {:induction false} IdentifiersExactly(notes: seq<Note>, k: NodeId)
    ensures k in BuiltIds(notes) <==>
      || (exists i :: 0 <= i < |notes| && k == Id(notes[i].rel))
      || (exists i, t :: 0 <= i < |notes| && t in notes[i].tags && k == Id("tag:" + t))
      || (exists i :: 0 <= i < |notes| && k == Id("folder:" + TopFolder(notes[i].rel)))
      || (exists i :: 0 <= i < |notes| && Survives(notes, i) && LinksOut(notes[i], k))
  {
    hide NoteNodes, LinkedIds, TagIds, FolderIds, LinksOut, Survives;
    NoteKeys(notes, |notes|, k);
    TagIdsExactly(notes, k);
    FolderIdsExactly(notes, k);
    ExternalExactly(notes, k);
  }

  /** An external link of the note, by the first 120 characters of its address. */
  ghost predicate LinksOut(note: Note, k: NodeId)
  {
    exists l :: l in note.mdLinks && ("http://" <= l.href || "https://" <= l.href)
      && k == Id("ext:" + if |l.href| <= 120 then l.href else l.href[..120])
  }

  lemma {:induction false} TagIdsExactly(notes: seq<Note>, k: NodeId)
    ensures k in TagIds(notes) <==> exists i, t :: 0 <= i < |notes| && t in notes[i].tags && k == Id("tag:" + t)
  {
    CollectedTags(notes, |notes|);
    if k in TagIds(notes) {
      var t :| t in AllTags(notes, |notes|) && k == TagId(t);
      var i :| 0 <= i < |notes| && t in notes[i].tags;
      assert k == Id("tag:" + t);
    }
    if i, t :| 0 <= i < |notes| && t in notes[i].tags && k == Id("tag:" + t) {
      assert t in AllTags(notes, |notes|) && k == TagId(t);
    }
  }

  lemma {:induction false} FolderIdsExactly(notes: seq<Note>, k: NodeId)
    ensures k in FolderIds(notes) <==> exists i :: 0 <= i < |notes| && k == Id("folder:" + TopFolder(notes[i].rel))
  {
    hide TopFolder;
    CollectedFolders(notes, |notes|);
    forall i | 0 <= i < |notes| ensures FolderId(TopFolder(notes[i].rel)) in FolderIds(notes) {
      assert TopFolder(notes[i].rel) in AllFolders(notes, |notes|);
    }
  }

  lemma {:induction false} NoteKeys(notes: seq<Note>, n: nat, k: NodeId)
    requires n <= |notes|
    ensures k in NoteNodes(notes, n).entries <==> exists i :: 0 <= i < n && k == Id(notes[i].rel)
  {
    hide NoteNodes, NoteNode;
    if n == 0 {
      NoNotes(notes);
    } else {
      NoteNodesStep(notes, n);
      NoteKeys(notes, n - 1, k);
    }
  }

  lemma {:induction false} CollectedTags(notes: seq<Note>, n: nat)
    requires n <= |notes|
    ensures forall t :: t in AllTags(notes, n) <==> exists i :: 0 <= i < n && t in notes[i].tags
  {
    if n > 0 { CollectedTags(notes, n - 1); }
  }

  lemma {:induction false} CollectedFolders(notes: seq<Note>, n: nat)
    requires n <= |notes|
    ensures forall f :: f in AllFolders(notes, n) <==> exists i :: 0 <= i < n && f == TopFolder(notes[i].rel)
  {
    if n > 0 { CollectedFolders(notes, n - 1); }
  }

  lemma {:induction false} ExternalIdsExactly(links: seq<MdLink>, n: nat, k: NodeId)
    requires n <= |links|
    ensures k in ExternalIds(links, n) <==>
      exists j :: 0 <= j < n && IsExternal(links[j].href) && k == ExternalId(links[j].href)
  {
    hide IsExternal, ExternalId;
    if n > 0 { ExternalIdsExactly(links, n - 1, k); }
  }

  lemma {:induction false} LinkedIdsExactly(m: map<NodeId, Node>, keys: seq<NodeId>, n: nat, k: NodeId)
    requires n <= |keys| && Present(m, keys)
    ensures k in LinkedIds(m, keys, n) <==>
      exists i :: 0 <= i < n && k in ExternalIds(m[keys[i]].mdLinks, |m[keys[i]].mdLinks|)
  {
    hide ExternalIds;
    if n > 0 { LinkedIdsExactly(m, keys, n - 1, k); }
  }

  lemma {:induction false} ExternalOf(note: Note, k: NodeId)
    ensures k in ExternalIds(note.mdLinks, |note.mdLinks|) <==> LinksOut(note, k)
  {
    ExternalIdsExactly(note.mdLinks, |note.mdLinks|, k);
  }

  lemma {:induction false} ExternalExactly(notes: seq<Note>, k: NodeId)
    ensures Present(Base(notes).entries, Base(notes).keys)
    ensures k in LinkedIds(Base(notes).entries, Base(notes).keys, |Base(notes).keys|) <==>
      exists i :: 0 <= i < |notes| && Survives(notes, i) && LinksOut(notes[i], k)
  {
    hide LinksOut, NoteNodes, LinkedIds, ExternalIds, Survives, OrderedMap.Valid;
    var base := Base(notes);
    KeysPresent(base) by { NoteNodesKeyed(notes, |notes|); }
    LinkedIdsExactly(base.entries, base.keys, |base.keys|, k);
    if k in LinkedIds(base.entries, base.keys, |base.keys|) {
      var j :| 0 <= j < |base.keys| &&
        k in ExternalIds(base.entries[base.keys[j]].mdLinks, |base.entries[base.keys[j]].mdLinks|);
      var i := SurvivorAt(notes, base.keys[j]);
      ExternalOf(notes[i], k);
    } else if i :| 0 <= i < |notes| && Survives(notes, i) && LinksOut(notes[i], k) {
      var j := SurvivorPlace(notes, i);
      ExternalOf(notes[i], k);
    }
  }

  lemma {:induction false} SurvivorAt(notes: seq<Note>, k: NodeId) returns (i: nat)
    requires k in Base(notes).entries
    ensures i < |notes| && Survives(notes, i) && Base(notes).entries[k].mdLinks == notes[i].mdLinks
  {
    hide NoteNodes;
    i := Survivor(notes, |notes|, k);
    SurvivorEntry(notes, |notes|, i);
  }

  /** What the finished dictionary holds for a surviving note. */
  lemma {:induction false} NotesKept(notes: seq<Note>, nodes: Nodes, i: nat, top: string, rest: string)
    requires Extends(Base(notes), nodes, BuiltIds(notes)) && i < |notes| && Survives(notes, i)
    requires notes[i].rel == top + rest
    requires '/' !in top && '\\' !in top && (rest == "" || rest[0] == '/' || rest[0] == '\\')
    ensures Id(notes[i].rel) in nodes.entries
    ensures var note, n := notes[i], nodes.entries[Id(notes[i].rel)];
      && n.id == Id(note.rel) && n.path == note.rel && n.folder == top && n.title == note.stem
      && n.kind == note.kind && n.tags == note.tags && n.content == note.content
      && n.wikiLinks == note.wikiLinks && n.mdLinks == note.mdLinks && n.citations == note.citations
  {
    hide NoteNodes, BuiltIds, Keyed, TopFolder;
    SurvivorEntry(notes, |notes|, i);
    TopFolderSplits(top, rest);
  }

  /** And for any other identifier: a tag under its name behind `#`, a folder that lies in itself, or an
      external link under the first 60 characters of its text, of its address if it has none. */
  lemma {:induction false} OthersInFull(notes: seq<Note>, nodes: Nodes, k: NodeId)
    requires Extends(Base(notes), nodes, BuiltIds(notes)) && k in nodes.entries
    requires forall i :: 0 <= i < |notes| ==> k != Id(notes[i].rel)
    ensures var n := nodes.entries[k];
      && n.id == k && n.kind in {Tag, Folder, ExternalLink}
      && n.tags == [] && n.wikiLinks == [] && n.mdLinks == [] && n.citations == [] && n.content == ""
      && (n.kind == Tag ==> "#" <= n.title && k == Id("tag:" + n.title[1..]) && n.path == "" == n.folder)
      && (n.kind == Folder ==> k == Id("folder:" + n.folder) && n.title == n.folder && n.path == "")
      && (n.kind == ExternalLink ==>
            && k == Id("ext:" + if |n.path| <= 120 then n.path else n.path[..120]) && n.folder == ""
            && exists text: string ::
                 n.title == if text == "" then FirstFew(n.path, 60) else FirstFew(text, 60))
  {
    hide NoteNodes, BuiltIds;
    NoteKeys(notes, |notes|, k);
    var n := nodes.entries[k];
    assert Created(n) && n.id == k;
    hide Extends;
    if n.kind == ExternalLink {
      var text :| n == ExternalNode(MdLink(text, n.path));
      assert n.title == if text == "" then FirstFew(n.path, 60) else FirstFew(text, 60);
    }
  }

  function FirstFew(s: string, n: nat): string { if |s| <= n then s else s[..n] }

  /** Note `i` is the first with its path. */
  ghost predicate FirstWithPath(notes: seq<Note>, i: nat)
    requires i < |notes|
  {
    forall k :: 0 <= k < i ==> notes[k].rel != notes[i].rel
  }

  /** In the finished dictionary the notes come before all else, in the order their paths first come. */
  lemma {:induction false} NotesInPlace(notes: seq<Note>, nodes: Nodes, i: nat, j: nat) returns (a: nat, b: nat)
    requires Extends(Base(notes), nodes, BuiltIds(notes))
    requires i < j < |notes| && FirstWithPath(notes, i) && FirstWithPath(notes, j)
    ensures a < b < |nodes.keys| && nodes.keys[a] == Id(notes[i].rel) && nodes.keys[b] == Id(notes[j].rel)
    ensures forall k :: 0 <= k < b ==> exists n :: 0 <= n < |notes| && nodes.keys[k] == Id(notes[n].rel)
  {
    hide NoteNodes, BuiltIds, Keyed;
    a, b := KeysInPlace(notes, |notes|, i, j);
    var keys := Base(notes).keys;
    NoteNodesKeyed(notes, |notes|);
    forall k | 0 <= k < b ensures exists n :: 0 <= n < |notes| && nodes.keys[k] == Id(notes[n].rel) {
      assert nodes.keys[k] == keys[k];
      KeyIn(Base(notes), k);
      NoteKeys(notes, |notes|, keys[k]);
    }
  }

  lemma {:induction false} KeyIn(nodes: Nodes, k: nat)
    requires Keyed(nodes) && k < |nodes.keys|
    ensures nodes.keys[k] in nodes.entries
  {
  }

  lemma {:induction false} KeysInPlace(notes: seq<Note>, n: nat, i: nat, j: nat) returns (a: nat, b: nat)
    requires i < j < n <= |notes| && FirstWithPath(notes, i) && FirstWithPath(notes, j)
    ensures var keys := NoteNodes(notes, n).keys;
      a < b < |keys| && keys[a] == Id(notes[i].rel) && keys[b] == Id(notes[j].rel)
  {
    hide NoteNode, NoteNodes;
    var before := NoteNodes(notes, n - 1);
    KeysStep(notes, n);
    if j < n - 1 {
      a, b := KeysInPlace(notes, n - 1, i, j);
    } else {
      a := KeyOf(notes, n - 1, i);
      b := |before.keys|;
      NoteKeys(notes, n - 1, Id(notes[j].rel));
    }
  }

  lemma {:induction false} KeysStep(notes: seq<Note>, n: nat)
    requires 0 < n <= |notes|
    ensures var before, k := NoteNodes(notes, n - 1), Id(notes[n - 1].rel);
      NoteNodes(notes, n).keys == if k in before.entries then before.keys else before.keys + [k]
  {
    hide NoteNode, OrderedMap.Valid;
  }

  lemma {:induction false} KeyOf(notes: seq<Note>, n: nat, i: nat) returns (a: nat)
    requires i < n <= |notes|
    ensures a < |NoteNodes(notes, n).keys| && NoteNodes(notes, n).keys[a] == Id(notes[i].rel)
  {
    hide NoteNodes;
    NoteNodesKeyed(notes, n);
    NoteKeys(notes, n, Id(notes[i].rel));
    a :| 0 <= a < |NoteNodes(notes, n).keys| && NoteNodes(notes, n).keys[a] == Id(notes[i].rel);
  }
}
