/** The personal graph of the cortex map as values: notes, nodes, edges, and for each edge pass
    the edges it owes to one node. */
module CortexModel {
  import opened OrderedMaps
  import opened Strings

  /** A node identifier: a note's path, or `tag:`, `folder:` or `ext:` with a name. */
  datatype NodeId = Id(text: string)

  datatype NodeKind =
    | Doctrine | Decision | Concept | Project | WorkOrder | Case | Daily
    | Synthesis | PromotionReport | PromotionDraft | PlainNote
    | Tag | Folder | ExternalLink
  {
    /** Tags, folders and external links are not notes. */
    predicate Structural() { Tag? || Folder? || ExternalLink? }
  }

  datatype EdgeKind = FolderContains | WikiLink | MarkdownLink | TaggedAs | SourceCites | SimilarTitle

  datatype Edge = Edge(source: NodeId, target: NodeId, kind: EdgeKind)

  datatype MdLink = MdLink(text: string, href: string)

  /** What reading and parsing one file yields. `citations` are the stems of the `.md` paths its
      content lists as sources. */
  datatype Note = Note(
    rel: string, stem: string, kind: NodeKind, tags: seq<string>, wikiLinks: seq<string>,
    mdLinks: seq<MdLink>, citations: seq<string>, content: string)
  {
    /** Node types are inferred from a table without structural types; tags come sorted from a set. */
    ghost predicate Parsed() { !kind.Structural() && Distinct(tags) }
  }

  ghost predicate AllParsed(notes: seq<Note>)
  {
    forall i :: 0 <= i < |notes| ==> notes[i].Parsed()
  }

  datatype Metrics = Metrics(inDegree: nat, outDegree: nat, totalDegree: nat, bridgeScore: nat, orphan: bool)

  const NO_METRICS := Metrics(0, 0, 0, 0, false)

  datatype Node = Node(
    id: NodeId, title: string, kind: NodeKind, path: string, folder: string, tags: seq<string>,
    wikiLinks: seq<string>, mdLinks: seq<MdLink>, citations: seq<string>, content: string,
    metrics: Metrics)
  {
    ghost predicate Linkless() { tags == [] && wikiLinks == [] && mdLinks == [] && citations == [] }
  }

  type Nodes = OrderedMap<NodeId, Node>

  /** The part of a relative path before the first separator of either kind. */
  function TopFolder(rel: string): string
  {
    if rel == [] || rel[0] == '/' || rel[0] == '\\' then [] else [rel[0]] + TopFolder(rel[1..])
  }

  function TagId(tag: string): NodeId { Id("tag:" + tag) }
  function FolderId(folder: string): NodeId { Id("folder:" + folder) }
  function ExternalId(href: string): NodeId { Id("ext:" + Take(href, 120)) }
  function Take(s: string, n: nat): string { if |s| <= n then s else s[..n] }

  function NoteNode(n: Note): Node
  {
    Node(Id(n.rel), n.stem, n.kind, n.rel, TopFolder(n.rel), n.tags, n.wikiLinks, n.mdLinks,
         n.citations, n.content, NO_METRICS)
  }
  function TagNode(tag: string): Node
  {
    Node(TagId(tag), "#" + tag, Tag, "", "", [], [], [], [], "", NO_METRICS)
  }
  function FolderNode(folder: string): Node
  {
    Node(FolderId(folder), folder, Folder, "", folder, [], [], [], [], "", NO_METRICS)
  }
  function ExternalNode(link: MdLink): Node
  {
    var text := Take(link.text, 60);
    Node(ExternalId(link.href), if text != "" then text else Take(link.href, 60), ExternalLink,
         link.href, "", [], [], [], [], "", NO_METRICS)
  }

  predicate IsExternal(href: string) { StartsWith(href, "http://") || StartsWith(href, "https://") }

  /** The stem a relative link names: `%20` and `.md` removed, last path segment kept. */
  function LinkStem(href: string): string
  {
    LastSegment(ReplaceAll(ReplaceAll(href, "%20", " "), ".md", ""))
  }
  function LastSegment(s: string): string
  {
    var parts := Split(s, '/');
    parts[|parts| - 1]
  }

  // Folds over a list take the number of elements already visited.

  /** The first `n` notes as a dictionary: a repeated path keeps its place and takes the later content. */
  function NoteNodes(notes: seq<Note>, n: nat): (m: Nodes)
    requires n <= |notes|
    ensures m.Valid()
  {
    if n == 0 then OrderedMap([], map[])
    else NoteNodes(notes, n - 1).Put(Id(notes[n - 1].rel), NoteNode(notes[n - 1]))
  }

  /** Stem to note path: the last note with a stem wins. */
  function StemIds(notes: seq<Note>, n: nat): map<string, NodeId>
    requires n <= |notes|
  {
    if n == 0 then map[] else StemIds(notes, n - 1)[notes[n - 1].stem := Id(notes[n - 1].rel)]
  }

  function Elements(xs: seq<string>): set<string> { set x | x in xs }

  function AllTags(notes: seq<Note>, n: nat): set<string>
    requires n <= |notes|
  {
    if n == 0 then {} else AllTags(notes, n - 1) + Elements(notes[n - 1].tags)
  }

  function AllFolders(notes: seq<Note>, n: nat): set<string>
    requires n <= |notes|
  {
    if n == 0 then {} else AllFolders(notes, n - 1) + {TopFolder(notes[n - 1].rel)}
  }

  // ----- what each pass adds for one node

  function StemEdges(stems: map<string, NodeId>, nid: NodeId, names: seq<string>, kind: EdgeKind, n: nat): seq<Edge>
    requires n <= |names|
  {
    if n == 0 then [] else StemEdges(stems, nid, names, kind, n - 1) + StemEdge(stems, nid, names[n - 1], kind)
  }

  /** An edge to the note a stem names, unless there is none or it is the source itself. */
  function StemEdge(stems: map<string, NodeId>, nid: NodeId, name: string, kind: EdgeKind): seq<Edge>
  {
    if name in stems && stems[name] != Id("") && stems[name] != nid then [Edge(nid, stems[name], kind)] else []
  }

  function MdEdges(stems: map<string, NodeId>, nid: NodeId, links: seq<MdLink>, n: nat): seq<Edge>
    requires n <= |links|
  {
    if n == 0 then [] else MdEdges(stems, nid, links, n - 1) + MdEdge(stems, nid, links[n - 1].href)
  }

  function MdEdge(stems: map<string, NodeId>, nid: NodeId, href: string): seq<Edge>
  {
    if IsExternal(href) then [Edge(nid, ExternalId(href), MarkdownLink)]
    else StemEdge(stems, nid, LinkStem(href), MarkdownLink)
  }

  function TagEdges(ids: set<NodeId>, nid: NodeId, tags: seq<string>, n: nat): seq<Edge>
    requires n <= |tags|
  {
    if n == 0 then []
    else TagEdges(ids, nid, tags, n - 1) +
         if TagId(tags[n - 1]) in ids then [Edge(nid, TagId(tags[n - 1]), TaggedAs)] else []
  }

  /** What one node owes in each pass. */
  type Owed = Node -> seq<Edge>

  ghost function FolderOwed(ids: set<NodeId>): Owed
  {
    (n: Node) => if !n.kind.Tag? && !n.kind.Folder? && FolderId(n.folder) in ids
                 then [Edge(FolderId(n.folder), n.id, FolderContains)] else []
  }
  ghost function LinkOwed(stems: map<string, NodeId>): Owed
  {
    (n: Node) => StemEdges(stems, n.id, n.wikiLinks, WikiLink, |n.wikiLinks|)
        + MdEdges(stems, n.id, n.mdLinks, |n.mdLinks|)
  }
  ghost function TagOwed(ids: set<NodeId>): Owed
  {
    (n: Node) => if n.kind.Structural() then [] else TagEdges(ids, n.id, n.tags, |n.tags|)
  }
  ghost function CiteOwed(stems: map<string, NodeId>): Owed
  {
    (n: Node) => if n.kind.Structural() then [] else StemEdges(stems, n.id, n.citations, SourceCites, |n.citations|)
  }

  predicate Present(m: map<NodeId, Node>, keys: seq<NodeId>)
  {
    forall i :: 0 <= i < |keys| ==> keys[i] in m
  }

  /** The edges the first `n` nodes of `keys` owe, in that order. */
  function Collect(owed: Owed, m: map<NodeId, Node>, keys: seq<NodeId>, n: nat): seq<Edge>
    requires n <= |keys| && Present(m, keys)
  {
    if n == 0 then [] else Collect(owed, m, keys, n - 1) + owed(m[keys[n - 1]])
  }

  function CollectAll(owed: Owed, nodes: Nodes): seq<Edge>
    requires Present(nodes.entries, nodes.keys)
  {
    Collect(owed, nodes.entries, nodes.keys, |nodes.keys|)
  }

  // ----- how the dictionary grows

  function PutMissing(nodes: Nodes, node: Node): Nodes
  {
    if node.id in nodes.entries then nodes else nodes.Put(node.id, node)
  }

  function WithTags(nodes: Nodes, tags: seq<string>): Nodes
  {
    if tags == [] then nodes
    else PutMissing(WithTags(nodes, tags[..|tags| - 1]), TagNode(tags[|tags| - 1]))
  }

  function WithFolders(nodes: Nodes, folders: seq<string>): Nodes
  {
    if folders == [] then nodes
    else PutMissing(WithFolders(nodes, folders[..|folders| - 1]), FolderNode(folders[|folders| - 1]))
  }

  function WithExternals(nodes: Nodes, links: seq<MdLink>, n: nat): Nodes
    requires n <= |links|
  {
    if n == 0 then nodes
    else
      var before := WithExternals(nodes, links, n - 1);
      if IsExternal(links[n - 1].href) then PutMissing(before, ExternalNode(links[n - 1])) else before
  }

  /** External nodes for the links of the first `n` nodes of a snapshot. */
  function WithLinked(nodes: Nodes, m: map<NodeId, Node>, keys: seq<NodeId>, n: nat): Nodes
    requires n <= |keys| && Present(m, keys)
  {
    if n == 0 then nodes
    else WithExternals(WithLinked(nodes, m, keys, n - 1), m[keys[n - 1]].mdLinks, |m[keys[n - 1]].mdLinks|)
  }

  // ----- the whole graph

  function TagIdsOf(tags: seq<string>): set<NodeId>
  {
    if tags == [] then {} else TagIdsOf(tags[..|tags| - 1]) + {TagId(tags[|tags| - 1])}
  }
  function FolderIdsOf(folders: seq<string>): set<NodeId>
  {
    if folders == [] then {} else FolderIdsOf(folders[..|folders| - 1]) + {FolderId(folders[|folders| - 1])}
  }
  function ExternalIds(links: seq<MdLink>, n: nat): set<NodeId>
    requires n <= |links|
  {
    if n == 0 then {}
    else ExternalIds(links, n - 1) + if IsExternal(links[n - 1].href) then {ExternalId(links[n - 1].href)} else {}
  }
  function LinkedIds(m: map<NodeId, Node>, keys: seq<NodeId>, n: nat): set<NodeId>
    requires n <= |keys| && Present(m, keys)
  {
    if n == 0 then {}
    else LinkedIds(m, keys, n - 1) + ExternalIds(m[keys[n - 1]].mdLinks, |m[keys[n - 1]].mdLinks|)
  }

  /** The dictionary of the notes alone, and the identifiers of the built graph. Only the notes that
      survive overwriting contribute their links. */
  function Base(notes: seq<Note>): (m: Nodes)
    ensures m.Valid()
  {
    NoteNodes(notes, |notes|)
  }
  function Stems(notes: seq<Note>): map<string, NodeId> { StemIds(notes, |notes|) }
  ghost function TagIds(notes: seq<Note>): set<NodeId> { set t | t in AllTags(notes, |notes|) :: TagId(t) }
  ghost function FolderIds(notes: seq<Note>): set<NodeId> { set f | f in AllFolders(notes, |notes|) :: FolderId(f) }
  ghost function LocalIds(notes: seq<Note>): set<NodeId>
  {
    Base(notes).entries.Keys + (TagIds(notes) + FolderIds(notes))
  }
  ghost function BuiltIds(notes: seq<Note>): set<NodeId>
  {
    LocalIds(notes) + LinkedIds(Base(notes).entries, Base(notes).keys, |Base(notes).keys|)
  }

  /** The edges of the built graph, determined by the notes alone. */
  ghost function BuiltEdges(notes: seq<Note>): seq<Edge>
  {
    CollectAll(FolderOwed(LocalIds(notes)), Base(notes)) +
    CollectAll(LinkOwed(Stems(notes)), Base(notes)) +
    CollectAll(TagOwed(BuiltIds(notes)), Base(notes)) +
    CollectAll(CiteOwed(Stems(notes)), Base(notes))
  }

  // ----- created nodes change nothing

  lemma {:induction false} CollectAgrees(owed: Owed, m: map<NodeId, Node>, m': map<NodeId, Node>, keys: seq<NodeId>,
      keys': seq<NodeId>, n: nat)
    requires Present(m, keys) && Present(m', keys') && keys <= keys' && n <= |keys|
    requires forall i :: 0 <= i < |keys| ==> m[keys[i]] == m'[keys[i]]
    ensures Collect(owed, m', keys', n) == Collect(owed, m, keys, n)
  {
    if n > 0 { CollectAgrees(owed, m, m', keys, keys', n - 1); }
  }

  lemma {:induction false} CollectSilent(owed: Owed, m: map<NodeId, Node>, keys: seq<NodeId>, from: nat, n: nat)
    requires Present(m, keys) && from <= n <= |keys|
    requires forall i :: from <= i < |keys| ==> owed(m[keys[i]]) == []
    ensures Collect(owed, m, keys, n) == Collect(owed, m, keys, from)
  {
    if n > from { CollectSilent(owed, m, keys, from, n - 1); }
  }

  lemma {:induction false} LinkedAgrees(m: map<NodeId, Node>, m': map<NodeId, Node>, keys: seq<NodeId>,
      keys': seq<NodeId>, n: nat)
    requires Present(m, keys) && Present(m', keys') && keys <= keys' && n <= |keys|
    requires forall i :: 0 <= i < |keys| ==> m[keys[i]] == m'[keys[i]]
    ensures LinkedIds(m', keys', n) == LinkedIds(m, keys, n)
  {
    if n > 0 { LinkedAgrees(m, m', keys, keys', n - 1); }
  }

  lemma {:induction false} LinkedSilent(m: map<NodeId, Node>, keys: seq<NodeId>, from: nat, n: nat)
    requires Present(m, keys) && from <= n <= |keys|
    requires forall i :: from <= i < |keys| ==> m[keys[i]].mdLinks == []
    ensures LinkedIds(m, keys, n) == LinkedIds(m, keys, from)
  {
    if n > from { LinkedSilent(m, keys, from, n - 1); }
  }
}
