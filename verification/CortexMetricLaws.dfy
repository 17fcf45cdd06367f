/** What the stored metrics count, read off the edges and nodes. */
module CortexMetricLaws {
  import opened CortexModel
  import opened CortexCounting
  import opened CortexMetrics

  /** The counted edges into a node, and out of it. */
  ghost function Into(v: NodeId): Edge -> bool { (e: Edge) => e.kind != FolderContains && e.target == v }
  ghost function OutOf(v: NodeId): Edge -> bool { (e: Edge) => e.kind != FolderContains && e.source == v }

  lemma {:induction false} DegreesCount(edges: seq<Edge>, v: NodeId, n: nat)
    requires n <= |edges|
    ensures InDegree(edges, v, n) == |Places(edges[..n], Into(v))|
    ensures OutDegree(edges, v, n) == |Places(edges[..n], OutOf(v))|
  {
    hide Places;
    if n == 0 {
      NoPlaces(edges, Into(v));
      NoPlaces(edges, OutOf(v));
    } else {
      DegreesCount(edges, v, n - 1);
      PlacesStep(edges, Into(v), n - 1);
      PlacesStep(edges, OutOf(v), n - 1);
    }
  }

  /** `e` is no containment, joins two nodes of the dictionary, and `v` and `u` are its two ends, in either
      order. */
  predicate Meets(m: map<NodeId, Node>, e: Edge, v: NodeId, u: NodeId)
  {
    && e.kind != FolderContains && e.source in m && e.target in m
    && ((e.source == v && e.target == u) || (e.source == u && e.target == v))
  }

  /** Across one of the first `n` edges, whose source has a folder, lies a node in the folder `f`. */
  ghost predicate FolderAcross(m: map<NodeId, Node>, edges: seq<Edge>, n: nat, v: NodeId, f: string)
    requires n <= |edges|
  {
    exists i, u :: 0 <= i < n &&
      Meets(m, edges[i], v, u) && m[edges[i].source].folder != "" && m[u].folder == f
  }

  ghost predicate KindAcross(m: map<NodeId, Node>, edges: seq<Edge>, n: nat, v: NodeId, k: NodeKind)
    requires n <= |edges|
  {
    exists i, u :: 0 <= i < n && Meets(m, edges[i], v, u) && m[u].kind == k
  }

  lemma {:induction false} FoldersMet(m: map<NodeId, Node>, edges: seq<Edge>, v: NodeId, n: nat, f: string)
    requires n <= |edges|
    ensures f in NeighborFolders(m, edges, v, n) <==> FolderAcross(m, edges, n, v, f)
  {
    hide FoldersSeen;
    if n > 0 {
      FoldersMet(m, edges, v, n - 1, f);
      FoldersMetOnce(m, edges[n - 1], v, f);
    }
  }

  lemma {:induction false} FoldersMetOnce(m: map<NodeId, Node>, e: Edge, v: NodeId, f: string)
    ensures f in FoldersSeen(m, e, v) <==>
      exists u :: Meets(m, e, v, u) && m[e.source].folder != "" && m[u].folder == f
  {
    assert Meets(m, e, e.source, e.target) <==> Meets(m, e, e.target, e.source);
  }

  lemma {:induction false} KindsMet(m: map<NodeId, Node>, edges: seq<Edge>, v: NodeId, n: nat, k: NodeKind)
    requires n <= |edges|
    ensures k in NeighborKinds(m, edges, v, n) <==> KindAcross(m, edges, n, v, k)
  {
    hide KindsSeen;
    if n > 0 {
      KindsMet(m, edges, v, n - 1, k);
      KindsMetOnce(m, edges[n - 1], v, k);
    }
  }

  lemma {:induction false} KindsMetOnce(m: map<NodeId, Node>, e: Edge, v: NodeId, k: NodeKind)
    ensures k in KindsSeen(m, e, v) <==> exists u :: Meets(m, e, v, u) && m[u].kind == k
  {
    assert Meets(m, e, e.source, e.target) <==> Meets(m, e, e.target, e.source);
  }

  /** Measuring stores, in every node and nothing else: how many counted edges come in and go out; their
      sum; whether the node is a note without any; and as bridge score the number of folders plus the
      number of kinds found at the far ends of its counted edges, a folder only where the edge's source has
      one. */
  lemma {:induction false} MetricsExactly(nodes: Nodes, edges: seq<Edge>, v: NodeId)
    returns (folders: set<string>, kinds: set<NodeKind>)
    requires v in nodes.entries
    ensures v in WithMetrics(nodes, edges).entries && WithMetrics(nodes, edges).keys == nodes.keys
    ensures var n, m := WithMetrics(nodes, edges).entries[v], WithMetrics(nodes, edges).entries[v].metrics;
      && n == nodes.entries[v].(metrics := m)
      && m.inDegree == |Places(edges, Into(v))| && m.outDegree == |Places(edges, OutOf(v))|
      && m.totalDegree == m.inDegree + m.outDegree && m.bridgeScore == |folders| + |kinds|
      && (m.orphan <==> m.totalDegree == 0 && n.kind !in {Tag, Folder, ExternalLink})
    ensures forall f :: f in folders <==> FolderAcross(nodes.entries, edges, |edges|, v, f)
    ensures forall k :: k in kinds <==> KindAcross(nodes.entries, edges, |edges|, v, k)
  {
    hide Places, Into, OutOf, InDegree, OutDegree, NeighborFolders, NeighborKinds, FolderAcross, KindAcross;
    var m := nodes.entries;
    folders, kinds := NeighborFolders(m, edges, v, |edges|), NeighborKinds(m, edges, v, |edges|);
    DegreesCount(edges, v, |edges|);
    assert edges[..|edges|] == edges;
    forall f ensures f in folders <==> FolderAcross(m, edges, |edges|, v, f) { FoldersMet(m, edges, v, |edges|, f); }
    forall k ensures k in kinds <==> KindAcross(m, edges, |edges|, v, k) { KindsMet(m, edges, v, |edges|, k); }
  }
}
