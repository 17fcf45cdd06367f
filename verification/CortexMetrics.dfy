/** Degrees, bridge scores and orphans, as functions of the nodes and edges, and the laws that tie
    them together. */
module CortexMetrics {
  import opened OrderedMaps
  import opened CortexModel
  import Sorting
  import Strings

  /** Containment in a folder does not count as a connection. */
  predicate Counted(e: Edge) { e.kind != FolderContains }

  function InDegree(edges: seq<Edge>, v: NodeId, n: nat): nat
    requires n <= |edges|
  {
    if n == 0 then 0
    else InDegree(edges, v, n - 1) + if Counted(edges[n - 1]) && edges[n - 1].target == v then 1 else 0
  }

  function OutDegree(edges: seq<Edge>, v: NodeId, n: nat): nat
    requires n <= |edges|
  {
    if n == 0 then 0
    else OutDegree(edges, v, n - 1) + if Counted(edges[n - 1]) && edges[n - 1].source == v then 1 else 0
  }

  /** What an edge shows a node of its neighbours. Each end sees the other's folder, unless the
      source has none. */
  function FoldersSeen(m: map<NodeId, Node>, e: Edge, v: NodeId): set<string>
  {
    if !Counted(e) || e.source !in m || e.target !in m || m[e.source].folder == "" then {}
    else (if e.source == v then {m[e.target].folder} else {}) + (if e.target == v then {m[e.source].folder} else {})
  }

  function KindsSeen(m: map<NodeId, Node>, e: Edge, v: NodeId): set<NodeKind>
  {
    if !Counted(e) || e.source !in m || e.target !in m then {}
    else (if e.source == v then {m[e.target].kind} else {}) + (if e.target == v then {m[e.source].kind} else {})
  }

  function NeighborFolders(m: map<NodeId, Node>, edges: seq<Edge>, v: NodeId, n: nat): set<string>
    requires n <= |edges|
  {
    if n == 0 then {} else NeighborFolders(m, edges, v, n - 1) + FoldersSeen(m, edges[n - 1], v)
  }

  function NeighborKinds(m: map<NodeId, Node>, edges: seq<Edge>, v: NodeId, n: nat): set<NodeKind>
    requires n <= |edges|
  {
    if n == 0 then {} else NeighborKinds(m, edges, v, n - 1) + KindsSeen(m, edges[n - 1], v)
  }

  function MetricsOf(m: map<NodeId, Node>, edges: seq<Edge>, v: NodeId): Metrics
    requires v in m
  {
    var into, out := InDegree(edges, v, |edges|), OutDegree(edges, v, |edges|);
    Metrics(into, out, into + out,
            |NeighborFolders(m, edges, v, |edges|)| + |NeighborKinds(m, edges, v, |edges|)|,
            into + out == 0 && !m[v].kind.Structural())
  }

  function WithMetrics(nodes: Nodes, edges: seq<Edge>): Nodes
  {
    OrderedMap(nodes.keys, map k | k in nodes.entries ::
        nodes.entries[k].(metrics := MetricsOf(nodes.entries, edges, k)))
  }

  /** The first `n` nodes overwritten in turn. */
  function Measured(nodes: Nodes, edges: seq<Edge>, n: nat): (m: Nodes)
    requires n <= |nodes.keys| && Present(nodes.entries, nodes.keys)
    ensures m.entries.Keys == nodes.entries.Keys && m.keys == nodes.keys
  {
    if n == 0 then nodes
    else
      var before, k := Measured(nodes, edges, n - 1), nodes.keys[n - 1];
      before.Put(k, before.entries[k].(metrics := MetricsOf(nodes.entries, edges, k)))
  }

  lemma {:induction false} MeasuredOneMore(nodes: Nodes, edges: seq<Edge>, n: nat, k: NodeId)
    requires 0 < n <= |nodes.keys| && Present(nodes.entries, nodes.keys) && k in nodes.entries
    ensures var before := Measured(nodes, edges, n - 1).entries[k];
      Measured(nodes, edges, n).entries[k]
        == if k == nodes.keys[n - 1] then before.(metrics := MetricsOf(nodes.entries, edges, k)) else before
  {
    hide MetricsOf, OrderedMap.Valid;
  }

  lemma {:induction false} MeasuredEntry(nodes: Nodes, edges: seq<Edge>, n: nat, k: NodeId)
    requires n <= |nodes.keys| && Present(nodes.entries, nodes.keys) && k in nodes.entries
    ensures Measured(nodes, edges, n).entries[k] == nodes.entries[k].(metrics :=
      if k in nodes.keys[..n] then MetricsOf(nodes.entries, edges, k) else nodes.entries[k].metrics)
  {
    hide MetricsOf, Measured;
    if n == 0 {
      NothingMeasured(nodes, edges);
    } else {
      MeasuredEntry(nodes, edges, n - 1, k);
      MeasuredOneMore(nodes, edges, n, k);
      assert nodes.keys[..n] == nodes.keys[..n - 1] + [nodes.keys[n - 1]];
    }
  }

  lemma {:induction false} MeasuredAll(nodes: Nodes, edges: seq<Edge>)
    requires nodes.Valid() && Present(nodes.entries, nodes.keys)
    ensures Measured(nodes, edges, |nodes.keys|) == WithMetrics(nodes, edges)
  {
    hide MetricsOf, Measured;
    var m := Measured(nodes, edges, |nodes.keys|);
    assert nodes.keys[..|nodes.keys|] == nodes.keys;
    forall k | k in nodes.entries ensures m.entries[k] == WithMetrics(nodes, edges).entries[k] {
      MeasuredEntry(nodes, edges, |nodes.keys|, k);
    }
    assert m.entries == WithMetrics(nodes, edges).entries;
  }

  // ----- counters and neighbour tables, as the code keeps them

  type Counter = map<NodeId, nat>

  function Count(c: Counter, v: NodeId): nat { if v in c then c[v] else 0 }
  function Tick(c: Counter, v: NodeId): Counter { c[v := Count(c, v) + 1] }

  function Seen<T>(t: map<NodeId, set<T>>, v: NodeId): set<T> { if v in t then t[v] else {} }
  function See<T>(t: map<NodeId, set<T>>, v: NodeId, x: T): map<NodeId, set<T>> { t[v := Seen(t, v) + {x}] }

  ghost predicate InTallied(c: Counter, edges: seq<Edge>, n: nat)
    requires n <= |edges|
  {
    forall v :: Count(c, v) == InDegree(edges, v, n)
  }
  ghost predicate OutTallied(c: Counter, edges: seq<Edge>, n: nat)
    requires n <= |edges|
  {
    forall v :: Count(c, v) == OutDegree(edges, v, n)
  }
  ghost predicate FoldersTallied(t: map<NodeId, set<string>>, m: map<NodeId, Node>, edges: seq<Edge>, n: nat)
    requires n <= |edges|
  {
    forall v :: Seen(t, v) == NeighborFolders(m, edges, v, n)
  }
  ghost predicate KindsTallied(t: map<NodeId, set<NodeKind>>, m: map<NodeId, Node>, edges: seq<Edge>, n: nat)
    requires n <= |edges|
  {
    forall v :: Seen(t, v) == NeighborKinds(m, edges, v, n)
  }

  lemma {:induction false} NothingTallied(m: map<NodeId, Node>, edges: seq<Edge>)
    ensures InTallied(map[], edges, 0) && OutTallied(map[], edges, 0)
    ensures FoldersTallied(map[], m, edges, 0) && KindsTallied(map[], m, edges, 0)
  {
  }

  lemma {:induction false} InStep(c: Counter, edges: seq<Edge>, n: nat)
    requires n < |edges| && InTallied(c, edges, n)
    ensures InTallied(if Counted(edges[n]) then Tick(c, edges[n].target) else c, edges, n + 1)
  {
    var c' := if Counted(edges[n]) then Tick(c, edges[n].target) else c;
    forall v ensures Count(c', v) == InDegree(edges, v, n + 1) {
      assert Count(c, v) == InDegree(edges, v, n);
    }
  }

  lemma {:induction false} OutStep(c: Counter, edges: seq<Edge>, n: nat)
    requires n < |edges| && OutTallied(c, edges, n)
    ensures OutTallied(if Counted(edges[n]) then Tick(c, edges[n].source) else c, edges, n + 1)
  {
    var c' := if Counted(edges[n]) then Tick(c, edges[n].source) else c;
    forall v ensures Count(c', v) == OutDegree(edges, v, n + 1) {
      assert Count(c, v) == OutDegree(edges, v, n);
    }
  }

  function ShowFolders(t: map<NodeId, set<string>>, m: map<NodeId, Node>, e: Edge): map<NodeId, set<string>>
  {
    if Counted(e) && e.source in m && e.target in m && m[e.source].folder != ""
    then See(See(t, e.source, m[e.target].folder), e.target, m[e.source].folder) else t
  }

  function ShowKinds(t: map<NodeId, set<NodeKind>>, m: map<NodeId, Node>, e: Edge): map<NodeId, set<NodeKind>>
  {
    if Counted(e) && e.source in m && e.target in m
    then See(See(t, e.source, m[e.target].kind), e.target, m[e.source].kind) else t
  }

  lemma {:induction false} FoldersStep(t: map<NodeId, set<string>>, m: map<NodeId, Node>, edges: seq<Edge>, n: nat)
    requires n < |edges| && FoldersTallied(t, m, edges, n)
    ensures FoldersTallied(ShowFolders(t, m, edges[n]), m, edges, n + 1)
  {
    forall v ensures Seen(ShowFolders(t, m, edges[n]), v) == NeighborFolders(m, edges, v, n + 1) {
      assert Seen(t, v) == NeighborFolders(m, edges, v, n);
    }
  }

  lemma {:induction false} KindsStep(t: map<NodeId, set<NodeKind>>, m: map<NodeId, Node>, edges: seq<Edge>, n: nat)
    requires n < |edges| && KindsTallied(t, m, edges, n)
    ensures KindsTallied(ShowKinds(t, m, edges[n]), m, edges, n + 1)
  {
    forall v ensures Seen(ShowKinds(t, m, edges[n]), v) == NeighborKinds(m, edges, v, n + 1) {
      assert Seen(t, v) == NeighborKinds(m, edges, v, n);
    }
  }

  lemma {:induction false} TalliedMetrics(into: Counter, out: Counter, folders: map<NodeId, set<string>>,
      kinds: map<NodeId, set<NodeKind>>,
                       m: map<NodeId, Node>, edges: seq<Edge>, v: NodeId)
    requires InTallied(into, edges, |edges|) && OutTallied(out, edges, |edges|)
    requires FoldersTallied(folders, m, edges, |edges|) && KindsTallied(kinds, m, edges, |edges|)
    requires v in m
    ensures MetricsOf(m, edges, v) == Metrics(
      Count(into, v), Count(out, v), Count(into, v) + Count(out, v), |Seen(folders, v)| + |Seen(kinds, v)|,
      Count(into, v) + Count(out, v) == 0 && !m[v].kind.Structural())
  {
  }

  /** One node's metrics read off the tables. */
  function Reading(into: Counter, out: Counter, folders: map<NodeId, set<string>>, kinds: map<NodeId, set<NodeKind>>,
      n: Node, v: NodeId): Node
  {
    n.(metrics := Metrics(Count(into, v), Count(out, v), Count(into, v) + Count(out, v),
        |Seen(folders, v)| + |Seen(kinds, v)|,
                          Count(into, v) + Count(out, v) == 0 && !n.kind.Structural()))
  }

  lemma {:induction false} MeasuredStep(into: Counter, out: Counter, folders: map<NodeId, set<string>>,
      kinds: map<NodeId, set<NodeKind>>,
                                        nodes: Nodes, edges: seq<Edge>, i: nat)
    requires InTallied(into, edges, |edges|) && OutTallied(out, edges, |edges|)
    requires FoldersTallied(folders, nodes.entries, edges, |edges|)
        && KindsTallied(kinds, nodes.entries, edges, |edges|)
    requires i < |nodes.keys| && Present(nodes.entries, nodes.keys)
    ensures var m, v := Measured(nodes, edges, i), nodes.keys[i];
      Measured(nodes, edges, i + 1) == m.Put(v, Reading(into, out, folders, kinds, m.entries[v], v))
  {
    hide InTallied, OutTallied, FoldersTallied, KindsTallied, MetricsOf, Count, Seen, OrderedMap.Valid;
    TalliedMetrics(into, out, folders, kinds, nodes.entries, edges, nodes.keys[i]);
    MeasuredEntry(nodes, edges, i, nodes.keys[i]);
  }

  lemma {:induction false} NothingMeasured(nodes: Nodes, edges: seq<Edge>)
    requires Present(nodes.entries, nodes.keys)
    ensures Measured(nodes, edges, 0) == nodes
  {
  }

  // ----- conservation of degree

  ghost predicate Closed(nodes: Nodes, edges: seq<Edge>)
  {
    && nodes.Valid()
    && forall e :: e in edges ==> e.source in nodes.entries && e.target in nodes.entries
  }

  function CountedEdges(edges: seq<Edge>, n: nat): nat
    requires n <= |edges|
  {
    if n == 0 then 0 else CountedEdges(edges, n - 1) + if Counted(edges[n - 1]) then 1 else 0
  }

  ghost function InDegreeSum(edges: seq<Edge>, keys: seq<NodeId>, n: nat, k: nat): nat
    requires n <= |edges| && k <= |keys|
  {
    if k == 0 then 0 else InDegreeSum(edges, keys, n, k - 1) + InDegree(edges, keys[k - 1], n)
  }

  ghost function OutDegreeSum(edges: seq<Edge>, keys: seq<NodeId>, n: nat, k: nat): nat
    requires n <= |edges| && k <= |keys|
  {
    if k == 0 then 0 else OutDegreeSum(edges, keys, n, k - 1) + OutDegree(edges, keys[k - 1], n)
  }

  /** One more edge adds one at its target and one at its source, and nowhere else. */
  lemma {:induction false} SumsStep(edges: seq<Edge>, keys: seq<NodeId>, n: nat, k: nat)
    requires 0 < n <= |edges| && k <= |keys| && Distinct(keys)
    ensures InDegreeSum(edges, keys, n, k) == InDegreeSum(edges, keys, n - 1, k)
      + if Counted(edges[n - 1]) && edges[n - 1].target in keys[..k] then 1 else 0
    ensures OutDegreeSum(edges, keys, n, k) == OutDegreeSum(edges, keys, n - 1, k)
      + if Counted(edges[n - 1]) && edges[n - 1].source in keys[..k] then 1 else 0
  {
    if k > 0 {
      SumsStep(edges, keys, n, k - 1);
      DistinctStep(keys, k - 1);
    }
  }

  lemma {:induction false} NoEdgesNoDegree(edges: seq<Edge>, keys: seq<NodeId>, k: nat)
    requires k <= |keys|
    ensures InDegreeSum(edges, keys, 0, k) == 0 && OutDegreeSum(edges, keys, 0, k) == 0
  {
    if k > 0 { NoEdgesNoDegree(edges, keys, k - 1); }
  }

  lemma {:induction false} DegreeSums(nodes: Nodes, edges: seq<Edge>, n: nat)
    requires Closed(nodes, edges) && n <= |edges|
    ensures InDegreeSum(edges, nodes.keys, n, |nodes.keys|) == CountedEdges(edges, n)
    ensures OutDegreeSum(edges, nodes.keys, n, |nodes.keys|) == CountedEdges(edges, n)
  {
    if n == 0 {
      NoEdgesNoDegree(edges, nodes.keys, |nodes.keys|);
    } else {
      DegreeSums(nodes, edges, n - 1);
      SumsStep(edges, nodes.keys, n, |nodes.keys|);
      assert nodes.keys[..|nodes.keys|] == nodes.keys;
      assert edges[n - 1] in edges;
    }
  }

  /** The in- and out-degrees stored in the first `k` nodes, added up. */
  ghost function StoredDegrees(nodes: Nodes, k: nat): (nat, nat)
    requires Present(nodes.entries, nodes.keys) && k <= |nodes.keys|
  {
    if k == 0 then (0, 0)
    else
      var sums, m := StoredDegrees(nodes, k - 1), nodes.entries[nodes.keys[k - 1]].metrics;
      (sums.0 + m.inDegree, sums.1 + m.outDegree)
  }

  lemma {:induction false} StoredDegreesSums(nodes: Nodes, edges: seq<Edge>, k: nat)
    requires Present(nodes.entries, nodes.keys) && k <= |nodes.keys|
    ensures Present(WithMetrics(nodes, edges).entries, nodes.keys)
    ensures StoredDegrees(WithMetrics(nodes, edges), k)
         == (InDegreeSum(edges, nodes.keys, |edges|, k), OutDegreeSum(edges, nodes.keys, |edges|, k))
  {
    hide NeighborFolders, NeighborKinds, InDegree, OutDegree;
    if k > 0 { StoredDegreesSums(nodes, edges, k - 1); }
  }

  /** Over all nodes, the stored in-degrees and the stored out-degrees each add up to the number of
      edges that are not containment. */
  lemma {:induction false} DegreeConservation(nodes: Nodes, edges: seq<Edge>)
    requires Closed(nodes, edges)
    ensures Present(WithMetrics(nodes, edges).entries, nodes.keys)
    ensures StoredDegrees(WithMetrics(nodes, edges), |nodes.keys|)
         == (CountedEdges(edges, |edges|), CountedEdges(edges, |edges|))
  {
    assert forall i :: 0 <= i < |nodes.keys| ==> nodes.keys[i] in nodes.keys;
    StoredDegreesSums(nodes, edges, |nodes.keys|);
    DegreeSums(nodes, edges, |edges|);
  }

  // ----- bridges and orphans

  lemma {:induction false} SeenBounds(m: map<NodeId, Node>, edges: seq<Edge>, v: NodeId, n: nat)
    requires n <= |edges|
    ensures |NeighborFolders(m, edges, v, n)| <= InDegree(edges, v, n) + OutDegree(edges, v, n)
    ensures |NeighborKinds(m, edges, v, n)| <= InDegree(edges, v, n) + OutDegree(edges, v, n)
  {
    hide FoldersSeen, KindsSeen;
    if n > 0 {
      SeenBounds(m, edges, v, n - 1);
      SeenByOneEdge(m, edges[n - 1], v);
      UnionBound(NeighborFolders(m, edges, v, n - 1), FoldersSeen(m, edges[n - 1], v));
      UnionBound(NeighborKinds(m, edges, v, n - 1), KindsSeen(m, edges[n - 1], v));
    }
  }

  lemma {:induction false} SeenByOneEdge(m: map<NodeId, Node>, e: Edge, v: NodeId)
    ensures var ends := if !Counted(e) then 0 else (if e.target == v then 1 else 0) + (if e.source == v then 1 else 0);
      |FoldersSeen(m, e, v)| <= ends && |KindsSeen(m, e, v)| <= ends
  {
    if Counted(e) && e.source in m && e.target in m {
      UnionBound(if e.source == v then {m[e.target].folder} else {},
                 if e.target == v then {m[e.source].folder} else {});
      UnionBound(if e.source == v then {m[e.target].kind} else {}, if e.target == v then {m[e.source].kind} else {});
    }
  }

  lemma {:induction false} UnionBound<T>(a: set<T>, b: set<T>)
    ensures |a + b| <= |a| + |b|
  {
    assert |a + b| == |a| + |b| - |a * b|;
  }

  lemma {:induction false} SeenWhenConnected(nodes: Nodes, edges: seq<Edge>, v: NodeId, n: nat)
    requires Closed(nodes, edges) && n <= |edges|
    requires InDegree(edges, v, n) + OutDegree(edges, v, n) > 0
    ensures NeighborKinds(nodes.entries, edges, v, n) != {}
  {
    var e := edges[n - 1];
    assert e in edges;
    if Counted(e) && e.source == v {
      assert nodes.entries[e.target].kind in KindsSeen(nodes.entries, e, v);
    } else if Counted(e) && e.target == v {
      assert nodes.entries[e.source].kind in KindsSeen(nodes.entries, e, v);
    } else {
      SeenWhenConnected(nodes, edges, v, n - 1);
    }
  }

  /** A bridge score never exceeds twice the degree and is positive exactly on connected nodes, so a
      note is either a bridge or an orphan. */
  lemma {:induction false} BridgeOrphanDichotomy(nodes: Nodes, edges: seq<Edge>, v: NodeId)
    requires Closed(nodes, edges) && v in nodes.entries
    ensures var m := MetricsOf(nodes.entries, edges, v);
      && m.bridgeScore <= 2 * m.totalDegree
      && (m.bridgeScore > 0 <==> m.totalDegree > 0)
      && (!nodes.entries[v].kind.Structural() ==> (m.orphan <==> m.bridgeScore == 0))
      && (nodes.entries[v].kind.Structural() ==> !m.orphan)
  {
    SeenBounds(nodes.entries, edges, v, |edges|);
    if InDegree(edges, v, |edges|) + OutDegree(edges, v, |edges|) > 0 {
      SeenWhenConnected(nodes, edges, v, |edges|);
    }
  }

  // ----- the ranked lists

  function Values(nodes: Nodes, n: nat): seq<Node>
    requires n <= |nodes.keys| && Present(nodes.entries, nodes.keys)
  {
    if n == 0 then [] else Values(nodes, n - 1) + [nodes.entries[nodes.keys[n - 1]]]
  }

  predicate Bridge(n: Node) { !n.kind.Structural() && n.metrics.bridgeScore > 0 }

  predicate ByTitle(a: Node, b: Node) { Strings.Leq(a.title, b.title) }
  predicate ByBridge(a: Node, b: Node) { a.metrics.bridgeScore >= b.metrics.bridgeScore }

  function IdentifyOrphans(nodes: Nodes): seq<Node>
    requires Present(nodes.entries, nodes.keys)
  {
    Sorting.Sort(Sorting.Keeping(Values(nodes, |nodes.keys|), Orphaned), ByTitle)
  }

  function BridgeRanking(nodes: Nodes): seq<Node>
    requires Present(nodes.entries, nodes.keys)
  {
    Sorting.Sort(Sorting.Keeping(Values(nodes, |nodes.keys|), Bridge), ByBridge)
  }

  function IdentifyBridgeNodes(nodes: Nodes, topN: nat): seq<Node>
    requires Present(nodes.entries, nodes.keys)
  {
    var ranking := BridgeRanking(nodes);
    if |ranking| <= topN then ranking else ranking[..topN]
  }

  lemma {:induction false} KeepingSplits(xs: seq<Node>, p: Node -> bool, q: Node -> bool, r: Node -> bool)
    requires forall x :: x in xs ==> (r(x) <==> p(x) || q(x)) && !(p(x) && q(x))
    ensures multiset(Sorting.Keeping(xs, r)) == multiset(Sorting.Keeping(xs, p)) + multiset(Sorting.Keeping(xs, q))
  {
    if xs != [] {
      KeepingSplits(xs[1..], p, q, r);
    }
  }

  lemma {:induction false} ValuesMember(nodes: Nodes, n: nat, x: Node)
    requires n <= |nodes.keys| && nodes.Valid() && x in Values(nodes, n)
    ensures exists k :: k in nodes.entries && nodes.entries[k] == x
  {
    if x == nodes.entries[nodes.keys[n - 1]] {
      assert nodes.keys[n - 1] in nodes.entries;
    } else {
      ValuesMember(nodes, n - 1, x);
    }
  }

  lemma {:induction false} RankingOrder()
    ensures Sorting.TotalPreorder(ByBridge) && Sorting.TotalPreorder(ByTitle)
  {
    forall x: Node, y: Node ensures ByTitle(x, y) || ByTitle(y, x) { Strings.LeqTotal(x.title, y.title); }
    forall x: Node, y: Node, z: Node | ByTitle(x, y) && ByTitle(y, z) ensures ByTitle(x, z) {
      Strings.LeqTransitive(x.title, y.title, z.title);
    }
  }

  predicate Orphaned(n: Node) { n.metrics.orphan }
  predicate IsNote(n: Node) { !n.kind.Structural() }

  lemma {:induction false} MeasuredNode(nodes: Nodes, edges: seq<Edge>, x: Node)
    requires Closed(nodes, edges) && WithMetrics(nodes, edges).Valid()
    requires Present(WithMetrics(nodes, edges).entries, nodes.keys)
    requires x in Values(WithMetrics(nodes, edges), |nodes.keys|)
    ensures (IsNote(x) <==> Bridge(x) || Orphaned(x)) && !(Bridge(x) && Orphaned(x))
  {
    var final := WithMetrics(nodes, edges);
    ValuesMember(final, |final.keys|, x);
    var k :| k in final.entries && final.entries[k] == x;
    BridgeOrphanDichotomy(nodes, edges, k);
  }

  lemma {:induction false} MeasuredValid(nodes: Nodes, edges: seq<Edge>)
    requires nodes.Valid()
    ensures WithMetrics(nodes, edges).Valid()
    ensures Present(WithMetrics(nodes, edges).entries, nodes.keys)
  {
    assert forall i :: 0 <= i < |nodes.keys| ==> nodes.keys[i] in nodes.keys;
  }

  /** The untruncated bridge ranking and the orphan list together are exactly the notes; both are in
      their order, and truncation keeps a prefix. */
  lemma {:induction false} BridgesAndOrphansPartition(nodes: Nodes, edges: seq<Edge>, topN: nat)
    requires Closed(nodes, edges)
    ensures Present(WithMetrics(nodes, edges).entries, nodes.keys)
    ensures var final := WithMetrics(nodes, edges);
      && multiset(Sorting.Keeping(Values(final, |final.keys|), IsNote))
         == multiset(BridgeRanking(final)) + multiset(IdentifyOrphans(final))
      && Sorting.SortedBy(BridgeRanking(final), ByBridge)
      && Sorting.SortedBy(IdentifyOrphans(final), ByTitle)
      && IdentifyBridgeNodes(final, topN) <= BridgeRanking(final)
      && |IdentifyBridgeNodes(final, topN)| == if |BridgeRanking(final)| <= topN then |BridgeRanking(final)| else topN
  {
    hide Sorting.Sort, Sorting.Keeping, Values, ByBridge, ByTitle, Bridge, Orphaned, IsNote;
    MeasuredValid(nodes, edges);
    var final := WithMetrics(nodes, edges);
    var all := Values(final, |final.keys|);
    forall x | x in all ensures (IsNote(x) <==> Bridge(x) || Orphaned(x)) && !(Bridge(x) && Orphaned(x)) {
      MeasuredNode(nodes, edges, x);
    }
    KeepingSplits(all, Bridge, Orphaned, IsNote);
    Sorting.SortKeepsElements(Sorting.Keeping(all, Bridge), ByBridge);
    Sorting.SortKeepsElements(Sorting.Keeping(all, Orphaned), ByTitle);
    RankingOrder();
    Sorting.SortSorts(Sorting.Keeping(all, Bridge), ByBridge);
    Sorting.SortSorts(Sorting.Keeping(all, Orphaned), ByTitle);
  }
}
