/** The four ranked lists of the map: what each holds and in which order, and how central and weakly
    connected notes stand against bridges and orphans. */
module CortexRankings {
  import Sorting
  import Strings
  import opened CortexModel
  import opened CortexMetrics

  predicate ByDegree(a: Node, b: Node) { a.metrics.totalDegree >= b.metrics.totalDegree }
  predicate Weak(n: Node) { !n.kind.Structural() && n.metrics.totalDegree == 1 }

  function CentralRanking(nodes: Nodes): seq<Node>
    requires Present(nodes.entries, nodes.keys)
  {
    Sorting.Sort(Sorting.Keeping(Values(nodes, |nodes.keys|), IsNote), ByDegree)
  }

  function IdentifyCentralNodes(nodes: Nodes, topN: nat): seq<Node>
    requires Present(nodes.entries, nodes.keys)
  {
    var ranking := CentralRanking(nodes);
    if topN <= |ranking| then ranking[..topN] else ranking
  }

  function IdentifyWeaklyConnected(nodes: Nodes): seq<Node>
    requires Present(nodes.entries, nodes.keys)
  {
    Sorting.Sort(Sorting.Keeping(Values(nodes, |nodes.keys|), Weak), ByTitle)
  }

  lemma {:induction false} Selected(xs: seq<Node>, p: Node -> bool, x: Node)
    ensures multiset(Sorting.Keeping(xs, p))[x] == if p(x) then multiset(xs)[x] else 0
  {
    if xs != [] {
      Selected(xs[1..], p, x);
      assert xs == [xs[0]] + xs[1..];
    }
  }

  /** A measured node: its degree tells whether it is a bridge or an orphan. */
  lemma {:induction false} DegreeTells(nodes: Nodes, edges: seq<Edge>, x: Node)
    requires Closed(nodes, edges) && WithMetrics(nodes, edges).Valid()
    requires Present(WithMetrics(nodes, edges).entries, nodes.keys)
    requires x in Values(WithMetrics(nodes, edges), |nodes.keys|) && IsNote(x)
    ensures Orphaned(x) <==> x.metrics.totalDegree == 0
    ensures Bridge(x) <==> x.metrics.totalDegree > 0
    ensures x.metrics.bridgeScore <= 2 * x.metrics.totalDegree
  {
    var final := WithMetrics(nodes, edges);
    ValuesMember(final, |final.keys|, x);
    var k :| k in final.entries && final.entries[k] == x;
    BridgeOrphanDichotomy(nodes, edges, k);
  }

  /** The central ranking is the bridges and the orphans, every bridge before every orphan; its cut is a
      prefix, so an orphan is shown as central only when every bridge is. */
  lemma {:induction false} CentralBeforeOrphans(nodes: Nodes, edges: seq<Edge>, topN: nat)
    requires Closed(nodes, edges)
    ensures Present(WithMetrics(nodes, edges).entries, nodes.keys)
    ensures var final := WithMetrics(nodes, edges); var ranking := CentralRanking(final);
      && multiset(ranking) == multiset(BridgeRanking(final)) + multiset(IdentifyOrphans(final))
      && Sorting.SortedBy(ranking, ByDegree)
      && (forall i, j :: 0 <= i < j < |ranking| && Orphaned(ranking[i]) ==> Orphaned(ranking[j]))
      && IdentifyCentralNodes(final, topN) <= ranking
      && |IdentifyCentralNodes(final, topN)| == if |ranking| <= topN then |ranking| else topN
  {
    hide Sorting.Sort, Sorting.Keeping, Values, IdentifyOrphans, BridgeRanking, Bridge, IsNote, Orphaned, MetricsOf;
    MeasuredValid(nodes, edges);
    var final := WithMetrics(nodes, edges);
    var all := Values(final, |final.keys|);
    BridgesAndOrphansPartition(nodes, edges, 0);
    Sorting.SortKeepsElements(Sorting.Keeping(all, IsNote), ByDegree);
    Sorting.SortSorts(Sorting.Keeping(all, IsNote), ByDegree);
    var ranking := CentralRanking(final);
    forall i | 0 <= i < |ranking| ensures Orphaned(ranking[i]) <==> ranking[i].metrics.totalDegree == 0 {
      assert ranking[i] in multiset(ranking);
      Selected(all, IsNote, ranking[i]);
      assert ranking[i] in multiset(all);
      DegreeTells(nodes, edges, ranking[i]);
    }
  }

  /** Every weakly connected note is a bridge of score at most two, and they are listed by title. */
  lemma {:induction false} WeakAreBridges(nodes: Nodes, edges: seq<Edge>)
    requires Closed(nodes, edges)
    ensures Present(WithMetrics(nodes, edges).entries, nodes.keys)
    ensures var final := WithMetrics(nodes, edges); var weak := IdentifyWeaklyConnected(final);
      && multiset(weak) <= multiset(BridgeRanking(final))
      && (forall i :: 0 <= i < |weak| ==> 0 < weak[i].metrics.bridgeScore <= 2)
      && Sorting.SortedBy(weak, ByTitle)
  {
    hide Sorting.Sort, Sorting.Keeping, Values, ByTitle, Orphaned, MetricsOf;
    MeasuredValid(nodes, edges);
    var final := WithMetrics(nodes, edges);
    var all, weak := Values(final, |final.keys|), IdentifyWeaklyConnected(final);
    Sorting.SortKeepsElements(Sorting.Keeping(all, Weak), ByTitle);
    Sorting.SortKeepsElements(Sorting.Keeping(all, Bridge), ByBridge);
    RankingOrder();
    Sorting.SortSorts(Sorting.Keeping(all, Weak), ByTitle);
    forall x ensures multiset(weak)[x] <= multiset(BridgeRanking(final))[x]
             ensures x in multiset(weak) ==> 0 < x.metrics.bridgeScore <= 2 {
      Selected(all, Weak, x);
      Selected(all, Bridge, x);
      if x in multiset(all) && Weak(x) { DegreeTells(nodes, edges, x); }
    }
    forall i | 0 <= i < |weak| ensures 0 < weak[i].metrics.bridgeScore <= 2 { assert weak[i] in multiset(weak); }
  }

  // ----- the lists, written out

  lemma {:induction false} ValuesInOrder(nodes: Nodes, n: nat)
    requires n <= |nodes.keys| && Present(nodes.entries, nodes.keys)
    ensures |Values(nodes, n)| == n && forall i :: 0 <= i < n ==> Values(nodes, n)[i] == nodes.entries[nodes.keys[i]]
  {
    if n > 0 { ValuesInOrder(nodes, n - 1); }
  }

  /** `list` holds exactly the nodes of the dictionary that `p` holds of, each as often as there. */
  ghost predicate Holds(list: seq<Node>, nodes: Nodes, p: Node -> bool)
    requires Present(nodes.entries, nodes.keys)
  {
    forall x :: multiset(list)[x] == if p(x) then multiset(Values(nodes, |nodes.keys|))[x] else 0
  }

  lemma {:induction false} SortedHolds(nodes: Nodes, p: Node -> bool, leq: (Node, Node) -> bool)
    requires Present(nodes.entries, nodes.keys)
    ensures Holds(Sorting.Sort(Sorting.Keeping(Values(nodes, |nodes.keys|), p), leq), nodes, p)
  {
    hide Sorting.Sort, Values;
    var all := Values(nodes, |nodes.keys|);
    Sorting.SortKeepsElements(Sorting.Keeping(all, p), leq);
    forall x
      ensures multiset(Sorting.Keeping(all, p))[x] == if p(x) then multiset(all)[x] else 0 { Selected(all, p, x); }
  }

  ghost function Scored(score: nat): Node -> bool { (n: Node) => n.metrics.bridgeScore == score }
  ghost function Connected(degree: nat): Node -> bool { (n: Node) => n.metrics.totalDegree == degree }
  ghost function Titled(title: string): Node -> bool { (n: Node) => n.title == title }

  ghost function BridgingNote(): Node -> bool
  {
    (n: Node) => n.kind !in {Tag, Folder, ExternalLink} && n.metrics.bridgeScore > 0
  }
  ghost function AnyNote(): Node -> bool { (n: Node) => n.kind !in {Tag, Folder, ExternalLink} }
  ghost function OrphanNode(): Node -> bool { (n: Node) => n.metrics.orphan }
  ghost function WeakNote(): Node -> bool
  {
    (n: Node) => n.kind !in {Tag, Folder, ExternalLink} && n.metrics.totalDegree == 1
  }

  lemma {:induction false} SamePredicate(list: seq<Node>, nodes: Nodes, p: Node -> bool, q: Node -> bool)
    requires Present(nodes.entries, nodes.keys) && Holds(list, nodes, p) && forall x :: p(x) <==> q(x)
    ensures Holds(list, nodes, q)
  {
  }

  lemma {:induction false} SameKeeping(xs: seq<Node>, p: Node -> bool, q: Node -> bool)
    requires forall x :: p(x) <==> q(x)
    ensures Sorting.Keeping(xs, p) == Sorting.Keeping(xs, q)
  {
    if xs != [] { SameKeeping(xs[1..], p, q); }
  }

  /** The bridges: the notes with a positive score, highest first, ties as in the dictionary, cut at
      `topN`. */
  lemma {:induction false} BridgesListed(nodes: Nodes, topN: nat)
    requires Present(nodes.entries, nodes.keys)
    ensures var r := BridgeRanking(nodes);
      && Holds(r, nodes, BridgingNote())
      && (forall i, j :: 0 <= i < j < |r| ==> r[i].metrics.bridgeScore >= r[j].metrics.bridgeScore)
      && (forall score :: Sorting.Keeping(r, Scored(score))
           == Sorting.Keeping(Sorting.Keeping(Values(nodes, |nodes.keys|), BridgingNote()), Scored(score)))
      && IdentifyBridgeNodes(nodes, topN) == r[..if |r| <= topN then |r| else topN]
  {
    hide Sorting.Sort, Sorting.Keeping, Values, Holds;
    var all := Values(nodes, |nodes.keys|);
    SortedHolds(nodes, Bridge, ByBridge);
    SamePredicate(BridgeRanking(nodes), nodes, Bridge, BridgingNote());
    SameKeeping(all, Bridge, BridgingNote());
    RankingOrder();
    Sorting.SortSorts(Sorting.Keeping(all, Bridge), ByBridge);
    var r := BridgeRanking(nodes);
    forall i, j | 0 <= i < j < |r| ensures r[i].metrics.bridgeScore >= r[j].metrics.bridgeScore {
      assert ByBridge(r[i], r[j]);
    }
    forall score ensures Sorting.Keeping(r, Scored(score))
           == Sorting.Keeping(Sorting.Keeping(all, BridgingNote()), Scored(score)) {
      Sorting.SortStable(Sorting.Keeping(all, Bridge), ByBridge, Scored(score));
    }
  }

  /** The central notes: all notes, highest degree first, ties as in the dictionary, cut at `topN`. */
  lemma {:induction false} CentralListed(nodes: Nodes, topN: nat)
    requires Present(nodes.entries, nodes.keys)
    ensures var r := CentralRanking(nodes);
      && Holds(r, nodes, AnyNote())
      && (forall i, j :: 0 <= i < j < |r| ==> r[i].metrics.totalDegree >= r[j].metrics.totalDegree)
      && (forall degree :: Sorting.Keeping(r, Connected(degree))
           == Sorting.Keeping(Sorting.Keeping(Values(nodes, |nodes.keys|), AnyNote()), Connected(degree)))
      && IdentifyCentralNodes(nodes, topN) == r[..if |r| <= topN then |r| else topN]
  {
    hide Sorting.Sort, Sorting.Keeping, Values, Holds;
    var all := Values(nodes, |nodes.keys|);
    SortedHolds(nodes, IsNote, ByDegree);
    SamePredicate(CentralRanking(nodes), nodes, IsNote, AnyNote());
    SameKeeping(all, IsNote, AnyNote());
    Sorting.SortSorts(Sorting.Keeping(all, IsNote), ByDegree);
    var r := CentralRanking(nodes);
    forall i, j | 0 <= i < j < |r| ensures r[i].metrics.totalDegree >= r[j].metrics.totalDegree {
      assert ByDegree(r[i], r[j]);
    }
    forall degree ensures Sorting.Keeping(r, Connected(degree))
           == Sorting.Keeping(Sorting.Keeping(all, AnyNote()), Connected(degree)) {
      Sorting.SortStable(Sorting.Keeping(all, IsNote), ByDegree, Connected(degree));
    }
  }

  /** The orphans and the weakly connected notes, by title, ties as in the dictionary. */
  lemma {:induction false} TitlesListed(nodes: Nodes)
    requires Present(nodes.entries, nodes.keys)
    ensures Holds(IdentifyOrphans(nodes), nodes, OrphanNode())
    ensures Holds(IdentifyWeaklyConnected(nodes), nodes, WeakNote())
    ensures var r := IdentifyOrphans(nodes);
      && (forall i, j :: 0 <= i < j < |r| ==> Strings.Leq(r[i].title, r[j].title))
      && (forall title :: Sorting.Keeping(r, Titled(title))
           == Sorting.Keeping(Sorting.Keeping(Values(nodes, |nodes.keys|), OrphanNode()), Titled(title)))
    ensures var r := IdentifyWeaklyConnected(nodes);
      && (forall i, j :: 0 <= i < j < |r| ==> Strings.Leq(r[i].title, r[j].title))
      && (forall title :: Sorting.Keeping(r, Titled(title))
           == Sorting.Keeping(Sorting.Keeping(Values(nodes, |nodes.keys|), WeakNote()), Titled(title)))
  {
    hide Holds, Strings.Leq, Values, Sorting.Sort, Sorting.Keeping;
    TitleListed(nodes, Orphaned, OrphanNode());
    TitleListed(nodes, Weak, WeakNote());
  }

  lemma {:induction false} TitleListed(nodes: Nodes, p: Node -> bool, q: Node -> bool)
    requires Present(nodes.entries, nodes.keys) && forall x :: p(x) <==> q(x)
    ensures var r := Sorting.Sort(Sorting.Keeping(Values(nodes, |nodes.keys|), p), ByTitle);
      && Holds(r, nodes, q)
      && (forall i, j :: 0 <= i < j < |r| ==> Strings.Leq(r[i].title, r[j].title))
      && (forall title :: Sorting.Keeping(r, Titled(title))
           == Sorting.Keeping(Sorting.Keeping(Values(nodes, |nodes.keys|), q), Titled(title)))
  {
    hide Sorting.Sort, Sorting.Keeping, Values, Holds, Strings.Leq;
    var all := Values(nodes, |nodes.keys|);
    var r := Sorting.Sort(Sorting.Keeping(all, p), ByTitle);
    SortedHolds(nodes, p, ByTitle);
    SamePredicate(r, nodes, p, q);
    SameKeeping(all, p, q);
    RankingOrder();
    Sorting.SortSorts(Sorting.Keeping(all, p), ByTitle);
    forall i, j | 0 <= i < j < |r| ensures Strings.Leq(r[i].title, r[j].title) { assert ByTitle(r[i], r[j]); }
    forall title
      ensures Sorting.Keeping(r, Titled(title)) == Sorting.Keeping(Sorting.Keeping(all, q), Titled(title))
    {
      forall y: Node, z: Node | Titled(title)(y) && Titled(title)(z) ensures ByTitle(y, z) {
        Strings.LeqTotal(y.title, z.title);
      }
      Sorting.SortStable(Sorting.Keeping(all, p), ByTitle, Titled(title));
    }
  }
}
