/** The priority of a review lane, and the order lanes are recommended in. */
module ReviewOrder {
  import opened Sorting

  datatype Priority = High | Medium | Low | Nothing

  function RankPriority(items: nat, stale: nat, hasDestination: bool): Priority
  {
    if items == 0 then Nothing
    else if stale > 0 && hasDestination then High
    else if items >= 5 && hasDestination then High
    else if stale > 0 then Medium
    else if items >= 3 then Medium
    else Low
  }

  function Order(p: Priority): nat
  {
    match p case High => 0 case Medium => 1 case Low => 2 case Nothing => 3
  }

  datatype Lane = Lane(key: string, items: nat, stale: nat, hasDestination: bool)
  {
    function Priority(): Priority { RankPriority(items, stale, hasDestination) }
  }

  /** Ascending by (priority, -items). */
  predicate Before(a: Lane, b: Lane)
  {
    Order(a.Priority()) < Order(b.Priority()) || (Order(a.Priority()) == Order(b.Priority()) && a.items >= b.items)
  }

  function Active(lanes: seq<Lane>): seq<Lane>
  {
    if lanes == [] then [] else (if lanes[0].items > 0 then [lanes[0]] else []) + Active(lanes[1..])
  }

  function Recommended(lanes: seq<Lane>): seq<Lane> { Sort(Active(lanes), Before) }

  /** More items, more stale ones, or a destination to go to never lower a lane's priority. */
  lemma {:induction false} PriorityMonotone(a: Lane, b: Lane)
    requires a.items <= b.items && a.stale <= b.stale && (a.hasDestination ==> b.hasDestination)
    ensures Order(b.Priority()) <= Order(a.Priority())
  {
  }

  lemma {:induction false} ActiveAre(lanes: seq<Lane>, lane: Lane)
    ensures multiset(Active(lanes))[lane] == if lane.items > 0 then multiset(lanes)[lane] else 0
  {
    if lanes != [] {
      ActiveAre(lanes[1..], lane);
      assert lanes == [lanes[0]] + lanes[1..];
    }
  }

  lemma {:induction false} ActiveHaveItems(lanes: seq<Lane>)
    ensures forall i :: 0 <= i < |Active(lanes)| ==> Active(lanes)[i].items > 0
  {
    if lanes != [] { ActiveHaveItems(lanes[1..]); }
  }

  /** The four priorities: none without items; high with a destination and stale items or at least five;
      else medium with stale items or at least three; and they rank in this order. */
  lemma {:induction false} PriorityExactly(items: nat, stale: nat, hasDestination: bool)
    ensures var p := RankPriority(items, stale, hasDestination);
      && (p == Nothing <==> items == 0)
      && (p == High <==> items > 0 && hasDestination && (stale > 0 || items >= 5))
      && (p == Low <==> stale == 0 && (items == 1 || items == 2))
    ensures Order(High) < Order(Medium) < Order(Low) < Order(Nothing)
  {
  }

  ghost function Tying(p: Priority, items: nat): Lane -> bool
  {
    (lane: Lane) => lane.Priority() == p && lane.items == items
  }

  /** The recommendation holds every lane with items as often as given and no other; no lane stands behind
      one of lower priority, nor behind one of the same priority with fewer items; and lanes that tie
      stand as they were given. */
  lemma {:induction false} RecommendedOrder(lanes: seq<Lane>)
    ensures forall lane: Lane ::
      multiset(Recommended(lanes))[lane] == if lane.items > 0 then multiset(lanes)[lane] else 0
    ensures forall i, j :: 0 <= i < j < |Recommended(lanes)| ==>
      var a, b := Recommended(lanes)[i], Recommended(lanes)[j];
      Order(a.Priority()) <= Order(b.Priority()) && (a.Priority() == b.Priority() ==> a.items >= b.items)
    ensures forall p, items ::
      Keeping(Recommended(lanes), Tying(p, items)) == Keeping(Active(lanes), Tying(p, items))
  {
    hide Sort, Active, Keeping;
    SortKeepsElements(Active(lanes), Before);
    SortSorts(Active(lanes), Before);
    forall p, items ensures Keeping(Recommended(lanes), Tying(p, items)) == Keeping(Active(lanes), Tying(p, items)) {
      SortStable(Active(lanes), Before, Tying(p, items));
    }
    forall i, j | 0 <= i < j < |Recommended(lanes)|
      ensures var a, b := Recommended(lanes)[i], Recommended(lanes)[j];
        Order(a.Priority()) <= Order(b.Priority()) && (a.Priority() == b.Priority() ==> a.items >= b.items) {
      assert Before(Recommended(lanes)[i], Recommended(lanes)[j]);
    }
    hide Before;
    forall lane: Lane
      ensures multiset(Recommended(lanes))[lane] == if lane.items > 0 then multiset(lanes)[lane] else 0 {
      ActiveAre(lanes, lane);
    }
  }

  lemma {:induction false} RecommendedHavePriority(lanes: seq<Lane>, i: nat)
    requires i < |Recommended(lanes)|
    ensures Recommended(lanes)[i].Priority() != Nothing
  {
    hide Sort, Active, Before;
    SortKeepsElements(Active(lanes), Before);
    ActiveHaveItems(lanes);
    assert Recommended(lanes)[i] in multiset(Active(lanes));
  }
}
