/** What grouping guarantees: a partition with conserved provenance, the best face, and idempotence
    on score-sorted input. */
module GroupingLaws {
  import opened Sorting
  import opened CandidateGrouping

  // ----- partition

  lemma {:induction false} MembersExact(words: Words, cs: seq<Candidate>, i: nat, j: nat, k: nat)
    requires i < j <= |cs|
    ensures k in Members(words, cs, i, j) <==> i < k < j && Owner(words, cs, k) == i
    decreases j
  {
    hide Owner;
    if j > i + 1 { MembersExact(words, cs, i, j - 1, k); }
  }

  lemma {:induction false} LeadersExact(words: Words, cs: seq<Candidate>, n: nat, k: nat)
    requires n <= |cs|
    ensures k in Leaders(words, cs, n) <==> k < n && Leads(words, cs, k)
  {
    hide Leads;
    if n > 0 { LeadersExact(words, cs, n - 1, k); }
  }

  /** Every candidate leads its own group or is a member of exactly one, that of its owner. */
  lemma {:induction false} EveryCandidateOnce(words: Words, cs: seq<Candidate>, k: nat)
    requires k < |cs|
    ensures var owner := Owner(words, cs, k);
      && owner in Leaders(words, cs, |cs|)
      && (k == owner || k in Members(words, cs, owner, |cs|))
      && !(k == owner && k in Members(words, cs, owner, |cs|))
      && (k in Leaders(words, cs, |cs|) <==> k == owner)
      && forall i :: i in Leaders(words, cs, |cs|) && i != owner && i < |cs| ==> k !in Members(words, cs, i, |cs|)
  {
    OwnerFacts(words, cs, k);
    hide Leads, Owner, Leaders, Members;
    LeadersExact(words, cs, |cs|, Owner(words, cs, k));
    LeadersExact(words, cs, |cs|, k);
    MembersExact(words, cs, Owner(words, cs, k), |cs|, k);
    forall i | i in Leaders(words, cs, |cs|) && i != Owner(words, cs, k) && i < |cs|
      ensures k !in Members(words, cs, i, |cs|)
    {
      MembersExact(words, cs, i, |cs|, k);
    }
  }

  lemma {:induction false} OwnerLeads(words: Words, cs: seq<Candidate>, j: nat)
    requires j < |cs|
    ensures Leads(words, cs, Owner(words, cs, j))
    ensures Owner(words, cs, j) == j <==> Leads(words, cs, j)
  {
    OwnerFacts(words, cs, j);
  }

  lemma {:induction false} NoMembersYet(words: Words, cs: seq<Candidate>, i: nat)
    requires i < |cs|
    ensures Members(words, cs, i, i + 1) == []
  {
  }

  /** The sizes of the groups led by the first `n` candidates, counting the first `m` candidates. */
  ghost function SizeSum(words: Words, cs: seq<Candidate>, n: nat, m: nat): nat
    requires n <= m <= |cs|
  {
    if n == 0 then 0
    else SizeSum(words, cs, n - 1, m) + if Leads(words, cs, n - 1) then 1 + |Members(words, cs, n - 1, m)| else 0
  }

  lemma {:induction false} SizeSumStep(words: Words, cs: seq<Candidate>, n: nat, m: nat)
    requires n <= m < |cs|
    ensures SizeSum(words, cs, n, m + 1) == SizeSum(words, cs, n, m) + if Owner(words, cs, m) < n then 1 else 0
  {
    hide Leads, Owner;
    if n > 0 {
      SizeSumStep(words, cs, n - 1, m);
      OwnerLeads(words, cs, m);
    }
  }

  lemma {:induction false} SizesAddUp(words: Words, cs: seq<Candidate>, m: nat)
    requires m <= |cs|
    ensures SizeSum(words, cs, m, m) == m
  {
    hide Leads, Owner, Members;
    if m > 0 {
      SizesAddUp(words, cs, m - 1);
      SizeSumStep(words, cs, m - 1, m - 1);
      OwnerLeads(words, cs, m - 1);
      NoMembersYet(words, cs, m - 1);
    }
  }

  /** No two leaders share two title words. */
  lemma {:induction false} LeadersDissimilar(words: Words, cs: seq<Candidate>, i: nat, j: nat)
    requires i < j < |cs| && Leads(words, cs, i) && Leads(words, cs, j)
    ensures |words(cs[i].face.title) * words(cs[j].face.title)| < 2
    ensures !Similar(words, cs[i], cs[j]) && !Similar(words, cs[j], cs[i])
  {
    assert words(cs[i].face.title) * words(cs[j].face.title) == words(cs[j].face.title) * words(cs[i].face.title);
  }

  // ----- provenance and faces

  lemma {:induction false} MergedSources(engine: Engine, words: Words, cs: seq<Candidate>, i: nat, j: nat, p: string)
    requires i < j <= |cs|
    ensures p in Merged(engine, words, cs, i, j).sources <==>
      p in cs[i].sources || exists k :: i < k < j && Owner(words, cs, k) == i && p in cs[k].sources
    decreases j
  {
    hide Owner;
    if j > i + 1 { MergedSources(engine, words, cs, i, j - 1, p); }
  }

  lemma {:induction false} GroupsExact(engine: Engine, words: Words, cs: seq<Candidate>, n: nat)
    requires n <= |cs|
    ensures |Groups(engine, words, cs, n)| == |Leaders(words, cs, n)|
    ensures forall g :: 0 <= g < |Leaders(words, cs, n)| ==>
      && Leaders(words, cs, n)[g] < n
      && Leads(words, cs, Leaders(words, cs, n)[g])
      && Groups(engine, words, cs, n)[g] == Finish(engine, Merged(engine, words, cs, Leaders(words, cs, n)[g], |cs|))
    ensures forall g, h :: 0 <= g < h < |Leaders(words, cs, n)| ==> Leaders(words, cs, n)[g] < Leaders(words, cs, n)[h]
  {
    hide Leads, Finish, Merged;
    if n > 0 { GroupsExact(engine, words, cs, n - 1); }
  }

  /** The source paths of the groups are together exactly those of the candidates. */
  lemma {:induction false} ProvenanceConserved(engine: Engine, words: Words, cs: seq<Candidate>, p: string)
    ensures (exists g :: g in Grouped(engine, words, cs) && p in g.sources) <==> (exists c :: c in cs && p in c.sources)
  {
    hide Leads, Owner, Merged, Absorb;
    if |cs| > 1 {
      GroupsExact(engine, words, cs, |cs|);
      var leaders, groups := Leaders(words, cs, |cs|), Groups(engine, words, cs, |cs|);
      if g :| g in groups && p in g.sources {
        var x :| 0 <= x < |groups| && groups[x] == g;
        var i := leaders[x];
        SortedSetFacts(Merged(engine, words, cs, i, |cs|).sources);
        MergedSources(engine, words, cs, i, |cs|, p);
        if p in cs[i].sources { assert cs[i] in cs; } else {
          var k :| i < k < |cs| && Owner(words, cs, k) == i && p in cs[k].sources;
          assert cs[k] in cs;
        }
      }
      if c :| c in cs && p in c.sources {
        var k :| 0 <= k < |cs| && cs[k] == c;
        OwnerFacts(words, cs, k);
        var i := Owner(words, cs, k);
        LeadersExact(words, cs, |cs|, i);
        var x :| 0 <= x < |leaders| && leaders[x] == i;
        MergedSources(engine, words, cs, i, |cs|, p);
        SortedSetFacts(Merged(engine, words, cs, i, |cs|).sources);
        assert groups[x] in groups;
      }
    }
  }

  /** A group shows the face of the first of its best-scored candidates, leader included. */
  ghost predicate FirstBest(words: Words, cs: seq<Candidate>, i: nat, j: nat, best: nat)
    requires i < j <= |cs|
  {
    && i <= best < j && (best == i || Owner(words, cs, best) == i)
    && forall k :: i <= k < j && (k == i || Owner(words, cs, k) == i) ==>
         if k < best then cs[k].face.score < cs[best].face.score else cs[k].face.score <= cs[best].face.score
  }

  /** The candidate whose face the group led by `i` shows after the first `j` candidates. */
  function Best(words: Words, cs: seq<Candidate>, i: nat, j: nat): (best: nat)
    requires i < j <= |cs|
    ensures i <= best < j
    decreases j
  {
    if j == i + 1 then i
    else
      var best := Best(words, cs, i, j - 1);
      if Owner(words, cs, j - 1) == i && cs[j - 1].face.score > cs[best].face.score then j - 1 else best
  }

  lemma {:induction false} GroupFace(engine: Engine, words: Words, cs: seq<Candidate>, i: nat, j: nat)
    requires i < j <= |cs|
    ensures FirstBest(words, cs, i, j, Best(words, cs, i, j))
    ensures Merged(engine, words, cs, i, j).face == cs[Best(words, cs, i, j)].face
    decreases j
  {
    hide Owner;
    if j > i + 1 { GroupFace(engine, words, cs, i, j - 1); }
  }

  /** The chosen list of the leader and its members, one after the other. */
  ghost function Gather(words: Words, cs: seq<Candidate>, list: Candidate -> seq<string>, i: nat, j: nat): seq<string>
    requires i < j <= |cs|
    decreases j
  {
    if j == i + 1 then list(cs[i])
    else Gather(words, cs, list, i, j - 1) + if Owner(words, cs, j - 1) == i then list(cs[j - 1]) else []
  }

  ghost function LinesOf(): Candidate -> seq<string> { (c: Candidate) => c.lines }
  ghost function DefinitionsOf(): Candidate -> seq<string> { (c: Candidate) => c.definitions }
  ghost function RelatedOf(): Candidate -> seq<string> { (c: Candidate) => c.related }
  ghost function RationaleOf(): Candidate -> seq<string> { (c: Candidate) => c.rationale }

  /** Each carried list is the concatenation over leader and members, where the engine extends it, and
      the leader's own list where it does not. */
  lemma {:induction false} CarriedLists(engine: Engine, words: Words, cs: seq<Candidate>, i: nat, j: nat)
    requires i < j <= |cs|
    ensures var g := Merged(engine, words, cs, i, j);
      && g.lines == Gather(words, cs, LinesOf(), i, j)
      && g.definitions == (if engine.Concepts? then Gather(words, cs, DefinitionsOf(), i, j) else cs[i].definitions)
      && g.related == (if engine.Concepts? then Gather(words, cs, RelatedOf(), i, j) else cs[i].related)
      && g.rationale == (if engine.Decisions? then Gather(words, cs, RationaleOf(), i, j) else cs[i].rationale)
      && g.rest == cs[i].rest
    decreases j
  {
    hide Owner;
    if j > i + 1 { CarriedLists(engine, words, cs, i, j - 1); }
  }

  ghost function SourcesOf(): Candidate -> seq<string> { (c: Candidate) => c.sources }

  lemma {:induction false} GatheredSources(engine: Engine, words: Words, cs: seq<Candidate>, i: nat, j: nat)
    requires i < j <= |cs|
    ensures Merged(engine, words, cs, i, j).sources == Gather(words, cs, SourcesOf(), i, j)
    decreases j
  {
    hide Owner;
    if j > i + 1 { GatheredSources(engine, words, cs, i, j - 1); }
  }

  /** The first `n` elements, or all when there are fewer. */
  ghost predicate FirstFew(few: seq<string>, xs: seq<string>, n: nat)
  {
    few <= xs && |few| == if |xs| <= n then |xs| else n
  }

  /** A returned group in full: the face of its best candidate; the set of the gathered sources, in order;
      the first 8 gathered lines; for concepts the first 5 gathered definitions and the first 10 of the
      set of gathered related notes; for decisions the first 10 gathered reasons; and what is left from its
      leader. `related` is that set, in order. */
  lemma {:induction false} GroupInFull(engine: Engine, words: Words, cs: seq<Candidate>, g: nat)
    returns (related: seq<string>)
    requires |cs| > 1 && g < |Leaders(words, cs, |cs|)|
    ensures |Grouped(engine, words, cs)| == |Leaders(words, cs, |cs|)| && Leaders(words, cs, |cs|)[g] < |cs|
    ensures var i := Leaders(words, cs, |cs|)[g];
      Increasing(related) && forall x :: x in related <==> x in Gather(words, cs, RelatedOf(), i, |cs|)
    ensures var group, i := Grouped(engine, words, cs)[g], Leaders(words, cs, |cs|)[g];
      && group.face == cs[Best(words, cs, i, |cs|)].face
      && Increasing(group.sources)
      && (forall p :: p in group.sources <==> p in Gather(words, cs, SourcesOf(), i, |cs|))
      && FirstFew(group.lines, Gather(words, cs, LinesOf(), i, |cs|), 8)
      && (if engine.Concepts? then FirstFew(group.definitions, Gather(words, cs, DefinitionsOf(), i, |cs|), 5)
          else group.definitions == cs[i].definitions)
      && (if engine.Concepts? then FirstFew(group.related, related, 10) else group.related == cs[i].related)
      && (if engine.Decisions? then FirstFew(group.rationale, Gather(words, cs, RationaleOf(), i, |cs|), 10)
          else group.rationale == cs[i].rationale)
      && group.rest == cs[i].rest
  {
    hide Leads, Merged, Gather, SortedSet, Increasing, FirstBest, Best, Leaders;
    GroupsExact(engine, words, cs, |cs|);
    var i := Leaders(words, cs, |cs|)[g];
    GroupFace(engine, words, cs, i, |cs|);
    CarriedLists(engine, words, cs, i, |cs|);
    GatheredSources(engine, words, cs, i, |cs|);
    SortedSetFacts(Gather(words, cs, SourcesOf(), i, |cs|));
    SortedSetFacts(Gather(words, cs, RelatedOf(), i, |cs|));
    related := SortedSet(Gather(words, cs, RelatedOf(), i, |cs|));
  }

  // ----- idempotence

  predicate ByScore(a: Candidate, b: Candidate) { a.face.score >= b.face.score }

  ghost predicate Dissimilar(words: Words, cs: seq<Candidate>)
  {
    forall i, j :: 0 <= i < j < |cs| ==> !Similar(words, cs[i], cs[j])
  }

  lemma {:induction false} FinishTwice(engine: Engine, g: Candidate)
    ensures Finish(engine, Finish(engine, g)) == Finish(engine, g)
  {
    SortedSetFacts(g.sources);
    SortedSetStable(SortedSet(g.sources));
    SortedSetFacts(g.related);
    var related := SortedSet(g.related);
    assert Increasing(Take(related, 10));
    SortedSetStable(Take(related, 10));
  }

  /** When no two candidates are similar, each is its own group. */
  lemma {:induction false} DissimilarLead(words: Words, cs: seq<Candidate>, j: nat)
    requires Dissimilar(words, cs) && j < |cs|
    ensures Leads(words, cs, j) && Owner(words, cs, j) == j
  {
    hide Similar;
    OwnerFacts(words, cs, j);
  }

  lemma {:induction false} DissimilarMerged(engine: Engine, words: Words, cs: seq<Candidate>, i: nat, j: nat)
    requires Dissimilar(words, cs) && i < j <= |cs|
    ensures Merged(engine, words, cs, i, j) == cs[i]
    decreases j
  {
    hide Leads, Owner, Absorb;
    if j > i + 1 {
      DissimilarMerged(engine, words, cs, i, j - 1);
      DissimilarLead(words, cs, j - 1);
    }
  }

  lemma {:induction false} DissimilarGroups(engine: Engine, words: Words, cs: seq<Candidate>, n: nat)
    requires Dissimilar(words, cs) && n <= |cs|
    requires forall i :: 0 <= i < |cs| ==> Finish(engine, cs[i]) == cs[i]
    ensures Groups(engine, words, cs, n) == cs[..n]
  {
    hide Leads, Merged, Finish, Dissimilar;
    if n > 0 {
      DissimilarGroups(engine, words, cs, n - 1);
      DissimilarLead(words, cs, n - 1);
      DissimilarMerged(engine, words, cs, n - 1, |cs|);
      assert cs[..n] == cs[..n - 1] + [cs[n - 1]];
    }
  }

  lemma {:induction false} FewerLeaders(words: Words, cs: seq<Candidate>, n: nat, j: nat)
    requires n <= |cs|
    ensures |Leaders(words, cs, n)| <= n
    ensures j < n && !Leads(words, cs, j) ==> |Leaders(words, cs, n)| < n
  {
    hide Leads;
    if n > 0 { FewerLeaders(words, cs, n - 1, j); }
  }

  /** Grouping a result again changes nothing exactly when the result is a single group or no two of
      its titles are similar. */
  lemma {:induction false} ResultIdempotent(engine: Engine, words: Words, cs: seq<Candidate>)
    ensures var out := Grouped(engine, words, cs);
      Grouped(engine, words, out) == out <==> |out| <= 1 || Dissimilar(words, out)
  {
    var out := Grouped(engine, words, cs);
    hide Leads, Finish, Merged, Similar;
    if |out| > 1 {
      GroupsExact(engine, words, cs, |cs|);
      forall g | 0 <= g < |out| ensures Finish(engine, out[g]) == out[g] {
        FinishTwice(engine, Merged(engine, words, cs, Leaders(words, cs, |cs|)[g], |cs|));
      }
      if Dissimilar(words, out) {
        DissimilarGroups(engine, words, out, |out|);
        assert out[..|out|] == out;
      } else {
        var i, j :| 0 <= i < j < |out| && !(!Similar(words, out[i], out[j]));
        SomeoneAbsorbed(words, out, i, j);
        GroupsExact(engine, words, out, |out|);
      }
    }
  }

  /** No two leaders' best candidates are similar: each group's best score, the first to reach it, is
      held by a candidate whose title keeps clear of every other group's. */
  ghost predicate BestsDissimilar(words: Words, cs: seq<Candidate>)
  {
    forall i, j :: 0 <= i < j < |cs| && Leads(words, cs, i) && Leads(words, cs, j) ==>
      !Similar(words, cs[Best(words, cs, i, |cs|)], cs[Best(words, cs, j, |cs|)])
  }

  lemma {:induction false} GroupTitles(engine: Engine, words: Words, cs: seq<Candidate>, g: nat, h: nat)
    requires |cs| > 1 && g < h < |Leaders(words, cs, |cs|)|
    ensures |Grouped(engine, words, cs)| == |Leaders(words, cs, |cs|)|
    ensures var out, leaders := Grouped(engine, words, cs), Leaders(words, cs, |cs|);
      Similar(words, out[g], out[h])
        == Similar(words, cs[Best(words, cs, leaders[g], |cs|)], cs[Best(words, cs, leaders[h], |cs|)])
  {
    hide Leads, Merged, Similar, SortedSet, Take, FirstBest, Best;
    var out, leaders := Grouped(engine, words, cs), Leaders(words, cs, |cs|);
    GroupsExact(engine, words, cs, |cs|);
    GroupFace(engine, words, cs, leaders[g], |cs|);
    GroupFace(engine, words, cs, leaders[h], |cs|);
    SameTitles(words, cs[Best(words, cs, leaders[g], |cs|)], cs[Best(words, cs, leaders[h], |cs|)], out[g], out[h]);
  }

  /** The result's titles are dissimilar exactly when the candidates' bests are. */
  lemma {:induction false} TitlesOfBests(engine: Engine, words: Words, cs: seq<Candidate>)
    requires |cs| > 1
    ensures Dissimilar(words, Grouped(engine, words, cs)) <==> BestsDissimilar(words, cs)
  {
    hide Leads, Finish, Merged, Similar, Best, FirstBest, Leaders;
    var out, leaders := Grouped(engine, words, cs), Leaders(words, cs, |cs|);
    GroupsExact(engine, words, cs, |cs|);
    forall g, h | 0 <= g < h < |leaders|
      ensures Similar(words, out[g], out[h])
           == Similar(words, cs[Best(words, cs, leaders[g], |cs|)], cs[Best(words, cs, leaders[h], |cs|)])
    {
      GroupTitles(engine, words, cs, g, h);
    }
    forall i, j | 0 <= i < j < |cs| && Leads(words, cs, i) && Leads(words, cs, j)
      ensures exists g, h :: 0 <= g < h < |leaders| && leaders[g] == i && leaders[h] == j
    {
      LeadersExact(words, cs, |cs|, i);
      LeadersExact(words, cs, |cs|, j);
      var g :| 0 <= g < |leaders| && leaders[g] == i;
      var h :| 0 <= h < |leaders| && leaders[h] == j;
      assert g < h;
    }
  }

  /** Grouping twice is grouping once exactly when the candidates' bests are dissimilar. */
  lemma {:induction false} IdempotentExactly(engine: Engine, words: Words, cs: seq<Candidate>)
    ensures var out := Grouped(engine, words, cs); Grouped(engine, words, out) == out <==> BestsDissimilar(words, cs)
  {
    hide Leads, Groups, Dissimilar, Similar, Best, Leaders;
    ResultIdempotent(engine, words, cs);
    if |cs| > 1 {
      TitlesOfBests(engine, words, cs);
      if |Grouped(engine, words, cs)| <= 1 { OneGroup(engine, words, cs); }
    }
  }

  lemma {:induction false} OneGroup(engine: Engine, words: Words, cs: seq<Candidate>)
    requires |cs| > 1 && |Grouped(engine, words, cs)| <= 1
    ensures Dissimilar(words, Grouped(engine, words, cs))
  {
    hide Grouped;
  }

  lemma {:induction false} SomeoneAbsorbed(words: Words, cs: seq<Candidate>, i: nat, j: nat)
    requires i < j < |cs| && Similar(words, cs[i], cs[j])
    ensures |Leaders(words, cs, |cs|)| < |cs|
  {
    hide Similar, Leaders;
    FewerLeaders(words, cs, |cs|, i);
    FewerLeaders(words, cs, |cs|, j);
  }

  /** On sorted input a group keeps its leader's face. */
  lemma {:induction false} LeaderKeepsFace(engine: Engine, words: Words, cs: seq<Candidate>, i: nat, j: nat)
    requires SortedBy(cs, ByScore) && i < j <= |cs|
    ensures Merged(engine, words, cs, i, j).face == cs[i].face
    decreases j
  {
    hide Owner;
    if j > i + 1 {
      LeaderKeepsFace(engine, words, cs, i, j - 1);
      assert ByScore(cs[i], cs[j - 1]);
    }
  }

  /** On score-sorted input the groups carry their leaders' faces in order, the output is sorted again,
      and grouping it again changes nothing. */
  lemma {:induction false} SortedIdempotent(engine: Engine, words: Words, cs: seq<Candidate>)
    requires SortedBy(cs, ByScore)
    ensures var out := Grouped(engine, words, cs);
      && Grouped(engine, words, out) == out
      && SortedBy(out, ByScore)
      && (|cs| > 1 ==> |out| == |Leaders(words, cs, |cs|)|)
      && (|cs| > 1 ==> forall g :: 0 <= g < |out| ==> out[g].face == cs[Leaders(words, cs, |cs|)[g]].face)
  {
    hide Leads, Merged, Similar, SortedSet, Take;
    var out := Grouped(engine, words, cs);
    if |cs| > 1 {
      GroupsExact(engine, words, cs, |cs|);
      var leaders := Leaders(words, cs, |cs|);
      forall g | 0 <= g < |out| ensures out[g].face == cs[leaders[g]].face {
        LeaderKeepsFace(engine, words, cs, leaders[g], |cs|);
      }
      forall g, h | 0 <= g < h < |out| ensures !Similar(words, out[g], out[h]) && ByScore(out[g], out[h]) {
        LeadersDissimilar(words, cs, leaders[g], leaders[h]);
        SameTitles(words, cs[leaders[g]], cs[leaders[h]], out[g], out[h]);
        assert ByScore(cs[leaders[g]], cs[leaders[h]]);
      }
      ResultIdempotent(engine, words, cs);
    }
  }

  lemma {:induction false} SameTitles(words: Words, a: Candidate, b: Candidate, a': Candidate, b': Candidate)
    requires a.face == a'.face && b.face == b'.face
    ensures Similar(words, a, b) == Similar(words, a', b')
  {
  }

  function Plain(title: string, score: int): Candidate
  {
    Candidate(Face(title, "", "", score, ""), [], [], [], [], [], "")
  }

  /** Without the sort a group can take over a title that is similar to another group's. */
  lemma {:induction false} UnsortedExample() returns (words: Words, cs: seq<Candidate>)
    ensures forall engine :: Grouped(engine, words, Grouped(engine, words, cs)) != Grouped(engine, words, cs)
  {
    words := (t: string) =>
      if t == "a" then {"graph", "vault"}
      else if t == "b" then {"graph", "vault", "note", "link"}
      else {"note", "link"};
    cs := [Plain("a", 1), Plain("b", 2), Plain("c", 0)];
    assert words("a") * words("b") == {"graph", "vault"};
    assert words("a") * words("c") == {};
    assert words("b") * words("c") == {"note", "link"};
    assert "graph" != "vault" && "note" != "link" by {
      assert "graph"[0] != "vault"[0] && "note"[0] != "link"[0];
    }
    assert Similar(words, cs[0], cs[1]) && !Similar(words, cs[0], cs[2]) && Similar(words, cs[1], cs[2]);
    assert Leads(words, cs, 0) && !Leads(words, cs, 1) && Leads(words, cs, 2);
    OwnerFacts(words, cs, 1);
    OwnerFacts(words, cs, 2);
    assert Owner(words, cs, 1) == 0 && Owner(words, cs, 2) == 2;
    SimilarBests(words, cs);
    forall engine: Engine ensures Grouped(engine, words, Grouped(engine, words, cs)) != Grouped(engine, words, cs) {
      IdempotentExactly(engine, words, cs);
    }
  }

  lemma {:induction false} SimilarBests(words: Words, cs: seq<Candidate>)
    requires |cs| == 3 && Similar(words, cs[1], cs[2]) && cs[0].face.score < cs[1].face.score
    requires Leads(words, cs, 0) && !Leads(words, cs, 1) && Leads(words, cs, 2)
    requires Owner(words, cs, 1) == 0 && Owner(words, cs, 2) == 2
    ensures !BestsDissimilar(words, cs)
  {
    hide Leads, Owner, Similar;
    assert Best(words, cs, 2, 3) == 2;
    assert Best(words, cs, 0, 2) == 1 && Best(words, cs, 0, 3) == 1;
  }
}
