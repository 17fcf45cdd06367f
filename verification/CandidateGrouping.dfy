/** The promotion engines: candidates are detected once per title, sorted by score, and merged
    greedily into groups. One algorithm serves projects, concepts, decisions and doctrine; they
    differ in the lists a group carries. */
module CandidateGrouping {
  import Strings

  /** Which lists a group extends beside sources and lines. */
  datatype Engine = Projects | Concepts | Decisions | Doctrine

  /** The fields a better-scored member replaces together. `statement` is the type, definition,
      decision or rule. */
  datatype Face = Face(title: string, statement: string, confidence: string, score: int, reason: string)

  /** `rest` stands for the fields only the leader provides. */
  datatype Candidate = Candidate(
    face: Face, sources: seq<string>, lines: seq<string>, definitions: seq<string>,
    related: seq<string>, rationale: seq<string>, rest: string)

  type Words = string -> set<string>

  // ----- `sorted(set(..))` and slices

  function InsertOnce(x: string, xs: seq<string>): seq<string>
  {
    if xs == [] then [x]
    else if x == xs[0] then xs
    else if Strings.Leq(x, xs[0]) then [x] + xs
    else [xs[0]] + InsertOnce(x, xs[1..])
  }

  function SortedSet(xs: seq<string>): seq<string>
  {
    if xs == [] then [] else InsertOnce(xs[0], SortedSet(xs[1..]))
  }

  function Take(xs: seq<string>, n: nat): seq<string> { if |xs| <= n then xs else xs[..n] }

  ghost predicate Increasing(xs: seq<string>)
  {
    forall i :: 0 <= i < |xs| - 1 ==> Strings.Leq(xs[i], xs[i + 1]) && xs[i] != xs[i + 1]
  }

  lemma {:induction false} InsertOnceFacts(x: string, xs: seq<string>)
    requires Increasing(xs)
    ensures Increasing(InsertOnce(x, xs))
    ensures forall y :: y in InsertOnce(x, xs) <==> y == x || y in xs
    ensures InsertOnce(x, xs) != [] && (InsertOnce(x, xs)[0] == x || (xs != [] && InsertOnce(x, xs)[0] == xs[0]))
  {
    hide Strings.Leq;
    if xs != [] && x != xs[0] && !Strings.Leq(x, xs[0]) {
      Strings.LeqTotal(x, xs[0]);
      assert Increasing(xs[1..]) by {
        forall i | 0 <= i < |xs[1..]| - 1
          ensures Strings.Leq(xs[1..][i], xs[1..][i + 1]) && xs[1..][i] != xs[1..][i + 1] {
          assert xs[1..][i] == xs[i + 1] && xs[1..][i + 1] == xs[i + 2];
        }
      }
      InsertOnceFacts(x, xs[1..]);
      var tail := InsertOnce(x, xs[1..]);
      assert |xs| > 1 ==> xs[1..][0] == xs[1];
      forall i | 0 <= i < |[xs[0]] + tail| - 1
        ensures Strings.Leq(([xs[0]] + tail)[i], ([xs[0]] + tail)[i + 1])
            && ([xs[0]] + tail)[i] != ([xs[0]] + tail)[i + 1]
      {
        if i > 0 { assert ([xs[0]] + tail)[i] == tail[i - 1] && ([xs[0]] + tail)[i + 1] == tail[i]; }
      }
    }
  }

  /** The result is strictly increasing and has exactly the elements given. */
  lemma {:induction false} SortedSetFacts(xs: seq<string>)
    ensures Increasing(SortedSet(xs))
    ensures forall y :: y in SortedSet(xs) <==> y in xs
  {
    hide Increasing, InsertOnce;
    if xs != [] {
      SortedSetFacts(xs[1..]);
      InsertOnceFacts(xs[0], SortedSet(xs[1..]));
    } else {
      assert Increasing(SortedSet(xs)) by { NoneIncreasing(); }
    }
  }

  lemma {:induction false} NoneIncreasing()
    ensures Increasing([])
  {
  }

  lemma {:induction false} SortedSetStable(xs: seq<string>)
    requires Increasing(xs)
    ensures SortedSet(xs) == xs
  {
    if xs != [] {
      assert Increasing(xs[1..]) by {
        forall i | 0 <= i < |xs[1..]| - 1
          ensures Strings.Leq(xs[1..][i], xs[1..][i + 1]) && xs[1..][i] != xs[1..][i + 1] {
          assert xs[1..][i] == xs[i + 1] && xs[1..][i + 1] == xs[i + 2];
        }
      }
      SortedSetStable(xs[1..]);
      assert |xs| > 1 ==> xs[1..][0] == xs[1] && Strings.Leq(xs[0], xs[1]) && xs[0] != xs[1];
    }
  }

  // ----- leaders and owners

  predicate Similar(words: Words, a: Candidate, b: Candidate)
  {
    |words(a.face.title) * words(b.face.title)| >= 2
  }

  /** A candidate leads a group unless an earlier leader is similar to it. */
  predicate Leads(words: Words, cs: seq<Candidate>, j: nat)
    requires j < |cs|
    decreases j
  {
    forall i | 0 <= i < j :: Leads(words, cs, i) ==> !Similar(words, cs[i], cs[j])
  }

  /** The first leader at or after `from` that claims `j`, or `j` itself. */
  function FirstClaim(words: Words, cs: seq<Candidate>, j: nat, from: nat): (i: nat)
    requires from <= j < |cs|
    ensures from <= i <= j
    decreases j - from
  {
    if from == j then j
    else if Leads(words, cs, from) && Similar(words, cs[from], cs[j]) then from
    else FirstClaim(words, cs, j, from + 1)
  }

  function Owner(words: Words, cs: seq<Candidate>, j: nat): (i: nat)
    requires j < |cs|
    ensures i <= j
  {
    FirstClaim(words, cs, j, 0)
  }

  lemma {:induction false} FirstClaimFacts(words: Words, cs: seq<Candidate>, j: nat, from: nat)
    requires from <= j < |cs|
    ensures var i := FirstClaim(words, cs, j, from);
      && (i < j ==> Leads(words, cs, i) && Similar(words, cs[i], cs[j]))
      && forall k :: from <= k < i ==> !(Leads(words, cs, k) && Similar(words, cs[k], cs[j]))
    decreases j - from
  {
    if from < j { FirstClaimFacts(words, cs, j, from + 1); }
  }

  /** The owner of a candidate is a leader, the first one to share two title words with it, and a leader
      owns itself. */
  lemma {:induction false} OwnerFacts(words: Words, cs: seq<Candidate>, j: nat)
    requires j < |cs|
    ensures var i := Owner(words, cs, j);
      && Leads(words, cs, i)
      && (i == j <==> Leads(words, cs, j))
      && (i < j ==> |words(cs[i].face.title) * words(cs[j].face.title)| >= 2)
      && forall k :: 0 <= k < i && Leads(words, cs, k) ==> |words(cs[k].face.title) * words(cs[j].face.title)| < 2
  {
    FirstClaimFacts(words, cs, j, 0);
  }

  /** The members of the group led by `i` among the first `j` candidates, in order. */
  function Members(words: Words, cs: seq<Candidate>, i: nat, j: nat): seq<nat>
    requires i < j <= |cs|
    decreases j
  {
    if j == i + 1 then [] else Members(words, cs, i, j - 1) + if Owner(words, cs, j - 1) == i then [j - 1] else []
  }

  function Leaders(words: Words, cs: seq<Candidate>, n: nat): (leaders: seq<nat>)
    requires n <= |cs|
    ensures forall g :: 0 <= g < |leaders| ==> leaders[g] < n
  {
    if n == 0 then [] else Leaders(words, cs, n - 1) + if Leads(words, cs, n - 1) then [n - 1] else []
  }

  // ----- merging

  /** A group before its lists are cut: `other` joins `group`, and wins the face by a strictly better score. */
  function Absorb(engine: Engine, group: Candidate, other: Candidate): Candidate
  {
    Candidate(
      if other.face.score > group.face.score then other.face else group.face,
      group.sources + other.sources,
      group.lines + other.lines,
      if engine.Concepts? then group.definitions + other.definitions else group.definitions,
      if engine.Concepts? then group.related + other.related else group.related,
      if engine.Decisions? then group.rationale + other.rationale else group.rationale,
      group.rest)
  }

  function Finish(engine: Engine, group: Candidate): Candidate
  {
    Candidate(
      group.face, SortedSet(group.sources), Take(group.lines, 8),
      if engine.Concepts? then Take(group.definitions, 5) else group.definitions,
      if engine.Concepts? then Take(SortedSet(group.related), 10) else group.related,
      if engine.Decisions? then Take(group.rationale, 10) else group.rationale,
      group.rest)
  }

  /** The group led by `i` after looking at the first `j` candidates. */
  function Merged(engine: Engine, words: Words, cs: seq<Candidate>, i: nat, j: nat): Candidate
    requires i < j <= |cs|
    decreases j
  {
    if j == i + 1 then cs[i]
    else if Owner(words, cs, j - 1) == i then Absorb(engine, Merged(engine, words, cs, i, j - 1), cs[j - 1])
    else Merged(engine, words, cs, i, j - 1)
  }

  function Groups(engine: Engine, words: Words, cs: seq<Candidate>, n: nat): seq<Candidate>
    requires n <= |cs|
  {
    if n == 0 then []
    else Groups(engine, words, cs, n - 1) +
         if Leads(words, cs, n - 1) then [Finish(engine, Merged(engine, words, cs, n - 1, |cs|))] else []
  }

  /** What `group_similar_candidates` returns; short lists are returned untouched. */
  function Grouped(engine: Engine, words: Words, cs: seq<Candidate>): seq<Candidate>
  {
    if |cs| <= 1 then cs else Groups(engine, words, cs, |cs|)
  }

  // ----- the algorithm

  /** Exactly the candidates owned by a leader before `i`, or by `i` and seen before `j`. */
  ghost predicate UsedUpTo(words: Words, cs: seq<Candidate>, used: set<nat>, i: nat, j: nat)
  {
    forall k: nat :: k in used <==> k < |cs| && OwnedBefore(words, cs, k, i, j)
  }

  predicate OwnedBefore(words: Words, cs: seq<Candidate>, k: nat, i: nat, j: nat)
    requires k < |cs|
  {
    var owner := Owner(words, cs, k);
    owner < k && (owner < i || (owner == i && k < j))
  }

  lemma {:induction false} UsedStep(words: Words, cs: seq<Candidate>, used: set<nat>, i: nat, j: nat)
    requires i < j < |cs| && UsedUpTo(words, cs, used, i, j) && Leads(words, cs, i)
    ensures j !in used ==> (Owner(words, cs, j) == i <==> Similar(words, cs[i], cs[j]))
    ensures j in used ==> Owner(words, cs, j) != i
    ensures UsedUpTo(words, cs, if Owner(words, cs, j) == i then used + {j} else used, i, j + 1)
  {
    OwnerFacts(words, cs, j);
    hide Leads, Similar, Owner;
  }

  lemma {:induction false} UsedNext(words: Words, cs: seq<Candidate>, used: set<nat>, i: nat)
    requires i < |cs| && UsedUpTo(words, cs, used, i, |cs|)
    ensures UsedUpTo(words, cs, used, i + 1, i + 1)
  {
    hide Owner;
  }

  lemma {:induction false} UsedOrLeads(words: Words, cs: seq<Candidate>, used: set<nat>, i: nat)
    requires i < |cs| && UsedUpTo(words, cs, used, i, i)
    ensures i in used <==> !Leads(words, cs, i)
    ensures i in used ==> UsedUpTo(words, cs, used, i + 1, i + 1)
    ensures UsedUpTo(words, cs, used, i, i + 1)
  {
    OwnerFacts(words, cs, i);
    forall k: nat | i < k < |cs| && Owner(words, cs, k) == i ensures i !in used {
      OwnerFacts(words, cs, k);
    }
    hide Leads, Similar, Owner;
  }

  method GroupSimilarCandidates(engine: Engine, words: Words, cs: seq<Candidate>) returns (grouped: seq<Candidate>)
    ensures grouped == Grouped(engine, words, cs)
  {
    hide Owner, Leads, Finish, Merged;
    if |cs| <= 1 { return cs; }
    grouped := [];
    var used: set<nat> := {};
    NoneUsed(words, cs);
    hide UsedUpTo;
    for i := 0 to |cs|
      invariant UsedUpTo(words, cs, used, i, i)
      invariant grouped == Groups(engine, words, cs, i)
    {
      UsedOrLeads(words, cs, used, i);
      if i in used { continue; }
      var group;
      group, used := CollectGroup(engine, words, cs, i, used);
      UsedNext(words, cs, used, i);
      grouped := grouped + [group];
    }
  }

  lemma {:induction false} NoneUsed(words: Words, cs: seq<Candidate>)
    ensures UsedUpTo(words, cs, {}, 0, 0)
  {
  }

  /** The inner loop: everything still unused and similar to the leader joins, in order. */
  method CollectGroup(engine: Engine, words: Words, cs: seq<Candidate>, i: nat, used: set<nat>)
    returns (group: Candidate, used': set<nat>)
    requires i < |cs| && Leads(words, cs, i) && UsedUpTo(words, cs, used, i, i + 1)
    ensures UsedUpTo(words, cs, used', i, |cs|)
    ensures group == Finish(engine, Merged(engine, words, cs, i, |cs|))
  {
    hide Owner, Leads, UsedUpTo, SortedSet, Take;
    used' := used;
    var face, sources, lines := cs[i].face, cs[i].sources, cs[i].lines;
    var definitions, related, rationale := cs[i].definitions, cs[i].related, cs[i].rationale;
    var leaderWords := words(cs[i].face.title);
    for j := i + 1 to |cs|
      invariant UsedUpTo(words, cs, used', i, j)
      invariant Merged(engine, words, cs, i, j)
          == Candidate(face, sources, lines, definitions, related, rationale, cs[i].rest)
    {
      UsedStep(words, cs, used', i, j);
      if j in used' { continue; }
      var other := cs[j];
      if |leaderWords * words(other.face.title)| >= 2 {
        used' := used' + {j};
        sources := sources + other.sources;
        lines := lines + other.lines;
        if engine.Concepts? {
          definitions := definitions + other.definitions;
          related := related + other.related;
        }
        if engine.Decisions? { rationale := rationale + other.rationale; }
        if other.face.score > face.score { face := other.face; }
      }
    }
    group := Candidate(
      face, SortedSet(sources), Take(lines, 8),
      if engine.Concepts? then Take(definitions, 5) else definitions,
      if engine.Concepts? then Take(SortedSet(related), 10) else related,
      if engine.Decisions? then Take(rationale, 10) else rationale,
      cs[i].rest);
  }
}
