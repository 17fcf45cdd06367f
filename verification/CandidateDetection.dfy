/** Detecting candidates: one per lower-cased title, first wins, then sorted by descending score; and
    the pipeline of detection followed by grouping. */
module CandidateDetection {
  import opened Sorting
  import opened CandidateGrouping
  import opened GroupingLaws

  /** What analysing one source file yields: its signal score, the lines found, and the candidate it
      would make, titled after the first line. */
  datatype Finding = Finding(score: int, lines: seq<string>, candidate: Candidate)
  {
    predicate Qualifies() { score >= 2 && lines != [] }
  }

  type Lower = string -> string

  function SeenTitles(lower: Lower, fs: seq<Finding>, n: nat): set<string>
    requires n <= |fs|
  {
    if n == 0 then {}
    else SeenTitles(lower, fs, n - 1) + if fs[n - 1].Qualifies() then {lower(fs[n - 1].candidate.face.title)} else {}
  }

  function Collected(lower: Lower, fs: seq<Finding>, n: nat): seq<Candidate>
    requires n <= |fs|
  {
    if n == 0 then []
    else Collected(lower, fs, n - 1) +
         if fs[n - 1].Qualifies() && lower(fs[n - 1].candidate.face.title) !in SeenTitles(lower, fs, n - 1)
         then [fs[n - 1].candidate] else []
  }

  function Detected(lower: Lower, fs: seq<Finding>): seq<Candidate>
  {
    Sort(Collected(lower, fs, |fs|), ByScore)
  }

  method DetectCandidates(lower: Lower, fs: seq<Finding>) returns (candidates: seq<Candidate>)
    ensures candidates == Detected(lower, fs)
  {
    candidates := [];
    var seen: set<string> := {};
    for i := 0 to |fs|
      invariant candidates == Collected(lower, fs, i) && seen == SeenTitles(lower, fs, i)
    {
      if fs[i].score < 2 { continue; }
      if fs[i].lines == [] { continue; }
      var title := lower(fs[i].candidate.face.title);
      if title in seen { continue; }
      seen := seen + {title};
      candidates := candidates + [fs[i].candidate];
    }
    candidates := Sort(candidates, ByScore);
  }

  /** The first finding with its title, of those with a score of two or more and a line found. */
  ghost predicate FirstOfTitle(lower: Lower, fs: seq<Finding>, i: nat)
    requires i < |fs|
  {
    && fs[i].score >= 2 && fs[i].lines != []
    && forall j :: 0 <= j < i && fs[j].score >= 2 && fs[j].lines != [] ==>
         lower(fs[j].candidate.face.title) != lower(fs[i].candidate.face.title)
  }

  lemma {:induction false} SeenExact(lower: Lower, fs: seq<Finding>, n: nat, t: string)
    requires n <= |fs|
    ensures t in SeenTitles(lower, fs, n)
        <==> exists i :: 0 <= i < n && fs[i].Qualifies() && lower(fs[i].candidate.face.title) == t
  {
    if n > 0 { SeenExact(lower, fs, n - 1, t); }
  }

  lemma {:induction false} FirstIffUnseen(lower: Lower, fs: seq<Finding>, i: nat)
    requires i < |fs|
    ensures FirstOfTitle(lower, fs, i)
      <==> fs[i].Qualifies() && lower(fs[i].candidate.face.title) !in SeenTitles(lower, fs, i)
  {
    SeenExact(lower, fs, i, lower(fs[i].candidate.face.title));
  }

  lemma {:induction false} CollectedExact(lower: Lower, fs: seq<Finding>, n: nat, c: Candidate)
    requires n <= |fs|
    ensures c in Collected(lower, fs, n)
        <==> exists i :: 0 <= i < n && FirstOfTitle(lower, fs, i) && fs[i].candidate == c
  {
    hide FirstOfTitle, SeenTitles;
    if n > 0 {
      CollectedExact(lower, fs, n - 1, c);
      FirstIffUnseen(lower, fs, n - 1);
    }
  }

  /** How often a lower-cased title occurs. */
  ghost function TitleCount(lower: Lower, cs: seq<Candidate>, t: string): nat
  {
    if cs == [] then 0 else (if lower(cs[0].face.title) == t then 1 else 0) + TitleCount(lower, cs[1..], t)
  }

  lemma {:induction false} TitleCountAppend(lower: Lower, cs: seq<Candidate>, c: Candidate, t: string)
    ensures TitleCount(lower, cs + [c], t) == TitleCount(lower, cs, t) + if lower(c.face.title) == t then 1 else 0
  {
    if cs == [] {
      assert cs + [c] == [c];
    } else {
      TitleCountAppend(lower, cs[1..], c, t);
      assert (cs + [c])[1..] == cs[1..] + [c];
    }
  }

  lemma {:induction false} CollectedOncePerTitle(lower: Lower, fs: seq<Finding>, n: nat, t: string)
    requires n <= |fs|
    ensures TitleCount(lower, Collected(lower, fs, n), t) == if t in SeenTitles(lower, fs, n) then 1 else 0
  {
    if n > 0 {
      CollectedOncePerTitle(lower, fs, n - 1, t);
      TitleCountAppend(lower, Collected(lower, fs, n - 1), fs[n - 1].candidate, t);
      assert Collected(lower, fs, n - 1) + [] == Collected(lower, fs, n - 1);
    }
  }

  lemma {:induction false} InsertTitleCount(lower: Lower, c: Candidate, cs: seq<Candidate>, t: string)
    ensures TitleCount(lower, Insert(c, cs, ByScore), t)
         == TitleCount(lower, cs, t) + if lower(c.face.title) == t then 1 else 0
  {
    if cs == [] || ByScore(c, cs[0]) {
      assert ([c] + cs)[1..] == cs;
    } else {
      InsertTitleCount(lower, c, cs[1..], t);
      assert ([cs[0]] + Insert(c, cs[1..], ByScore))[1..] == Insert(c, cs[1..], ByScore);
    }
  }

  lemma {:induction false} SortTitleCount(lower: Lower, cs: seq<Candidate>, t: string)
    ensures TitleCount(lower, Sort(cs, ByScore), t) == TitleCount(lower, cs, t)
  {
    if cs != [] {
      SortTitleCount(lower, cs[1..], t);
      InsertTitleCount(lower, cs[0], Sort(cs[1..], ByScore), t);
    }
  }

  ghost function ScoredAs(score: int): Candidate -> bool { (c: Candidate) => c.face.score == score }

  /** Detection yields exactly the first qualifying finding of each title, each title once, best score
      first, and ties in the order of the findings. */
  lemma {:induction false} DetectionExact(lower: Lower, fs: seq<Finding>, c: Candidate, t: string)
    ensures c in Detected(lower, fs)
        <==> exists i :: 0 <= i < |fs| && FirstOfTitle(lower, fs, i) && fs[i].candidate == c
    ensures TitleCount(lower, Detected(lower, fs), t)
         == if exists i :: 0 <= i < |fs| && fs[i].Qualifies() && lower(fs[i].candidate.face.title) == t then 1 else 0
    ensures forall i, j :: 0 <= i < j < |Detected(lower, fs)| ==>
      Detected(lower, fs)[i].face.score >= Detected(lower, fs)[j].face.score
    ensures forall score ::
      Keeping(Detected(lower, fs), ScoredAs(score)) == Keeping(Collected(lower, fs, |fs|), ScoredAs(score))
  {
    hide Sort, FirstOfTitle, Keeping;
    var cs := Collected(lower, fs, |fs|);
    CollectedExact(lower, fs, |fs|, c);
    SortKeepsElements(cs, ByScore);
    assert c in Sort(cs, ByScore) <==> c in multiset(Sort(cs, ByScore));
    assert c in cs <==> c in multiset(cs);
    SortTitleCount(lower, cs, t);
    CollectedOncePerTitle(lower, fs, |fs|, t);
    SeenExact(lower, fs, |fs|, t);
    SortSorts(cs, ByScore);
    var sorted := Sort(cs, ByScore);
    forall i, j | 0 <= i < j < |sorted| ensures sorted[i].face.score >= sorted[j].face.score {
      assert ByScore(sorted[i], sorted[j]);
    }
    forall score ensures Keeping(Sort(cs, ByScore), ScoredAs(score)) == Keeping(cs, ScoredAs(score)) {
      SortStable(cs, ByScore, ScoredAs(score));
    }
  }

  /** The engines group what they detected, so their groups never need grouping again. */
  lemma {:induction false} PipelineIdempotent(engine: Engine, words: Words, lower: Lower, fs: seq<Finding>)
    ensures var groups := Grouped(engine, words, Detected(lower, fs));
      Grouped(engine, words, groups) == groups && SortedBy(groups, ByScore)
  {
    hide Sort, Grouped;
    SortSorts(Collected(lower, fs, |fs|), ByScore);
    SortedIdempotent(engine, words, Detected(lower, fs));
  }
}
