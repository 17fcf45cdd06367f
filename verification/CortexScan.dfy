/** Where the notes of a map come from: the fixed source directories of the vault. Their names all
    start with a digit, so no scanned path looks like the identifier of a tag or an external link. */
module CortexScan {
  import opened Strings
  import opened CortexModel
  import CortexWellFormed

  datatype Scope = Core | Promotions | All

  const CORE_SOURCE_DIRS: seq<string> :=
    ["01_Daily", "02_Decisions", "03_Doctrine", "04_Appraisal", "05_Assessor_Office",
     "06_TerraFusion_Strategy", "07_Learning", "09_Cases", "10_Ideas", "11_Projects"]

  const PROMOTION_SOURCE_DIRS: seq<string> :=
    ["60_Synthesis", "70_InboxProcessor/reports", "70_InboxProcessor/promoted_drafts",
     "80_DoctrinePromotion/reports", "80_DoctrinePromotion/drafts",
     "85_DecisionPromotion/reports", "85_DecisionPromotion/drafts",
     "86_ConceptPromotion/reports", "86_ConceptPromotion/drafts",
     "87_ProjectPromotion/reports", "87_ProjectPromotion/project_drafts", "87_ProjectPromotion/work_order_drafts"]

  const EXCLUDED_PATHS: seq<string> :=
    ["13_Templates", "20_Graphify/generated/cache", "30_MCP/examples", "40_Search/generated/chunks.json",
     "40_Search/generated/vectors.npy", "40_Search/generated/tfidf.joblib", "60_Synthesis/generated/cache",
     "70_InboxProcessor/generated/cache", "80_DoctrinePromotion/generated/cache",
     "85_DecisionPromotion/generated/cache", "86_ConceptPromotion/generated/cache",
     "87_ProjectPromotion/generated/cache", "88_CortexMap/generated/cache", "90_Exports", "99_Archive"]

  function SourceDirs(scope: Scope): seq<string>
  {
    match scope
    case Core => CORE_SOURCE_DIRS
    case Promotions => PROMOTION_SOURCE_DIRS
    case All => CORE_SOURCE_DIRS + PROMOTION_SOURCE_DIRS
  }

  /** The sorted `.md` paths below a directory, relative to it and as the platform spells them; none
      when it is missing. */
  type Listing = string -> seq<string>

  function RelOf(dir: string, file: string): string { ReplaceAll(dir + "/" + file, "\\", "/") }

  predicate IsExcluded(rel: string)
  {
    exists i :: 0 <= i < |EXCLUDED_PATHS| && StartsWith(rel, EXCLUDED_PATHS[i])
  }

  function KeptBelow(dir: string, files: seq<string>, n: nat): seq<string>
    requires n <= |files|
  {
    if n == 0 then []
    else KeptBelow(dir, files, n - 1) + if IsExcluded(RelOf(dir, files[n - 1])) then [] else [RelOf(dir, files[n - 1])]
  }

  function Scanned(listing: Listing, dirs: seq<string>, n: nat): seq<string>
    requires n <= |dirs|
  {
    if n == 0 then []
    else Scanned(listing, dirs, n - 1) + KeptBelow(dirs[n - 1], listing(dirs[n - 1]), |listing(dirs[n - 1])|)
  }

  function ScannedAll(scope: Scope, listing: Listing): seq<string>
  {
    Scanned(listing, SourceDirs(scope), |SourceDirs(scope)|)
  }

  method ScanCortexSources(scope: Scope, listing: Listing) returns (rels: seq<string>)
    ensures rels == ScannedAll(scope, listing)
  {
    hide IsExcluded, RelOf, SourceDirs;
    var dirs := SourceDirs(scope);
    rels := [];
    for d := 0 to |dirs|
      invariant rels == Scanned(listing, dirs, d)
    {
      var files := listing(dirs[d]);
      for i := 0 to |files|
        invariant rels == Scanned(listing, dirs, d) + KeptBelow(dirs[d], files, i)
      {
        var rel := RelOf(dirs[d], files[i]);
        if IsExcluded(rel) { continue; }
        rels := rels + [rel];
      }
    }
  }

  // ----- what is scanned

  predicate Numbered(s: string) { s != "" && '0' <= s[0] <= '9' }

  lemma {:induction false} CoreNumbered()
    ensures forall i :: 0 <= i < |CORE_SOURCE_DIRS| ==> Numbered(CORE_SOURCE_DIRS[i])
  {
  }

  lemma {:induction false} PromotionsNumbered()
    ensures forall i :: 0 <= i < |PROMOTION_SOURCE_DIRS| ==> Numbered(PROMOTION_SOURCE_DIRS[i])
  {
  }

  lemma {:induction false} DirsNumbered(scope: Scope)
    ensures forall i :: 0 <= i < |SourceDirs(scope)| ==> Numbered(SourceDirs(scope)[i])
  {
    hide Numbered, CORE_SOURCE_DIRS, PROMOTION_SOURCE_DIRS;
    CoreNumbered();
    PromotionsNumbered();
  }

  lemma {:induction false} RelNumbered(dir: string, file: string)
    requires Numbered(dir)
    ensures Numbered(RelOf(dir, file))
  {
    hide ReplaceAll;
    ReplaceAllStep(dir + "/" + file, '\\', "/");
  }

  lemma {:induction false} KeptNumbered(dir: string, files: seq<string>, n: nat)
    requires n <= |files| && Numbered(dir)
    ensures forall rel :: rel in KeptBelow(dir, files, n) ==> Numbered(rel)
  {
    hide Numbered, IsExcluded, RelOf;
    if n > 0 {
      KeptNumbered(dir, files, n - 1);
      RelNumbered(dir, files[n - 1]);
    }
  }

  lemma {:induction false} ScannedNumbered(listing: Listing, dirs: seq<string>, n: nat)
    requires n <= |dirs| && forall i :: 0 <= i < |dirs| ==> Numbered(dirs[i])
    ensures forall rel :: rel in Scanned(listing, dirs, n) ==> Numbered(rel)
  {
    hide Numbered, KeptBelow;
    if n > 0 {
      ScannedNumbered(listing, dirs, n - 1);
      KeptNumbered(dirs[n - 1], listing(dirs[n - 1]), |listing(dirs[n - 1])|);
    }
  }

  // ----- exactly what is scanned

  /** The directories of a scope. */
  predicate Source(scope: Scope, dir: string)
  {
    || (scope != Promotions &&
        dir in ["01_Daily", "02_Decisions", "03_Doctrine", "04_Appraisal", "05_Assessor_Office",
                "06_TerraFusion_Strategy", "07_Learning", "09_Cases", "10_Ideas", "11_Projects"])
    || (scope != Core &&
        dir in ["60_Synthesis", "70_InboxProcessor/reports", "70_InboxProcessor/promoted_drafts",
                "80_DoctrinePromotion/reports", "80_DoctrinePromotion/drafts",
                "85_DecisionPromotion/reports", "85_DecisionPromotion/drafts",
                "86_ConceptPromotion/reports", "86_ConceptPromotion/drafts",
                "87_ProjectPromotion/reports", "87_ProjectPromotion/project_drafts",
                "87_ProjectPromotion/work_order_drafts"])
  }

  lemma {:induction false} SourcesListed(scope: Scope, dir: string)
    ensures dir in SourceDirs(scope) <==> Source(scope, dir)
  {
  }

  lemma {:induction false} Turned(s: string)
    ensures |ReplaceAll(s, "\\", "/")| == |s|
    ensures forall i :: 0 <= i < |s| ==> ReplaceAll(s, "\\", "/")[i] == if s[i] == '\\' then '/' else s[i]
  {
    if s != "" {
      ReplaceAllStep(s, '\\', "/");
      Turned(s[1..]);
      hide ReplaceAll;
    } else {
      assert ReplaceAll(s, "\\", "/") == "";
    }
  }

  /** The first two characters of the directories of notes are none of those of what is excluded. */
  lemma {:induction false} CoreApart(i: nat, j: nat)
    requires i < |CORE_SOURCE_DIRS| && j < |EXCLUDED_PATHS|
    ensures |CORE_SOURCE_DIRS[i]| >= 2 && |EXCLUDED_PATHS[j]| >= 2
    ensures CORE_SOURCE_DIRS[i][0] != EXCLUDED_PATHS[j][0] || CORE_SOURCE_DIRS[i][1] != EXCLUDED_PATHS[j][1]
    ensures '0' <= CORE_SOURCE_DIRS[i][0] <= '9' && '0' <= CORE_SOURCE_DIRS[i][1] <= '9'
  {
    var dir, excluded := CORE_SOURCE_DIRS[i], EXCLUDED_PATHS[j];
    assert dir[0] == '0' || (dir[0] == '1' && dir[1] in "01");
    assert excluded[0] > '1' || (excluded[0] == '1' && excluded[1] == '3');
  }

  lemma {:induction false} PromotionShape(i: nat)
    requires i < |PROMOTION_SOURCE_DIRS|
    ensures var dir := PROMOTION_SOURCE_DIRS[i];
      && |dir| >= 12 && dir[0] in "678" && (dir[0] == '6' <==> i == 0) && (i > 0 ==> |dir| > 21)
      && (dir[0] == '7' ==> dir[18] in "rp")
      && (dir[0] == '8' ==> dir[1] in "0567" && dir[if dir[1] in "05" then 21 else 20] in "rdpw")
  {
  }

  lemma {:induction false} ExcludedShape(j: nat)
    requires j < |EXCLUDED_PATHS|
    ensures var excluded := EXCLUDED_PATHS[j];
      && |excluded| >= 10 && (excluded[0] == '6' <==> j == 6) && (excluded[0] in "78" ==> |excluded| > 21)
      && (excluded[0] == '7' ==> excluded[18] == 'g')
      && (excluded[0] == '8' && excluded[1] in "0567" ==> excluded[if excluded[1] in "05" then 21 else 20] == 'g')
  {
  }

  /** An excluded prefix and a promotion directory differ in some place, unless they are the synthesis
      folder and its cache. */
  lemma {:induction false} PromotionApart(i: nat, j: nat)
    requires i < |PROMOTION_SOURCE_DIRS| && j < |EXCLUDED_PATHS|
    requires i != 0 || j != 6
    ensures exists k :: 0 <= k < |PROMOTION_SOURCE_DIRS[i]| && k < |EXCLUDED_PATHS[j]| &&
                        PROMOTION_SOURCE_DIRS[i][k] != EXCLUDED_PATHS[j][k] && PROMOTION_SOURCE_DIRS[i][k] != '\\'
  {
    hide PROMOTION_SOURCE_DIRS, EXCLUDED_PATHS;
    PromotionShape(i);
    ExcludedShape(j);
    var dir, excluded := PROMOTION_SOURCE_DIRS[i], EXCLUDED_PATHS[j];
    var k := if dir[0] != excluded[0] then 0 else if dir[0] == '7' then 18 else if dir[1] != excluded[1] then 1
             else if dir[1] in "05" then 21 else 20;
    assert dir[k] != excluded[k];
  }

  /** A path below a directory starts like it. */
  lemma {:induction false} RelStarts(dir: string, file: string)
    ensures |RelOf(dir, file)| > |dir|
    ensures forall k :: 0 <= k < |dir| && dir[k] != '\\' ==> RelOf(dir, file)[k] == dir[k]
  {
    Turned(dir + "/" + file);
    hide ReplaceAll;
    forall k | 0 <= k < |dir| && dir[k] != '\\' ensures RelOf(dir, file)[k] == dir[k] {
      assert (dir + "/" + file)[k] == dir[k];
    }
  }

  /** Of all the exclusions only one can meet a scanned path: the cache of the synthesis folder. */
  lemma {:induction false} ExcludedExactly(scope: Scope, i: nat, file: string)
    requires i < |SourceDirs(scope)|
    ensures var rel := RelOf(SourceDirs(scope)[i], file);
      IsExcluded(rel) <==> StartsWith(rel, "60_Synthesis/generated/cache")
  {
    var dir := SourceDirs(scope)[i];
    var rel := RelOf(dir, file);
    RelStarts(dir, file);
    assert EXCLUDED_PATHS[6] == "60_Synthesis/generated/cache";
    hide RelOf, EXCLUDED_PATHS, CORE_SOURCE_DIRS, PROMOTION_SOURCE_DIRS;
    forall j | 0 <= j < |EXCLUDED_PATHS| && j != 6 ensures !StartsWith(rel, EXCLUDED_PATHS[j]) {
      OthersApart(scope, i, j);
      var k :| 0 <= k < |dir| && k < |EXCLUDED_PATHS[j]| && dir[k] != EXCLUDED_PATHS[j][k] && dir[k] != '\\';
      OtherStart(rel, EXCLUDED_PATHS[j], k);
    }
  }

  lemma {:induction false} OthersApart(scope: Scope, i: nat, j: nat)
    requires i < |SourceDirs(scope)| && j < |EXCLUDED_PATHS| && j != 6
    ensures exists k :: 0 <= k < |SourceDirs(scope)[i]| && k < |EXCLUDED_PATHS[j]| &&
                        SourceDirs(scope)[i][k] != EXCLUDED_PATHS[j][k] && SourceDirs(scope)[i][k] != '\\'
  {
    hide CORE_SOURCE_DIRS, PROMOTION_SOURCE_DIRS, EXCLUDED_PATHS;
    var dir, excluded := SourceDirs(scope)[i], EXCLUDED_PATHS[j];
    if scope != Promotions && i < |CORE_SOURCE_DIRS| {
      CoreApart(i, j);
      var k := if dir[0] != excluded[0] then 0 else 1;
      assert dir[k] != excluded[k];
    } else {
      PromotionApart(if scope == Promotions then i else i - |CORE_SOURCE_DIRS|, j);
    }
  }

  lemma {:induction false} KeptExactly(dir: string, files: seq<string>, n: nat, rel: string)
    requires n <= |files|
    ensures rel in KeptBelow(dir, files, n) <==>
            !IsExcluded(rel) && exists i :: 0 <= i < n && rel == RelOf(dir, files[i])
  {
    hide IsExcluded, RelOf;
    if n > 0 { KeptExactly(dir, files, n - 1, rel); }
  }

  /** `rel` is the path of a listed file below `dir`. */
  predicate FileOf(listing: Listing, dir: string, rel: string)
  {
    exists i :: 0 <= i < |listing(dir)| && rel == RelOf(dir, listing(dir)[i])
  }

  lemma {:induction false} ScannedBelow(listing: Listing, dirs: seq<string>, n: nat, rel: string)
    requires n <= |dirs|
    ensures rel in Scanned(listing, dirs, n) <==>
            !IsExcluded(rel) && exists d :: 0 <= d < n && FileOf(listing, dirs[d], rel)
  {
    hide IsExcluded, RelOf;
    if n > 0 {
      ScannedBelow(listing, dirs, n - 1, rel);
      KeptExactly(dirs[n - 1], listing(dirs[n - 1]), |listing(dirs[n - 1])|, rel);
    }
  }

  /** A path is scanned exactly when it is that of a listed file below a directory of the scope and not in
      the synthesis cache: none of the other exclusions ever drops a file. */
  lemma {:induction false} ScannedExactly(scope: Scope, listing: Listing, rel: string)
    ensures rel in ScannedAll(scope, listing) <==>
            !StartsWith(rel, "60_Synthesis/generated/cache") &&
            exists dir :: Source(scope, dir) && FileOf(listing, dir, rel)
  {
    hide RelOf, IsExcluded, StartsWith, Source, SourceDirs;
    var dirs := SourceDirs(scope);
    ScannedBelow(listing, dirs, |dirs|, rel);
    forall dir ensures dir in dirs <==> Source(scope, dir) { SourcesListed(scope, dir); }
    forall d | 0 <= d < |dirs| && FileOf(listing, dirs[d], rel)
      ensures Source(scope, dirs[d]) && (IsExcluded(rel) <==> StartsWith(rel, "60_Synthesis/generated/cache"))
    {
      var files := listing(dirs[d]);
      var i :| 0 <= i < |files| && rel == RelOf(dirs[d], files[i]);
      ExcludedExactly(scope, d, files[i]);
    }
  }

  /** The notes are those of the scanned paths, in order. */
  ghost predicate ReadFrom(notes: seq<Note>, rels: seq<string>)
  {
    |notes| == |rels| && forall i :: 0 <= i < |rels| ==> notes[i].rel == rels[i]
  }

  /** Whatever the vault holds, no pass over its scanned notes adds a self-loop. */
  lemma {:induction false} NoSelfLoops(scope: Scope, listing: Listing, notes: seq<Note>, e: Edge)
    requires AllParsed(notes) && ReadFrom(notes, ScannedAll(scope, listing)) && e in BuiltEdges(notes)
    ensures e.source != e.target
  {
    hide BuiltEdges, Scanned, SourceDirs, AllParsed, Numbered;
    DirsNumbered(scope);
    ScannedNumbered(listing, SourceDirs(scope), |SourceDirs(scope)|);
    forall i | 0 <= i < |notes| ensures !("tag:" <= notes[i].rel) && !("ext:" <= notes[i].rel) {
      assert notes[i].rel in ScannedAll(scope, listing);
      NumberedApart(notes[i].rel);
    }
    CortexWellFormed.PlainPathsNoSelfLoops(notes, e);
  }

  lemma {:induction false} NumberedApart(rel: string)
    requires Numbered(rel)
    ensures !("tag:" <= rel) && !("ext:" <= rel)
  {
    assert "tag:"[0] != rel[0] && "ext:"[0] != rel[0];
  }
}
