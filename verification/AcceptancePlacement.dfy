/** Where an accepted note goes, what it is called, what it must contain and what the log says of it,
    written out: the tables the assistant works from, stated once more as they are meant. */
module AcceptancePlacement {
  import opened Results
  import opened Strings
  import opened AcceptanceLog
  import opened Acceptance
  import opened AcceptanceLaws

  // ----- paths and folders as strings

  /** Backslashes read as slashes. */
  function Slashed(s: string): string
  {
    seq(|s|, i requires 0 <= i < |s| => if s[i] == '\\' then '/' else s[i])
  }

  lemma {:induction false} SlashedExactly(s: string)
    ensures ReplaceAll(s, "\\", "/") == Slashed(s)
  {
    ReplaceAllStep(s, '\\', "/");
    hide ReplaceAll;
    if s != "" {
      SlashedExactly(s[1..]);
      assert Slashed(s) == [if s[0] == '\\' then '/' else s[0]] + Slashed(s[1..]);
    }
  }

  /** A draft's path is written below a folder. */
  predicate Below(raw: Path, folder: string)
  {
    var parent := Slashed(Join(Initial(raw), "/"));
    parent == folder || folder + "/" <= parent
  }

  /** The folder each kind of draft lies in. */
  predicate FromDrafts(raw: Path, s: Source)
  {
    match s
    case DoctrineDrafts => Below(raw, "80_DoctrinePromotion/drafts")
    case DecisionDrafts => Below(raw, "85_DecisionPromotion/drafts")
    case ConceptDrafts => Below(raw, "86_ConceptPromotion/drafts")
    case ProjectDrafts => Below(raw, "87_ProjectPromotion/project_drafts")
    case WorkOrderDrafts => Below(raw, "87_ProjectPromotion/work_order_drafts")
  }

  lemma {:induction false} UnderIsBelow(raw: Path, s: Source)
    ensures Under(ParentString(raw), s) <==> FromDrafts(raw, s)
  {
    hide ReplaceAll, Join, Slashed;
    SlashedExactly(Join(Initial(raw), "/"));
    StartsIsPrefix(ParentString(raw), Folder(s) + "/");
  }

  lemma {:induction false} StartsIsPrefix(s: string, prefix: string)
    ensures StartsWith(s, prefix) <==> prefix <= s
  {
  }

  /** The guard names a kind exactly when the path is written below its folder. */
  lemma {:induction false} GuardNames(raw: Path, s: Source)
    ensures MatchSource(raw) == Some(s) <==> FromDrafts(raw, s)
  {
    hide FromDrafts, Under, ParentString;
    forall t: Source ensures Under(ParentString(raw), t) <==> FromDrafts(raw, t) { UnderIsBelow(raw, t); }
    forall t: Source | FromDrafts(raw, s) && FromDrafts(raw, t) ensures s == t { FoldersApart(raw, s, t); }
  }

  lemma {:induction false} FoldersApart(raw: Path, s: Source, t: Source)
    requires FromDrafts(raw, s) && FromDrafts(raw, t)
    ensures s == t
  {
    hide FromDrafts;
    Letters(raw, s);
    Letters(raw, t);
  }

  lemma {:induction false} LetterAt(parent: string, folder: string, k: nat)
    requires (parent == folder || folder + "/" <= parent) && k < |folder|
    ensures k < |parent| && parent[k] == folder[k]
  {
    if parent != folder { assert (folder + "/")[k] == parent[k]; }
  }

  /** Two letters tell the folders apart. */
  lemma {:induction false} Letters(raw: Path, s: Source)
    requires FromDrafts(raw, s)
    ensures var parent := Slashed(Join(Initial(raw), "/"));
      && |parent| > 20
      && parent[1]
           == (match s case DoctrineDrafts => '0' case DecisionDrafts => '5' case ConceptDrafts => '6' case _ => '7')
      && (s.ProjectDrafts? ==> parent[20] == 'p') && (s.WorkOrderDrafts? ==> parent[20] == 'w')
  {
    hide Slashed, Join;
    var parent := Slashed(Join(Initial(raw), "/"));
    match s
    case DoctrineDrafts =>
      LetterAt(parent, "80_DoctrinePromotion/drafts", 1);
      LetterAt(parent, "80_DoctrinePromotion/drafts", 20);
    case DecisionDrafts =>
      LetterAt(parent, "85_DecisionPromotion/drafts", 1);
      LetterAt(parent, "85_DecisionPromotion/drafts", 20);
    case ConceptDrafts =>
      LetterAt(parent, "86_ConceptPromotion/drafts", 1);
      LetterAt(parent, "86_ConceptPromotion/drafts", 20);
    case ProjectDrafts =>
      LetterAt(parent, "87_ProjectPromotion/project_drafts", 1);
      LetterAt(parent, "87_ProjectPromotion/project_drafts", 20);
    case WorkOrderDrafts =>
      LetterAt(parent, "87_ProjectPromotion/work_order_drafts", 1);
      LetterAt(parent, "87_ProjectPromotion/work_order_drafts", 20);
  }

  // ----- destinations

  /** Without a request each kind of draft has its own folder. */
  predicate Home(raw: Path, dest: string)
  {
    || (Below(raw, "80_DoctrinePromotion/drafts") && dest == "03_Doctrine")
    || (Below(raw, "85_DecisionPromotion/drafts") && dest == "02_Decisions")
    || (Below(raw, "86_ConceptPromotion/drafts") && dest == "10_Ideas")
    || (Below(raw, "87_ProjectPromotion/project_drafts") && dest == "11_Projects")
    || (Below(raw, "87_ProjectPromotion/work_order_drafts") && dest == "11_Projects")
  }

  lemma {:induction false} HomeExactly(raw: Path, s: Source, dest: string)
    requires FromDrafts(raw, s)
    ensures Home(raw, dest) <==> dest == DefaultDestination(s)
  {
    hide Below;
    forall t: Source | FromDrafts(raw, t) ensures t == s { FoldersApart(raw, s, t); }
    assert FromDrafts(raw, DoctrineDrafts) <==> Below(raw, "80_DoctrinePromotion/drafts");
    assert FromDrafts(raw, DecisionDrafts) <==> Below(raw, "85_DecisionPromotion/drafts");
    assert FromDrafts(raw, ConceptDrafts) <==> Below(raw, "86_ConceptPromotion/drafts");
    assert FromDrafts(raw, ProjectDrafts) <==> Below(raw, "87_ProjectPromotion/project_drafts");
    assert FromDrafts(raw, WorkOrderDrafts) <==> Below(raw, "87_ProjectPromotion/work_order_drafts");
  }

  function Slashes(k: nat): string { seq(k, _ => '/') }

  /** A request spells a folder: bare or below `WilliamOS/`, with any number of slashes behind, and with
      either kind of slash. */
  ghost predicate Spells(request: string, folder: string)
  {
    exists k: nat :: Slashed(request) == folder + Slashes(k) || Slashed(request) == "WilliamOS/" + folder + Slashes(k)
  }

  lemma {:induction false} Trimmed(s: string) returns (k: nat)
    ensures s == TrimRight(s, '/') + Slashes(k)
    ensures TrimRight(s, '/') == "" || TrimRight(s, '/')[|TrimRight(s, '/')| - 1] != '/'
  {
    k := 0;
    if s != "" && s[|s| - 1] == '/' {
      var k' := Trimmed(s[..|s| - 1]);
      k := k' + 1;
      assert Slashes(k) == Slashes(k') + "/";
      assert s == s[..|s| - 1] + "/";
    }
  }

  lemma {:induction false} TrimmedTo(y: string, k: nat)
    requires y == "" || y[|y| - 1] != '/'
    ensures TrimRight(y + Slashes(k), '/') == y
  {
    if k == 0 {
      assert y + Slashes(0) == y;
    } else {
      var s := y + Slashes(k);
      assert s[..|s| - 1] == y + Slashes(k - 1);
      TrimmedTo(y, k - 1);
    }
  }

  /** A request is granted for a folder exactly when it spells it, the folder is one of the four, and it is
      there. */
  lemma {:induction false} RequestExactly(fs: FileTree, request: string, folder: string)
    ensures ValidateDestination(fs, request) == Ok(folder) <==>
      folder in {"03_Doctrine", "02_Decisions", "10_Ideas", "11_Projects"} && fs.Exists([folder])
      && Spells(request, folder)
  {
    hide Slashed, TrimRight, ReplaceAll;
    SlashedExactly(request);
    var s := Slashed(request);
    if ValidateDestination(fs, request) == Ok(folder) {
      var k := Trimmed(s);
      SpelledBack(TrimRight(s, '/'), folder, k);
    }
    if folder in ALLOWED_DESTINATIONS && Spells(request, folder) {
      AllowedPlain(folder);
      AllowedStart(folder);
      var k: nat :| s == folder + Slashes(k) || s == "WilliamOS/" + folder + Slashes(k);
      SpelledForth(folder, k);
    }
  }

  lemma {:induction false} SpelledBack(trimmed: string, folder: string, k: nat)
    requires DropPrefix(trimmed, "WilliamOS/") == folder
    ensures trimmed + Slashes(k) == folder + Slashes(k) || trimmed + Slashes(k) == "WilliamOS/" + folder + Slashes(k)
  {
    if StartsWith(trimmed, "WilliamOS/") { assert trimmed == "WilliamOS/" + folder; }
  }

  lemma {:induction false} SpelledForth(folder: string, k: nat)
    requires folder != "" && folder[|folder| - 1] != '/' && folder in ALLOWED_DESTINATIONS
    ensures DropPrefix(TrimRight(folder + Slashes(k), '/'), "WilliamOS/") == folder
    ensures DropPrefix(TrimRight("WilliamOS/" + folder + Slashes(k), '/'), "WilliamOS/") == folder
  {
    hide TrimRight;
    var whole := "WilliamOS/" + folder;
    TrimmedTo(folder, k);
    TrimmedTo(whole, k);
    assert whole[10..] == folder && |"WilliamOS/"| == 10;
    NoVault(folder);
  }

  lemma {:induction false} NoVault(folder: string)
    requires folder in ALLOWED_DESTINATIONS
    ensures !StartsWith(folder, "WilliamOS/")
  {
    assert folder[0] == '0' || folder[0] == '1';
    OtherStart(folder, "WilliamOS/", 0);
  }

  // ----- sections

  predicate ContainsAll(content: string, sections: seq<string>)
  {
    forall i :: 0 <= i < |sections| ==> Contains(content, sections[i])
  }

  /** What a note of each kind must contain. */
  predicate Complete(raw: Path, content: string)
  {
    && (Below(raw, "80_DoctrinePromotion/drafts") ==>
          ContainsAll(content, ["## Rule", "## Meaning", "## Source Evidence"]))
    && (Below(raw, "85_DecisionPromotion/drafts") ==>
          ContainsAll(content, ["## Decision", "## Context", "## Rationale", "## Source Evidence"]))
    && (Below(raw, "86_ConceptPromotion/drafts") ==>
          ContainsAll(content, ["## Definition", "## Why It Matters", "## Source Evidence"]))
    && (Below(raw, "87_ProjectPromotion/project_drafts") ==>
          ContainsAll(content, ["## Purpose", "## Scope", "## Source Evidence"]))
    && (Below(raw, "87_ProjectPromotion/work_order_drafts") ==>
          ContainsAll(content, ["## Mission", "## Required Outcome", "## Verification"]))
  }

  lemma {:induction false} CompleteExactly(raw: Path, s: Source, content: string)
    requires FromDrafts(raw, s)
    ensures Complete(raw, content) <==> HasSections(content, LaneOf(s))
  {
    hide Below, Contains, ContainsAll, HasSections;
    forall t: Source | FromDrafts(raw, t) ensures t == s { FoldersApart(raw, s, t); }
    assert FromDrafts(raw, DoctrineDrafts) <==> Below(raw, "80_DoctrinePromotion/drafts");
    assert FromDrafts(raw, DecisionDrafts) <==> Below(raw, "85_DecisionPromotion/drafts");
    assert FromDrafts(raw, ConceptDrafts) <==> Below(raw, "86_ConceptPromotion/drafts");
    assert FromDrafts(raw, ProjectDrafts) <==> Below(raw, "87_ProjectPromotion/project_drafts");
    assert FromDrafts(raw, WorkOrderDrafts) <==> Below(raw, "87_ProjectPromotion/work_order_drafts");
    SectionsWritten(content, LaneOf(s));
  }

  lemma {:induction false} SectionsWritten(content: string, lane: Lane)
    ensures HasSections(content, lane) <==> ContainsAll(content, RequiredSections(lane))
  {
    hide Contains, RequiredSections;
  }

  // ----- names

  /** Spaces and dashes only. */
  predicate Padding(s: string) { forall i :: 0 <= i < |s| ==> s[i] == ' ' || s[i] == '-' }

  /** Neither starting nor ending with a space or a dash. */
  predicate Bare(s: string)
  {
    s != "" && s[0] != ' ' && s[0] != '-' && s[|s| - 1] != ' ' && s[|s| - 1] != '-'
  }

  lemma {:induction false} TrimmedName(left: string, base: string, right: string)
    requires Padding(left) && Padding(right) && Bare(base)
    ensures Trim(left + base + right) == base
    decreases |left| + |right|
  {
    var s := left + base + right;
    if left != "" {
      assert s[1..] == left[1..] + base + right;
      TrimmedName(left[1..], base, right);
    } else if right != "" {
      assert s[..|s| - 1] == left + base + right[..|right| - 1];
      TrimmedName(left, base, right[..|right| - 1]);
    } else {
      assert s == base;
    }
  }

  lemma {:induction false} TrimmedAway(s: string)
    requires Padding(s)
    ensures Trim(s) == ""
  {
    if s != "" { TrimmedAway(s[1..]); }
  }

  /** A suffix without further dots is dropped from a name that has something before it. */
  lemma {:induction false} StemOf(stem: string, ending: string)
    requires stem != "" && ending != "" && '.' !in ending
    ensures Stem(stem + "." + ending) == stem
  {
    hide LastDot;
    DotBefore(stem, ending);
    assert (stem + "." + ending)[..|stem|] == stem;
  }

  lemma {:induction false} DotBefore(stem: string, ending: string)
    requires '.' !in ending
    ensures LastDot(stem + "." + ending) == |stem|
  {
    var s := stem + "." + ending;
    if ending == "" {
      assert s[|s| - 1] == '.';
    } else {
      assert s[|s| - 1] == ending[|ending| - 1];
      assert s[..|s| - 1] == stem + "." + ending[..|ending| - 1];
      DotBefore(stem, ending[..|ending| - 1]);
    }
  }

  /** One draft prefix, none included, in front of `rest`. A name without one must not look as if it had. */
  predicate Prefixed(stem: string, prefix: string, rest: string)
  {
    && stem == prefix + rest && prefix in ["", "DRAFT-", "PROJ-DRAFT-", "WO-DRAFT-", "CONCEPT-DRAFT-"]
    && (prefix == "" ==> !("DRAFT-" <= rest) && !("PROJ-DRAFT-" <= rest))
    && (prefix == "" ==> !("WO-DRAFT-" <= rest) && !("CONCEPT-DRAFT-" <= rest))
  }

  lemma {:induction false} PrefixDropped(stem: string, prefix: string, rest: string)
    requires Prefixed(stem, prefix, rest)
    ensures DropDraftPrefix(stem) == rest
  {
    StartsIsPrefix(stem, "DRAFT-");
    StartsIsPrefix(stem, "PROJ-DRAFT-");
    StartsIsPrefix(stem, "WO-DRAFT-");
    StartsIsPrefix(stem, "CONCEPT-DRAFT-");
    hide StartsWith;
    assert stem[|prefix|..] == rest;
    if prefix == "PROJ-DRAFT-" { OtherStart(stem, "DRAFT-", 0); }
    if prefix == "WO-DRAFT-" { OtherStart(stem, "DRAFT-", 0); OtherStart(stem, "PROJ-DRAFT-", 0); }
    if prefix == "CONCEPT-DRAFT-" {
      OtherStart(stem, "DRAFT-", 0);
      OtherStart(stem, "PROJ-DRAFT-", 0);
      OtherStart(stem, "WO-DRAFT-", 0);
    }
  }

  /** The official name: the draft's without its suffix, its draft prefix and the spaces and dashes around
      what is left, and with `.md`. */
  lemma {:induction false} OfficialName(prefix: string, left: string, base: string, right: string, ending: string)
    requires Prefixed(prefix + (left + base + right), prefix, left + base + right)
    requires Padding(left) && Padding(right) && Bare(base) && ending != "" && '.' !in ending
    ensures SafeOfficialName(prefix + (left + base + right) + "." + ending) == base + ".md"
  {
    hide Prefixed, Trim, DropDraftPrefix, Stem;
    var rest := left + base + right;
    StemOf(prefix + rest, ending);
    PrefixDropped(prefix + rest, prefix, rest);
    TrimmedName(left, base, right);
  }

  /** A name with nothing left keeps its stem. */
  lemma {:induction false} NamelessDraft(prefix: string, padding: string, ending: string)
    requires Prefixed(prefix + padding, prefix, padding) && Padding(padding)
    requires prefix + padding != "" && ending != "" && '.' !in ending
    ensures SafeOfficialName(prefix + padding + "." + ending) == prefix + padding + ".md"
  {
    hide Prefixed, Trim, DropDraftPrefix, Stem;
    StemOf(prefix + padding, ending);
    PrefixDropped(prefix + padding, prefix, padding);
    TrimmedAway(padding);
  }

  // ----- accepted notes

  /** The lane and folder the log gives for a draft. */
  predicate Labelled(raw: Path, lane: string, folder: string)
  {
    || (Below(raw, folder) && folder == "80_DoctrinePromotion/drafts" && lane == "doctrine")
    || (Below(raw, folder) && folder == "85_DecisionPromotion/drafts" && lane == "decision")
    || (Below(raw, folder) && folder == "86_ConceptPromotion/drafts" && lane == "concept")
    || (Below(raw, folder) && folder == "87_ProjectPromotion/project_drafts" && lane == "project")
    || (Below(raw, folder) && folder == "87_ProjectPromotion/work_order_drafts" && lane == "work_order")
  }

  lemma {:induction false} LabelledAs(raw: Path, s: Source)
    requires FromDrafts(raw, s)
    ensures Labelled(raw, LaneName(LaneOf(s)), Folder(s))
  {
    hide Below;
  }

  /** What holds of an acceptance: it was confirmed; its folder is the one requested, or the draft's own
      when none is; its draft is the one the argument points at, or else the only one found; its name is
      made from the draft's; and its log entry says so. */
  ghost predicate Placed(v: Vault, call: Call, outcome: Outcome)
    requires outcome.Accepted?
  {
    var plan, entry := outcome.plan, outcome.entry;
    && call.AcceptCall? && call.confirm && plan.draft != []
    && ((call.arg.place.Inside? && plan.draft == call.arg.place.path) || call.arg.found == [plan.draft])
    && plan.name == SafeOfficialName(plan.draft[|plan.draft| - 1])
    && (call.dest == "" ==> Home(plan.draft, plan.dest))
    && (call.dest != "" ==> Spells(call.dest, plan.dest))
    && plan.dest in {"03_Doctrine", "02_Decisions", "10_Ideas", "11_Projects"}
    && entry.timestamp == call.timestamp && entry.destFolder == plan.dest
    && entry.draftPath == v.name + "/" + Join(plan.draft, "/")
    && entry.officialPath == v.name + "/" + plan.dest + "/" + plan.name
    && Labelled(plan.draft, entry.lane, entry.sourceFolder)
  }

  lemma {:induction false} AcceptedPlaced(v: Vault, fs: FileTree, call: Call)
    requires OutcomeOf(v, fs, call).Accepted?
    ensures Placed(v, call, OutcomeOf(v, fs, call))
  {
    hide HasSections, MatchSource, SafeOfficialName, Locate, Folder, InferLane, ValidateDestination, Home, Spells,
         Labelled, DefaultDestination, FromDrafts, Join, LaneName, ResolveDraft;
    var outcome := OutcomeOf(v, fs, call);
    var plan := outcome.plan;
    AcceptedSafely(v, fs, call);
    AcceptedExactly(v, fs, call, plan.draft, plan.source);
    GuardNames(plan.draft, plan.source);
    HomeExactly(plan.draft, plan.source, plan.dest);
    RequestExactly(fs, call.dest, plan.dest);
    LabelledAs(plan.draft, plan.source);
    AllowedWritten(plan.dest);
    OfficialString(v, plan.dest, plan.name);
    ResolvedExactly(v, fs, call.arg, plan.draft);
  }

  /** Which draft an argument means: the file it points at, and where there is none the only one found. */
  lemma {:induction false} ResolvedExactly(v: Vault, fs: FileTree, arg: DraftArg, draft: Path)
    ensures ResolveDraft(v, fs, arg) == Ok(draft) <==>
      match arg.place
      case Inside(path) => if fs.Exists(Locate(v, path)) then draft == path else arg.found == [draft]
      case Outside(present) => !present && arg.found == [draft]
  {
    hide Locate;
  }

  lemma {:induction false} AllowedWritten(dest: string)
    ensures dest in ALLOWED_DESTINATIONS <==> dest in {"03_Doctrine", "02_Decisions", "10_Ideas", "11_Projects"}
  {
  }

  lemma {:induction false} OfficialString(v: Vault, dest: string, name: string)
    ensures PathString(v, [dest, name]) == v.name + "/" + dest + "/" + name
  {
    assert Join([dest, name], "/") == dest + "/" + name;
    assert v.name + "/" + (dest + "/" + name) == v.name + "/" + dest + "/" + name;
  }

  /** The calls that accept, in step with the acceptances. */
  function Accepting(v: Vault, fs: FileTree, calls: seq<Call>, n: nat): (accepting: seq<Call>)
    requires n <= |calls|
    ensures |accepting| == |Acceptances(v, fs, calls, n)|
  {
    if n == 0 then []
    else
      Accepting(v, fs, calls, n - 1) +
      if OutcomeOf(v, Run(v, fs, calls, n - 1), calls[n - 1]).Accepted? then [calls[n - 1]] else []
  }

  /** Over every run, however drafts are written: each acceptance is placed, named and logged as its call
      asks; and unless its draft climbs to one of the assistant's own files, the note has the sections its
      folder demands. */
  lemma {:induction false} RunsPlaced(v: Vault, fs: FileTree, calls: seq<Call>, n: nat, k: nat)
    requires n <= |calls| && k < |Acceptances(v, fs, calls, n)|
    ensures Acceptances(v, fs, calls, n)[k].Accepted?
    ensures var outcome, now := Acceptances(v, fs, calls, n)[k], Run(v, fs, calls, n);
      && Placed(v, Accepting(v, fs, calls, n)[k], outcome)
      && Official(outcome) in now.files
      && (Bookkeeping(Locate(v, outcome.plan.draft)) || Complete(outcome.plan.draft, now.files[Official(outcome)]))
  {
    hide After, OutcomeOf, Bookkeeping, Placed, Complete, Locate, HasSections, MatchSource, Kept, NothingElse, Run;
    RunsKeep(v, fs, calls, n);
    var outcome, now := Acceptances(v, fs, calls, n)[k], Run(v, fs, calls, n);
    assert AllowedNote(v, fs, now, outcome);
    PlacedInRun(v, fs, calls, n, k);
    GuardNames(outcome.plan.draft, outcome.plan.source);
    CompleteExactly(outcome.plan.draft, outcome.plan.source, now.files[Official(outcome)]);
  }

  lemma {:induction false} PlacedInRun(v: Vault, fs: FileTree, calls: seq<Call>, n: nat, k: nat)
    requires n <= |calls| && k < |Acceptances(v, fs, calls, n)|
    ensures Acceptances(v, fs, calls, n)[k].Accepted?
    ensures Placed(v, Accepting(v, fs, calls, n)[k], Acceptances(v, fs, calls, n)[k])
  {
    hide OutcomeOf, Placed, Run;
    if k < |Acceptances(v, fs, calls, n - 1)| {
      PlacedInRun(v, fs, calls, n - 1, k);
    } else {
      AcceptedPlaced(v, Run(v, fs, calls, n - 1), calls[n - 1]);
    }
  }

  /** On components, the folder is what the path starts with. */
  lemma {:induction false} FromComponents(raw: Path, s: Source)
    requires Components(raw)
    ensures FromDrafts(raw, s) <==> FolderPath(s) <= Initial(raw)
  {
    hide MatchSource, FromDrafts, FolderPath, Components;
    GuardExactly(raw, s);
    GuardNames(raw, s);
  }

  // ----- refusals

  ghost predicate NoDrafts(raw: Path) { forall s :: !FromDrafts(raw, s) }

  /** A request spells no folder of the four. */
  ghost predicate SpellsNone(request: string)
  {
    && !Spells(request, "03_Doctrine") && !Spells(request, "02_Decisions")
    && !Spells(request, "10_Ideas") && !Spells(request, "11_Projects")
  }

  lemma {:induction false} RequestRefused(fs: FileTree, request: string)
    ensures ValidateDestination(fs, request) == Err(DestinationNotAllowed) <==> SpellsNone(request)
    ensures ValidateDestination(fs, request).Err? ==>
      ValidateDestination(fs, request).error in {DestinationNotAllowed, DestinationMissing}
  {
    hide Spells, ReplaceAll, TrimRight, DropPrefix, ALLOWED_DESTINATIONS;
    var folder := DropPrefix(TrimRight(ReplaceAll(request, "\\", "/"), '/'), "WilliamOS/");
    AllowedWritten(folder);
    var everywhere := FileTree(map[], {["03_Doctrine"], ["02_Decisions"], ["10_Ideas"], ["11_Projects"]});
    RequestExactly(everywhere, request, "03_Doctrine");
    RequestExactly(everywhere, request, "02_Decisions");
    RequestExactly(everywhere, request, "10_Ideas");
    RequestExactly(everywhere, request, "11_Projects");
  }

  /** Why no plan is made: the first of these that applies. */
  lemma {:induction false} RefusalsExactly(v: Vault, fs: FileTree, arg: DraftArg, dest: string)
    ensures var plan, draft := MakePlan(v, fs, arg, dest), ResolveDraft(v, fs, arg);
      && (plan == Err(DraftNotInVault) <==> arg.place == Outside(true))
      && (plan == Err(DraftNotFound) <==> draft.Err? && arg.place != Outside(true))
      && (plan == Err(NotADraftFolder) <==> draft.Ok? && NoDrafts(draft.value))
      && (plan == Err(DestinationNotAllowed) <==>
            draft.Ok? && !NoDrafts(draft.value) && dest != "" && SpellsNone(dest))
      && (plan.Err? ==> plan.error != AlreadyOfficial && plan.error != MissingSections)
  {
    hide Locate, MatchSource, SpellsNone, ValidateDestination, HasSections, FromDrafts, SafeOfficialName, InferLane;
    RequestRefused(fs, dest);
    var draft := ResolveDraft(v, fs, arg);
    if draft.Ok? { NoDraftsExactly(draft.value); }
  }

  lemma {:induction false} NoDraftsExactly(raw: Path)
    ensures MatchSource(raw) == None <==> NoDrafts(raw)
  {
    hide MatchSource, FromDrafts;
    forall s: Source ensures MatchSource(raw) == Some(s) <==> FromDrafts(raw, s) { GuardNames(raw, s); }
  }

  /** What blocks a plan that is made. */
  lemma {:induction false} BlockedExactly(v: Vault, fs: FileTree, arg: DraftArg, dest: string)
    requires MakePlan(v, fs, arg, dest).Ok?
    ensures var plan := MakePlan(v, fs, arg, dest).value;
      && (AlreadyOfficial in plan.errors <==> fs.Exists([plan.dest, plan.name]))
      && (MissingSections in plan.errors <==> !Complete(plan.draft, fs.Content(Locate(v, plan.draft))))
      && (forall e :: e in plan.errors ==> e == AlreadyOfficial || e == MissingSections)
  {
    hide Locate, MatchSource, ValidateDestination, HasSections, FromDrafts, SafeOfficialName, InferLane, Complete,
         ResolveDraft, Folder;
    var plan := MakePlan(v, fs, arg, dest).value;
    GuardNames(plan.draft, plan.source);
    CompleteExactly(plan.draft, plan.source, fs.Content(Locate(v, plan.draft)));
    FolderLanes(plan.source);
  }

  // ----- the assistant's own files

  lemma {:induction false} OwnFiles(p: Path)
    ensures Bookkeeping(p) <==>
      || p == ["98_OfficialAcceptance", "logs", "ACCEPTANCE_LOG.md"]
      || (|p| == 3 && p[0] == "98_OfficialAcceptance" && p[1] == "plans")
  {
  }

  /** Whatever becomes of it, a plan that is made is written as the plan of its day. */
  lemma {:induction false} PlanWritten(v: Vault, fs: FileTree, call: Call)
    requires MakePlan(v, fs, call.arg, call.dest).Ok? && (call.AcceptCall? ==> call.confirm)
    ensures var plan := ["98_OfficialAcceptance", "plans", "Acceptance Plan - " + call.date + ".md"];
      plan in After(v, fs, call).files && After(v, fs, call).files[plan] == call.text
  {
    hide MakePlan, EntryOf, Appended, LogOf, Locate;
    AcceptanceStart();
  }
}
