/** The acceptance assistant: validating a draft, planning and executing its copy into an official
    folder, on a vault of files that only this machine changes. */
module Acceptance {
  import opened Results
  import opened Strings
  import opened AcceptanceLog

  /** Path components. A path as written has no empty and no `.` component, but may climb by `..`. */
  type Path = seq<string>

  /** How the vault is spelled, and where it lies: its components from the root of the disk. */
  datatype Vault = Vault(name: string, root: Path)

  function Initial(p: Path): Path { if p == [] then [] else p[..|p| - 1] }

  /** Down a component, or up for `..`; above the root is the root. */
  function Step(p: Path, component: string): Path
  {
    if component == ".." then Initial(p) else p + [component]
  }

  function Follow(p: Path, raw: Path, n: nat): Path
    requires n <= |raw|
  {
    if n == 0 then p else Step(Follow(p, raw, n - 1), raw[n - 1])
  }

  /** No component can be a slash. */
  const OUTSIDE := "/"

  /** Which file a path below the vault reaches: named from the vault, or from the root of the disk when it
      climbs out. */
  function Locate(v: Vault, raw: Path): Path
  {
    var reached := Follow(v.root, raw, |raw|);
    if v.root <= reached then reached[|v.root|..] else [OUTSIDE] + reached
  }

  /** All files, named as `Locate` names them. */
  datatype FileTree = FileTree(files: map<Path, string>, dirs: set<Path>)
  {
    predicate Exists(p: Path) { p in files || p in dirs }
    /** Reading a directory or a missing file fails, and the reader falls back to no content. */
    function Content(p: Path): string { if p in files then files[p] else "" }
    function Write(p: Path, text: string): FileTree { FileTree(files[p := text], dirs) }
    function MakeDirs(ps: set<Path>): FileTree { FileTree(files, dirs + ps) }
  }

  datatype Lane = DoctrineLane | DecisionLane | ConceptLane | ProjectLane | WorkOrderLane | UnknownLane

  function LaneName(lane: Lane): string
  {
    match lane
    case DoctrineLane => "doctrine"
    case DecisionLane => "decision"
    case ConceptLane => "concept"
    case ProjectLane => "project"
    case WorkOrderLane => "work_order"
    case UnknownLane => "unknown"
  }

  /** The promotion folders, in the order they are tried. */
  datatype Source = DoctrineDrafts | DecisionDrafts | ConceptDrafts | ProjectDrafts | WorkOrderDrafts

  function Folder(s: Source): string
  {
    match s
    case DoctrineDrafts => "80_DoctrinePromotion/drafts"
    case DecisionDrafts => "85_DecisionPromotion/drafts"
    case ConceptDrafts => "86_ConceptPromotion/drafts"
    case ProjectDrafts => "87_ProjectPromotion/project_drafts"
    case WorkOrderDrafts => "87_ProjectPromotion/work_order_drafts"
  }

  function DefaultDestination(s: Source): string
  {
    match s
    case DoctrineDrafts => "03_Doctrine"
    case DecisionDrafts => "02_Decisions"
    case ConceptDrafts => "10_Ideas"
    case ProjectDrafts => "11_Projects"
    case WorkOrderDrafts => "11_Projects"
  }

  const ALLOWED_DESTINATIONS: set<string> := {"03_Doctrine", "02_Decisions", "10_Ideas", "11_Projects"}

  function InferLane(folder: string): Lane
  {
    if Contains(folder, "DoctrinePromotion") then DoctrineLane
    else if Contains(folder, "DecisionPromotion") then DecisionLane
    else if Contains(folder, "ConceptPromotion") then
      if Contains(folder, "work_order") then WorkOrderLane else ConceptLane
    else if Contains(folder, "ProjectPromotion") then
      if Contains(folder, "work_order") then WorkOrderLane else ProjectLane
    else UnknownLane
  }

  function RequiredSections(lane: Lane): seq<string>
  {
    match lane
    case DoctrineLane => ["## Rule", "## Meaning", "## Source Evidence"]
    case DecisionLane => ["## Decision", "## Context", "## Rationale", "## Source Evidence"]
    case ConceptLane => ["## Definition", "## Why It Matters", "## Source Evidence"]
    case ProjectLane => ["## Purpose", "## Scope", "## Source Evidence"]
    case WorkOrderLane => ["## Mission", "## Required Outcome", "## Verification"]
    case UnknownLane => []
  }

  predicate HasSections(content: string, lane: Lane)
  {
    forall i :: 0 <= i < |RequiredSections(lane)| ==> Contains(content, RequiredSections(lane)[i])
  }

  // ----- names

  /** `Path(name).stem` */
  function Stem(name: string): string
  {
    var i := LastDot(name);
    if 0 < i < |name| - 1 then name[..i] else name
  }

  /** At most one of the draft prefixes is dropped. */
  function DropDraftPrefix(s: string): string
  {
    if StartsWith(s, "DRAFT-") then DropPrefix(s, "DRAFT-")
    else if StartsWith(s, "PROJ-DRAFT-") then DropPrefix(s, "PROJ-DRAFT-")
    else if StartsWith(s, "WO-DRAFT-") then DropPrefix(s, "WO-DRAFT-")
    else DropPrefix(s, "CONCEPT-DRAFT-")
  }

  /** `s.strip(" -")` */
  function Trim(s: string): string
    decreases |s|
  {
    if s != "" && (s[0] == ' ' || s[0] == '-') then Trim(s[1..])
    else if s != "" && (s[|s| - 1] == ' ' || s[|s| - 1] == '-') then Trim(s[..|s| - 1])
    else s
  }

  function SafeOfficialName(draftName: string): string
  {
    var stem := Trim(DropDraftPrefix(Stem(draftName)));
    (if stem == "" then Stem(draftName) else stem) + ".md"
  }

  /** The draft's folder as a string, with backslashes turned around. */
  function ParentString(p: Path): string
  {
    ReplaceAll(Join(Initial(p), "/"), "\\", "/")
  }

  predicate Under(parent: string, s: Source)
  {
    parent == Folder(s) || StartsWith(parent, Folder(s) + "/")
  }

  /** The folder guard looks at the path as written, not at the file it reaches. */
  function MatchSource(p: Path): Option<Source>
  {
    var parent := ParentString(p);
    if Under(parent, DoctrineDrafts) then Some(DoctrineDrafts)
    else if Under(parent, DecisionDrafts) then Some(DecisionDrafts)
    else if Under(parent, ConceptDrafts) then Some(ConceptDrafts)
    else if Under(parent, ProjectDrafts) then Some(ProjectDrafts)
    else if Under(parent, WorkOrderDrafts) then Some(WorkOrderDrafts)
    else None
  }

  // ----- validation and planning

  /** A draft argument: where it points, and what searching the vault for its file name finds. */
  datatype Place = Inside(path: Path) | Outside(present: bool)
  datatype DraftArg = DraftArg(place: Place, found: seq<Path>)

  datatype Error =
    | DraftNotFound | DraftNotInVault | NotADraftFolder
    | DestinationNotAllowed | DestinationMissing | AlreadyOfficial | MissingSections

  function Search(arg: DraftArg): Result<Path, Error>
  {
    if |arg.found| == 1 then Ok(arg.found[0]) else Err(DraftNotFound)
  }

  function ResolveDraft(v: Vault, fs: FileTree, arg: DraftArg): Result<Path, Error>
  {
    match arg.place
    case Inside(p) => if fs.Exists(Locate(v, p)) then Ok(p) else Search(arg)
    case Outside(present) => if present then Err(DraftNotInVault) else Search(arg)
  }

  /** An override names any allowed folder that exists; the lane's own folder is not required. */
  function ValidateDestination(fs: FileTree, dest: string): Result<string, Error>
  {
    var folder := DropPrefix(TrimRight(ReplaceAll(dest, "\\", "/"), '/'), "WilliamOS/");
    if folder !in ALLOWED_DESTINATIONS then Err(DestinationNotAllowed)
    else if !fs.Exists([folder]) then Err(DestinationMissing)
    else Ok(folder)
  }

  datatype Plan = Plan(draft: Path, source: Source, lane: Lane, dest: string, name: string, errors: seq<Error>)
  {
    function Official(): Path { [dest, name] }
  }

  function MakePlan(v: Vault, fs: FileTree, arg: DraftArg, dest: string): Result<Plan, Error>
  {
    match ResolveDraft(v, fs, arg)
    case Err(e) => Err(e)
    case Ok(draft) =>
      match MatchSource(draft)
      case None => Err(NotADraftFolder)
      case Some(source) =>
        match if dest == "" then Ok(DefaultDestination(source)) else ValidateDestination(fs, dest)
        case Err(e) => Err(e)
        case Ok(folder) =>
          var lane := InferLane(Folder(source));
          var name := SafeOfficialName(if draft == [] then "" else draft[|draft| - 1]);
          Ok(Plan(draft, source, lane, folder, name,
                  (if fs.Exists([folder, name]) then [AlreadyOfficial] else []) +
                  (if HasSections(fs.Content(Locate(v, draft)), lane) then [] else [MissingSections])))
  }

  const ACCEPTANCE := "98_OfficialAcceptance"
  const LOG_PATH: Path := [ACCEPTANCE, "logs", "ACCEPTANCE_LOG.md"]
  const ACCEPTANCE_DIRS: set<Path> := {[ACCEPTANCE], [ACCEPTANCE, "plans"], [ACCEPTANCE, "logs"]}

  function PlanPath(date: string): Path { [ACCEPTANCE, "plans", "Acceptance Plan - " + date + ".md"] }

  function LogOf(fs: FileTree): Option<string>
  {
    if LOG_PATH in fs.files then Some(fs.files[LOG_PATH]) else None
  }

  /** Planning writes the plan of the day, valid or blocked; failed validation writes nothing. */
  function Planned(v: Vault, fs: FileTree, arg: DraftArg, dest: string, date: string, text: string): FileTree
  {
    if MakePlan(v, fs, arg, dest).Ok? then fs.MakeDirs(ACCEPTANCE_DIRS).Write(PlanPath(date), text) else fs
  }

  datatype Outcome = NotConfirmed | Rejected | Accepted(plan: Plan, entry: Entry)

  function PathString(v: Vault, p: Path): string { v.name + "/" + Join(p, "/") }

  function EntryOf(v: Vault, plan: Plan, timestamp: string): Entry
  {
    Entry(timestamp, PathString(v, plan.draft), PathString(v, plan.Official()),
          LaneName(plan.lane), Folder(plan.source), plan.dest)
  }

  /** One call of the assistant. `text` is the rendered plan, `timestamp` the time of writing. */
  datatype Call =
    | PlanCall(arg: DraftArg, dest: string, date: string, text: string)
    | AcceptCall(arg: DraftArg, dest: string, confirm: bool, date: string, text: string, timestamp: string)

  function OutcomeOf(v: Vault, fs: FileTree, call: Call): Outcome
  {
    match call
    case PlanCall(_, _, _, _) => NotConfirmed
    case AcceptCall(arg, dest, confirm, _, _, timestamp) =>
      if !confirm then NotConfirmed
      else
        match MakePlan(v, fs, arg, dest)
        case Err(_) => Rejected
        case Ok(plan) => if plan.errors == [] then Accepted(plan, EntryOf(v, plan, timestamp)) else Rejected
  }

  function After(v: Vault, fs: FileTree, call: Call): FileTree
  {
    match call
    case PlanCall(arg, dest, date, text) => Planned(v, fs, arg, dest, date, text)
    case AcceptCall(arg, dest, confirm, date, text, _) =>
      if !confirm then fs
      else
        var planned := Planned(v, fs, arg, dest, date, text);
        match OutcomeOf(v, fs, call)
        case Accepted(plan, entry) =>
          var copied := planned.MakeDirs({[plan.dest]}).Write(plan.Official(), planned.Content(Locate(v, plan.draft)));
          copied.Write(LOG_PATH, Appended(LogOf(copied), entry))
        case _ => planned
  }

  /** A valid plan targets an allowed folder and a path nothing occupies. */
  lemma {:induction false} PlanTarget(v: Vault, fs: FileTree, arg: DraftArg, dest: string)
    requires MakePlan(v, fs, arg, dest).Ok?
    ensures var plan := MakePlan(v, fs, arg, dest).value;
      plan.dest in ALLOWED_DESTINATIONS && (plan.errors == [] ==> !fs.Exists(plan.Official()))
  {
    hide HasSections, ParentString, SafeOfficialName, InferLane, Folder, MatchSource, Locate;
  }

  // ----- the machine

  class Assistant {
    const vault: Vault
    var fs: FileTree

    constructor (vault: Vault, fs: FileTree)
      ensures this.vault == vault && this.fs == fs
    {
      this.vault, this.fs := vault, fs;
    }

    method CheckRequiredSections(content: string, lane: Lane) returns (found: seq<string>, missing: seq<string>)
      ensures forall s :: s in missing <==> s in RequiredSections(lane) && !Contains(content, s)
      ensures forall s :: s in found <==> s in RequiredSections(lane) && Contains(content, s)
      ensures missing == [] <==> HasSections(content, lane)
    {
      found, missing := [], [];
      hide RequiredSections, Contains;
      var required := RequiredSections(lane);
      for i := 0 to |required|
        invariant forall s :: s in missing <==> s in required[..i] && !Contains(content, s)
        invariant forall s :: s in found <==> s in required[..i] && Contains(content, s)
        invariant missing == [] <==> forall k :: 0 <= k < i ==> Contains(content, required[k])
      {
        assert required[..i + 1] == required[..i] + [required[i]];
        if Contains(content, required[i]) {
          found := found + [required[i]];
        } else {
          missing := missing + [required[i]];
        }
      }
      assert required[..|required|] == required;
    }

    method GeneratePlan(arg: DraftArg, dest: string, date: string, text: string) returns (r: Result<Plan, Error>)
      modifies this`fs
      ensures r == MakePlan(vault, old(fs), arg, dest)
      ensures fs == Planned(vault, old(fs), arg, dest, date, text)
    {
      hide HasSections, ParentString, SafeOfficialName, InferLane, Folder, Locate;
      var resolved := ResolveDraft(vault, fs, arg);
      if resolved.Err? { return Err(resolved.error); }
      var draft := resolved.value;
      var source := MatchSource(draft);
      if source.None? { return Err(NotADraftFolder); }
      var folder;
      if dest != "" {
        var validated := ValidateDestination(fs, dest);
        if validated.Err? { return Err(validated.error); }
        folder := validated.value;
      } else {
        folder := DefaultDestination(source.value);
      }
      var name := SafeOfficialName(if draft == [] then "" else draft[|draft| - 1]);
      var lane := InferLane(Folder(source.value));
      var errors := [];
      if fs.Exists([folder, name]) { errors := errors + [AlreadyOfficial]; }
      var found, missing := CheckRequiredSections(fs.Content(Locate(vault, draft)), lane);
      if missing != [] { errors := errors + [MissingSections]; }
      assert errors == (if fs.Exists([folder, name]) then [AlreadyOfficial] else [])
                     + (if HasSections(fs.Content(Locate(vault, draft)), lane) then [] else [MissingSections]);
      fs := fs.MakeDirs(ACCEPTANCE_DIRS);
      fs := fs.Write(PlanPath(date), text);
      r := Ok(Plan(draft, source.value, lane, folder, name, errors));
    }

    method WriteLogEntry(entry: Entry)
      modifies this`fs
      ensures fs == old(fs).MakeDirs(ACCEPTANCE_DIRS).Write(LOG_PATH, Appended(LogOf(old(fs)), entry))
    {
      fs := fs.MakeDirs(ACCEPTANCE_DIRS);
      if LOG_PATH !in fs.files {
        fs := fs.Write(LOG_PATH, HEADER + "\n" + EntryText(entry));
      } else {
        fs := fs.Write(LOG_PATH, fs.files[LOG_PATH] + EntryText(entry));
      }
    }

    method AcceptDraft(arg: DraftArg, dest: string, confirm: bool, date: string, text: string, timestamp: string)
      returns (outcome: Outcome)
      modifies this`fs
      ensures outcome == OutcomeOf(vault, old(fs), AcceptCall(arg, dest, confirm, date, text, timestamp))
      ensures fs == After(vault, old(fs), AcceptCall(arg, dest, confirm, date, text, timestamp))
    {
      hide MakePlan, EntryOf, Appended, LogOf, Locate;
      if !confirm { return NotConfirmed; }
      ghost var before := fs;
      var planned := GeneratePlan(arg, dest, date, text);
      if planned.Ok? { PlanTarget(vault, before, arg, dest); }
      if planned.Err? || planned.value.errors != [] { return Rejected; }
      var plan := planned.value;
      if fs.Exists(plan.Official()) { return Rejected; }
      fs := fs.MakeDirs({[plan.dest]});
      fs := fs.Write(plan.Official(), fs.Content(Locate(vault, plan.draft)));
      var entry := EntryOf(vault, plan, timestamp);
      WriteLogEntry(entry);
      outcome := Accepted(plan, entry);
    }
  }
}
