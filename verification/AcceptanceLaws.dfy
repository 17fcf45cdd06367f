/** What every run of the acceptance assistant keeps: nothing existing is changed but its own log and
    plans, and everything new is a complete draft in an allowed folder, accepted once and logged. A
    draft written with `..` components may reach a file outside the promotion folder it names; what
    holds then is said apart. */
module AcceptanceLaws {
  import opened Results
  import opened Strings
  import opened AcceptanceLog
  import opened AcceptanceLogLaws
  import opened Acceptance

  /** The assistant's own files: its log and its plans. */
  predicate Bookkeeping(p: Path)
  {
    p == LOG_PATH || (|p| == 3 && p[0] == ACCEPTANCE && p[1] == "plans")
  }

  // ----- the folder guard, on components

  function FolderPath(s: Source): Path
  {
    match s
    case DoctrineDrafts => ["80_DoctrinePromotion", "drafts"]
    case DecisionDrafts => ["85_DecisionPromotion", "drafts"]
    case ConceptDrafts => ["86_ConceptPromotion", "drafts"]
    case ProjectDrafts => ["87_ProjectPromotion", "project_drafts"]
    case WorkOrderDrafts => ["87_ProjectPromotion", "work_order_drafts"]
  }

  /** What the separators leave of a path: never empty, and without a separator of either kind. */
  predicate Component(c: string) { c != "" && '/' !in c && '\\' !in c }

  ghost predicate Components(p: Path) { forall i :: 0 <= i < |p| ==> Component(p[i]) }

  predicate Spelled(s: Source)
  {
    && |FolderPath(s)| == 2 && Folder(s) == FolderPath(s)[0] + "/" + FolderPath(s)[1]
    && Component(FolderPath(s)[0]) && Component(FolderPath(s)[1])
    && FolderPath(s)[0][0] == '8' && FolderPath(s)[1][0] != '.'
  }

  lemma {:induction false} DoctrineSpelled()
    ensures Spelled(DoctrineDrafts)
  {
  }

  lemma {:induction false} DecisionSpelled()
    ensures Spelled(DecisionDrafts)
  {
  }

  lemma {:induction false} ConceptSpelled()
    ensures Spelled(ConceptDrafts)
  {
  }

  lemma {:induction false} ProjectSpelled()
    ensures Spelled(ProjectDrafts)
  {
  }

  lemma {:induction false} WorkOrderSpelled()
    ensures Spelled(WorkOrderDrafts)
  {
  }

  lemma {:induction false} FoldersSpelled(s: Source)
    ensures Spelled(s)
  {
    hide Spelled;
    match s
    case DoctrineDrafts => DoctrineSpelled();
    case DecisionDrafts => DecisionSpelled();
    case ConceptDrafts => ConceptSpelled();
    case ProjectDrafts => ProjectSpelled();
    case WorkOrderDrafts => WorkOrderSpelled();
  }

  lemma {:induction false} FolderComponents(s: Source)
    ensures |FolderPath(s)| == 2 && Component(FolderPath(s)[0]) && Component(FolderPath(s)[1])
    ensures FolderPath(s)[0][0] == '8' && FolderPath(s)[0] != ".." && FolderPath(s)[1] != ".."
    ensures Folder(s) == FolderPath(s)[0] + "/" + FolderPath(s)[1]
  {
    hide Folder, FolderPath;
    FoldersSpelled(s);
  }

  lemma {:induction false} FoldersDiffer(s: Source, t: Source)
    requires FolderPath(s) == FolderPath(t)
    ensures s == t
  {
    assert |"project_drafts"| == 14 && |"work_order_drafts"| == 17;
    assert "80_DoctrinePromotion"[1] == '0' && "85_DecisionPromotion"[1] == '5';
    assert "86_ConceptPromotion"[1] == '6' && "87_ProjectPromotion"[1] == '7';
  }

  lemma {:induction false} ComponentsJoined(p: Path)
    requires p != [] && Components(p)
    ensures Split(Join(p, "/"), '/') == p && '\\' !in Join(p, "/")
  {
    hide Split;
    forall i | 0 <= i < |p| ensures '/' !in p[i] { assert Component(p[i]); }
    SplitJoined(p, '/');
    hide Components;
    NoBackslashes(p);
  }

  lemma {:induction false} NoBackslashes(p: Path)
    requires Components(p)
    ensures '\\' !in Join(p, "/")
  {
    if p != [] {
      assert Component(p[0]);
      TailComponents(p);
      NoBackslashes(p[1..]);
    }
  }

  lemma {:induction false} TailComponents(p: Path)
    requires Components(p) && p != []
    ensures Components(p[1..])
  {
    hide Component;
  }

  lemma {:induction false} UnderExactly(parent: Path, s: Source)
    requires Components(parent)
    ensures Under(Join(parent, "/"), s) <==> FolderPath(s) <= parent
  {
    hide Components, Component, Split, Folder, FolderPath;
    FolderComponents(s);
    var joined, a, b := Join(parent, "/"), FolderPath(s)[0], FolderPath(s)[1];
    ComponentOf(a);
    ComponentOf(b);
    if Under(joined, s) {
      UnderSplits(joined, a, b, s);
      if parent == [] { SplitLast("", '/'); } else { ComponentsJoined(parent); }
    }
    if FolderPath(s) <= parent {
      JoinedUnder(parent, a, b);
    }
  }

  lemma {:induction false} ComponentOf(c: string)
    requires Component(c)
    ensures c != "" && '/' !in c && '\\' !in c
  {
  }

  lemma {:induction false} UnderSplits(joined: string, a: string, b: string, s: Source)
    requires Under(joined, s) && Folder(s) == a + "/" + b && '/' !in a && '/' !in b
    ensures [a, b] <= Split(joined, '/')
  {
    hide Split, Folder;
    if joined == Folder(s) {
      SplitLine(a, b, '/');
      SplitLast(b, '/');
    } else {
      var tail := joined[|Folder(s)| + 1..];
      assert joined == Folder(s) + "/" + tail;
      assert joined == a + "/" + (b + "/" + tail);
      SplitLine(a, b + "/" + tail, '/');
      SplitLine(b, tail, '/');
    }
  }

  lemma {:induction false} JoinedUnder(parent: Path, a: string, b: string)
    requires |parent| >= 2 && parent[0] == a && parent[1] == b
    ensures Join(parent, "/") == a + "/" + b || StartsWith(Join(parent, "/"), a + "/" + b + "/")
  {
    var rest := parent[1..];
    assert Join(parent, "/") == a + "/" + Join(rest, "/");
    if |rest| > 1 {
      var tail := Join(rest[1..], "/");
      assert Join(rest, "/") == b + "/" + tail;
      assert a + "/" + (b + "/" + tail) == (a + "/" + b + "/") + tail;
    }
  }

  /** For a path of components the guard asks exactly that it be written below a promotion folder. */
  lemma {:induction false} GuardExactly(raw: Path, s: Source)
    requires Components(raw)
    ensures MatchSource(raw) == Some(s) <==> FolderPath(s) <= Initial(raw)
  {
    hide Components, Folder, FolderPath, Under, ReplaceAll, Join;
    var parent := Initial(raw);
    InitialComponents(raw);
    if parent == [] { JoinedNothing(); } else { ComponentsJoined(parent); }
    ReplaceAllAbsent(Join(parent, "/"), '\\', "/");
    forall t: Source ensures Under(ParentString(raw), t) <==> FolderPath(t) <= parent { UnderExactly(parent, t); }
    forall t: Source | FolderPath(s) <= parent && FolderPath(t) <= parent ensures t == s {
      FolderComponents(s);
      FolderComponents(t);
      assert FolderPath(s) == parent[..2] == FolderPath(t);
      FoldersDiffer(s, t);
    }
  }

  lemma {:induction false} InitialComponents(raw: Path)
    requires Components(raw)
    ensures Components(Initial(raw))
  {
    hide Component;
  }

  lemma {:induction false} JoinedNothing()
    ensures Join([], "/") == ""
  {
  }

  // ----- climbing

  /** What a path amounts to: so many steps up, then down these components. */
  datatype Net = Net(up: nat, down: Path)

  function NetOf(raw: Path, n: nat): Net
    requires n <= |raw|
  {
    if n == 0 then Net(0, [])
    else
      var net := NetOf(raw, n - 1);
      if raw[n - 1] != ".." then Net(net.up, net.down + [raw[n - 1]])
      else if net.down == [] then Net(net.up + 1, [])
      else Net(net.up, Initial(net.down))
  }

  function Up(p: Path, k: nat): (kept: Path)
    ensures kept <= p
  {
    if k <= |p| then p[..|p| - k] else []
  }

  /** The components a climb of `k` steps leaves behind. */
  function LeftBehind(p: Path, k: nat): Path { p[|Up(p, k)|..] }

  lemma {:induction false} FollowIsNet(p: Path, raw: Path, n: nat)
    requires n <= |raw|
    ensures Follow(p, raw, n) == Up(p, NetOf(raw, n).up) + NetOf(raw, n).down
  {
    if n > 0 { FollowIsNet(p, raw, n - 1); }
  }

  lemma {:induction false} UpAndBack(p: Path, k: nat, down: Path)
    ensures p == Up(p, k) + LeftBehind(p, k)
    ensures p <= Up(p, k) + down <==> LeftBehind(p, k) <= down
    ensures p <= Up(p, k) + down ==> (Up(p, k) + down)[|p|..] == down[|LeftBehind(p, k)|..]
  {
    hide Up;
    var kept, lost := Up(p, k), LeftBehind(p, k);
    assert p == kept + lost;
    PrefixAfter(kept, lost, down);
    if lost <= down { assert kept + down == p + down[|lost|..]; }
  }

  /** The check on a written path, its climbs undone: it comes down through everything it climbed out of,
      and then through the folder. */
  predicate StaysBelow(v: Vault, raw: Path, s: Source)
  {
    var net := NetOf(raw, |raw|);
    LeftBehind(v.root, net.up) + FolderPath(s) <= net.down
  }

  /** It says exactly when the file reached lies in the folder. */
  lemma {:induction false} ReachesFolderExactly(v: Vault, raw: Path, s: Source)
    ensures FolderPath(s) <= Locate(v, raw) <==> StaysBelow(v, raw, s)
  {
    hide Up, NetOf, Follow, FolderPath, LeftBehind;
    var net := NetOf(raw, |raw|);
    var lost := LeftBehind(v.root, net.up);
    FollowIsNet(v.root, raw, |raw|);
    UpAndBack(v.root, net.up, net.down);
    FolderComponents(s);
    PrefixDrops(lost, FolderPath(s), net.down);
    if lost <= net.down {
      assert net.down == lost + net.down[|lost|..];
      PrefixAfter(lost, FolderPath(s), net.down[|lost|..]);
    } else {
      assert Locate(v, raw)[0] == OUTSIDE;
    }
  }

  lemma {:induction false} PrefixAfter(a: Path, b: Path, c: Path)
    ensures a + b <= a + c <==> b <= c
  {
    if a + b <= a + c { assert (a + b)[|a|..] == b && (a + c)[|a|..|a| + |b|] == b; }
  }

  lemma {:induction false} PrefixDrops(a: Path, b: Path, c: Path)
    ensures a + b <= c ==> a <= c
  {
    if a + b <= c { assert a == (a + b)[..|a|] == c[..|a|]; }
  }

  lemma {:induction false} FollowDown(p: Path, s: Source, rest: Path, n: nat)
    requires n <= |rest|
    ensures Follow(p, FolderPath(s) + rest, 2 + n) == Follow(p + FolderPath(s), rest, n)
  {
    hide FolderPath;
    FolderComponents(s);
    if n > 0 {
      FollowDown(p, s, rest, n - 1);
    } else {
      var raw := FolderPath(s) + rest;
      assert Follow(p, raw, 1) == p + [FolderPath(s)[0]];
      assert Follow(p, raw, 2) == p + [FolderPath(s)[0]] + [FolderPath(s)[1]];
    }
  }

  /** Behind the folder the file reached stays in it exactly when the rest of the path never climbs above
      it, or climbs and comes down again through what it left. */
  lemma {:induction false} StaysExactly(v: Vault, s: Source, rest: Path)
    ensures var net := NetOf(rest, |rest|);
      FolderPath(s) <= Locate(v, FolderPath(s) + rest)
      <==> net.up == 0 || LeftBehind(v.root + FolderPath(s), net.up) <= net.down
  {
    hide Up, NetOf, Follow, FolderPath;
    var base, net := v.root + FolderPath(s), NetOf(rest, |rest|);
    FolderComponents(s);
    FollowDown(v.root, s, rest, |rest|);
    FollowIsNet(base, rest, |rest|);
    UpAndBack(base, net.up, net.down);
    NothingLeft(base);
    var reached := Follow(v.root, FolderPath(s) + rest, |FolderPath(s) + rest|);
    PrefixDrops(v.root, FolderPath(s), reached);
    if v.root <= reached {
      assert reached == v.root + reached[|v.root|..];
      PrefixAfter(v.root, FolderPath(s), reached[|v.root|..]);
    } else {
      assert Locate(v, FolderPath(s) + rest)[0] == OUTSIDE;
    }
  }

  lemma {:induction false} NothingLeft(p: Path)
    ensures LeftBehind(p, 0) == []
  {
  }

  /** A draft's path that climbs out of its folder and down to an official note. */
  const CLIMBING: Path := ["80_DoctrinePromotion", "drafts", "..", "..", "03_Doctrine", "x.md"]

  lemma {:induction false} ClimbingReaches(v: Vault)
    ensures Locate(v, CLIMBING) == ["03_Doctrine", "x.md"]
  {
    hide Up;
    FollowIsNet(v.root, CLIMBING, 6);
    ClimbingNet();
    hide NetOf, CLIMBING;
    assert Up(v.root, 0) == v.root by { UpAndBack(v.root, 0, []); NothingLeft(v.root); }
  }

  lemma {:induction false} ClimbingNet()
    ensures |CLIMBING| == 6 && NetOf(CLIMBING, 6) == Net(0, ["03_Doctrine", "x.md"])
  {
    var c := CLIMBING;
    assert c[0] != ".." && c[1] != ".." && c[2] == ".." && c[3] == ".." && c[4] != ".." && c[5] != "..";
    assert NetOf(c, 1) == Net(0, [c[0]]);
    assert NetOf(c, 2) == Net(0, [c[0], c[1]]);
    assert NetOf(c, 3) == Net(0, [c[0]]);
    assert NetOf(c, 4) == Net(0, []);
    assert NetOf(c, 5) == Net(0, [c[4]]);
  }

  lemma {:induction false} ClimbingGuard()
    ensures MatchSource(CLIMBING) == Some(DoctrineDrafts)
  {
    assert Components(CLIMBING) by { ClimbingComponents(); }
    hide MatchSource, Components;
    GuardExactly(CLIMBING, DoctrineDrafts);
  }

  lemma {:induction false} ClimbingComponents()
    ensures Components(CLIMBING)
  {
  }

  // ----- keys

  lemma {:induction false} AllowedStart(dest: string)
    requires dest in ALLOWED_DESTINATIONS
    ensures dest != "" && dest[0] !in {'8', '9', '\\'}
  {
  }

  lemma {:induction false} AcceptanceStart()
    ensures ACCEPTANCE != "" && ACCEPTANCE[0] == '9' && LOG_PATH[0] == ACCEPTANCE && LOG_PATH[1] != "plans"
  {
  }

  /** A file in a promotion folder is neither the assistant's own nor an official note. */
  lemma {:induction false} DraftsApart(p: Path, s: Source)
    requires FolderPath(s) <= p
    ensures !Bookkeeping(p) && !(|p| == 2 && p[0] in ALLOWED_DESTINATIONS)
  {
    hide FolderPath, ALLOWED_DESTINATIONS;
    AcceptanceStart();
    FolderComponents(s);
    if p[0] in ALLOWED_DESTINATIONS { AllowedStart(p[0]); }
  }

  lemma {:induction false} TrimWithin(s: string)
    ensures forall c :: c in Trim(s) ==> c in s
    decreases |s|
  {
    if s != "" && (s[0] == ' ' || s[0] == '-') { TrimWithin(s[1..]); }
    else if s != "" && (s[|s| - 1] == ' ' || s[|s| - 1] == '-') { TrimWithin(s[..|s| - 1]); }
  }

  lemma {:induction false} DropWithin(s: string)
    ensures forall c :: c in DropDraftPrefix(s) ==> c in s
  {
  }

  /** An official name is built from the draft's name and `.md` alone, so it cannot leave its folder. */
  lemma {:induction false} OfficialNameStaysInFolder(name: string)
    ensures EndsWith(SafeOfficialName(name), ".md")
    ensures forall c :: c in SafeOfficialName(name) ==> c in name || c in ".md"
    ensures '/' !in name ==> '/' !in SafeOfficialName(name)
  {
    hide Trim, DropDraftPrefix, LastDot;
    DropWithin(Stem(name));
    TrimWithin(DropDraftPrefix(Stem(name)));
  }

  // ----- lanes

  /** The lane each promotion folder's drafts are held to; no folder yields the unknown lane. */
  function LaneOf(s: Source): Lane
  {
    match s
    case DoctrineDrafts => DoctrineLane
    case DecisionDrafts => DecisionLane
    case ConceptDrafts => ConceptLane
    case ProjectDrafts => ProjectLane
    case WorkOrderDrafts => WorkOrderLane
  }

  lemma {:induction false} Holds(before: string, needle: string, behind: string)
    ensures Contains(before + needle + behind, needle)
  {
    assert OccursAt(before + needle + behind, needle, |before|);
  }

  lemma {:induction false} Occurrence(s: string, needle: string, i: nat, k: nat)
    requires OccursAt(s, needle, i) && k < |needle|
    ensures s[i + k] == needle[k]
  {
    assert s[i..i + |needle|][k] == s[i + k];
  }

  lemma {:induction false} LacksCharacter(s: string, needle: string, k: nat)
    requires k < |needle| && needle[k] !in s
    ensures !Contains(s, needle)
  {
    forall i: nat | OccursAt(s, needle, i) ensures false { Occurrence(s, needle, i, k); }
  }

  lemma {:induction false} LacksPair(s: string, needle: string)
    requires |needle| >= 2
    requires forall i :: 0 <= i < |s| - 1 ==> s[i] != needle[0] || s[i + 1] != needle[1]
    ensures !Contains(s, needle)
  {
    forall i: nat | OccursAt(s, needle, i) ensures false {
      Occurrence(s, needle, i, 0);
      Occurrence(s, needle, i, 1);
    }
  }

  lemma {:induction false} FolderLanes(s: Source)
    ensures InferLane(Folder(s)) == LaneOf(s)
  {
    hide InferLane, Folder;
    match s
    case DoctrineDrafts => DoctrineFolder();
    case DecisionDrafts => DecisionFolder();
    case ConceptDrafts => ConceptFolder();
    case ProjectDrafts => ProjectFolder();
    case WorkOrderDrafts => WorkOrderFolder();
  }

  lemma {:induction false} DoctrineFolder()
    ensures InferLane(Folder(DoctrineDrafts)) == DoctrineLane
  {
    hide Contains;
    assert Folder(DoctrineDrafts) == "80_" + "DoctrinePromotion" + "/drafts";
    Holds("80_", "DoctrinePromotion", "/drafts");
  }

  lemma {:induction false} DecisionFolder()
    ensures InferLane(Folder(DecisionDrafts)) == DecisionLane
  {
    hide Contains;
    assert Folder(DecisionDrafts) == "85_" + "DecisionPromotion" + "/drafts";
    LacksPair(Folder(DecisionDrafts), "DoctrinePromotion");
    Holds("85_", "DecisionPromotion", "/drafts");
  }

  lemma {:induction false} ConceptFolderCharacters()
    ensures 'D' !in Folder(ConceptDrafts) && 'w' !in Folder(ConceptDrafts)
  {
  }

  lemma {:induction false} InConceptFolder()
    ensures Contains(Folder(ConceptDrafts), "ConceptPromotion")
  {
    hide Contains;
    assert Folder(ConceptDrafts) == "86_" + "ConceptPromotion" + "/drafts";
    Holds("86_", "ConceptPromotion", "/drafts");
  }

  lemma {:induction false} ConceptFolder()
    ensures InferLane(Folder(ConceptDrafts)) == ConceptLane
  {
    hide Contains, Folder;
    ConceptFolderCharacters();
    var folder := Folder(ConceptDrafts);
    NoD(folder);
    InConceptFolder();
    LacksCharacter(folder, "work_order", 0);
  }

  /** Neither of the first two lanes' names fits where no capital D stands. */
  lemma {:induction false} NoD(folder: string)
    requires 'D' !in folder
    ensures !Contains(folder, "DoctrinePromotion") && !Contains(folder, "DecisionPromotion")
  {
    hide Contains;
    LacksCharacter(folder, "DoctrinePromotion", 0);
    LacksCharacter(folder, "DecisionPromotion", 0);
  }

  lemma {:induction false} ProjectFolderCharacters()
    ensures 'D' !in Folder(ProjectDrafts) && 'C' !in Folder(ProjectDrafts) && 'w' !in Folder(ProjectDrafts)
  {
  }

  lemma {:induction false} WorkOrderFolderCharacters()
    ensures 'D' !in Folder(WorkOrderDrafts) && 'C' !in Folder(WorkOrderDrafts)
  {
  }

  lemma {:induction false} ProjectFolder()
    ensures InferLane(Folder(ProjectDrafts)) == ProjectLane
  {
    hide Contains, Folder;
    ProjectFolderCharacters();
    var folder := Folder(ProjectDrafts);
    NoD(folder);
    LacksCharacter(folder, "ConceptPromotion", 0);
    LacksCharacter(folder, "work_order", 0);
    InProjectFolder();
  }

  lemma {:induction false} WorkOrderFolder()
    ensures InferLane(Folder(WorkOrderDrafts)) == WorkOrderLane
  {
    hide Contains, Folder;
    WorkOrderFolderCharacters();
    var folder := Folder(WorkOrderDrafts);
    NoD(folder);
    LacksCharacter(folder, "ConceptPromotion", 0);
    InWorkOrderFolder();
  }

  lemma {:induction false} InProjectFolder()
    ensures Contains(Folder(ProjectDrafts), "ProjectPromotion")
  {
    hide Contains;
    assert Folder(ProjectDrafts) == "87_" + "ProjectPromotion" + "/project_drafts";
    Holds("87_", "ProjectPromotion", "/project_drafts");
  }

  lemma {:induction false} InWorkOrderFolder()
    ensures Contains(Folder(WorkOrderDrafts), "ProjectPromotion") && Contains(Folder(WorkOrderDrafts), "work_order")
  {
    hide Contains;
    var head, tail := "87_" + "ProjectPromotion" + "/", "work_order" + "_drafts";
    assert Folder(WorkOrderDrafts) == head + tail;
    assert head + tail == "87_" + "ProjectPromotion" + ("/" + tail) by { hide Folder; }
    assert head + tail == head + "work_order" + "_drafts" by { hide Folder; }
    Holds("87_", "ProjectPromotion", "/" + tail);
    Holds(head, "work_order", "_drafts");
  }

  lemma {:induction false} NothingIsComplete(s: Source)
    ensures !HasSections("", LaneOf(s))
  {
    var lane := LaneOf(s);
    assert |RequiredSections(lane)| > 0 && RequiredSections(lane)[0] != "";
    hide RequiredSections;
    assert !Contains("", RequiredSections(lane)[0]);
    hide Contains;
  }

  // ----- one call

  /** What makes an acceptance safe on the files it found. */
  predicate Safe(v: Vault, fs: FileTree, plan: Plan)
  {
    var draft := Locate(v, plan.draft);
    && draft in fs.files
    && MatchSource(plan.draft) == Some(plan.source)
    && plan.lane == LaneOf(plan.source)
    && HasSections(fs.files[draft], plan.lane)
    && plan.dest in ALLOWED_DESTINATIONS
    && !fs.Exists(plan.Official())
  }

  /** Every acceptance is safe. */
  lemma {:induction false} AcceptedSafely(v: Vault, fs: FileTree, call: Call)
    requires OutcomeOf(v, fs, call).Accepted?
    ensures call.confirm && Safe(v, fs, OutcomeOf(v, fs, call).plan)
    ensures ResolveDraft(v, fs, call.arg) == Ok(OutcomeOf(v, fs, call).plan.draft)
  {
    hide HasSections, InferLane, Folder, MatchSource, EntryOf, SafeOfficialName, Locate;
    var plan := OutcomeOf(v, fs, call).plan;
    PlanTarget(v, fs, call.arg, call.dest);
    FolderLanes(plan.source);
    NothingIsComplete(plan.source);
  }

  /** Where a note goes: the requested folder if it is allowed and there, else the source's own. */
  function Destination(fs: FileTree, source: Source, dest: string): Result<string, Error>
  {
    if dest == "" then Ok(DefaultDestination(source)) else ValidateDestination(fs, dest)
  }

  /** The exact condition for acceptance. Similar names, missing frontmatter and the choice of another
      lane's folder do not stand in the way. */
  predicate Acceptable(v: Vault, fs: FileTree, draft: Path, source: Source, dest: string)
  {
    var file := Locate(v, draft);
    && Destination(fs, source, dest).Ok?
    && draft != []
    && !fs.Exists([Destination(fs, source, dest).value, SafeOfficialName(draft[|draft| - 1])])
    && file in fs.files && HasSections(fs.files[file], LaneOf(source))
  }

  lemma {:induction false} AcceptedExactly(v: Vault, fs: FileTree, call: Call, draft: Path, source: Source)
    requires call.AcceptCall?
    requires ResolveDraft(v, fs, call.arg) == Ok(draft) && MatchSource(draft) == Some(source)
    ensures OutcomeOf(v, fs, call).Accepted? <==> call.confirm && Acceptable(v, fs, draft, source, call.dest)
    ensures OutcomeOf(v, fs, call).Accepted? ==>
      var plan := OutcomeOf(v, fs, call).plan;
      plan.draft == draft && plan.dest == Destination(fs, source, call.dest).value
      && plan.name == SafeOfficialName(draft[|draft| - 1])
  {
    hide MatchSource, HasSections, InferLane, Folder, EntryOf, SafeOfficialName, ParentString, ResolveDraft, Locate;
    FolderLanes(source);
    NothingIsComplete(source);
    if draft == [] { RootIsNoDraft(); }
  }

  lemma {:induction false} RootIsNoDraft()
    ensures MatchSource([]) == None
  {
    hide MatchSource, FolderPath;
    forall s: Source ensures MatchSource([]) != Some(s) {
      GuardExactly([], s);
      FolderComponents(s);
    }
  }

  lemma {:induction false} ClimbingNamed()
    ensures SafeOfficialName("x.md") == "x.md" && CLIMBING != [] && CLIMBING[|CLIMBING| - 1] == "x.md"
  {
    var name := "x.md";
    assert LastDot("x") == -1 by { assert LastDot("") == -1; }
    assert name == "x" + "." + "md";
    assert LastDot("x.") == 1 && "x.md"[..3] == "x.m" && "x.m"[..2] == "x.";
    assert LastDot("x.m") == 1 && LastDot(name) == 1;
    assert Stem(name) == "x";
    OtherStart("x", "DRAFT-", 0);
    OtherStart("x", "PROJ-DRAFT-", 0);
    OtherStart("x", "WO-DRAFT-", 0);
    OtherStart("x", "CONCEPT-DRAFT-", 0);
    assert Trim("x") == "x";
  }

  /** A draft path that climbs is accepted for the file it reaches: here an official note, complete for the
      lane the path names, is copied to another official folder. */
  lemma {:induction false} ClimbingAccepted(v: Vault, fs: FileTree, call: Call, folder: string)
    requires call.AcceptCall? && call.confirm && call.arg.place == Inside(CLIMBING)
    requires ["03_Doctrine", "x.md"] in fs.files && HasSections(fs.files[["03_Doctrine", "x.md"]], DoctrineLane)
    requires folder in ALLOWED_DESTINATIONS && fs.Exists([folder]) && !fs.Exists([folder, "x.md"])
    requires call.dest == "WilliamOS/" + folder + "/"
    ensures OutcomeOf(v, fs, call).Accepted? && OutcomeOf(v, fs, call).plan.Official() == [folder, "x.md"]
    ensures !StaysBelow(v, CLIMBING, DoctrineDrafts)
  {
    hide MatchSource, HasSections, OutcomeOf, SafeOfficialName, Locate, ValidateDestination, CLIMBING,
         ALLOWED_DESTINATIONS, StaysBelow;
    ClimbingReaches(v);
    ClimbingGuard();
    ClimbingNamed();
    PrintedDestination(fs, folder);
    assert call.dest != "";
    AcceptedExactly(v, fs, call, CLIMBING, DoctrineDrafts);
    ReachesFolderExactly(v, CLIMBING, DoctrineDrafts);
    FolderComponents(DoctrineDrafts);
    assert FolderPath(DoctrineDrafts)[0] != Locate(v, CLIMBING)[0];
  }

  lemma {:induction false} AllowedPlain(folder: string)
    requires folder in ALLOWED_DESTINATIONS
    ensures folder != "" && '\\' !in folder && folder[|folder| - 1] != '/'
  {
  }

  lemma {:induction false} VaultPrefixPlain()
    ensures '\\' !in "WilliamOS/" && |"WilliamOS/"| == 10
  {
  }

  /** The destination a plan's command prints names the folder it was planned for. */
  lemma {:induction false} PrintedDestination(fs: FileTree, folder: string)
    requires folder in ALLOWED_DESTINATIONS && fs.Exists([folder])
    ensures ValidateDestination(fs, "WilliamOS/" + folder + "/") == Ok(folder)
  {
    hide ALLOWED_DESTINATIONS, ReplaceAll;
    AllowedPlain(folder);
    VaultPrefixPlain();
    var dest := "WilliamOS/" + folder + "/";
    ReplaceAllAbsent(dest, '\\', "/");
    assert dest[..|dest| - 1] == "WilliamOS/" + folder;
    assert TrimRight(dest, '/') == "WilliamOS/" + folder;
    assert ("WilliamOS/" + folder)[10..] == folder;
  }

  /** So running the command a plan prints plans the same acceptance again. */
  lemma {:induction false} CommandPlansAgain(v: Vault, fs: FileTree, arg: DraftArg, dest: string)
    requires MakePlan(v, fs, arg, dest).Ok? && fs.Exists([MakePlan(v, fs, arg, dest).value.dest])
    ensures MakePlan(v, fs, arg, "WilliamOS/" + MakePlan(v, fs, arg, dest).value.dest + "/")
        == MakePlan(v, fs, arg, dest)
  {
    hide HasSections, ParentString, SafeOfficialName, InferLane, Folder, MatchSource, ValidateDestination, Locate;
    PlanTarget(v, fs, arg, dest);
    PrintedDestination(fs, MakePlan(v, fs, arg, dest).value.dest);
  }

  /** The text an acceptance copies: the draft's, but the plan just rendered when the draft's path climbs to
      the plan of the day. */
  function Copied(v: Vault, fs: FileTree, call: Call, draft: Path): string
    requires call.AcceptCall?
  {
    var file := Locate(v, draft);
    if file == PlanPath(call.date) then call.text else fs.Content(file)
  }

  /** A call changes no file but the log and the plans, and creates no file but these and the accepted
      note, which is a copy of its draft. */
  lemma {:induction false} OneCall(v: Vault, fs: FileTree, call: Call, p: Path)
    requires !Bookkeeping(p)
    ensures var after, outcome := After(v, fs, call), OutcomeOf(v, fs, call);
      if outcome.Accepted? && p == outcome.plan.Official()
      then p !in fs.files && p in after.files && after.files[p] == Copied(v, fs, call, outcome.plan.draft)
      else (p in after.files <==> p in fs.files) && (p in fs.files ==> after.files[p] == fs.files[p])
  {
    hide MakePlan, EntryOf, Appended, LogOf, HasSections, InferLane, Folder, MatchSource, RequiredSections, Locate;
    if OutcomeOf(v, fs, call).Accepted? { AcceptedSafely(v, fs, call); }
  }

  /** The log after a call: one more entry when the call accepts, and otherwise untouched. */
  lemma {:induction false} OneCallLog(v: Vault, fs: FileTree, call: Call)
    ensures var outcome := OutcomeOf(v, fs, call);
      LogOf(After(v, fs, call)) == if outcome.Accepted? then Some(Appended(LogOf(fs), outcome.entry)) else LogOf(fs)
  {
    hide MakePlan, EntryOf, Appended, HasSections, InferLane, Folder, MatchSource, RequiredSections, Locate;
    AcceptanceStart();
  }

  /** A draft lacking a section of its lane is refused, whatever destination is asked for. */
  lemma {:induction false} IncompleteIsRefused(v: Vault, fs: FileTree, call: Call, draft: Path, source: Source)
    requires ResolveDraft(v, fs, call.arg) == Ok(draft) && MatchSource(draft) == Some(source)
    requires !HasSections(fs.Content(Locate(v, draft)), LaneOf(source))
    ensures !OutcomeOf(v, fs, call).Accepted?
  {
    hide HasSections, MatchSource, OutcomeOf, Locate;
    if OutcomeOf(v, fs, call).Accepted? { AcceptedSafely(v, fs, call); }
  }

  // ----- runs

  /** The files after the first `n` calls. */
  function Run(v: Vault, fs: FileTree, calls: seq<Call>, n: nat): FileTree
    requires n <= |calls|
  {
    if n == 0 then fs else After(v, Run(v, fs, calls, n - 1), calls[n - 1])
  }

  /** The acceptances among them, in order. */
  function Acceptances(v: Vault, fs: FileTree, calls: seq<Call>, n: nat): seq<Outcome>
    requires n <= |calls|
    ensures forall k :: 0 <= k < |Acceptances(v, fs, calls, n)| ==> Acceptances(v, fs, calls, n)[k].Accepted?
  {
    if n == 0 then []
    else
      var outcome := OutcomeOf(v, Run(v, fs, calls, n - 1), calls[n - 1]);
      Acceptances(v, fs, calls, n - 1) + if outcome.Accepted? then [outcome] else []
  }

  /** Without confirmation nothing at all is written. */
  lemma {:induction false} UnconfirmedWritesNothing(v: Vault, fs: FileTree, call: Call)
    requires call.AcceptCall? && !call.confirm
    ensures After(v, fs, call) == fs && OutcomeOf(v, fs, call) == NotConfirmed
  {
  }

  /** The calls but for the unconfirmed acceptances. */
  function Effective(calls: seq<Call>, n: nat): seq<Call>
    requires n <= |calls|
  {
    if n == 0 then []
    else
      var before, call := Effective(calls, n - 1), calls[n - 1];
      if call.AcceptCall? && !call.confirm then before else before + [call]
  }

  /** A run is what it would be had no unconfirmed call been made. */
  lemma {:induction false} UnconfirmedNeverMatters(v: Vault, fs: FileTree, calls: seq<Call>, n: nat)
    requires n <= |calls|
    ensures var effective := Effective(calls, n);
      && Run(v, fs, calls, n) == Run(v, fs, effective, |effective|)
      && Acceptances(v, fs, calls, n) == Acceptances(v, fs, effective, |effective|)
  {
    hide After, OutcomeOf;
    if n > 0 {
      UnconfirmedNeverMatters(v, fs, calls, n - 1);
      var before, call := Effective(calls, n - 1), calls[n - 1];
      if call.AcceptCall? && !call.confirm {
        UnconfirmedWritesNothing(v, Run(v, fs, calls, n - 1), call);
      } else {
        RunPrefix(v, fs, before, call, |before|);
      }
    }
  }

  lemma {:induction false} RunPrefix(v: Vault, fs: FileTree, calls: seq<Call>, last: Call, n: nat)
    requires n <= |calls|
    ensures Run(v, fs, calls + [last], n) == Run(v, fs, calls, n)
    ensures Acceptances(v, fs, calls + [last], n) == Acceptances(v, fs, calls, n)
  {
    hide After, OutcomeOf;
    if n > 0 { RunPrefix(v, fs, calls, last, n - 1); }
  }

  function Official(outcome: Outcome): Path
    requires outcome.Accepted?
  {
    outcome.plan.Official()
  }

  ghost predicate Kept(fs: FileTree, now: FileTree)
  {
    forall p :: p in fs.files && !Bookkeeping(p) ==> p in now.files && now.files[p] == fs.files[p]
  }

  /** What every accepted note is: new, in an allowed folder, from a path that names a promotion folder, and
      complete for its lane unless that path climbs to one of the assistant's own files. */
  ghost predicate AllowedNote(v: Vault, fs: FileTree, now: FileTree, outcome: Outcome)
    requires outcome.Accepted?
  {
    var plan := outcome.plan;
    && plan.dest in ALLOWED_DESTINATIONS && plan.Official() !in fs.files
    && MatchSource(plan.draft) == Some(plan.source) && plan.lane == LaneOf(plan.source)
    && plan.Official() in now.files
    && (Bookkeeping(Locate(v, plan.draft)) || HasSections(now.files[plan.Official()], plan.lane))
  }

  /** And when its draft's path stays in the folder: a copy of a draft that was there from the start and has
      every section its lane requires. */
  ghost predicate GoodNote(v: Vault, fs: FileTree, now: FileTree, outcome: Outcome)
    requires outcome.Accepted?
  {
    var plan := outcome.plan;
    var draft := Locate(v, plan.draft);
    && plan.dest in ALLOWED_DESTINATIONS && plan.Official() !in fs.files
    && draft in fs.files && FolderPath(plan.source) <= draft
    && plan.lane == LaneOf(plan.source) && HasSections(fs.files[draft], plan.lane)
    && plan.Official() in now.files && now.files[plan.Official()] == fs.files[draft]
  }

  ghost predicate Accounted(accepted: seq<Outcome>, p: Path)
  {
    exists k :: 0 <= k < |accepted| && accepted[k].Accepted? && Official(accepted[k]) == p
  }

  /** Everything that appears is the assistant's own file or an accepted note. */
  ghost predicate NothingElse(fs: FileTree, now: FileTree, accepted: seq<Outcome>)
  {
    forall p :: p in now.files && p !in fs.files && !Bookkeeping(p) ==> Accounted(accepted, p)
  }

  ghost predicate OncePerPath(accepted: seq<Outcome>)
  {
    forall j, k :: 0 <= j < k < |accepted| && accepted[j].Accepted? && accepted[k].Accepted?
      ==> Official(accepted[j]) != Official(accepted[k])
  }

  ghost predicate AllAllowed(v: Vault, fs: FileTree, now: FileTree, accepted: seq<Outcome>)
  {
    forall k :: 0 <= k < |accepted| ==> accepted[k].Accepted? && AllowedNote(v, fs, now, accepted[k])
  }

  ghost predicate AllGood(v: Vault, fs: FileTree, now: FileTree, accepted: seq<Outcome>)
  {
    forall k :: 0 <= k < |accepted| ==> accepted[k].Accepted? && GoodNote(v, fs, now, accepted[k])
  }

  lemma {:induction false} KeptStep(v: Vault, fs: FileTree, now: FileTree, call: Call)
    requires Kept(fs, now)
    ensures Kept(fs, After(v, now, call))
  {
    hide After, OutcomeOf, Bookkeeping, Copied;
    var after := After(v, now, call);
    forall p | p in fs.files && !Bookkeeping(p) ensures p in after.files && after.files[p] == fs.files[p] {
      OneCall(v, now, call, p);
    }
  }

  lemma {:induction false} OfficialIsNote(plan: Plan)
    ensures !Bookkeeping(plan.Official())
  {
  }

  lemma {:induction false} AllowedStep(v: Vault, fs: FileTree, now: FileTree, accepted: seq<Outcome>, call: Call,
      k: nat)
    requires AllAllowed(v, fs, now, accepted) && k < |accepted|
    ensures AllowedNote(v, fs, After(v, now, call), accepted[k])
  {
    hide After, OutcomeOf, Bookkeeping, HasSections, MatchSource, LaneOf, Copied, Locate;
    assert AllowedNote(v, fs, now, accepted[k]);
    OfficialIsNote(accepted[k].plan);
    OneCall(v, now, call, Official(accepted[k]));
  }

  lemma {:induction false} NewAllowed(v: Vault, fs: FileTree, now: FileTree, call: Call)
    requires Kept(fs, now) && OutcomeOf(v, now, call).Accepted?
    ensures AllowedNote(v, fs, After(v, now, call), OutcomeOf(v, now, call))
    ensures Official(OutcomeOf(v, now, call)) !in now.files
  {
    hide After, OutcomeOf, HasSections, MatchSource, LaneOf, MakePlan, Locate;
    var outcome := OutcomeOf(v, now, call);
    AcceptedSafely(v, now, call);
    OfficialIsNote(outcome.plan);
    OneCall(v, now, call, Official(outcome));
  }

  lemma {:induction false} NothingElseStep(v: Vault, fs: FileTree, now: FileTree, accepted: seq<Outcome>, call: Call)
    requires NothingElse(fs, now, accepted)
    ensures var outcome := OutcomeOf(v, now, call);
      NothingElse(fs, After(v, now, call), accepted + if outcome.Accepted? then [outcome] else [])
  {
    hide After, OutcomeOf, Bookkeeping, Copied;
    var outcome, after := OutcomeOf(v, now, call), After(v, now, call);
    var more := accepted + if outcome.Accepted? then [outcome] else [];
    forall p | p in after.files && p !in fs.files && !Bookkeeping(p) ensures Accounted(more, p) {
      OneCall(v, now, call, p);
      if outcome.Accepted? && p == Official(outcome) {
        assert more[|accepted|] == outcome;
      } else {
        var k :| 0 <= k < |accepted| && accepted[k].Accepted? && Official(accepted[k]) == p;
        assert more[k] == accepted[k];
      }
    }
  }

  lemma {:induction false} StartsSafe(fs: FileTree)
    ensures Kept(fs, fs) && NothingElse(fs, fs, [])
  {
  }

  lemma {:induction false} AllowedNoteThere(v: Vault, fs: FileTree, now: FileTree, outcome: Outcome)
    requires outcome.Accepted? && AllowedNote(v, fs, now, outcome)
    ensures Official(outcome) in now.files
  {
    hide HasSections, MatchSource, LaneOf, Locate;
  }

  /** What every run keeps, however drafts are written: every file that was there and is not the
      assistant's own is as it was, outside the vault too; every new one is an accepted note in an allowed
      folder; and no official path is accepted twice. */
  lemma {:induction false} RunsKeep(v: Vault, fs: FileTree, calls: seq<Call>, n: nat)
    requires n <= |calls|
    ensures var now, accepted := Run(v, fs, calls, n), Acceptances(v, fs, calls, n);
      Kept(fs, now) && NothingElse(fs, now, accepted) && AllAllowed(v, fs, now, accepted) && OncePerPath(accepted)
  {
    hide After, OutcomeOf, Bookkeeping, AllowedNote, Kept, NothingElse;
    if n == 0 {
      StartsSafe(fs);
    } else {
      RunsKeep(v, fs, calls, n - 1);
      var before, accepted, call := Run(v, fs, calls, n - 1), Acceptances(v, fs, calls, n - 1), calls[n - 1];
      KeptStep(v, fs, before, call);
      NothingElseStep(v, fs, before, accepted, call);
      forall k | 0 <= k < |accepted| ensures AllowedNote(v, fs, After(v, before, call), accepted[k]) {
        AllowedStep(v, fs, before, accepted, call, k);
      }
      if OutcomeOf(v, before, call).Accepted? {
        NewAllowed(v, fs, before, call);
        forall k | 0 <= k < |accepted| ensures Official(accepted[k]) in before.files {
          AllowedNoteThere(v, fs, before, accepted[k]);
        }
      }
    }
  }

  // ----- runs whose drafts stay in their folders

  /** A path the guard lets through stays in the folder it names. */
  predicate PathStays(v: Vault, raw: Path)
  {
    MatchSource(raw).Some? ==> StaysBelow(v, raw, MatchSource(raw).value)
  }

  ghost predicate ArgumentStays(v: Vault, arg: DraftArg)
  {
    && (arg.place.Inside? ==> PathStays(v, arg.place.path))
    && forall i :: 0 <= i < |arg.found| ==> PathStays(v, arg.found[i])
  }

  ghost predicate AllStay(v: Vault, calls: seq<Call>)
  {
    forall i :: 0 <= i < |calls| ==> ArgumentStays(v, calls[i].arg)
  }

  /** Such a call accepts a file of the folder it names. */
  lemma {:induction false} AcceptedFromFolder(v: Vault, fs: FileTree, call: Call)
    requires OutcomeOf(v, fs, call).Accepted? && ArgumentStays(v, call.arg)
    ensures var plan := OutcomeOf(v, fs, call).plan; FolderPath(plan.source) <= Locate(v, plan.draft)
  {
    hide OutcomeOf, StaysBelow, MatchSource, Locate, FolderPath;
    AcceptedSafely(v, fs, call);
    var plan := OutcomeOf(v, fs, call).plan;
    assert PathStays(v, plan.draft);
    ReachesFolderExactly(v, plan.draft, plan.source);
  }

  /** A file of a promotion folder cannot be a note accepted earlier in the run. */
  lemma {:induction false} DraftsAreOriginal(v: Vault, fs: FileTree, now: FileTree, accepted: seq<Outcome>, p: Path,
      s: Source)
    requires NothingElse(fs, now, accepted) && AllAllowed(v, fs, now, accepted)
    requires p in now.files && FolderPath(s) <= p
    ensures p in fs.files && !Bookkeeping(p)
  {
    hide MatchSource, HasSections, Bookkeeping, FolderPath, LaneOf, Locate;
    DraftsApart(p, s);
    if p !in fs.files { NoteShape(v, fs, now, accepted, p); }
  }

  lemma {:induction false} NoteShape(v: Vault, fs: FileTree, now: FileTree, accepted: seq<Outcome>, p: Path)
    requires AllAllowed(v, fs, now, accepted) && Accounted(accepted, p)
    ensures |p| == 2 && p[0] in ALLOWED_DESTINATIONS
  {
    hide MatchSource, HasSections, LaneOf, Locate, ALLOWED_DESTINATIONS, Bookkeeping;
    var k :| 0 <= k < |accepted| && accepted[k].Accepted? && Official(accepted[k]) == p;
    assert AllowedNote(v, fs, now, accepted[k]);
  }

  lemma {:induction false} GoodStep(v: Vault, fs: FileTree, now: FileTree, accepted: seq<Outcome>, call: Call, k: nat)
    requires AllGood(v, fs, now, accepted) && k < |accepted|
    ensures GoodNote(v, fs, After(v, now, call), accepted[k])
  {
    hide After, OutcomeOf, Bookkeeping, HasSections, LaneOf, Copied, Locate, FolderPath;
    assert GoodNote(v, fs, now, accepted[k]);
    OfficialIsNote(accepted[k].plan);
    OneCall(v, now, call, Official(accepted[k]));
  }

  lemma {:induction false} NewNote(v: Vault, fs: FileTree, now: FileTree, accepted: seq<Outcome>, call: Call)
    requires Kept(fs, now) && NothingElse(fs, now, accepted) && AllAllowed(v, fs, now, accepted)
    requires OutcomeOf(v, now, call).Accepted? && ArgumentStays(v, call.arg)
    ensures GoodNote(v, fs, After(v, now, call), OutcomeOf(v, now, call))
  {
    hide After, OutcomeOf, HasSections, MatchSource, LaneOf, MakePlan, Locate, FolderPath, PathStays;
    var outcome := OutcomeOf(v, now, call);
    var draft := Locate(v, outcome.plan.draft);
    AcceptedSafely(v, now, call);
    AcceptedFromFolder(v, now, call);
    DraftsAreOriginal(v, fs, now, accepted, draft, outcome.plan.source);
    OfficialIsNote(outcome.plan);
    OneCall(v, now, call, Official(outcome));
  }

  /** Safety over whole runs: when no draft's path leaves the folder it names, every accepted note is
      moreover a copy of a draft that was in that folder from the start, complete for its lane. */
  lemma {:induction false} RunsAreSafe(v: Vault, fs: FileTree, calls: seq<Call>, n: nat)
    requires n <= |calls| && AllStay(v, calls)
    ensures var now, accepted := Run(v, fs, calls, n), Acceptances(v, fs, calls, n);
      Kept(fs, now) && NothingElse(fs, now, accepted) && AllGood(v, fs, now, accepted) && OncePerPath(accepted)
  {
    hide After, OutcomeOf, Bookkeeping, GoodNote, Kept, NothingElse, AllAllowed, OncePerPath, ArgumentStays;
    RunsKeep(v, fs, calls, n);
    if n > 0 {
      RunsAreSafe(v, fs, calls, n - 1);
      RunsKeep(v, fs, calls, n - 1);
      var before, accepted, call := Run(v, fs, calls, n - 1), Acceptances(v, fs, calls, n - 1), calls[n - 1];
      forall k | 0 <= k < |accepted| ensures GoodNote(v, fs, After(v, before, call), accepted[k]) {
        GoodStep(v, fs, before, accepted, call, k);
      }
      assert ArgumentStays(v, calls[n - 1].arg);
      if OutcomeOf(v, before, call).Accepted? { NewNote(v, fs, before, accepted, call); }
    }
  }

  function EntriesOf(accepted: seq<Outcome>): seq<Entry>
    requires forall k :: 0 <= k < |accepted| ==> accepted[k].Accepted?
  {
    seq(|accepted|, k requires 0 <= k < |accepted| => accepted[k].entry)
  }

  /** The log after a run is the log before it with exactly the accepted entries appended, in order. */
  lemma {:induction false} RunLog(v: Vault, fs: FileTree, calls: seq<Call>, n: nat)
    requires n <= |calls|
    ensures LogOf(Run(v, fs, calls, n)) == AppendAll(LogOf(fs), EntriesOf(Acceptances(v, fs, calls, n)))
  {
    hide After, OutcomeOf, Appended, LogOf;
    if n > 0 {
      RunLog(v, fs, calls, n - 1);
      var before, accepted, call := Run(v, fs, calls, n - 1), Acceptances(v, fs, calls, n - 1), calls[n - 1];
      OneCallLog(v, before, call);
      var outcome := OutcomeOf(v, before, call);
      if outcome.Accepted? {
        var es := EntriesOf(accepted + [outcome]);
        assert es[..|es| - 1] == EntriesOf(accepted) && es[|es| - 1] == outcome.entry;
      } else {
        assert accepted + [] == accepted;
      }
    }
  }

  /** So reading the log back after a run gives what was read before it, then what the run accepted. */
  lemma {:induction false} RunReadsBack<D>(add: (D, string) -> D, empty: D, v: Vault, fs: FileTree, calls: seq<Call>)
    requires AllOneLine(EntriesOf(Acceptances(v, fs, calls, |calls|)))
    ensures var es := EntriesOf(Acceptances(v, fs, calls, |calls|));
      ReadBack(add, empty, LogOf(Run(v, fs, calls, |calls|)))
      == ReadBack(add, empty, LogOf(fs)) + Views(add, empty, es)
  {
    hide ReadBack, Views, AppendAll, LogOf, After, OutcomeOf, Run, Acceptances;
    RunLog(v, fs, calls, |calls|);
    RoundTrip(add, empty, LogOf(fs), EntriesOf(Acceptances(v, fs, calls, |calls|)));
  }
}
