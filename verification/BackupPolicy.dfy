/** Which paths a backup leaves out, and which the two separately written checks of an archive reject. */
module BackupPolicy {
  import opened Strings

  /** `fnmatch(name, pattern)`; nothing below depends on how it matches. */
  type Matcher = (string, string) -> bool

  // ----- backup: scripts/williamos_backup.py

  const EXCLUDE_PATTERNS: seq<string> :=
    [".env", "*.env", ".env.*", "*.pem", "*.key", "*.p12", "*.pfx", "id_rsa", "id_ed25519",
     "secrets.*", "token.*", "credentials.*", ".DS_Store", "Thumbs.db", "*.pyc"]

  const EXCLUDE_DIRS: seq<string> :=
    [".venv", "venv", "node_modules", "__pycache__", ".trash", ".obsidian/cache"]

  const EXCLUDE_PREFIXES: seq<string> :=
    ["WilliamOS/20_Graphify/generated/",
     "WilliamOS/40_Search/generated/",
     "WilliamOS/60_Synthesis/generated/cache/",
     "WilliamOS/70_InboxProcessor/generated/cache/",
     "WilliamOS/80_DoctrinePromotion/generated/cache/",
     "WilliamOS/85_DecisionPromotion/generated/cache/",
     "WilliamOS/86_ConceptPromotion/generated/cache/",
     "WilliamOS/87_ProjectPromotion/generated/cache/",
     "WilliamOS/88_CortexMap/generated/cache/",
     "WilliamOS/89_ReviewCockpit/generated/cache/",
     "WilliamOS/91_GitGovernance/generated/cache/",
     "WilliamOS/92_BackupGovernance/generated/cache/",
     "WilliamOS/92_BackupGovernance/local_archives/"]

  const WORKSPACE_PATTERNS: seq<string> :=
    [".obsidian/workspace", ".obsidian/workspace.json", ".obsidian/workspace-mobile.json"]

  const VERIFY_PATTERNS: seq<string> :=
    [".env", "*.env", ".env.*", "*.pem", "*.key", "*.p12", "*.pfx", "id_rsa", "id_ed25519",
     "secrets.*", "token.*", "credentials.*"]

  function Normalised(rel: string): string { ReplaceAll(rel, "\\", "/") }

  function LastPart(parts: seq<string>): string
  {
    if parts == [] then ""
    else if parts[|parts| - 1] !in ["", "."] then parts[|parts| - 1]
    else LastPart(parts[..|parts| - 1])
  }

  /** `Path(path).name`: the last component, empty and `.` components not counted. */
  function Name(path: string): string { LastPart(Split(path, '/')) }

  predicate MatchesAny(fnmatch: Matcher, name: string, patterns: seq<string>)
  {
    exists i :: 0 <= i < |patterns| && fnmatch(name, patterns[i])
  }

  predicate InDirectory(norm: string, directory: string)
  {
    var segment := directory + "/";
    StartsWith(norm, segment) || Contains(norm, "/" + segment) || norm == directory
  }

  predicate StartsWithAny(norm: string, prefixes: seq<string>)
  {
    exists i :: 0 <= i < |prefixes| && StartsWith(norm, prefixes[i])
  }

  predicate IsExcluded(fnmatch: Matcher, rel: string)
  {
    var norm := Normalised(rel);
    || MatchesAny(fnmatch, Name(norm), EXCLUDE_PATTERNS)
    || (exists i :: 0 <= i < |EXCLUDE_DIRS| && InDirectory(norm, EXCLUDE_DIRS[i]))
    || StartsWithAny(norm, EXCLUDE_PREFIXES)
    || StartsWithAny(norm, WORKSPACE_PATTERNS)
  }

  /** The archive verifier's check. */
  predicate IsForbidden(fnmatch: Matcher, rel: string)
  {
    MatchesAny(fnmatch, Name(Normalised(rel)), VERIFY_PATTERNS)
  }

  // ----- restore: scripts/williamos_restore.py

  const FORBIDDEN_PATTERNS: seq<string> :=
    [".env", "*.env", ".env.*", "*.pem", "*.key", "*.p12", "*.pfx", "id_rsa", "id_ed25519",
     "secrets.*", "token.*", "credentials.*"]

  const FORBIDDEN_DIR_PREFIXES: seq<string> :=
    [".venv/", "venv/", "node_modules/", ".obsidian/cache/",
     "WilliamOS/40_Search/generated/vectors.npy", "WilliamOS/40_Search/generated/tfidf.joblib"]

  const FORBIDDEN_WORKSPACE_PREFIXES: seq<string> := [".obsidian/workspace"]

  predicate AtOrBelow(norm: string, prefix: string)
  {
    norm == TrimRight(prefix, '/') || StartsWith(norm, prefix)
  }

  /** The restore drill's check. */
  predicate IsForbiddenPath(fnmatch: Matcher, rel: string)
  {
    var norm := Normalised(rel);
    || MatchesAny(fnmatch, Name(norm), FORBIDDEN_PATTERNS)
    || (exists i :: 0 <= i < |FORBIDDEN_DIR_PREFIXES| && AtOrBelow(norm, FORBIDDEN_DIR_PREFIXES[i]))
    || StartsWithAny(norm, FORBIDDEN_WORKSPACE_PREFIXES)
  }

  // ----- the three agree

  lemma {:induction false} SamePatterns()
    ensures |EXCLUDE_PATTERNS| == 15 && VERIFY_PATTERNS == FORBIDDEN_PATTERNS == EXCLUDE_PATTERNS[..12]
  {
  }

  lemma {:induction false} SameDirectories()
    ensures |FORBIDDEN_DIR_PREFIXES| == 6 && |EXCLUDE_DIRS| == 6
    ensures FORBIDDEN_DIR_PREFIXES[0] == EXCLUDE_DIRS[0] + "/" && FORBIDDEN_DIR_PREFIXES[1] == EXCLUDE_DIRS[1] + "/"
    ensures FORBIDDEN_DIR_PREFIXES[2] == EXCLUDE_DIRS[2] + "/" && FORBIDDEN_DIR_PREFIXES[3] == EXCLUDE_DIRS[5] + "/"
    ensures forall i :: 0 <= i < 6 ==> EXCLUDE_DIRS[i] != "" && EXCLUDE_DIRS[i][|EXCLUDE_DIRS[i]| - 1] != '/'
  {
  }

  lemma {:induction false} SearchIndexInside()
    ensures |EXCLUDE_PREFIXES| == 13
    ensures FORBIDDEN_DIR_PREFIXES[4] == EXCLUDE_PREFIXES[1] + "vectors.npy"
    ensures FORBIDDEN_DIR_PREFIXES[5] == EXCLUDE_PREFIXES[1] + "tfidf.joblib"
  {
  }

  lemma {:induction false} DirectoryCaught(norm: string, directory: string)
    requires directory != "" && directory[|directory| - 1] != '/'
    requires AtOrBelow(norm, directory + "/")
    ensures InDirectory(norm, directory)
  {
    assert (directory + "/")[..|directory|] == directory;
    assert TrimRight(directory + "/", '/') == TrimRight(directory, '/');
  }

  lemma {:induction false} FileCaught(norm: string, prefix: string, file: string)
    requires file != "" && file[|file| - 1] != '/' && AtOrBelow(norm, prefix + file)
    ensures StartsWith(norm, prefix)
  {
    assert (prefix + file)[..|prefix|] == prefix;
    if StartsWith(norm, prefix + file) {
      assert norm[..|prefix|] == norm[..|prefix + file|][..|prefix|];
    }
  }

  lemma {:induction false} DirectoriesCaught(norm: string, i: nat)
    requires i < |FORBIDDEN_DIR_PREFIXES| && AtOrBelow(norm, FORBIDDEN_DIR_PREFIXES[i])
    ensures (exists j :: 0 <= j < |EXCLUDE_DIRS| && InDirectory(norm, EXCLUDE_DIRS[j]))
        || StartsWithAny(norm, EXCLUDE_PREFIXES)
  {
    hide AtOrBelow, InDirectory, StartsWith, EXCLUDE_DIRS, EXCLUDE_PREFIXES, FORBIDDEN_DIR_PREFIXES;
    SameDirectories();
    SearchIndexInside();
    if i < 4 {
      DirectoryCaught(norm, EXCLUDE_DIRS[if i == 3 then 5 else i]);
    } else {
      FileCaught(norm, EXCLUDE_PREFIXES[1], if i == 4 then "vectors.npy" else "tfidf.joblib");
    }
  }

  /** The three checks are ordered: what the verifier rejects the restore drill rejects, and what the
      drill rejects no backup takes. */
  lemma {:induction false} PoliciesAgree(fnmatch: Matcher, rel: string)
    ensures IsForbidden(fnmatch, rel) ==> IsForbiddenPath(fnmatch, rel)
    ensures IsForbiddenPath(fnmatch, rel) ==> IsExcluded(fnmatch, rel)
  {
    hide AtOrBelow, InDirectory, StartsWith, Name, Normalised, EXCLUDE_DIRS, EXCLUDE_PREFIXES, FORBIDDEN_DIR_PREFIXES,
         EXCLUDE_PATTERNS, VERIFY_PATTERNS, FORBIDDEN_PATTERNS;
    var norm := Normalised(rel);
    SamePatterns();
    if IsForbiddenPath(fnmatch, rel) {
      if MatchesAny(fnmatch, Name(norm), FORBIDDEN_PATTERNS) {
        var i :| 0 <= i < |FORBIDDEN_PATTERNS| && fnmatch(Name(norm), FORBIDDEN_PATTERNS[i]);
        assert fnmatch(Name(norm), EXCLUDE_PATTERNS[i]);
      } else if i :| 0 <= i < |FORBIDDEN_DIR_PREFIXES| && AtOrBelow(norm, FORBIDDEN_DIR_PREFIXES[i]) {
        DirectoriesCaught(norm, i);
      } else {
        assert StartsWith(norm, WORKSPACE_PATTERNS[0]);
      }
    }
  }
}
