/** The rules of the backup, of the archive verifier and of the restore drill, written out as what they
    reject, for a matcher that reads stars as `fnmatch` does. */
module BackupRules {
  import opened Strings
  import opened BackupPolicy
  import BackupArchive
  import opened BackupLaws

  predicate EndsWithAny(name: string, endings: seq<string>)
  {
    exists i :: 0 <= i < |endings| && EndsWith(name, endings[i])
  }

  /** A file name all three programs take for a secret. */
  predicate SecretName(name: string)
  {
    || name in [".env", "id_rsa", "id_ed25519"]
    || EndsWithAny(name, [".env", ".pem", ".key", ".p12", ".pfx"])
    || StartsWithAny(name, [".env.", "secrets.", "token.", "credentials."])
  }

  /** A file name the backup leaves out without taking it for a secret. */
  predicate LitterName(name: string) { name in [".DS_Store", "Thumbs.db"] || EndsWith(name, ".pyc") }

  // ----- patterns with a star at one end

  /** Patterns made of literals, of endings and of beginnings, in any order. */
  function Starred(endings: seq<string>): seq<string>
  {
    seq(|endings|, i requires 0 <= i < |endings| => "*" + endings[i])
  }
  function Begun(starts: seq<string>): seq<string> { seq(|starts|, i requires 0 <= i < |starts| => starts[i] + "*") }

  ghost predicate AllPlainText(xs: seq<string>) { forall i :: 0 <= i < |xs| ==> NoStars(xs[i]) }

  lemma {:induction false} MatchesConcat(fnmatch: Matcher, name: string, a: seq<string>, b: seq<string>)
    ensures MatchesAny(fnmatch, name, a + b) <==> MatchesAny(fnmatch, name, a) || MatchesAny(fnmatch, name, b)
  {
    if i :| 0 <= i < |a| && fnmatch(name, a[i]) { assert fnmatch(name, (a + b)[i]); }
    if i :| 0 <= i < |b| && fnmatch(name, b[i]) { assert fnmatch(name, (a + b)[|a| + i]); }
  }

  lemma {:induction false} MatchesLiterals(fnmatch: Matcher, name: string, xs: seq<string>)
    requires MatchesStars(fnmatch) && AllPlainText(xs)
    ensures MatchesAny(fnmatch, name, xs) <==> name in xs
  {
    hide NoStars;
    forall i | 0 <= i < |xs| ensures fnmatch(name, xs[i]) <==> name == xs[i] { assert NoStars(xs[i]); }
  }

  lemma {:induction false} MatchesEndings(fnmatch: Matcher, name: string, xs: seq<string>)
    requires MatchesStars(fnmatch) && AllPlainText(xs)
    ensures MatchesAny(fnmatch, name, Starred(xs)) <==> EndsWithAny(name, xs)
  {
    hide NoStars, EndsWith;
    forall i | 0 <= i < |xs| ensures fnmatch(name, Starred(xs)[i]) <==> EndsWith(name, xs[i]) { assert NoStars(xs[i]); }
  }

  lemma {:induction false} MatchesStarts(fnmatch: Matcher, name: string, xs: seq<string>)
    requires MatchesStars(fnmatch) && AllPlainText(xs)
    ensures MatchesAny(fnmatch, name, Begun(xs)) <==> StartsWithAny(name, xs)
  {
    hide NoStars, StartsWith;
    forall i | 0 <= i < |xs| ensures fnmatch(name, Begun(xs)[i]) <==> StartsWith(name, xs[i]) { assert NoStars(xs[i]); }
  }

  // ----- the tables

  lemma {:induction false} PlainEndings()
    ensures AllPlainText([".env"]) && AllPlainText([".pem", ".key", ".p12", ".pfx"]) && AllPlainText([".pyc"])
  {
  }

  lemma {:induction false} PlainWords()
    ensures AllPlainText(["id_rsa", "id_ed25519"]) && AllPlainText([".DS_Store", "Thumbs.db"])
  {
  }

  lemma {:induction false} PlainStarts()
    ensures AllPlainText([".env."]) && AllPlainText(["secrets.", "token.", "credentials."])
  {
  }

  lemma {:induction false} PlainTexts()
    ensures AllPlainText([".env"]) && AllPlainText([".pem", ".key", ".p12", ".pfx"]) && AllPlainText([".pyc"])
    ensures AllPlainText(["id_rsa", "id_ed25519"]) && AllPlainText([".DS_Store", "Thumbs.db"])
    ensures AllPlainText([".env."]) && AllPlainText(["secrets.", "token.", "credentials."])
  {
    hide AllPlainText;
    PlainEndings();
    PlainWords();
    PlainStarts();
  }

  lemma {:induction false} Spelled(a: string, b: string, c: string, d: seq<string>, e: seq<string>, f: seq<string>)
    requires |d| == 4 && |e| == 2 && |f| == 3
    ensures [a] + Starred([b]) + Begun([c]) + Starred(d) + e + Begun(f)
         == [a, "*" + b, c + "*", "*" + d[0], "*" + d[1], "*" + d[2], "*" + d[3], e[0], e[1],
             f[0] + "*", f[1] + "*", f[2] + "*"]
  {
  }

  lemma {:induction false} SecretPatterns(fnmatch: Matcher, name: string)
    requires MatchesStars(fnmatch)
    ensures MatchesAny(fnmatch, name, FORBIDDEN_PATTERNS) <==> SecretName(name)
  {
    hide MatchesStars, MatchesAny, FORBIDDEN_PATTERNS, AllPlainText, StartsWithAny, EndsWithAny, Starred, Begun;
    PatternsSpelled();
    PlainTexts();
    var a, b, c := [".env"], Starred([".env"]), Begun([".env."]);
    var endings, words, starts := [".pem", ".key", ".p12", ".pfx"], ["id_rsa", "id_ed25519"],
        ["secrets.", "token.", "credentials."];
    Spelled(".env", ".env", ".env.", endings, words, starts);
    assert FORBIDDEN_PATTERNS == a + b + c + Starred(endings) + words + Begun(starts);
    MatchesConcat(fnmatch, name, a + b + c + Starred(endings) + words, Begun(starts));
    MatchesConcat(fnmatch, name, a + b + c + Starred(endings), words);
    MatchesConcat(fnmatch, name, a + b + c, Starred(endings));
    MatchesConcat(fnmatch, name, a + b, c);
    MatchesConcat(fnmatch, name, a, b);
    MatchesLiterals(fnmatch, name, a);
    MatchesLiterals(fnmatch, name, words);
    MatchesEndings(fnmatch, name, [".env"]);
    MatchesEndings(fnmatch, name, endings);
    MatchesStarts(fnmatch, name, [".env."]);
    MatchesStarts(fnmatch, name, starts);
    GatherSecret(name);
  }

  lemma {:induction false} GatherSecret(name: string)
    ensures SecretName(name) <==>
      || name in [".env"] || name in ["id_rsa", "id_ed25519"]
      || EndsWithAny(name, [".env"]) || EndsWithAny(name, [".pem", ".key", ".p12", ".pfx"])
      || StartsWithAny(name, [".env."]) || StartsWithAny(name, ["secrets.", "token.", "credentials."])
  {
    hide EndsWith, StartsWith;
    EndsWithConcat(name, [".env"], [".pem", ".key", ".p12", ".pfx"]);
    StartsWithConcat(name, [".env."], ["secrets.", "token.", "credentials."]);
    assert [".env"] + [".pem", ".key", ".p12", ".pfx"] == [".env", ".pem", ".key", ".p12", ".pfx"];
    assert [".env."] + ["secrets.", "token.", "credentials."] == [".env.", "secrets.", "token.", "credentials."];
  }

  lemma {:induction false} EndsWithConcat(name: string, a: seq<string>, b: seq<string>)
    ensures EndsWithAny(name, a + b) <==> EndsWithAny(name, a) || EndsWithAny(name, b)
  {
    hide EndsWith;
    if i :| 0 <= i < |a| && EndsWith(name, a[i]) { assert EndsWith(name, (a + b)[i]); }
    if i :| 0 <= i < |b| && EndsWith(name, b[i]) { assert EndsWith(name, (a + b)[|a| + i]); }
  }

  lemma {:induction false} StartsWithConcat(name: string, a: seq<string>, b: seq<string>)
    ensures StartsWithAny(name, a + b) <==> StartsWithAny(name, a) || StartsWithAny(name, b)
  {
    hide StartsWith;
    if i :| 0 <= i < |a| && StartsWith(name, a[i]) { assert StartsWith(name, (a + b)[i]); }
    if i :| 0 <= i < |b| && StartsWith(name, b[i]) { assert StartsWith(name, (a + b)[|a| + i]); }
  }

  lemma {:induction false} LitterPatterns(fnmatch: Matcher, name: string)
    requires MatchesStars(fnmatch)
    ensures MatchesAny(fnmatch, name, EXCLUDE_PATTERNS) <==> SecretName(name) || LitterName(name)
  {
    hide MatchesStars, MatchesAny, FORBIDDEN_PATTERNS, VERIFY_PATTERNS, AllPlainText, SecretName, EndsWithAny;
    SamePatterns();
    SecretPatterns(fnmatch, name);
    PlainTexts();
    var words, endings := [".DS_Store", "Thumbs.db"], [".pyc"];
    assert "*" + ".pyc" == "*.pyc";
    assert EXCLUDE_PATTERNS == EXCLUDE_PATTERNS[..12] + (words + Starred(endings));
    hide EXCLUDE_PATTERNS;
    MatchesConcat(fnmatch, name, EXCLUDE_PATTERNS[..12], words + Starred(endings));
    MatchesConcat(fnmatch, name, words, Starred(endings));
    MatchesLiterals(fnmatch, name, words);
    MatchesEndings(fnmatch, name, endings);
    assert EndsWithAny(name, endings) <==> EndsWith(name, ".pyc") by { OneEnding(name, ".pyc"); }
  }

  lemma {:induction false} OneEnding(name: string, ending: string)
    ensures EndsWithAny(name, [ending]) <==> EndsWith(name, ending)
  {
    hide EndsWith;
    if EndsWith(name, ending) { assert EndsWith(name, [ending][0]); }
  }

  // ----- the three checks

  /** Rejected by the archive verifier: a secret's name. */
  lemma {:induction false} ForbiddenExactly(fnmatch: Matcher, rel: string)
    requires MatchesStars(fnmatch)
    ensures IsForbidden(fnmatch, rel) <==> SecretName(Name(Normalised(rel)))
  {
    hide MatchesStars, MatchesAny, Name, Normalised, FORBIDDEN_PATTERNS, VERIFY_PATTERNS, EXCLUDE_PATTERNS, SecretName;
    SamePatterns();
    SecretPatterns(fnmatch, Name(Normalised(rel)));
  }

  /** At a folder or below it. */
  predicate Within(path: string, folder: string) { path == folder || folder + "/" <= path }

  /** Rejected by the restore drill: a secret's name, a folder of tools or caches, the search index, and the
      state of an Obsidian workspace. */
  predicate DrillRejects(path: string)
  {
    || SecretName(Name(path))
    || Within(path, ".venv") || Within(path, "venv") || Within(path, "node_modules") || Within(path, ".obsidian/cache")
    || "WilliamOS/40_Search/generated/vectors.npy" <= path || "WilliamOS/40_Search/generated/tfidf.joblib" <= path
    || ".obsidian/workspace" <= path
  }

  lemma {:induction false} AtFolder(path: string, folder: string)
    requires folder != "" && folder[|folder| - 1] != '/'
    ensures AtOrBelow(path, folder + "/") <==> Within(path, folder)
  {
    assert (folder + "/")[..|folder|] == folder;
    assert TrimRight(folder + "/", '/') == TrimRight(folder, '/') == folder;
  }

  lemma {:induction false} AtFile(path: string, file: string)
    requires file != "" && file[|file| - 1] != '/'
    ensures AtOrBelow(path, file) <==> file <= path
  {
  }

  lemma {:induction false} ForbiddenFolders(path: string)
    ensures (exists i :: 0 <= i < |FORBIDDEN_DIR_PREFIXES| && AtOrBelow(path, FORBIDDEN_DIR_PREFIXES[i])) <==>
      || Within(path, ".venv") || Within(path, "venv") || Within(path, "node_modules")
      || Within(path, ".obsidian/cache")
      || "WilliamOS/40_Search/generated/vectors.npy" <= path || "WilliamOS/40_Search/generated/tfidf.joblib" <= path
  {
    hide AtOrBelow, Within;
    AtFolder(path, ".venv");
    AtFolder(path, "venv");
    AtFolder(path, "node_modules");
    AtFolder(path, ".obsidian/cache");
    AtFile(path, "WilliamOS/40_Search/generated/vectors.npy");
    AtFile(path, "WilliamOS/40_Search/generated/tfidf.joblib");
    var f := FORBIDDEN_DIR_PREFIXES;
    assert |f| == 6 && f[0] == ".venv" + "/" && f[1] == "venv" + "/" && f[2] == "node_modules" + "/";
    assert f[3] == ".obsidian/cache" + "/" && f[4] == "WilliamOS/40_Search/generated/vectors.npy";
    assert f[5] == "WilliamOS/40_Search/generated/tfidf.joblib";
    hide FORBIDDEN_DIR_PREFIXES;
  }

  lemma {:induction false} DrillRejectsExactly(fnmatch: Matcher, rel: string)
    requires MatchesStars(fnmatch)
    ensures IsForbiddenPath(fnmatch, rel) <==> DrillRejects(Normalised(rel))
  {
    hide MatchesStars, MatchesAny, Name, Normalised, FORBIDDEN_PATTERNS, SecretName, AtOrBelow, Within,
         FORBIDDEN_DIR_PREFIXES;
    var path := Normalised(rel);
    SecretPatterns(fnmatch, Name(path));
    ForbiddenFolders(path);
    WorkspaceState(path);
  }

  lemma {:induction false} WorkspaceState(path: string)
    ensures StartsWithAny(path, FORBIDDEN_WORKSPACE_PREFIXES) <==> ".obsidian/workspace" <= path
    ensures StartsWithAny(path, WORKSPACE_PATTERNS) <==> ".obsidian/workspace" <= path
  {
    var w := ".obsidian/workspace";
    assert StartsWith(path, w) <==> w <= path;
    if w <= path { assert StartsWith(path, FORBIDDEN_WORKSPACE_PREFIXES[0])
        && StartsWith(path, WORKSPACE_PATTERNS[0]); }
    LongerStart(path, w, ".json");
    LongerStart(path, w, "-mobile.json");
    assert WORKSPACE_PATTERNS[1] == w + ".json" && WORKSPACE_PATTERNS[2] == w + "-mobile.json";
  }

  lemma {:induction false} LongerStart(path: string, start: string, more: string)
    ensures StartsWith(path, start + more) ==> start <= path
  {
    if StartsWith(path, start + more) { assert path[..|start + more|][..|start|] == path[..|start|]; }
  }

  /** Inside a folder of a given name, at the top or anywhere below. */
  predicate Inside(path: string, folder: string) { Within(path, folder) || Contains(path, "/" + (folder + "/")) }

  predicate InsideAny(path: string, folders: seq<string>)
  {
    exists i :: 0 <= i < |folders| && Inside(path, folders[i])
  }

  /** Left out of a backup: secrets and litter, tools and caches anywhere, what the vault generates, its
      local archives, and the state of an Obsidian workspace. */
  predicate LeftOut(path: string)
  {
    || SecretName(Name(path)) || LitterName(Name(path))
    || InsideAny(path, [".venv", "venv", "node_modules", "__pycache__", ".trash", ".obsidian/cache"])
    || StartsWithAny(path, [
         "WilliamOS/20_Graphify/generated/", "WilliamOS/40_Search/generated/",
         "WilliamOS/60_Synthesis/generated/cache/", "WilliamOS/70_InboxProcessor/generated/cache/",
         "WilliamOS/80_DoctrinePromotion/generated/cache/", "WilliamOS/85_DecisionPromotion/generated/cache/",
         "WilliamOS/86_ConceptPromotion/generated/cache/", "WilliamOS/87_ProjectPromotion/generated/cache/",
         "WilliamOS/88_CortexMap/generated/cache/", "WilliamOS/89_ReviewCockpit/generated/cache/",
         "WilliamOS/91_GitGovernance/generated/cache/", "WilliamOS/92_BackupGovernance/generated/cache/",
         "WilliamOS/92_BackupGovernance/local_archives/"])
    || ".obsidian/workspace" <= path
  }

  lemma {:induction false} InsideExactly(path: string, folder: string)
    ensures InDirectory(path, folder) <==> Inside(path, folder)
  {
    hide Contains;
  }

  lemma {:induction false} LeftOutExactly(fnmatch: Matcher, rel: string)
    requires MatchesStars(fnmatch)
    ensures IsExcluded(fnmatch, rel) <==> LeftOut(Normalised(rel))
  {
    hide MatchesStars, MatchesAny, Name, Normalised, SecretName, LitterName, Inside, InDirectory, EXCLUDE_PATTERNS,
         StartsWithAny, WORKSPACE_PATTERNS;
    var path := Normalised(rel);
    LitterPatterns(fnmatch, Name(path));
    WorkspaceState(path);
    forall i | 0 <= i < |EXCLUDE_DIRS| ensures InDirectory(path, EXCLUDE_DIRS[i]) <==> Inside(path, EXCLUDE_DIRS[i]) {
      InsideExactly(path, EXCLUDE_DIRS[i]);
    }
  }

  // ----- paths

  /** A listed path is taken with its backslashes turned round and without `./` in front. */
  lemma {:induction false} RelExactly(path: string)
    requires '\\' !in path
    ensures BackupArchive.Rel("./" + path) == path
    ensures !("./" <= path) ==> BackupArchive.Rel(path) == path
  {
    hide ReplaceAll;
    ReplaceAllAbsent(path, '\\', "/");
    ReplaceAllAbsent("./" + path, '\\', "/");
  }

  /** The name a rule looks at is the last component, behind any folder. */
  lemma {:induction false} NameExactly(folder: string, name: string)
    requires '/' !in name && name !in ["", "."]
    ensures Name(folder + "/" + name) == name && Name(name) == name
    ensures Name(folder + "/" + name + "/") == name
  {
    hide Split;
    NameOf(folder, name);
    SplitLast(name, '/');
    SplitAtLast(folder, name);
    SplitConcat(folder + "/" + name, "", '/');
    assert folder + "/" + name + ['/'] + "" == folder + "/" + name + "/";
    SplitLast("", '/');
    var parts := Split(folder + "/" + name, '/');
    assert (parts + [""])[..|parts + [""]| - 1] == parts;
  }
}
