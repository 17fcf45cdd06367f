/** What a backup writes and reports, what the verifier and the restore drill report, and how a name is
    collapsed on its way into an archive. */
module BackupReports {
  import opened Results
  import opened Strings
  import opened BackupPolicy
  import opened ZipNames
  import opened BackupArchive
  import opened BackupLaws

  // ----- creating

  /** The listed files no rule excludes, and those taken for secrets, in the order of the listing. */
  lemma {:induction false} ScanInOrder(fnmatch: Matcher, listing: seq<string>, n: nat)
    requires n <= |listing|
    ensures var scan, rels := ScanOf(fnmatch, listing, n), Rels(listing, n);
      && |rels| == n
      && scan.included == Filter((rel: string) => !IsExcluded(fnmatch, rel), rels, n)
      && scan.excluded == Filter((rel: string) => IsExcluded(fnmatch, rel), rels, n)
      && scan.forbidden == Filter((rel: string) => IsForbidden(fnmatch, rel), rels, n)
  {
    hide IsExcluded, IsForbidden, Rel;
    RelsListed(listing, n);
    if n > 0 {
      ScanInOrder(fnmatch, listing, n - 1);
      RelsListed(listing, n - 1);
      var rel, before := Rel(listing[n - 1]), Rels(listing, n - 1);
      PoliciesAgree(fnmatch, rel);
      FilterPrefix((r: string) => !IsExcluded(fnmatch, r), before, rel);
      FilterPrefix((r: string) => IsExcluded(fnmatch, r), before, rel);
      FilterPrefix((r: string) => IsForbidden(fnmatch, r), before, rel);
    }
  }

  lemma {:induction false} FilterPrefix(keep: string -> bool, names: seq<string>, last: string)
    ensures Filter(keep, names + [last], |names|) == Filter(keep, names, |names|)
    ensures Filter(keep, names + [last], |names| + 1)
         == Filter(keep, names, |names|) + if keep(last) then [last] else []
  {
    FilterSame(keep, names, [last], |names|);
  }

  lemma {:induction false} FilterSame(keep: string -> bool, names: seq<string>, more: seq<string>, n: nat)
    requires n <= |names|
    ensures Filter(keep, names + more, n) == Filter(keep, names, n)
  {
    if n > 0 { FilterSame(keep, names, more, n - 1); }
  }

  /** Why no backup is made, in the order the reasons are looked for. */
  lemma {:induction false} RefusalReasons<S>(tools: Tools<S>, vault: string, disk: Disk, r: Request)
    ensures var result := Created(tools, vault, disk, r).0;
      && (result == Err(DestinationNotFound) <==> !disk.Exists(r.dest) && !r.createDest)
      && (result == Err(DestinationNotDirectory) <==> disk.Exists(r.dest) && r.dest !in disk.dirs)
      && (result.Err? && result.error.ForbiddenFiles? ==>
            forall rel :: rel in result.error.paths
                <==> rel in Rels(r.listing, |r.listing|) && IsForbidden(tools.fnmatch, rel))
  {
    hide IsForbidden, IsExcluded, ArchiveMembers, WithArchive, ToBackUp;
    ScanPartitions(tools.fnmatch, r.listing);
  }

  /** A finished backup writes three files and nothing else: the manifest, the archive named after its
      time, and beside it the checksum, two spaces and the archive's name on one line. */
  lemma {:induction false} BackupWrites<S>(tools: Tools<S>, vault: string, disk: Disk, r: Request)
    requires Created(tools, vault, disk, r).0.Ok?
    ensures var files := Created(tools, vault, disk, r).1.files;
      var name := "WilliamOS-backup-" + r.stamp + ".zip";
      var manifest, archive := vault + "/92_BackupGovernance/BACKUP_MANIFEST.md", r.dest + "/" + name;
      && archive in files && files[archive] == tools.zip(ArchiveMembers(tools, vault, disk, r))
      && archive + ".sha256" in files && files[archive + ".sha256"] == Hash(tools, files[archive]) + "  " + name + "\n"
      && manifest in files
           && (manifest != archive && manifest != archive + ".sha256" ==> files[manifest] == r.manifestText)
      && (forall p :: p !in {manifest, archive, archive + ".sha256"} ==>
            (p in files <==> p in disk.files) && (p in files ==> files[p] == disk.files[p]))
  {
    hide ArchiveMembers, Hash, ScanOf, ArchivePath, ManifestPath, BackupDir, ChecksumPath, ArchiveName;
    PathsSpelled(vault, r);
    ChecksumElsewhere(ArchivePath(r));
  }

  lemma {:induction false} PathsSpelled(vault: string, r: Request)
    ensures ArchiveName(r.stamp) == "WilliamOS-backup-" + r.stamp + ".zip"
    ensures ArchivePath(r) == r.dest + "/" + ArchiveName(r.stamp)
    ensures ChecksumPath(ArchivePath(r)) == ArchivePath(r) + ".sha256"
    ensures ManifestPath(vault) == vault + "/92_BackupGovernance/BACKUP_MANIFEST.md"
  {
    Grouped(vault, "/92_BackupGovernance", "/BACKUP_MANIFEST.md");
    assert "/92_BackupGovernance" + "/BACKUP_MANIFEST.md" == "/92_BackupGovernance/BACKUP_MANIFEST.md";
  }

  lemma {:induction false} ChecksumElsewhere(path: string)
    ensures ChecksumPath(path) != path
  {
    assert |ChecksumPath(path)| == |path| + 7;
  }

  lemma {:induction false} Grouped(a: string, b: string, c: string)
    ensures a + b + c == a + (b + c)
  {
  }

  /** And the receipt tells them apart: where the archive is, its checksum, how many files went into it, and
      how many were left out. */
  lemma {:induction false} ReceiptTells<S>(tools: Tools<S>, vault: string, disk: Disk, r: Request)
    requires Created(tools, vault, disk, r).0.Ok?
    ensures var receipt, files := Created(tools, vault, disk, r).0.value, Created(tools, vault, disk, r).1.files;
      && receipt.archivePath == r.dest + "/" + ("WilliamOS-backup-" + r.stamp + ".zip")
      && receipt.archivePath in files && receipt.checksum == Hash(tools, files[receipt.archivePath])
      && receipt.filesIncluded == |Adds(tools, vault, r)|
      && receipt.filesExcluded + receipt.filesIncluded
         == |r.listing| + if ManifestPath(vault) in Rels(r.listing, |r.listing|)
                             && !IsExcluded(tools.fnmatch, ManifestPath(vault)) then 0 else 1
  {
    hide ArchiveMembers, Hash, IsExcluded, IsForbidden, ManifestPath, ChecksumPath;
    ChecksumElsewhere(ArchivePath(r));
    ScanPartitions(tools.fnmatch, r.listing);
    RelsListed(r.listing, |r.listing|);
    var scan, rels := ScanOf(tools.fnmatch, r.listing, |r.listing|), Rels(r.listing, |r.listing|);
    hide ScanOf, Rels;
    SizesAdd(scan.included, scan.excluded, rels);
  }

  lemma {:induction false} SizesAdd(a: seq<string>, b: seq<string>, all: seq<string>)
    requires multiset(a) + multiset(b) == multiset(all)
    ensures |a| + |b| == |all|
  {
    assert |multiset(a) + multiset(b)| == |a| + |b|;
  }

  // ----- the verifier's report

  lemma {:induction false} ReportExactly<S>(tools: Tools<S>, disk: Disk, path: string)
    ensures var report := Verified(tools, disk, path);
      && (report == ArchiveNotFound <==> path !in disk.files)
      && (report == NotZip <==> path in disk.files && Suffix(path) != ".zip")
      && (report == BadZip <==> path in disk.files && Suffix(path) == ".zip" && tools.unzip(disk.files[path]) == None)
  {
    hide Suffix, StartsWith, IsForbidden, REQUIRED_IN_ARCHIVE, ChecksumOf;
  }

  /** An ending is what follows the last dot of the name, if something stands before it and behind it. */
  lemma {:induction false} SuffixExactly(folder: string, stem: string, ending: string)
    requires '/' !in stem && '/' !in ending && '.' !in ending && stem != "" && ending != ""
    ensures Suffix(folder + "/" + (stem + "." + ending)) == "." + ending
  {
    hide Name, LastDot;
    var name := stem + "." + ending;
    NameOf(folder, name);
    LastDotAt(stem, ending);
    assert name[|stem|..] == "." + ending;
  }

  /** A report in full. Four files must be in the archive; none may have a secret's name; a checksum file, if
      there is one, must begin with the archive's digest. */
  lemma {:induction false} ReportInFull<S>(tools: Tools<S>, disk: Disk, path: string)
    requires Verified(tools, disk, path).Checked?
    ensures path in disk.files && tools.unzip(disk.files[path]).Some?
    ensures var report, members := Verified(tools, disk, path), tools.unzip(disk.files[path]).value;
      var required := ["scripts/william.py", ".gitignore", "requirements.txt", "PACKAGE_MANIFEST.md"];
      && report.fileCount == |members|
      && (report.hasGit <==> exists i :: 0 <= i < |members| && ".git/" <= members[i].name)
      && (forall x :: x in report.missing <==> x in required && x !in Names(members))
      && (forall x :: x in report.forbidden <==> x in Names(members) && IsForbidden(tools.fnmatch, x))
      && report.checksumOk == ChecksumOf(tools, disk, path)
      && (report.passed <==> report.missing == [] && report.forbidden == [] && report.checksumOk != Some(false))
  {
    hide Suffix, IsForbidden, ChecksumOf, REQUIRED_IN_ARCHIVE, Filter, StartsWith;
    var members := tools.unzip(disk.files[path]).value;
    var names := Names(members);
    RequiredFiles();
    FilterMembers(MissingFrom(names), REQUIRED_IN_ARCHIVE, |REQUIRED_IN_ARCHIVE|);
    FilterMembers(ForbiddenBy(tools.fnmatch), names, |names|);
    assert REQUIRED_IN_ARCHIVE[..|REQUIRED_IN_ARCHIVE|] == REQUIRED_IN_ARCHIVE && names[..|names|] == names;
    forall i | 0 <= i < |members| ensures StartsWith(names[i], ".git/") <==> ".git/" <= members[i].name {
      Starts(names[i], ".git/");
    }
  }

  lemma {:induction false} Starts(s: string, prefix: string)
    ensures StartsWith(s, prefix) <==> prefix <= s
  {
  }

  lemma {:induction false} RequiredFiles()
    ensures REQUIRED_IN_ARCHIVE == ["scripts/william.py", ".gitignore", "requirements.txt", "PACKAGE_MANIFEST.md"]
  {
  }

  /** What a checksum file says: without one nothing; else whether its first word, spaces around it
      disregarded, is the archive's digest. */
  lemma {:induction false} ChecksumSays<S>(tools: Tools<S>, disk: Disk, path: string, left: string, word: string,
      rest: string)
    requires path in disk.files
    requires Blank(left) && Word(word) && (rest == "" || IsSpace(rest[0]))
    ensures path + ".sha256" !in disk.files ==> ChecksumOf(tools, disk, path) == None
    ensures path + ".sha256" in disk.files && disk.files[path + ".sha256"] == left + word + rest ==>
      ChecksumOf(tools, disk, path) == Some(Hash(tools, disk.files[path]) == word)
  {
    hide Hash, IsSpace;
    FirstWordRead(left, word, rest);
    hide Strip, FirstWord;
  }

  lemma {:induction false} FirstWordRead(left: string, word: string, rest: string)
    requires Blank(left) && Word(word) && (rest == "" || IsSpace(rest[0]))
    ensures FirstWord(Strip(left + word + rest)) == word
  {
    hide FirstWord, StripRight, StripLeft, IsSpace;
    assert left + word + rest == left + (word + rest);
    StripLeftExactly(left, word + rest);
    assert StripLeft(word + rest) == word + rest by { WordStays(word, rest); }
    StripKeepsWord(word, rest);
    var line := StripRight(word + rest);
    assert line == word + rest[..|line| - |word|];
    FirstWordOf(word, rest[..|line| - |word|]);
  }

  lemma {:induction false} WordStays(word: string, rest: string)
    requires Word(word)
    ensures StripLeft(word + rest) == word + rest
  {
    hide IsSpace;
  }

  // ----- the drill's report

  /** The drill lists the forbidden files, and of the others those with a suspicious name. */
  lemma {:induction false} DrillReports<S>(tools: Tools<S>, listing: seq<string>, rel: string)
    ensures rel in Filter(ForbiddenPathBy(tools.fnmatch), NormalisedAll(listing), |listing|) <==>
      rel in NormalisedAll(listing) && IsForbiddenPath(tools.fnmatch, rel)
    ensures rel in Filter(SuspiciousBy(tools), NormalisedAll(listing), |listing|) <==>
      rel in NormalisedAll(listing) && !IsForbiddenPath(tools.fnmatch, rel) && tools.suspicious(Name(rel))
  {
    hide IsForbiddenPath, Name, Normalised, Filter;
    var all := NormalisedAll(listing);
    FilterMembers(ForbiddenPathBy(tools.fnmatch), all, |all|);
    FilterMembers(SuspiciousBy(tools), all, |all|);
    assert all[..|all|] == all;
  }

  // ----- collapsing a name

  /** Empty and `.` components are passed over, a component followed by `..` goes with it, and `..` at the
      start stays in a relative name and is dropped from an absolute one. */
  lemma {:induction false} CollapseExactly(first: seq<string>, part: string, absolute: bool)
    ensures var before, after := Collapsed(first, |first|, absolute), Collapsed(first + [part], |first| + 1, absolute);
      && (part == "" || part == "." ==> after == before)
      && (SolidPart(part) ==> after == before + [part])
      && (part == ".." && before != [] && before[|before| - 1] != ".." ==> after == before[..|before| - 1])
      && (part == ".." && before == [] ==> after == if absolute then [] else [".."])
      && (part == ".." && before != [] && before[|before| - 1] == ".." ==> after == before + [".."])
  {
    CollapsedPrefix(first, [part], |first|, absolute);
    assert (first + [part])[|first|] == part;
  }

  /** Extraction passes over `..` too. */
  lemma {:induction false} ExtractionExactly(parts: seq<string>)
    requires parts != [] && forall i :: 0 <= i < |parts| ==> '/' !in parts[i]
    ensures Extraction(Join(parts, "/")) == Join(Solid(parts), "/")
    ensures forall part :: Solid(parts + [part]) == Solid(parts) + if part in ["", ".", ".."] then [] else [part]
  {
    hide Split, Join, Solid;
    SplitJoined(parts, '/');
    forall part ensures Solid(parts + [part]) == Solid(parts) + if part in ["", ".", ".."] then [] else [part] {
      SolidConcat(parts, [part]);
      SolidOne(part);
    }
  }

  lemma {:induction false} SolidOne(part: string)
    ensures Solid([part]) == if part in ["", ".", ".."] then [] else [part]
  {
    assert [part][1..] == [];
  }
}
