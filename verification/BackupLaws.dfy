/** A backup survives the restore policy: what is archived is restored byte for byte, its checksum
    verifies, and neither check of forbidden files rejects it, unless the name the manifest is restored
    under is a forbidden one. */
module BackupLaws {
  import opened Results
  import opened Strings
  import opened BackupPolicy
  import opened ZipNames
  import opened BackupArchive

  // ----- the scan

  function Rels(listing: seq<string>, n: nat): seq<string>
    requires n <= |listing|
  {
    if n == 0 then [] else Rels(listing, n - 1) + [Rel(listing[n - 1])]
  }

  lemma {:induction false} OneMore(xs: seq<string>, ys: seq<string>, all: seq<string>, x: string)
    requires multiset(xs) + multiset(ys) == multiset(all)
    ensures multiset(xs + [x]) + multiset(ys) == multiset(all + [x])
    ensures multiset(xs) + multiset(ys + [x]) == multiset(all + [x])
  {
    assert multiset(xs + [x]) == multiset(xs) + multiset{x};
    assert multiset(ys + [x]) == multiset(ys) + multiset{x};
    assert multiset(all + [x]) == multiset(all) + multiset{x};
  }

  lemma {:induction false} ScanLosesNothing(fnmatch: Matcher, listing: seq<string>, n: nat)
    requires n <= |listing|
    ensures var scan := ScanOf(fnmatch, listing, n);
      multiset(scan.included) + multiset(scan.excluded) == multiset(Rels(listing, n))
  {
    hide IsForbidden, IsExcluded, Rel;
    if n > 0 {
      ScanLosesNothing(fnmatch, listing, n - 1);
      var scan := ScanOf(fnmatch, listing, n - 1);
      OneMore(scan.included, scan.excluded, Rels(listing, n - 1), Rel(listing[n - 1]));
    }
  }

  lemma {:induction false} ScanSeparates(fnmatch: Matcher, listing: seq<string>, n: nat)
    requires n <= |listing|
    ensures var scan := ScanOf(fnmatch, listing, n);
      && (forall rel :: rel in scan.included ==> !IsExcluded(fnmatch, rel))
      && (forall rel :: rel in scan.excluded ==> IsExcluded(fnmatch, rel))
      && (forall rel :: rel in scan.forbidden <==> rel in Rels(listing, n) && IsForbidden(fnmatch, rel))
  {
    hide IsForbidden, IsExcluded, Rel;
    if n > 0 {
      ScanSeparates(fnmatch, listing, n - 1);
      PoliciesAgree(fnmatch, Rel(listing[n - 1]));
    }
  }

  /** Every listed file is included or excluded, never both and never lost; it is included exactly when
      no rule excludes it; and the forbidden ones are reported, all of them excluded. */
  lemma {:induction false} ScanPartitions(fnmatch: Matcher, listing: seq<string>)
    ensures var scan, rels := ScanOf(fnmatch, listing, |listing|), Rels(listing, |listing|);
      && multiset(scan.included) + multiset(scan.excluded) == multiset(rels)
      && (forall rel :: rel in scan.included <==> rel in rels && !IsExcluded(fnmatch, rel))
      && (forall rel :: rel in scan.excluded <==> rel in rels && IsExcluded(fnmatch, rel))
      && (forall rel :: rel in scan.forbidden <==> rel in rels && IsForbidden(fnmatch, rel))
  {
    hide IsForbidden, IsExcluded, ScanOf, Rels;
    ScanLosesNothing(fnmatch, listing, |listing|);
    ScanSeparates(fnmatch, listing, |listing|);
    var scan, rels := ScanOf(fnmatch, listing, |listing|), Rels(listing, |listing|);
    forall rel ensures rel in scan.included || rel in scan.excluded <==> rel in rels {
      assert rel in multiset(scan.included) + multiset(scan.excluded) <==> rel in multiset(rels);
    }
  }

  // ----- members

  lemma {:induction false} ExtractPrefix(into: map<string, string>, a: seq<Member>, b: seq<Member>, n: nat)
    requires n <= |a|
    ensures Extracted(into, a + b, n) == Extracted(into, a, n)
  {
    hide Extraction;
    if n > 0 { ExtractPrefix(into, a, b, n - 1); }
  }

  lemma {:induction false} ExtractOneMore(members: seq<Member>, last: Member)
    ensures Extracted(map[], members + [last], |members| + 1)
         == Extracted(map[], members, |members|)[Extraction(last.name) := last.content]
  {
    hide Extraction;
    ExtractPrefix(map[], members, [last], |members|);
  }

  /** The named files that exist, with their contents. */
  function Selection(files: map<string, string>, names: seq<string>): map<string, string>
  {
    map name | name in names && name in files :: files[name]
  }

  ghost predicate AllPlain(names: seq<string>) { forall i :: 0 <= i < |names| ==> Plain(names[i]) }

  /** Extracting an archive of plainly named files anywhere empty restores exactly the files it was made
      of. */
  lemma {:induction false} RestoredCopy(files: map<string, string>, names: seq<string>, n: nat)
    requires n <= |names| && AllPlain(names)
    ensures var members := MembersOf(files, names, n);
      Extracted(map[], members, |members|) == Selection(files, names[..n])
  {
    hide Plain, Stored, Extraction, Extracted;
    if n == 0 {
      ExtractedNothing();
    } else {
      RestoredCopy(files, names, n - 1);
      var before, name := MembersOf(files, names, n - 1), names[n - 1];
      assert names[..n] == names[..n - 1] + [name];
      assert Plain(name);
      PlainKept(name);
      if name in files {
        ExtractOneMore(before, Member(Stored(name), files[name]));
      } else {
        assert before + [] == before;
      }
    }
  }

  lemma {:induction false} ExtractedNothing()
    ensures Extracted(map[], [], 0) == map[]
  {
  }

  lemma {:induction false} MemberNames(files: map<string, string>, names: seq<string>, n: nat)
    requires n <= |names|
    ensures StoredNames(MembersOf(files, names, n))
    ensures forall stored :: stored in Names(MembersOf(files, names, n)) <==>
      exists i :: 0 <= i < n && names[i] in files && stored == Stored(names[i])
  {
    hide Stored;
    if n > 0 {
      MemberNames(files, names, n - 1);
      var before, name := MembersOf(files, names, n - 1), names[n - 1];
      assert IsStored(Stored(name));
      assert Names(MembersOf(files, names, n)) == Names(before) + if name in files then [Stored(name)] else [];
    }
  }

  lemma {:induction false} ExtractedNames(members: seq<Member>, n: nat)
    requires n <= |members|
    ensures forall name :: name in Extracted(map[], members, n) <==>
      exists i :: 0 <= i < n && name == Extraction(members[i].name)
  {
    hide Extraction;
    if n > 0 { ExtractedNames(members, n - 1); }
  }

  lemma {:induction false} FilterMembers(keep: string -> bool, names: seq<string>, n: nat)
    requires n <= |names|
    ensures forall name :: name in Filter(keep, names, n) <==> name in names[..n] && keep(name)
  {
    if n > 0 {
      FilterMembers(keep, names, n - 1);
      assert names[..n] == names[..n - 1] + [names[n - 1]];
    }
  }

  /** A filter finds nothing exactly when nothing is to be found. */
  lemma {:induction false} FilterEmpty(keep: string -> bool, names: seq<string>)
    ensures Filter(keep, names, |names|) == [] <==> forall i :: 0 <= i < |names| ==> !keep(names[i])
  {
    FilterMembers(keep, names, |names|);
    assert names[..|names|] == names;
    var found := Filter(keep, names, |names|);
    if found != [] { assert found[0] in found; }
  }

  // ----- the checksum file

  lemma {:induction false} FirstWordOf(word: string, rest: string)
    requires forall i :: 0 <= i < |word| ==> !IsSpace(word[i])
    requires rest == "" || IsSpace(rest[0])
    ensures FirstWord(word + rest) == word
  {
    hide IsSpace;
    if word == "" {
      assert word + rest == rest;
    } else {
      assert (word + rest)[1..] == word[1..] + rest;
      FirstWordOf(word[1..], rest);
    }
  }

  lemma {:induction false} StripKeepsWord(word: string, rest: string)
    requires word != "" && !IsSpace(word[|word| - 1])
    ensures |word| <= |StripRight(word + rest)| && StripRight(word + rest) <= word + rest
    decreases |rest|
  {
    hide IsSpace;
    var s := word + rest;
    if rest == "" {
      assert s == word;
    } else if IsSpace(s[|s| - 1]) {
      assert s[..|s| - 1] == word + rest[..|rest| - 1];
      StripKeepsWord(word, rest[..|rest| - 1]);
    }
  }

  /** The digest written in a checksum file is the digest read from it. */
  lemma {:induction false} ChecksumRoundTrip(checksum: string, name: string)
    requires Word(checksum)
    ensures FirstWord(Strip(ChecksumLine(checksum, name))) == checksum
  {
    hide FirstWord, StripRight;
    var rest := "  " + name + "\n";
    assert ChecksumLine(checksum, name) == checksum + rest;
    StripKeepsWord(checksum, rest);
    var line := StripRight(checksum + rest);
    assert line == checksum + rest[..|line| - |checksum|];
    FirstWordOf(checksum, rest[..|line| - |checksum|]);
  }

  // ----- the archive's name

  lemma {:induction false} LastDotAt(before: string, behind: string)
    requires '.' !in behind
    ensures LastDot(before + "." + behind) == |before|
    decreases |behind|
  {
    var s := before + "." + behind;
    if behind != "" {
      assert s[..|s| - 1] == before + "." + behind[..|behind| - 1];
      LastDotAt(before, behind[..|behind| - 1]);
    }
  }

  lemma {:induction false} NameOf(folder: string, name: string)
    requires '/' !in name && name !in ["", "."]
    ensures Name(folder + "/" + name) == name
    decreases |folder|
  {
    SplitAtLast(folder, name);
    var parts := Split(folder + "/" + name, '/');
    assert parts[|parts| - 1] == name;
  }

  lemma {:induction false} SplitAtLast(folder: string, name: string)
    requires '/' !in name
    ensures var parts := Split(folder + "/" + name, '/'); parts[|parts| - 1] == name
    decreases |folder|
  {
    var s := folder + "/" + name;
    if folder == "" {
      assert s == "/" + name && s[1..] == name;
      SplitLast(name, '/');
    } else {
      assert s[1..] == folder[1..] + "/" + name;
      SplitAtLast(folder[1..], name);
      var rest := Split(s[1..], '/');
      SplitLast(name, '/');
      AtLeastTwo(folder[1..], name);
    }
  }

  lemma {:induction false} AtLeastTwo(folder: string, name: string)
    ensures |Split(folder + "/" + name, '/')| >= 2
  {
    var s := folder + "/" + name;
    if folder == "" {
      assert s[1..] == name;
    } else {
      assert s[1..] == folder[1..] + "/" + name;
      AtLeastTwo(folder[1..], name);
    }
  }

  lemma {:induction false} ArchiveIsZip(r: Request)
    requires '/' !in r.stamp
    ensures Suffix(ArchivePath(r)) == ".zip"
  {
    hide Name, LastDot;
    var before := "WilliamOS-backup-" + r.stamp;
    var name := ArchiveName(r.stamp);
    assert name == before + "." + "zip";
    NameOf(r.dest, name);
    LastDotAt(before, "zip");
  }

  // ----- main results

  /** A backup is refused for forbidden files exactly when the listing has one, even in a directory the
      backup would leave out; and a refused backup leaves every file as it was. */
  lemma {:induction false} RefusedExactly<S>(tools: Tools<S>, vault: string, disk: Disk, r: Request)
    ensures var (result, after) := Created(tools, vault, disk, r);
      && (result.Err? ==> after.files == disk.files)
      && (r.dest in WithDestination(disk, r).dirs ==>
            (result.Ok? <==> forall rel :: rel in Rels(r.listing, |r.listing|) ==> !IsForbidden(tools.fnmatch, rel)))
  {
    hide IsForbidden, IsExcluded, ArchiveMembers, WithArchive, ToBackUp;
    ScanPartitions(tools.fnmatch, r.listing);
    var forbidden := ScanOf(tools.fnmatch, r.listing, |r.listing|).forbidden;
    if forbidden != [] { assert forbidden[0] in forbidden; }
  }

  /** What is on disk for a finished backup. */
  lemma {:induction false} ArchiveOnDisk<S(!new)>(tools: Tools<S>, vault: string, disk: Disk, r: Request)
    requires Lawful(tools)
    ensures var files, path := WithArchive(tools, vault, disk, r).files, ArchivePath(r);
      && path in files && ChecksumPath(path) in files && path != ChecksumPath(path)
      && tools.unzip(files[path]) == Some(ArchiveMembers(tools, vault, disk, r))
      && FirstWord(Strip(files[ChecksumPath(path)])) == Hash(tools, files[path])
  {
    hide ArchiveMembers, Strip, FirstWord, ChecksumLine, ArchiveName, ArchivePath, ManifestPath, BackupDir;
    hide StoredNames;
    var path := ArchivePath(r);
    MembersAre(tools, vault, disk, r);
    assert |ChecksumPath(path)| == |path| + 7;
    var bytes := tools.zip(ArchiveMembers(tools, vault, disk, r));
    ChecksumRoundTrip(Hash(tools, bytes), ArchiveName(r.stamp));
  }

  /** The names a backup adds, and the files it finds them in. */
  function Adds<S>(tools: Tools<S>, vault: string, r: Request): seq<string>
  {
    ToBackUp(vault, ScanOf(tools.fnmatch, r.listing, |r.listing|).included)
  }

  ghost predicate Added<S>(tools: Tools<S>, vault: string, disk: Disk, r: Request, name: string)
  {
    name in Adds(tools, vault, r) && name in WithManifest(vault, disk, r).files
  }

  /** Besides the manifest, which is always added, only files of the listing that no rule excludes. */
  lemma {:induction false} AddsExactly<S>(tools: Tools<S>, vault: string, r: Request)
    ensures forall name :: name in Adds(tools, vault, r) <==>
      name == ManifestPath(vault)
      || (name in Rels(r.listing, |r.listing|) && !IsExcluded(tools.fnmatch, name))
  {
    hide IsExcluded, IsForbidden, ManifestPath, ScanOf, Rels;
    ScanPartitions(tools.fnmatch, r.listing);
  }

  /** The archive's members are the added files under their stored names. */
  lemma {:induction false} MembersAre<S>(tools: Tools<S>, vault: string, disk: Disk, r: Request)
    ensures StoredNames(ArchiveMembers(tools, vault, disk, r))
    ensures forall stored :: stored in Names(ArchiveMembers(tools, vault, disk, r)) <==>
      exists name :: Added(tools, vault, disk, r, name) && stored == Stored(name)
  {
    hide ScanOf, ToBackUp, WithManifest, Stored, StoredNames;
    var names, files := Adds(tools, vault, r), WithManifest(vault, disk, r).files;
    MemberNames(files, names, |names|);
    forall stored | stored in Names(ArchiveMembers(tools, vault, disk, r))
      ensures exists name :: Added(tools, vault, disk, r, name) && stored == Stored(name) {
      var i :| 0 <= i < |names| && names[i] in files && stored == Stored(names[i]);
      assert Added(tools, vault, disk, r, names[i]);
    }
    forall name | Added(tools, vault, disk, r, name)
      ensures Stored(name) in Names(ArchiveMembers(tools, vault, disk, r)) {
      var i :| 0 <= i < |names| && names[i] == name;
    }
  }

  lemma {:induction false} ManifestAdded<S>(tools: Tools<S>, vault: string, disk: Disk, r: Request)
    ensures Added(tools, vault, disk, r, ManifestPath(vault))
  {
    hide ManifestPath, ScanOf;
  }

  lemma {:induction false} RelOfListing(listing: seq<string>, rel: string)
    requires rel in Rels(listing, |listing|)
    ensures exists i :: 0 <= i < |listing| && rel == Rel(listing[i])
  {
    hide Rel;
    RelsListed(listing, |listing|);
    var i :| 0 <= i < |Rels(listing, |listing|)| && Rels(listing, |listing|)[i] == rel;
    assert rel == Rel(listing[i]);
  }

  /** Every listed file is spelled plainly: without empty, `.` and `..` components. Only a backslash inside a
      component, turned into a separator, could bring one in. */
  ghost predicate PlainListing(listing: seq<string>)
  {
    forall i :: 0 <= i < |listing| ==> Plain(Rel(listing[i]))
  }

  lemma {:induction false} AddedPlainly<S>(tools: Tools<S>, vault: string, disk: Disk, r: Request, name: string)
    requires PlainListing(r.listing) && Added(tools, vault, disk, r, name) && name != ManifestPath(vault)
    ensures Plain(name) && !IsExcluded(tools.fnmatch, name) && Stored(name) == name && RestoredName(name) == name
  {
    hide Plain, IsExcluded, ManifestPath, Stored, Extraction, Rel, Rels, Adds;
    AddsExactly(tools, vault, r);
    RelOfListing(r.listing, name);
    PlainKept(name);
  }

  /** Of the members of a plain listing only the manifest can have a forbidden name. */
  lemma {:induction false} OnlyManifestForbidden<S>(tools: Tools<S>, vault: string, disk: Disk, r: Request)
    requires PlainListing(r.listing)
    ensures var names := Names(ArchiveMembers(tools, vault, disk, r));
      Filter(ForbiddenBy(tools.fnmatch), names, |names|) == [] <==>
        !IsForbidden(tools.fnmatch, Stored(ManifestPath(vault)))
  {
    hide IsForbidden, IsExcluded, IsForbiddenPath, ArchiveMembers, ManifestPath, Filter, Stored, Added, Plain,
         PlainListing, StoredNames;
    MembersAre(tools, vault, disk, r);
    ManifestAdded(tools, vault, disk, r);
    var names := Names(ArchiveMembers(tools, vault, disk, r));
    FilterEmpty(ForbiddenBy(tools.fnmatch), names);
    forall i | 0 <= i < |names| && names[i] != Stored(ManifestPath(vault))
      ensures !IsForbidden(tools.fnmatch, names[i]) {
      assert names[i] in names;
      var name :| Added(tools, vault, disk, r, name) && names[i] == Stored(name);
      AddedPlainly(tools, vault, disk, r, name);
      PoliciesAgree(tools.fnmatch, name);
    }
    assert Stored(ManifestPath(vault)) in names;
    var k :| 0 <= k < |names| && names[k] == Stored(ManifestPath(vault));
    assert ForbiddenBy(tools.fnmatch)(names[k]) == IsForbidden(tools.fnmatch, Stored(ManifestPath(vault)));
  }

  /** A finished backup passes verification's checksum; and of a plain listing it passes the check of
      forbidden names exactly when the manifest's stored name does: no other member can fail it. */
  lemma {:induction false} BackupVerifies<S(!new)>(tools: Tools<S>, vault: string, disk: Disk, r: Request)
    requires Lawful(tools) && Created(tools, vault, disk, r).0.Ok? && '/' !in r.stamp && PlainListing(r.listing)
    ensures var report := Verified(tools, Created(tools, vault, disk, r).1, ArchivePath(r));
      && report.Checked? && report.checksumOk == Some(true)
      && (report.forbidden == [] <==> !IsForbidden(tools.fnmatch, Stored(ManifestPath(vault))))
  {
    hide IsForbidden, ArchiveMembers, WithArchive, Strip, FirstWord, Suffix, StartsWith, ArchivePath, ManifestPath,
         REQUIRED_IN_ARCHIVE, ScanOf, Lawful, Filter, Stored, PlainListing;
    ArchiveOnDisk(tools, vault, disk, r);
    ArchiveIsZip(r);
    OnlyManifestForbidden(tools, vault, disk, r);
  }

  /** The restored copy of a plain listing holds exactly the files the scan included and the manifest, each
      with its contents; the manifest under the name it is restored by. */
  lemma {:induction false} RestoresTheBackup<S>(tools: Tools<S>, vault: string, disk: Disk, r: Request)
    requires PlainListing(r.listing) && forall i :: 0 <= i < |r.listing| ==> Rel(r.listing[i]) in disk.files
    ensures var members := ArchiveMembers(tools, vault, disk, r); var restored := Extracted(map[], members, |members|);
      var manifest := RestoredName(ManifestPath(vault));
      && (forall name :: name in restored <==>
            name == manifest || (name in Rels(r.listing, |r.listing|) && !IsExcluded(tools.fnmatch, name)))
      && (forall name :: name in restored && name != manifest ==>
           name in disk.files && restored[name] == disk.files[name])
      && restored[manifest] == r.manifestText
  {
    hide IsForbidden, IsExcluded, ManifestPath, BackupDir, Rel, ScanOf, Rels, MembersOf, Extracted, Stored,
         Extraction, Plain;
    var included := ScanOf(tools.fnmatch, r.listing, |r.listing|).included;
    var files := WithManifest(vault, disk, r).files;
    assert files == disk.files[ManifestPath(vault) := r.manifestText];
    ScanPartitions(tools.fnmatch, r.listing);
    forall i | 0 <= i < |included| ensures Plain(included[i]) && included[i] in disk.files {
      assert included[i] in included;
      RelOfListing(r.listing, included[i]);
    }
    RestoredCopy(files, included, |included|);
    assert included[..|included|] == included;
    if ManifestPath(vault) in included {
      assert Plain(ManifestPath(vault));
      PlainKept(ManifestPath(vault));
    } else {
      var before := MembersOf(files, included, |included|);
      LastAdded(files, included, ManifestPath(vault));
      ExtractOneMore(before, Member(Stored(ManifestPath(vault)), r.manifestText));
    }
  }

  lemma {:induction false} LastAdded(files: map<string, string>, names: seq<string>, last: string)
    requires last in files
    ensures MembersOf(files, names + [last], |names| + 1)
         == MembersOf(files, names, |names|) + [Member(Stored(last), files[last])]
  {
    hide Stored;
    MembersPrefix(files, names, [last], |names|);
  }

  lemma {:induction false} MembersPrefix(files: map<string, string>, names: seq<string>, more: seq<string>, n: nat)
    requires n <= |names|
    ensures MembersOf(files, names + more, n) == MembersOf(files, names, n)
  {
    hide Stored;
    if n > 0 { MembersPrefix(files, names, more, n - 1); }
  }

  lemma {:induction false} RelsListed(listing: seq<string>, n: nat)
    requires n <= |listing|
    ensures |Rels(listing, n)| == n && forall i :: 0 <= i < n ==> Rels(listing, n)[i] == Rel(listing[i])
  {
    hide Rel;
    if n > 0 { RelsListed(listing, n - 1); }
  }

  lemma {:induction false} NormalisedTwice(path: string)
    ensures Normalised(Normalised(path)) == Normalised(path)
  {
    NoBackslash(path);
    ReplaceAllAbsent(Normalised(path), '\\', "/");
  }

  lemma {:induction false} NoBackslash(path: string)
    ensures '\\' !in ReplaceAll(path, "\\", "/")
  {
    if path != "" {
      ReplaceAllStep(path, '\\', "/");
      NoBackslash(path[1..]);
    }
  }

  /** Any list of exactly the restored files. */
  ghost predicate ListsRestored<S>(tools: Tools<S>, vault: string, disk: Disk, r: Request, listing: seq<string>)
  {
    var members := ArchiveMembers(tools, vault, disk, r);
    forall name :: name in listing <==> name in Extracted(map[], members, |members|)
  }

  lemma {:induction false} RestoredExactly<S>(tools: Tools<S>, vault: string, disk: Disk, r: Request,
      listing: seq<string>)
    requires ListsRestored(tools, vault, disk, r, listing)
    ensures forall restored :: restored in listing <==>
      exists name :: Added(tools, vault, disk, r, name) && restored == RestoredName(name)
  {
    hide ArchiveMembers, Extracted, Added, Stored, Extraction;
    var members := ArchiveMembers(tools, vault, disk, r);
    MembersAre(tools, vault, disk, r);
    ExtractedNames(members, |members|);
    forall restored | restored in listing
      ensures exists name :: Added(tools, vault, disk, r, name) && restored == RestoredName(name) {
      var i :| 0 <= i < |members| && restored == Extraction(members[i].name);
      assert Names(members)[i] in Names(members);
      var name :| Added(tools, vault, disk, r, name) && members[i].name == Stored(name);
      assert restored == RestoredName(name);
    }
    forall name | Added(tools, vault, disk, r, name) ensures RestoredName(name) in listing {
      assert Stored(name) in Names(members);
      var i :| 0 <= i < |members| && Names(members)[i] == Stored(name);
      assert RestoredName(name) == Extraction(members[i].name);
    }
  }

  /** Of any backup: the drill's check of the restored files passes exactly when no added file is restored
      under a forbidden name. */
  lemma {:induction false} DrillPassesExactly<S>(tools: Tools<S>, vault: string, disk: Disk, r: Request,
      listing: seq<string>)
    requires ListsRestored(tools, vault, disk, r, listing)
    ensures Filter(ForbiddenPathBy(tools.fnmatch), NormalisedAll(listing), |listing|) == [] <==>
      forall name :: Added(tools, vault, disk, r, name) ==> !IsForbiddenPath(tools.fnmatch, RestoredName(name))
  {
    hide IsForbiddenPath, ListsRestored, Normalised, Filter, Added, RestoredName;
    RestoredExactly(tools, vault, disk, r, listing);
    FilterEmpty(ForbiddenPathBy(tools.fnmatch), NormalisedAll(listing));
    forall i | 0 <= i < |listing|
      ensures ForbiddenPathBy(tools.fnmatch)(NormalisedAll(listing)[i]) <==> IsForbiddenPath(tools.fnmatch, listing[i])
    {
      SameWhenNormalised(tools.fnmatch, listing[i]);
    }
    forall name | Added(tools, vault, disk, r, name)
      ensures exists i :: 0 <= i < |listing| && listing[i] == RestoredName(name) {
      assert RestoredName(name) in listing;
    }
    forall i | 0 <= i < |listing|
      ensures exists name :: Added(tools, vault, disk, r, name) && listing[i] == RestoredName(name) {
      assert listing[i] in listing;
    }
  }

  /** Of a plain listing, exactly when the name the manifest is restored under is not forbidden: the backup's
      filter and the drill's separately written one agree. */
  lemma {:induction false} BackupSurvivesRestore<S>(tools: Tools<S>, vault: string, disk: Disk, r: Request,
      listing: seq<string>)
    requires ListsRestored(tools, vault, disk, r, listing) && PlainListing(r.listing)
    ensures Filter(ForbiddenPathBy(tools.fnmatch), NormalisedAll(listing), |listing|) == []
       <==> !IsForbiddenPath(tools.fnmatch, RestoredName(ManifestPath(vault)))
  {
    hide IsForbiddenPath, IsExcluded, IsForbidden, ListsRestored, Normalised, Filter, Added, RestoredName,
         ManifestPath, Plain, PlainListing, Stored;
    DrillPassesExactly(tools, vault, disk, r, listing);
    ManifestAdded(tools, vault, disk, r);
    forall name | Added(tools, vault, disk, r, name) && name != ManifestPath(vault)
      ensures !IsForbiddenPath(tools.fnmatch, RestoredName(name))
    {
      AddedPlainly(tools, vault, disk, r, name);
      PoliciesAgree(tools.fnmatch, name);
    }
  }

  lemma {:induction false} SameWhenNormalised(fnmatch: Matcher, path: string)
    ensures IsForbiddenPath(fnmatch, Normalised(path)) <==> IsForbiddenPath(fnmatch, path)
  {
    hide Normalised, AtOrBelow, StartsWith, MatchesAny, Name;
    NormalisedTwice(path);
  }

  /** A later change to the archive is noticed exactly when it changes the digest. */
  lemma {:induction false} TamperingShows<S(!new)>(tools: Tools<S>, vault: string, disk: Disk, r: Request,
      bytes: string)
    requires Lawful(tools)
    ensures var made := WithArchive(tools, vault, disk, r); var path := ArchivePath(r);
      path in made.files &&
      ChecksumOf(tools, made.Write(path, bytes), path) == Some(Hash(tools, bytes) == Hash(tools, made.files[path]))
  {
    hide WithArchive, Strip, FirstWord, ArchivePath;
    ArchiveOnDisk(tools, vault, disk, r);
  }

  /** Verification passes exactly when every required file is in the archive, no member is forbidden, and
      a checksum file, if there is one, matches. */
  lemma {:induction false} PassesExactly<S>(tools: Tools<S>, disk: Disk, path: string)
    requires Verified(tools, disk, path).Checked?
    ensures path in disk.files && tools.unzip(disk.files[path]).Some?
    ensures var names := Names(tools.unzip(disk.files[path]).value);
      Verified(tools, disk, path).passed <==>
        && (forall i :: 0 <= i < |REQUIRED_IN_ARCHIVE| ==> REQUIRED_IN_ARCHIVE[i] in names)
        && (forall i :: 0 <= i < |names| ==> !IsForbidden(tools.fnmatch, names[i]))
        && ChecksumOf(tools, disk, path) != Some(false)
  {
    hide IsForbidden, Suffix, StartsWith, ChecksumOf, REQUIRED_IN_ARCHIVE, Filter;
    var names := Names(tools.unzip(disk.files[path]).value);
    FilterEmpty(MissingFrom(names), REQUIRED_IN_ARCHIVE);
    FilterEmpty(ForbiddenBy(tools.fnmatch), names);
    assert forall i :: 0 <= i < |names| ==>
        ForbiddenBy(tools.fnmatch)(names[i]) == IsForbidden(tools.fnmatch, names[i]);
  }

  // ----- the manifest's path

  lemma {:induction false} ManifestNormalised(vault: string)
    requires '\\' !in vault
    ensures Normalised(ManifestPath(vault)) == ManifestPath(vault)
  {
    hide ReplaceAll;
    var folder := BackupDir(vault);
    assert '\\' !in folder;
    ReplaceAllAbsent(ManifestPath(vault), '\\', "/");
  }

  // ----- what rejects the manifest

  /** How `fnmatch` reads a pattern with no special character but a star at one end. */
  ghost predicate MatchesStars(fnmatch: Matcher)
  {
    && (forall name, x :: NoStars(x) ==> (fnmatch(name, x) <==> name == x))
    && (forall name, x :: NoStars(x) ==> (fnmatch(name, "*" + x) <==> EndsWith(name, x)))
    && (forall name, x :: NoStars(x) ==> (fnmatch(name, x + "*") <==> StartsWith(name, x)))
  }

  predicate NoStars(x: string) { '*' !in x && '?' !in x && '[' !in x }

  lemma {:induction false} LiteralMisses(fnmatch: Matcher, name: string, x: string)
    requires MatchesStars(fnmatch) && NoStars(x) && name != x
    ensures !fnmatch(name, x)
  {
  }

  lemma {:induction false} SuffixMisses(fnmatch: Matcher, name: string, x: string)
    requires MatchesStars(fnmatch) && NoStars(x) && x != "" && name != "" && name[|name| - 1] != x[|x| - 1]
    ensures !fnmatch(name, "*" + x)
  {
    if |x| <= |name| { assert name[|name| - |x|..][|x| - 1] == name[|name| - 1]; }
  }

  lemma {:induction false} PrefixMisses(fnmatch: Matcher, name: string, x: string)
    requires MatchesStars(fnmatch) && NoStars(x) && x != "" && name != "" && name[0] != x[0]
    ensures !fnmatch(name, x + "*")
  {
    OtherStart(name, x, 0);
  }

  /** No forbidden file pattern matches a name that begins with a capital B and ends in d. */
  lemma {:induction false} LiteralsMiss(fnmatch: Matcher, name: string)
    requires MatchesStars(fnmatch) && name != "" && name[0] == 'B'
    ensures !fnmatch(name, ".env") && !fnmatch(name, "id_rsa") && !fnmatch(name, "id_ed25519")
  {
    hide MatchesStars;
    LiteralMisses(fnmatch, name, ".env");
    LiteralMisses(fnmatch, name, "id_rsa");
    LiteralMisses(fnmatch, name, "id_ed25519");
  }

  lemma {:induction false} SuffixesMiss(fnmatch: Matcher, name: string)
    requires MatchesStars(fnmatch) && name != "" && name[|name| - 1] == 'd'
    ensures !fnmatch(name, "*" + ".env") && !fnmatch(name, "*" + ".pem") && !fnmatch(name, "*" + ".key")
    ensures !fnmatch(name, "*" + ".p12") && !fnmatch(name, "*" + ".pfx")
  {
    hide MatchesStars;
    SuffixMisses(fnmatch, name, ".env");
    SuffixMisses(fnmatch, name, ".pem");
    SuffixMisses(fnmatch, name, ".key");
    SuffixMisses(fnmatch, name, ".p12");
    SuffixMisses(fnmatch, name, ".pfx");
  }

  lemma {:induction false} PrefixesMiss(fnmatch: Matcher, name: string)
    requires MatchesStars(fnmatch) && name != "" && name[0] == 'B'
    ensures !fnmatch(name, ".env." + "*") && !fnmatch(name, "secrets." + "*")
    ensures !fnmatch(name, "token." + "*") && !fnmatch(name, "credentials." + "*")
  {
    hide MatchesStars;
    PrefixMisses(fnmatch, name, ".env.");
    PrefixMisses(fnmatch, name, "secrets.");
    PrefixMisses(fnmatch, name, "token.");
    PrefixMisses(fnmatch, name, "credentials.");
  }

  lemma {:induction false} PatternsSpelled()
    ensures FORBIDDEN_PATTERNS ==
      [".env", "*" + ".env", ".env." + "*", "*" + ".pem", "*" + ".key", "*" + ".p12", "*" + ".pfx",
       "id_rsa", "id_ed25519", "secrets." + "*", "token." + "*", "credentials." + "*"]
  {
    assert "*" + ".env" == "*.env" && ".env." + "*" == ".env.*" && "*" + ".pem" == "*.pem" && "*" + ".key" == "*.key";
    assert "*" + ".p12" == "*.p12" && "*" + ".pfx" == "*.pfx";
    assert "secrets." + "*" == "secrets.*" && "token." + "*" == "token.*" && "credentials." + "*" == "credentials.*";
  }

  lemma {:induction false} ManifestMatchesNothing(fnmatch: Matcher, name: string)
    requires MatchesStars(fnmatch) && name == "BACKUP_MANIFEST.md"
    ensures !MatchesAny(fnmatch, name, FORBIDDEN_PATTERNS) && !MatchesAny(fnmatch, name, VERIFY_PATTERNS)
  {
    hide MatchesStars, FORBIDDEN_PATTERNS, VERIFY_PATTERNS, EXCLUDE_PATTERNS;
    assert name != "" && name[0] == 'B' && name[|name| - 1] == 'd';
    LiteralsMiss(fnmatch, name);
    SuffixesMiss(fnmatch, name);
    PrefixesMiss(fnmatch, name);
    PatternsSpelled();
    SamePatterns();
  }

  const MANIFEST := "BACKUP_MANIFEST.md"

  lemma {:induction false} ManifestParts(vault: string)
    ensures ManifestPath(vault) == vault + "/" + Join(["92_BackupGovernance", MANIFEST], "/")
    ensures AllSolid(["92_BackupGovernance", MANIFEST])
    ensures '/' !in "92_BackupGovernance" && '/' !in MANIFEST
  {
    hide ManifestPath;
    var folder, file := "92_BackupGovernance", MANIFEST;
    assert folder[0] == '9' && file[0] == 'B' && '/' !in folder && '/' !in file;
    assert ManifestPath(vault) == vault + "/" + folder + "/" + file by { ManifestSpelled(vault); }
    JoinTwo(folder, file);
    Regroup(vault, folder, file);
  }

  lemma {:induction false} ManifestSpelled(vault: string)
    ensures ManifestPath(vault) == vault + "/" + "92_BackupGovernance" + "/" + MANIFEST
  {
    assert "/92_BackupGovernance" == "/" + "92_BackupGovernance" && "/BACKUP_MANIFEST.md" == "/" + MANIFEST;
  }

  lemma {:induction false} JoinTwo(a: string, b: string)
    ensures Join([a, b], "/") == a + "/" + b
  {
    assert [a, b][1..] == [b];
  }

  lemma {:induction false} Regroup(vault: string, folder: string, file: string)
    ensures vault + "/" + folder + "/" + file == vault + "/" + (folder + "/" + file)
  {
  }

  /** Joined parts end in their last. */
  lemma {:induction false} NameOfJoined(parts: seq<string>, last: string)
    requires SolidPart(last) && '/' !in last && '\\' !in last
    ensures Name(Normalised(Join(parts + [last], "/"))) == last
  {
    hide Name, Normalised;
    if parts == [] {
      assert Join([last], "/") == last;
      assert parts + [last] == [last];
      PlainLast(last);
    } else {
      JoinConcat(parts, [last], "/");
      NormalisedBelow(Join(parts, "/"), last);
      NameOf(Normalised(Join(parts, "/")), last);
    }
  }

  lemma {:induction false} PlainLast(last: string)
    requires SolidPart(last) && '/' !in last && '\\' !in last
    ensures Name(Normalised(last)) == last
  {
    ReplaceAllAbsent(last, '\\', "/");
    SplitLast(last, '/');
    hide Split, ReplaceAll;
  }

  lemma {:induction false} NormalisedBelow(folder: string, name: string)
    requires '\\' !in name
    ensures Normalised(folder + "/" + name) == Normalised(folder) + "/" + name
  {
    hide ReplaceAll;
    assert folder + "/" + name == folder + ("/" + name);
    ReplaceAllConcat(folder, "/" + name, '\\', "/");
    ReplaceAllAbsent("/" + name, '\\', "/");
  }

  /** Whatever the vault, the manifest keeps its file name in the archive and when restored. */
  lemma {:induction false} ManifestName(vault: string)
    requires vault != ""
    ensures Name(Normalised(Stored(ManifestPath(vault)))) == MANIFEST
    ensures Name(Normalised(RestoredName(ManifestPath(vault)))) == MANIFEST
  {
    hide Name, Normalised, Stored, RestoredName, ManifestPath, CollapsedName, Solid, AllSolid, Join;
    var names := ["92_BackupGovernance", MANIFEST];
    ManifestParts(vault);
    StoredBelow(vault, names);
    assert CollapsedName(vault) + names == (CollapsedName(vault) + [names[0]]) + [names[1]];
    assert Solid(CollapsedName(vault)) + names == (Solid(CollapsedName(vault)) + [names[0]]) + [names[1]];
    assert SolidPart(MANIFEST) && '/' !in MANIFEST && '\\' !in MANIFEST;
    NameOfJoined(CollapsedName(vault) + [names[0]], MANIFEST);
    NameOfJoined(Solid(CollapsedName(vault)) + [names[0]], MANIFEST);
  }

  /** So the verifier never rejects a backup for the manifest's name, and a finished backup of a plain
      listing never fails its check of forbidden names. */
  lemma {:induction false} NoForbiddenNames<S(!new)>(tools: Tools<S>, vault: string, disk: Disk, r: Request)
    requires Lawful(tools) && Created(tools, vault, disk, r).0.Ok? && '/' !in r.stamp && PlainListing(r.listing)
    requires MatchesStars(tools.fnmatch) && vault != ""
    ensures Verified(tools, Created(tools, vault, disk, r).1, ArchivePath(r)).Checked?
    ensures Verified(tools, Created(tools, vault, disk, r).1, ArchivePath(r)).forbidden == []
  {
    hide Verified, Created, ArchivePath, ManifestPath, Lawful, MatchesStars, PlainListing, Name, Normalised, Stored,
         VERIFY_PATTERNS, FORBIDDEN_PATTERNS;
    BackupVerifies(tools, vault, disk, r);
    ManifestName(vault);
    ManifestMatchesNothing(tools.fnmatch, MANIFEST);
  }

  /** A plainly named vault is restored under its own name, also when it is given by an absolute path or
      from one folder up. */
  lemma {:induction false} ManifestRestored(vault: string, plain: string)
    requires Plain(plain) && plain != "" && vault in [plain, "/" + plain, "../" + plain]
    ensures RestoredName(ManifestPath(vault)) == ManifestPath(plain)
  {
    hide Name, RestoredName, ManifestPath, CollapsedName, Solid, AllSolid, Join, Plain, Split;
    var names := ["92_BackupGovernance", MANIFEST];
    ManifestParts(vault);
    ManifestParts(plain);
    StoredBelow(vault, names);
    PlainFolders(vault, plain);
    JoinSplit(plain, '/');
    JoinConcat(Split(plain, '/'), names, "/");
  }

  lemma {:induction false} ForbiddenDirectoryCharacters(i: nat)
    requires i < |FORBIDDEN_DIR_PREFIXES|
    ensures var prefix := FORBIDDEN_DIR_PREFIXES[i];
      0 < |prefix| < 45 && (if i < 4 then prefix[0] != 'W' else |prefix| > 10 && prefix[10] == '4')
  {
  }

  lemma {:induction false} OutsideForbiddenDirectories(vault: string, i: nat)
    requires |vault| == 9 && vault[0] == 'W' && i < |FORBIDDEN_DIR_PREFIXES|
    ensures !AtOrBelow(ManifestPath(vault), FORBIDDEN_DIR_PREFIXES[i])
  {
    hide TrimRight, FORBIDDEN_DIR_PREFIXES;
    var path, prefix := ManifestPath(vault), FORBIDDEN_DIR_PREFIXES[i];
    assert |path| == 48 && path[0] == 'W' && path[10] == '9';
    ForbiddenDirectoryCharacters(i);
    TrimRightShorter(prefix, '/');
    OtherStart(path, prefix, if i < 4 then 0 else 10);
  }

  lemma {:induction false} TrimRightShorter(s: string, c: char)
    ensures |TrimRight(s, c)| <= |s|
  {
    if s != "" && s[|s| - 1] == c { TrimRightShorter(s[..|s| - 1], c); }
  }

  lemma {:induction false} DefaultVaultPlain()
    ensures Plain("WilliamOS") && '\\' !in "WilliamOS" && |"WilliamOS"| == 9
  {
    SplitLast("WilliamOS", '/');
    hide Split;
  }

  /** The default vault's manifest is restored under a name the drill accepts. */
  lemma {:induction false} DefaultManifest(fnmatch: Matcher, vault: string)
    requires MatchesStars(fnmatch) && vault == "WilliamOS"
    ensures !IsForbiddenPath(fnmatch, RestoredName(ManifestPath(vault)))
  {
    hide AtOrBelow, MatchesAny, Name, Normalised, FORBIDDEN_PATTERNS, FORBIDDEN_DIR_PREFIXES, BackupDir, MatchesStars,
         Plain, RestoredName;
    DefaultVaultPlain();
    ManifestRestored(vault, vault);
    ManifestNormalised(vault);
    ManifestName(vault);
    ManifestMatchesNothing(fnmatch, MANIFEST);
    assert ManifestPath(vault)[0] == 'W' by { assert BackupDir(vault)[0] == 'W' by { DirStart(vault); } }
    forall i | 0 <= i < |FORBIDDEN_DIR_PREFIXES| ensures !AtOrBelow(ManifestPath(vault), FORBIDDEN_DIR_PREFIXES[i]) {
      OutsideForbiddenDirectories(vault, i);
    }
    OtherStart(ManifestPath(vault), FORBIDDEN_WORKSPACE_PREFIXES[0], 0);
  }

  lemma {:induction false} DirStart(vault: string)
    requires vault != ""
    ensures BackupDir(vault) != "" && BackupDir(vault)[0] == vault[0]
  {
  }

  /** So every backup of a plain listing from the default vault survives its own restore drill. */
  lemma {:induction false} DefaultBackupSurvives<S>(tools: Tools<S>, disk: Disk, r: Request, listing: seq<string>)
    requires ListsRestored(tools, "WilliamOS", disk, r, listing) && PlainListing(r.listing)
        && MatchesStars(tools.fnmatch)
    ensures Filter(ForbiddenPathBy(tools.fnmatch), NormalisedAll(listing), |listing|) == []
  {
    hide ListsRestored, PlainListing, MatchesStars, Filter, IsForbiddenPath, ManifestPath, RestoredName;
    BackupSurvivesRestore(tools, "WilliamOS", disk, r, listing);
    DefaultManifest(tools.fnmatch, "WilliamOS");
  }

  /** A vault inside a forbidden directory, be it named from the working directory, from one folder up or
      from the root of the disk, gives backups that their own restore drill rejects. */
  lemma {:induction false} RejectedVault(fnmatch: Matcher, vault: string, plain: string)
    requires Plain(plain) && StartsWith(plain, "venv/") && '\\' !in plain
    requires vault in [plain, "/" + plain, "../" + plain]
    ensures IsForbiddenPath(fnmatch, RestoredName(ManifestPath(vault)))
  {
    hide MatchesAny, Name, Normalised, RestoredName, Plain;
    ManifestRestored(vault, plain);
    ManifestNormalised(plain);
    assert FORBIDDEN_DIR_PREFIXES[1] == "venv/";
    assert ManifestPath(plain)[..5] == plain[..5];
    assert AtOrBelow(ManifestPath(plain), FORBIDDEN_DIR_PREFIXES[1]);
  }
}
