/** Creating a backup archive, verifying it, and the restore drill's extraction and checks, on a disk
    of named files. File contents are strings; a zip file is whatever `zip` makes of its members. */
module BackupArchive {
  import opened Results
  import opened Strings
  import opened BackupPolicy
  import opened ZipNames

  datatype Member = Member(name: string, content: string)

  /** The foreign operations: name matching, the streaming digest, zip encoding, and the restore
      drill's notion of a suspicious name. */
  datatype Tools<!S> = Tools(
    fnmatch: Matcher,
    start: S, update: (S, string) -> S, hexdigest: S -> string,
    zip: seq<Member> -> string, unzip: string -> Option<seq<Member>>,
    suspicious: string -> bool)

  /** Every name is one `zipfile` stores. */
  ghost predicate StoredNames(members: seq<Member>)
  {
    forall i :: 0 <= i < |members| ==> IsStored(members[i].name)
  }

  ghost predicate IsStored(stored: string) { exists name :: stored == Stored(name) }

  /** What is assumed of them: a digest may be fed in pieces, a hex digest is a word, and a zip file
      unzips to its members when their names are stored ones. */
  ghost predicate Lawful<S(!new)>(tools: Tools<S>)
  {
    && (forall s, a, b :: tools.update(tools.update(s, a), b) == tools.update(s, a + b))
    && (forall s :: tools.update(s, "") == s)
    && (forall s :: Word(tools.hexdigest(s)))
    && (forall ms :: StoredNames(ms) ==> tools.unzip(tools.zip(ms)) == Some(ms))
  }

  predicate Word(s: string) { s != "" && forall i :: 0 <= i < |s| ==> !IsSpace(s[i]) }

  function Hash<S>(tools: Tools<S>, content: string): string
  {
    tools.hexdigest(tools.update(tools.start, content))
  }

  lemma {:induction false} UpdateTwice<S(!new)>(tools: Tools<S>, s: S, a: string, b: string)
    requires Lawful(tools)
    ensures tools.update(s, "") == s && tools.update(tools.update(s, a), b) == tools.update(s, a + b)
  {
  }

  const CHUNK := 8192

  method Digest<S(!new)>(tools: Tools<S>, content: string) returns (hex: string)
    requires Lawful(tools)
    ensures hex == Hash(tools, content)
  {
    hide Lawful;
    var state, position := tools.start, 0;
    UpdateTwice(tools, state, "", "");
    while position < |content|
      invariant position <= |content| && state == tools.update(tools.start, content[..position])
    {
      var end := if position + CHUNK <= |content| then position + CHUNK else |content|;
      state := tools.update(state, content[position..end]);
      UpdateTwice(tools, tools.start, content[..position], content[position..end]);
      assert content[..position] + content[position..end] == content[..end];
      position := end;
    }
    assert content[..|content|] == content;
    hex := tools.hexdigest(state);
  }

  // ----- scanning

  datatype Scan = Scan(included: seq<string>, excluded: seq<string>, forbidden: seq<string>)

  function Rel(path: string): string { DropPrefix(Normalised(path), "./") }

  function ScanOf(fnmatch: Matcher, listing: seq<string>, n: nat): Scan
    requires n <= |listing|
  {
    if n == 0 then Scan([], [], [])
    else
      var scan, rel := ScanOf(fnmatch, listing, n - 1), Rel(listing[n - 1]);
      if IsForbidden(fnmatch, rel) then Scan(scan.included, scan.excluded + [rel], scan.forbidden + [rel])
      else if IsExcluded(fnmatch, rel) then Scan(scan.included, scan.excluded + [rel], scan.forbidden)
      else Scan(scan.included + [rel], scan.excluded, scan.forbidden)
  }

  method ScanSources(fnmatch: Matcher, listing: seq<string>) returns (scan: Scan)
    ensures scan == ScanOf(fnmatch, listing, |listing|)
  {
    hide IsForbidden, IsExcluded, Rel;
    var included, excluded, forbidden := [], [], [];
    for i := 0 to |listing|
      invariant Scan(included, excluded, forbidden) == ScanOf(fnmatch, listing, i)
    {
      var rel := Rel(listing[i]);
      if IsForbidden(fnmatch, rel) {
        forbidden := forbidden + [rel];
        excluded := excluded + [rel];
      } else if IsExcluded(fnmatch, rel) {
        excluded := excluded + [rel];
      } else {
        included := included + [rel];
      }
    }
    scan := Scan(included, excluded, forbidden);
  }

  // ----- creating

  datatype Disk = Disk(files: map<string, string>, dirs: set<string>)
  {
    predicate Exists(path: string) { path in files || path in dirs }
    function Write(path: string, content: string): Disk { Disk(files[path := content], dirs) }
    function MakeDir(path: string): Disk { Disk(files, dirs + {path}) }
  }

  /** `listing` is the sorted list of the files below the working directory, as the platform spells
      them; `manifestText` and `stamp` are what the generator and the clock give. */
  datatype Request = Request(dest: string, createDest: bool, listing: seq<string>, manifestText: string, stamp: string)

  datatype BackupError = DestinationNotFound | DestinationNotDirectory | ForbiddenFiles(paths: seq<string>)

  datatype Receipt = Receipt(archivePath: string, checksum: string, filesIncluded: nat, filesExcluded: nat)

  function BackupDir(vault: string): string { vault + "/92_BackupGovernance" }
  function ManifestPath(vault: string): string { BackupDir(vault) + "/BACKUP_MANIFEST.md" }
  function ArchiveName(stamp: string): string { "WilliamOS-backup-" + stamp + ".zip" }
  function ArchivePath(r: Request): string { r.dest + "/" + ArchiveName(r.stamp) }
  function ChecksumPath(archivePath: string): string { archivePath + ".sha256" }
  function ChecksumLine(checksum: string, name: string): string { checksum + "  " + name + "\n" }

  /** The manifest is added unless the scan already has it; it does not go through the scan's filter. */
  function ToBackUp(vault: string, included: seq<string>): seq<string>
  {
    if ManifestPath(vault) in included then included else included + [ManifestPath(vault)]
  }

  /** The members written: the listed paths that are still there, under the names they are stored by. */
  function MembersOf(files: map<string, string>, names: seq<string>, n: nat): seq<Member>
    requires n <= |names|
  {
    if n == 0 then []
    else
      MembersOf(files, names, n - 1) +
      if names[n - 1] in files then [Member(Stored(names[n - 1]), files[names[n - 1]])] else []
  }

  function WithDestination(disk: Disk, r: Request): Disk
  {
    if !disk.Exists(r.dest) && r.createDest then disk.MakeDir(r.dest) else disk
  }

  function WithManifest(vault: string, disk: Disk, r: Request): Disk
  {
    WithDestination(disk, r).MakeDir(BackupDir(vault)).Write(ManifestPath(vault), r.manifestText)
  }

  function ArchiveMembers<S>(tools: Tools<S>, vault: string, disk: Disk, r: Request): seq<Member>
  {
    var names := ToBackUp(vault, ScanOf(tools.fnmatch, r.listing, |r.listing|).included);
    MembersOf(WithManifest(vault, disk, r).files, names, |names|)
  }

  function WithArchive<S>(tools: Tools<S>, vault: string, disk: Disk, r: Request): Disk
  {
    var bytes := tools.zip(ArchiveMembers(tools, vault, disk, r));
    WithManifest(vault, disk, r)
    .Write(ArchivePath(r), bytes)
    .Write(ChecksumPath(ArchivePath(r)), ChecksumLine(Hash(tools, bytes), ArchiveName(r.stamp)))
  }

  function Created<S>(tools: Tools<S>, vault: string, disk: Disk, r: Request): (Result<Receipt, BackupError>, Disk)
  {
    var ready, scan := WithDestination(disk, r), ScanOf(tools.fnmatch, r.listing, |r.listing|);
    if !ready.Exists(r.dest) then (Err(DestinationNotFound), ready)
    else if r.dest !in ready.dirs then (Err(DestinationNotDirectory), ready)
    else if scan.forbidden != [] then (Err(ForbiddenFiles(scan.forbidden)), ready)
    else
      var checksum := Hash(tools, tools.zip(ArchiveMembers(tools, vault, disk, r)));
      (Ok(Receipt(ArchivePath(r), checksum, |ToBackUp(vault, scan.included)|, |scan.excluded|)),
       WithArchive(tools, vault, disk, r))
  }

  // ----- verifying

  const REQUIRED_IN_ARCHIVE: seq<string> :=
    ["scripts/william.py", ".gitignore", "requirements.txt", "PACKAGE_MANIFEST.md"]

  datatype VerifyReport =
    | ArchiveNotFound | NotZip | BadZip
    | Checked(
        passed: bool, fileCount: nat, hasGit: bool, missing: seq<string>, forbidden: seq<string>,
        checksumOk: Option<bool>)

  function Names(members: seq<Member>): seq<string>
  {
    seq(|members|, i requires 0 <= i < |members| => members[i].name)
  }

  function Filter(keep: string -> bool, names: seq<string>, n: nat): seq<string>
    requires n <= |names|
  {
    if n == 0 then [] else Filter(keep, names, n - 1) + if keep(names[n - 1]) then [names[n - 1]] else []
  }

  function MissingFrom(names: seq<string>): string -> bool { required => required !in names }
  function ForbiddenBy(fnmatch: Matcher): string -> bool { name => IsForbidden(fnmatch, name) }

  /** `Path(path).suffix` */
  function Suffix(path: string): string
  {
    var name := Name(path);
    var i := LastDot(name);
    if 0 < i < |name| - 1 then name[i..] else ""
  }

  function FirstWord(line: string): string
  {
    if line == "" || IsSpace(line[0]) then "" else [line[0]] + FirstWord(line[1..])
  }

  /** No result without a checksum file, else whether its first word is the archive's digest. Both
      programs read it this way. */
  function ChecksumOf<S>(tools: Tools<S>, disk: Disk, archivePath: string): Option<bool>
    requires archivePath in disk.files
  {
    if ChecksumPath(archivePath) !in disk.files then None
    else Some(Hash(tools, disk.files[archivePath]) == FirstWord(Strip(disk.files[ChecksumPath(archivePath)])))
  }

  function Verified<S>(tools: Tools<S>, disk: Disk, archivePath: string): VerifyReport
  {
    if archivePath !in disk.files then ArchiveNotFound
    else if Suffix(archivePath) != ".zip" then NotZip
    else
      match tools.unzip(disk.files[archivePath])
      case None => BadZip
      case Some(members) =>
        var names := Names(members);
        var missing := Filter(MissingFrom(names), REQUIRED_IN_ARCHIVE, |REQUIRED_IN_ARCHIVE|);
        var forbidden := Filter(ForbiddenBy(tools.fnmatch), names, |names|);
        var checksum := ChecksumOf(tools, disk, archivePath);
        Checked(missing == [] && forbidden == [] && checksum != Some(false), |names|,
                exists i :: 0 <= i < |names| && StartsWith(names[i], ".git/"), missing, forbidden, checksum)
  }

  // ----- restoring

  /** Extraction writes the members in order, under the names they are extracted to. */
  function Extracted(into: map<string, string>, members: seq<Member>, n: nat): map<string, string>
    requires n <= |members|
  {
    if n == 0 then into
    else Extracted(into, members, n - 1)[Extraction(members[n - 1].name) := members[n - 1].content]
  }

  function NormalisedAll(paths: seq<string>): seq<string>
  {
    seq(|paths|, i requires 0 <= i < |paths| => Normalised(paths[i]))
  }

  function ForbiddenPathBy(fnmatch: Matcher): string -> bool { rel => IsForbiddenPath(fnmatch, rel) }

  function SuspiciousBy<S>(tools: Tools<S>): string -> bool
  {
    rel => !IsForbiddenPath(tools.fnmatch, rel) && tools.suspicious(Name(rel))
  }

  // ----- the machine

  class Machine<!S(!new)> {
    const tools: Tools<S>
    const vault: string
    var disk: Disk

    constructor (tools: Tools<S>, vault: string, disk: Disk)
      requires Lawful(tools)
      ensures this.tools == tools && this.vault == vault && this.disk == disk
    {
      this.tools, this.vault, this.disk := tools, vault, disk;
    }

    method CreateArchive(r: Request) returns (result: Result<Receipt, BackupError>)
      requires Lawful(tools)
      modifies this`disk
      ensures (result, disk) == Created(tools, vault, old(disk), r)
    {
      hide Lawful, Stored, ArchivePath, ArchiveName, ManifestPath, BackupDir, ChecksumPath, ChecksumLine;
      if !disk.Exists(r.dest) {
        if r.createDest {
          disk := disk.MakeDir(r.dest);
        } else {
          return Err(DestinationNotFound);
        }
      }
      if r.dest !in disk.dirs { return Err(DestinationNotDirectory); }
      var scan := ScanSources(tools.fnmatch, r.listing);
      if scan.forbidden != [] { return Err(ForbiddenFiles(scan.forbidden)); }
      var archivePath := ArchivePath(r);
      disk := disk.MakeDir(BackupDir(vault));
      disk := disk.Write(ManifestPath(vault), r.manifestText);
      var names := scan.included;
      if ManifestPath(vault) !in names { names := names + [ManifestPath(vault)]; }
      var members: seq<Member> := [];
      for i := 0 to |names|
        invariant disk == WithManifest(vault, old(disk), r)
        invariant members == MembersOf(disk.files, names, i)
      {
        if names[i] in disk.files { members := members + [Member(Stored(names[i]), disk.files[names[i]])]; }
      }
      disk := disk.Write(archivePath, tools.zip(members));
      var checksum := Digest(tools, disk.files[archivePath]);
      disk := disk.Write(ChecksumPath(archivePath), ChecksumLine(checksum, ArchiveName(r.stamp)));
      result := Ok(Receipt(archivePath, checksum, |names|, |scan.excluded|));
    }

    method VerifyChecksum(archivePath: string) returns (verified: Option<bool>)
      requires Lawful(tools) && archivePath in disk.files
      ensures verified == ChecksumOf(tools, disk, archivePath)
    {
      hide Lawful, Strip;
      if ChecksumPath(archivePath) !in disk.files { return None; }
      var line := Strip(disk.files[ChecksumPath(archivePath)]);
      var expected := if line != "" then FirstWord(line) else "";
      var actual := Digest(tools, disk.files[archivePath]);
      verified := Some(actual == expected);
    }

    method VerifyArchive(archivePath: string) returns (report: VerifyReport)
      requires Lawful(tools)
      ensures report == Verified(tools, disk, archivePath)
    {
      hide Lawful, IsForbidden, StartsWith, Suffix, REQUIRED_IN_ARCHIVE;
      if archivePath !in disk.files { return ArchiveNotFound; }
      if Suffix(archivePath) != ".zip" { return NotZip; }
      var unzipped := tools.unzip(disk.files[archivePath]);
      if unzipped.None? { return BadZip; }
      var names := Names(unzipped.value);
      var missing := [];
      for i := 0 to |REQUIRED_IN_ARCHIVE|
        invariant missing == Filter(MissingFrom(names), REQUIRED_IN_ARCHIVE, i)
      {
        if REQUIRED_IN_ARCHIVE[i] !in names { missing := missing + [REQUIRED_IN_ARCHIVE[i]]; }
      }
      var forbidden, hasGit := [], false;
      for i := 0 to |names|
        invariant forbidden == Filter(ForbiddenBy(tools.fnmatch), names, i)
        invariant hasGit <==> exists k :: 0 <= k < i && StartsWith(names[k], ".git/")
      {
        if IsForbidden(tools.fnmatch, names[i]) { forbidden := forbidden + [names[i]]; }
        if StartsWith(names[i], ".git/") { hasGit := true; }
      }
      var checksum := VerifyChecksum(archivePath);
      var passed := missing == [] && forbidden == [] && checksum != Some(false);
      report := Checked(passed, |names|, hasGit, missing, forbidden, checksum);
    }

    /** Extraction into a directory holding `into`. */
    method Extract(members: seq<Member>, into: map<string, string>) returns (restored: map<string, string>)
      ensures restored == Extracted(into, members, |members|)
    {
      restored := into;
      for i := 0 to |members|
        invariant restored == Extracted(into, members, i)
      {
        restored := restored[Extraction(members[i].name) := members[i].content];
      }
    }

    /** `listing` is the sorted list of restored files, as the platform spells them. */
    method CheckForbiddenFiles(listing: seq<string>) returns (forbidden: seq<string>, suspicious: seq<string>)
      ensures forbidden == Filter(ForbiddenPathBy(tools.fnmatch), NormalisedAll(listing), |listing|)
      ensures suspicious == Filter(SuspiciousBy(tools), NormalisedAll(listing), |listing|)
    {
      hide IsForbiddenPath, Name, Normalised;
      forbidden, suspicious := [], [];
      for i := 0 to |listing|
        invariant forbidden == Filter(ForbiddenPathBy(tools.fnmatch), NormalisedAll(listing), i)
        invariant suspicious == Filter(SuspiciousBy(tools), NormalisedAll(listing), i)
      {
        var rel := Normalised(listing[i]);
        if IsForbiddenPath(tools.fnmatch, rel) {
          forbidden := forbidden + [rel];
        } else if tools.suspicious(Name(rel)) {
          suspicious := suspicious + [rel];
        }
      }
    }
  }
}
