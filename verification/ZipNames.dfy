/** What a zip archive does to the name of a member: writing collapses it like `os.path.normpath` and
    drops leading slashes; extracting drops empty, `.` and `..` components. */
module ZipNames {
  import opened Strings

  /** One more component, as `normpath` takes it. */
  function Collapse(before: seq<string>, part: string, absolute: bool): seq<string>
  {
    if part in ["", "."] then before
    else if part != ".." || (!absolute && before == []) || (before != [] && before[|before| - 1] == "..")
    then before + [part]
    else if before != [] then before[..|before| - 1]
    else before
  }

  /** The components `normpath` keeps of the first `n`. */
  function Collapsed(parts: seq<string>, n: nat, absolute: bool): seq<string>
    requires n <= |parts|
  {
    if n == 0 then [] else Collapse(Collapsed(parts, n - 1, absolute), parts[n - 1], absolute)
  }

  function CollapsedName(name: string): seq<string>
  {
    Collapsed(Split(name, '/'), |Split(name, '/')|, StartsWith(name, "/"))
  }

  /** The name a file added as `name` has in the archive. The root itself cannot be added. */
  function Stored(name: string): string
  {
    var parts := CollapsedName(name);
    if parts != [] then Join(parts, "/") else if StartsWith(name, "/") then "" else "."
  }

  function Solid(parts: seq<string>): seq<string>
  {
    if parts == [] then [] else (if parts[0] in ["", ".", ".."] then [] else [parts[0]]) + Solid(parts[1..])
  }

  /** The name a member is extracted to. */
  function Extraction(stored: string): string { Join(Solid(Split(stored, '/')), "/") }

  function RestoredName(name: string): string { Extraction(Stored(name)) }

  predicate SolidPart(part: string) { part !in ["", ".", ".."] }

  /** A name with no empty, `.` or `..` component, as a directory listing spells it. */
  ghost predicate Plain(name: string)
  {
    AllSolid(Split(name, '/'))
  }

  ghost predicate AllSolid(parts: seq<string>) { forall i :: 0 <= i < |parts| ==> SolidPart(parts[i]) }

  lemma {:induction false} CollapsedPlain(first: seq<string>, parts: seq<string>, n: nat, absolute: bool)
    requires n <= |parts| && AllSolid(parts)
    ensures Collapsed(first + parts, |first| + n, absolute) == Collapsed(first, |first|, absolute) + parts[..n]
    decreases n
  {
    if n == 0 {
      CollapsedPrefix(first, parts, |first|, absolute);
    } else {
      CollapsedPlain(first, parts, n - 1, absolute);
      assert SolidPart(parts[n - 1]) && (first + parts)[|first| + n - 1] == parts[n - 1];
      assert parts[..n] == parts[..n - 1] + [parts[n - 1]];
    }
  }

  lemma {:induction false} CollapsedPrefix(first: seq<string>, parts: seq<string>, n: nat, absolute: bool)
    requires n <= |first|
    ensures Collapsed(first + parts, n, absolute) == Collapsed(first, n, absolute)
  {
    hide Collapse;
    if n > 0 { CollapsedPrefix(first, parts, n - 1, absolute); }
  }

  lemma {:induction false} SolidConcat(a: seq<string>, b: seq<string>)
    ensures Solid(a + b) == Solid(a) + Solid(b)
  {
    if a == [] {
      assert a + b == b;
    } else {
      assert (a + b)[1..] == a[1..] + b;
      SolidConcat(a[1..], b);
    }
  }

  lemma {:induction false} SolidAll(parts: seq<string>)
    requires AllSolid(parts)
    ensures Solid(parts) == parts
  {
    if parts != [] {
      assert SolidPart(parts[0]);
      TailSolid(parts);
      SolidAll(parts[1..]);
    }
  }

  lemma {:induction false} TailSolid(parts: seq<string>)
    requires AllSolid(parts) && parts != []
    ensures AllSolid(parts[1..])
  {
    hide SolidPart;
  }

  lemma {:induction false} CollapsedParts(parts: seq<string>, n: nat, absolute: bool)
    requires n <= |parts|
    ensures forall i :: 0 <= i < |Collapsed(parts, n, absolute)| ==> Collapsed(parts, n, absolute)[i] in parts
  {
    if n > 0 { CollapsedParts(parts, n - 1, absolute); }
  }

  /** A plain name goes through an archive unchanged. */
  lemma {:induction false} PlainKept(name: string)
    requires Plain(name)
    ensures Stored(name) == name && RestoredName(name) == name
  {
    hide Solid, Split, SolidPart, Collapsed;
    var parts := Split(name, '/');
    CollapsedPlain([], parts, |parts|, StartsWith(name, "/"));
    CollapsedNothing(StartsWith(name, "/"));
    assert [] + parts == parts && parts[..|parts|] == parts;
    JoinSplit(name, '/');
    SolidAll(parts);
  }

  lemma {:induction false} CollapsedNothing(absolute: bool)
    ensures Collapsed([], 0, absolute) == []
  {
  }

  // ----- a name below a folder

  lemma {:induction false} PartsBelow(folder: string, names: seq<string>)
    requires names != [] && forall i :: 0 <= i < |names| ==> '/' !in names[i]
    ensures Split(folder + "/" + Join(names, "/"), '/') == Split(folder, '/') + names
  {
    hide Split;
    SplitJoined(names, '/');
    SplitConcat(folder, Join(names, "/"), '/');
  }

  /** Where plain names below any folder end up: the folder collapsed, then the names. */
  lemma {:induction false} StoredBelow(folder: string, names: seq<string>)
    requires folder != "" && names != [] && AllSolid(names) && forall i :: 0 <= i < |names| ==> '/' !in names[i]
    ensures Stored(folder + "/" + Join(names, "/")) == Join(CollapsedName(folder) + names, "/")
    ensures RestoredName(folder + "/" + Join(names, "/")) == Join(Solid(CollapsedName(folder)) + names, "/")
  {
    hide Solid, Split, SolidPart, Collapsed, AllSolid, Join;
    var name, absolute := folder + "/" + Join(names, "/"), StartsWith(folder, "/");
    var first := Split(folder, '/');
    PartsBelow(folder, names);
    assert StartsWith(name, "/") == absolute by { assert name[0] == folder[0]; }
    CollapsedPlain(first, names, |names|, absolute);
    assert names[..|names|] == names;
    var parts := CollapsedName(folder) + names;
    assert CollapsedName(name) == parts;
    JoinSplit(folder, '/');
    CollapsedParts(first, |first|, absolute);
    forall i | 0 <= i < |parts| ensures '/' !in parts[i] {
      if i < |CollapsedName(folder)| { assert parts[i] in first; }
    }
    SplitJoined(parts, '/');
    SolidConcat(CollapsedName(folder), names);
    SolidAll(names);
  }

  /** Plain folders, absolute or climbing once out of the working directory, lose that in the archive. */
  lemma {:induction false} PlainFolders(folder: string, plain: string)
    requires Plain(plain) && folder in [plain, "/" + plain, "../" + plain]
    ensures Solid(CollapsedName(folder)) == Split(plain, '/')
  {
    hide Split, SolidPart;
    var parts := Split(plain, '/');
    SolidAll(parts);
    if folder == plain {
      CollapsedPlain([], parts, |parts|, StartsWith(folder, "/"));
      assert [] + parts == parts && parts[..|parts|] == parts;
    } else if folder == "/" + plain {
      Absolute(plain);
    } else {
      Climbing(plain);
    }
  }

  lemma {:induction false} Absolute(plain: string)
    requires Plain(plain)
    ensures Solid(CollapsedName("/" + plain)) == Split(plain, '/')
  {
    hide Split, SolidPart, Solid, AllSolid;
    var parts, folder := Split(plain, '/'), "/" + plain;
    SplitConcat("", plain, '/');
    SplitLast("", '/');
    assert "" + ['/'] + plain == folder;
    assert Split(folder, '/') == [""] + parts && StartsWith(folder, "/");
    CollapsedPlain([""], parts, |parts|, true);
    assert Collapsed([""], 1, true) == [] by { assert Collapsed([""], 0, true) == []; }
    assert [] + parts[..|parts|] == parts;
    SolidAll(parts);
  }

  lemma {:induction false} Climbing(plain: string)
    requires Plain(plain)
    ensures Solid(CollapsedName("../" + plain)) == Split(plain, '/')
  {
    hide Split, SolidPart, AllSolid;
    var parts, folder := Split(plain, '/'), "../" + plain;
    SplitConcat("..", plain, '/');
    SplitLast("..", '/');
    assert ".." + ['/'] + plain == folder;
    assert Split(folder, '/') == [".."] + parts;
    OtherStart(folder, "/", 0);
    CollapsedPlain([".."], parts, |parts|, false);
    assert Collapsed([".."], 1, false) == [".."] by { assert Collapsed([".."], 0, false) == []; }
    assert parts[..|parts|] == parts;
    SolidAll(parts);
    SolidConcat([".."], parts);
    assert Solid([".."]) == [] by { assert [".."][1..] == []; }
  }
}
