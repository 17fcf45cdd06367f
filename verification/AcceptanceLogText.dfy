/** The acceptance log letter by letter: what is written, what each reader makes of it, and how the
    readers take lines and time stamps. */
module AcceptanceLogText {
  import opened Results
  import opened Strings
  import opened AcceptanceLog
  import opened AcceptanceLogLaws

  // ----- the text written

  function Bullet(name: string, value: string): string { "- " + name + ": " + value }
  function Backquoted(s: string): string { "`" + s + "`" }

  /** The lines of an entry: its heading, an empty line, and a bullet per detail. */
  function Written(e: Entry): seq<string>
  {
    [ "## " + e.timestamp,
      "",
      Bullet("Accepted draft", Backquoted(e.draftPath)),
      Bullet("Official path", Backquoted(e.officialPath)),
      Bullet("Lane", e.lane),
      Bullet("Source folder", Backquoted(e.sourceFolder)),
      Bullet("Destination folder", Backquoted(e.destFolder)),
      Bullet("Duplicate check", "passed"),
      Bullet("Snapshot recommendation", "run snapshot after review") ]
  }

  lemma {:induction false} BulletsAre(fields: seq<Field>)
    ensures |Bulleted(DetailsOf(fields))| == |fields|
    ensures forall i :: 0 <= i < |fields| ==> Bulleted(DetailsOf(fields))[i] == Bullet(fields[i].name, fields[i].value)
  {
    if fields != [] {
      BulletsAre(fields[1..]);
      assert "- " + Detail(fields[0]) == Bullet(fields[0].name, fields[0].value);
    }
  }

  lemma {:induction false} EntryLinesWritten(e: Entry)
    ensures EntryLines(e) == Written(e)
  {
    BulletsAre(Fields(e));
    hide Bulleted, DetailsOf, Bullet;
    var b, w := Bulleted(Details(e)), Written(e);
    assert |b| == 7 && w[..2] == ["## " + e.timestamp, ""];
    assert b == w[2..];
  }

  /** Appending writes a line break and the entry's lines, each ended; a new log starts with its title. */
  lemma {:induction false} AppendedText(log: Option<string>, e: Entry)
    ensures Appended(log, e)
         == (if log.None? then "# WilliamOS Acceptance Log" + "\n" else log.value) + ("\n" + Terminated(Written(e)))
  {
    hide EntryText, EntryLines, Written, Terminated;
    EntryTextLines(e);
    EntryLinesWritten(e);
  }

  // ----- what is read

  /** The list reader's entry: the bullets without their dash. Only the lane can end in spaces. */
  function ListRead(e: Entry): Read<seq<string>>
  {
    Read(Strip(e.timestamp),
      [ "Accepted draft" + ": " + Backquoted(e.draftPath),
        "Official path" + ": " + Backquoted(e.officialPath),
        Strip("Lane" + ": " + e.lane),
        "Source folder" + ": " + Backquoted(e.sourceFolder),
        "Destination folder" + ": " + Backquoted(e.destFolder),
        "Duplicate check" + ": " + "passed",
        "Snapshot recommendation" + ": " + "run snapshot after review" ])
  }

  lemma {:induction false} PlainDetail(name: string, value: string)
    requires CleanName(name) && value != "" && !IsSpace(value[|value| - 1])
    ensures Strip(Detail(Field(name, value))) == name + ": " + value
  {
    StripNothing(name + ": " + value);
  }

  lemma {:induction false} ListReads(e: Entry)
    ensures View(AddToList, [], e) == ListRead(e)
  {
    hide Strip, CleanName;
    ListDetails(e);
    FieldsClean(e);
    var f, r := Fields(e), View(AddToList, [], e).details;
    assert f[0] == Field("Accepted draft", Quoted(e.draftPath))
        && f[1] == Field("Official path", Quoted(e.officialPath));
    assert f[2] == Field("Lane", e.lane) && f[3] == Field("Source folder", Quoted(e.sourceFolder));
    assert f[4] == Field("Destination folder", Quoted(e.destFolder)) && f[5] == Field("Duplicate check", "passed");
    assert f[6] == Field("Snapshot recommendation", "run snapshot after review");
    QuotedDetail(f[0].name, e.draftPath);
    QuotedDetail(f[1].name, e.officialPath);
    QuotedDetail(f[3].name, e.sourceFolder);
    QuotedDetail(f[4].name, e.destFolder);
    PlainDetail(f[5].name, f[5].value);
    PlainDetail(f[6].name, f[6].value);
    assert r == ListRead(e).details;
  }

  /** The dictionary reader's entry. */
  function MapRead(e: Entry): Read<map<string, string>>
  {
    Read(Strip(e.timestamp), map[
      "Accepted draft" := Backquoted(e.draftPath),
      "Official path" := Backquoted(e.officialPath),
      "Lane" := Strip(e.lane),
      "Source folder" := Backquoted(e.sourceFolder),
      "Destination folder" := Backquoted(e.destFolder),
      "Duplicate check" := "passed",
      "Snapshot recommendation" := "run snapshot after review" ])
  }

  lemma {:induction false} MapKeys(m: map<string, string>, fields: seq<Field>)
    ensures forall k :: k in PutAll(m, fields) <==> k in m || exists i :: 0 <= i < |fields| && fields[i].name == k
    decreases |fields|
  {
    hide Strip;
    if fields != [] { MapKeys(m[fields[0].name := Strip(fields[0].value)], fields[1..]); }
  }

  lemma {:induction false} BackquotedStays(s: string)
    ensures Strip(Quoted(s)) == Backquoted(s)
  {
    StripNothing(Quoted(s));
  }

  lemma {:induction false} MapReads(e: Entry)
    ensures View(AddToMap, map[], e) == MapRead(e)
  {
    hide Strip, CleanName, Quoted, Backquoted;
    FieldsClean(e);
    AddAllMap(map[], Fields(e));
    MapKeys(map[], Fields(e));
    hide PutAll;
    var f, got := Fields(e), View(AddToMap, map[], e).details;
    forall i | 0 <= i < 7 ensures f[i].name in got && got[f[i].name] == Strip(f[i].value) { MapDetails(e, i); }
    SevenEntries(got, f, seq(7, i requires 0 <= i < 7 => Strip(f[i].value)));
    BackquotedStays(e.draftPath);
    BackquotedStays(e.officialPath);
    BackquotedStays(e.sourceFolder);
    BackquotedStays(e.destFolder);
    FixedValues();
  }

  lemma {:induction false} SevenEntries(got: map<string, string>, f: seq<Field>, v: seq<string>)
    requires |f| == |v| == 7 && forall i :: 0 <= i < 7 ==> f[i].name in got && got[f[i].name] == v[i]
    requires forall k :: k in got ==> exists i :: 0 <= i < 7 && f[i].name == k
    ensures got == map[f[0].name := v[0], f[1].name := v[1], f[2].name := v[2], f[3].name := v[3],
                       f[4].name := v[4], f[5].name := v[5], f[6].name := v[6]]
  {
  }

  lemma {:induction false} FixedValues()
    ensures Strip("passed") == "passed" && Strip("run snapshot after review") == "run snapshot after review"
  {
    StripNothing("passed");
    StripNothing("run snapshot after review");
  }

  /** Appended entries with one-line fields are read back as they were written, behind what was there. */
  lemma {:induction false} LogReadsBack(log: Option<string>, es: seq<Entry>)
    requires AllOneLine(es)
    ensures ReadBack(AddToList, [], AppendAll(log, es))
         == ReadBack(AddToList, [], log) + seq(|es|, i requires 0 <= i < |es| => ListRead(es[i]))
    ensures ReadBack(AddToMap, map[], AppendAll(log, es))
         == ReadBack(AddToMap, map[], log) + seq(|es|, i requires 0 <= i < |es| => MapRead(es[i]))
  {
    hide ReadBack, AppendAll, Views, View, ListRead, MapRead;
    RoundTrip(AddToList, [], log, es);
    RoundTrip(AddToMap, map[], log, es);
    ViewsAre(AddToList, [], es);
    ViewsAre(AddToMap, map[], es);
    forall i | 0 <= i < |es|
      ensures View(AddToList, [], es[i]) == ListRead(es[i]) && View(AddToMap, map[], es[i]) == MapRead(es[i])
    {
      ListReads(es[i]);
      MapReads(es[i]);
    }
  }

  // ----- any text, line by line

  /** A heading begins an entry; a bullet is added to the last entry, or lost when there is none; any other
      line is passed over. */
  lemma {:induction false} ReadByLine<D>(add: (D, string) -> D, empty: D, lines: seq<string>, line: string)
    ensures var before, after := Entries(add, empty, lines), Entries(add, empty, lines + [line]);
      if "## " <= line then after == before + [Read(Strip(line[3..]), empty)]
      else if "- " <= line && before != [] then
        var last := before[|before| - 1];
        after == before[..|before| - 1] + [last.(details := add(last.details, line[2..]))]
      else after == before
  {
    hide Strip;
    WalkPrefix(add, empty, Walk([], None), lines, [line], |lines|);
    var w := WalkLines(add, empty, Walk([], None), lines, |lines|);
    assert (lines + [line])[|lines|] == line;
    assert WalkLines(add, empty, Walk([], None), lines + [line], |lines| + 1) == WalkLine(add, empty, w, line);
    NothingBefore(add, empty, lines, |lines|);
  }

  lemma {:induction false} NothingBefore<D>(add: (D, string) -> D, empty: D, lines: seq<string>, n: nat)
    requires n <= |lines|
    ensures var w := WalkLines(add, empty, Walk([], None), lines, n); w.current.None? ==> w.entries == []
  {
    hide Strip;
    if n > 0 { NothingBefore(add, empty, lines, n - 1); }
  }

  lemma {:induction false} NothingRead<D>(add: (D, string) -> D, empty: D)
    ensures Entries(add, empty, []) == []
  {
  }

  /** A line ends at a line feed, at a carriage return, or at both together. */
  lemma {:induction false} LineTaken(line: string, ending: string, rest: string)
    requires OneLine(line) && ending in ["\n", "\r", "\r\n"] && (ending == "\r" ==> rest == "" || rest[0] != '\n')
    ensures Lines(line + ending + rest) == [line] + Lines(rest)
  {
    hide Split;
    if line == "" {
      assert line + ending + rest == ending + rest;
      if ending == "\r\n" { assert (ending + rest)[2..] == rest; } else { assert (ending + rest)[1..] == rest; }
      SplitLine("", UniversalNewlines(rest), '\n');
      assert "" + ['\n'] + UniversalNewlines(rest) == ['\n'] + UniversalNewlines(rest);
    } else {
      var s := line + ending + rest;
      assert s[1..] == line[1..] + ending + rest && s[0] == line[0];
      LineTaken(line[1..], ending, rest);
      FirstCharacter(line[0], UniversalNewlines(s[1..]));
      assert [line[0]] + line[1..] == line;
    }
  }

  lemma {:induction false} FirstCharacter(c: char, s: string)
    requires c != '\n'
    ensures var parts := Split(s, '\n'); Split([c] + s, '\n') == [[c] + parts[0]] + parts[1..]
  {
    assert ([c] + s)[1..] == s;
  }

  lemma {:induction false} LastLineTaken(line: string)
    requires OneLine(line)
    ensures Lines(line) == [line]
  {
    NoReturns(line);
    SplitLast(line, '\n');
  }

  // ----- time stamps

  predicate Digits(s: string, n: nat) { |s| == n && forall i :: 0 <= i < n ==> '0' <= s[i] <= '9' }

  /** Year, month and day, hour, minute and second, in digits. */
  lemma {:induction false} StampSpelled(y: string, mo: string, d: string, h: string, mi: string, s: string)
    requires Digits(y, 4) && Digits(mo, 2) && Digits(d, 2) && Digits(h, 2) && Digits(mi, 2) && Digits(s, 2)
    ensures IsStamp(y + "-" + mo + "-" + d + " " + h + ":" + mi + ":" + s)
  {
  }

  /** And nothing else is one. */
  lemma {:induction false} StampTakenApart(t: string)
    requires IsStamp(t)
    ensures Digits(t[..4], 4) && Digits(t[5..7], 2) && Digits(t[8..10], 2)
        && Digits(t[11..13], 2) && Digits(t[14..16], 2) && Digits(t[17..], 2)
    ensures t == t[..4] + "-" + t[5..7] + "-" + t[8..10] + " " + t[11..13] + ":" + t[14..16] + ":" + t[17..]
  {
  }

  /** The status regex finds the stamp right behind `## ` at the start of a line, whatever follows it, and
      nothing else. */
  lemma {:induction false} StampFound(stamp: string, rest: string, line: string)
    requires IsStamp(stamp)
    ensures StampOf("## " + stamp + rest) == [stamp]
    ensures StampOf(line) == [stamp] <==> "## " + stamp <= line
    ensures StampOf(line) == [] || exists t :: IsStamp(t) && "## " + t <= line
  {
    hide IsStamp;
    assert |stamp| == 19 by { StampLength(stamp); }
    var head := "## " + stamp;
    assert (head + rest)[3..22] == stamp && (head + rest)[..3] == "## ";
    if head <= line { assert line[3..22] == head[3..22] == stamp && line[..3] == head[..3]; }
    if StampOf(line) != [] {
      var t := line[3..22];
      assert line[..22] == line[..3] + t;
      assert "## " + t <= line;
    }
  }

  /** The stamps found in a text are those of its lines, in order. */
  lemma {:induction false} StampsByLine(lines: seq<string>, line: string)
    ensures Stamps(lines + [line], |lines| + 1) == Stamps(lines, |lines|) + StampOf(line)
  {
    hide StampOf;
    StampsPrefix(lines, [line], |lines|);
  }
}
