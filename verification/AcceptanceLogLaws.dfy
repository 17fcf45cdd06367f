/** Appending to any log and reading it back: entries return in order, the old text stays a prefix,
    and the three readers agree. */
module AcceptanceLogLaws {
  import opened Results
  import opened Strings
  import opened AcceptanceLog

  // ----- lines of an appended text

  lemma {:induction false} NoReturns(s: string)
    requires '\r' !in s
    ensures UniversalNewlines(s) == s
  {
    if s != [] { NoReturns(s[1..]); }
  }

  lemma {:induction false} AppendNewlines(a: string, b: string)
    requires '\r' !in b
    ensures UniversalNewlines(a + "\n" + b)
      == if a != [] && a[|a| - 1] == '\r' then UniversalNewlines(a) + b else UniversalNewlines(a) + "\n" + b
    decreases |a|, 1
  {
    var s := a + "\n" + b;
    if a == [] {
      assert s == "\n" + b;
      NoReturns(s);
    } else if a == "\r" {
      assert s == "\r\n" + b && s[2..] == b;
      NoReturns(b);
    } else {
      AppendStep(a, b);
    }
  }

  /** The number of characters the next newline-translated character is read from. */
  function Width(s: string): nat
    requires s != []
  {
    if s[0] == '\r' && |s| > 1 && s[1] == '\n' then 2 else 1
  }

  lemma {:induction false} OneStep(s: string)
    requires s != []
    ensures UniversalNewlines(s) == [if s[0] == '\r' then '\n' else s[0]] + UniversalNewlines(s[Width(s)..])
  {
  }

  lemma {:induction false} AppendStep(a: string, b: string)
    requires '\r' !in b && a != [] && a != "\r"
    ensures UniversalNewlines(a + "\n" + b)
      == if a[|a| - 1] == '\r' then UniversalNewlines(a) + b else UniversalNewlines(a) + "\n" + b
    decreases |a|, 0
  {
    hide UniversalNewlines;
    var s, k := a + "\n" + b, Width(a);
    assert s[k..] == a[k..] + "\n" + b && Width(s) == k;
    OneStep(s);
    OneStep(a);
    AppendNewlines(a[k..], b);
  }

  lemma {:induction false} EndsWithReturn(a: string)
    requires a != [] && a[|a| - 1] == '\r'
    ensures UniversalNewlines(a) != [] && UniversalNewlines(a)[|UniversalNewlines(a)| - 1] == '\n'
    decreases |a|
  {
    if |a| > 1 {
      var k := if a[0] == '\r' && a[1] == '\n' then 2 else 1;
      EndsWithReturn(a[k..]);
    }
  }

  lemma {:induction false} SplitTerminated(lines: seq<string>)
    requires forall i :: 0 <= i < |lines| ==> OneLine(lines[i])
    ensures Split(Terminated(lines), '\n') == lines + [""]
    ensures '\r' !in Terminated(lines)
  {
    hide Split;
    if lines == [] {
      SplitLast("", '\n');
    } else {
      assert OneLine(lines[0]);
      SplitTerminated(lines[1..]);
      SplitLine(lines[0], Terminated(lines[1..]), '\n');
      assert lines + [""] == [lines[0]] + (lines[1..] + [""]);
      hide Terminated;
    }
  }

  // ----- walking them

  lemma {:induction false} WalkConcat<D>(add: (D, string) -> D, empty: D, w: Walk<D>, a: seq<string>, b: seq<string>,
      n: nat)
    requires n <= |b|
    ensures WalkLines(add, empty, w, a + b, |a| + n) == WalkLines(add, empty, WalkLines(add, empty, w, a, |a|), b, n)
    decreases n, |a|
  {
    hide WalkLine;
    if n > 0 {
      WalkConcat(add, empty, w, a, b, n - 1);
    } else {
      WalkPrefix(add, empty, w, a, b, |a|);
    }
  }

  lemma {:induction false} WalkPrefix<D>(add: (D, string) -> D, empty: D, w: Walk<D>, a: seq<string>, b: seq<string>,
      n: nat)
    requires n <= |a|
    ensures WalkLines(add, empty, w, a + b, n) == WalkLines(add, empty, w, a, n)
  {
    hide WalkLine;
    if n > 0 { WalkPrefix(add, empty, w, a, b, n - 1); }
  }

  function WalkText<D>(add: (D, string) -> D, empty: D, text: string): Walk<D>
  {
    WalkLines(add, empty, Walk([], None), Lines(text), |Lines(text)|)
  }

  lemma {:induction false} WalkSplit<D>(add: (D, string) -> D, empty: D, w: Walk<D>, a: seq<string>, b: seq<string>)
    ensures WalkLines(add, empty, w, a + b, |a + b|)
         == WalkLines(add, empty, WalkLines(add, empty, w, a, |a|), b, |b|)
  {
    WalkConcat(add, empty, w, a, b, |b|);
  }

  lemma {:induction false} WalkBlank<D>(add: (D, string) -> D, empty: D, w: Walk<D>, a: seq<string>)
    ensures WalkLines(add, empty, w, a + [""], |a + [""]|) == WalkLines(add, empty, w, a, |a|)
  {
    WalkSplit(add, empty, w, a, [""]);
    hide WalkLine;
    assert WalkLines(add, empty, WalkLines(add, empty, w, a, |a|), [""], 0) == WalkLines(add, empty, w, a, |a|);
    assert WalkLine(add, empty, WalkLines(add, empty, w, a, |a|), "") == WalkLines(add, empty, w, a, |a|) by {
      BlankLine(add, empty, WalkLines(add, empty, w, a, |a|));
    }
  }

  lemma {:induction false} BlankLine<D>(add: (D, string) -> D, empty: D, w: Walk<D>)
    ensures WalkLine(add, empty, w, "") == w
  {
  }

  /** Whatever the old text ends with, the appended lines are walked from where it left off. */
  lemma {:induction false} WalkAppended<D>(add: (D, string) -> D, empty: D, old': string, lines: seq<string>)
    requires forall i :: 0 <= i < |lines| ==> OneLine(lines[i])
    ensures WalkText(add, empty, old' + "\n" + Terminated(lines))
         == WalkLines(add, empty, WalkText(add, empty, old'), lines, |lines|)
  {
    hide WalkLines, WalkLine, UniversalNewlines, Split, Terminated;
    var none, more, u := Walk([], None), Terminated(lines), UniversalNewlines(old');
    SplitTerminated(lines);
    AppendNewlines(old', more);
    if old' != [] && old'[|old'| - 1] == '\r' {
      EndsWithReturn(old');
      var t := u[..|u| - 1];
      assert u == t + "\n" + "" && u + more == t + "\n" + more;
      SplitConcat(t, more, '\n');
      SplitConcat(t, "", '\n');
      SplitLast("", '\n');
      WalkSplit(add, empty, none, Split(t, '\n'), lines + [""]);
      WalkBlank(add, empty, none, Split(t, '\n'));
      WalkBlank(add, empty, WalkText(add, empty, old'), lines);
    } else {
      SplitConcat(u, more, '\n');
      WalkSplit(add, empty, none, Split(u, '\n'), lines + [""]);
      WalkBlank(add, empty, WalkText(add, empty, old'), lines);
    }
  }

  // ----- one entry

  function AddAll<D>(add: (D, string) -> D, d: D, details: seq<string>): D
  {
    if details == [] then d else AddAll(add, add(d, details[0]), details[1..])
  }

  lemma {:induction false} WalkBullets<D>(add: (D, string) -> D, empty: D, w: Walk<D>, details: seq<string>)
    requires w.current.Some?
    ensures WalkLines(add, empty, w, Bulleted(details), |Bulleted(details)|)
         == w.(current := Some(w.current.value.(details := AddAll(add, w.current.value.details, details))))
    decreases |details|
  {
    if details != [] {
      var line, rest := "- " + details[0], Bulleted(details[1..]);
      assert Bulleted(details) == [line] + rest;
      assert line[2..] == details[0] && StartsWith(line, "- ");
      OtherStart(line, "## ", 0);
      var next := WalkLine(add, empty, w, line);
      WalkSplit(add, empty, w, [line], rest);
      assert WalkLines(add, empty, w, [line], 0) == w;
      WalkBullets(add, empty, next, details[1..]);
    }
  }

  function View<D>(add: (D, string) -> D, empty: D, e: Entry): Read<D>
  {
    Read(Strip(e.timestamp), AddAll(add, empty, Details(e)))
  }

  lemma {:induction false} WalkEntry<D>(add: (D, string) -> D, empty: D, w: Walk<D>, e: Entry)
    ensures WalkLines(add, empty, w, EntryLines(e), |EntryLines(e)|) == Walk(w.Finished(), Some(View(add, empty, e)))
  {
    hide Details, Strip;
    var heading := "## " + e.timestamp;
    assert heading[3..] == e.timestamp && StartsWith(heading, "## ");
    var begun := Walk(w.Finished(), Some(Read(Strip(e.timestamp), empty)));
    assert WalkLine(add, empty, w, heading) == begun;
    assert WalkLines(add, empty, w, [heading], 0) == w;
    assert EntryLines(e) == [heading] + [""] + Bulleted(Details(e));
    WalkBlank(add, empty, w, [heading]);
    WalkSplit(add, empty, w, [heading] + [""], Bulleted(Details(e)));
    WalkBullets(add, empty, begun, Details(e));
  }

  lemma {:induction false} EntryOneLine(e: Entry)
    requires e.OneLineFields()
    ensures forall i :: 0 <= i < |EntryLines(e)| ==> OneLine(EntryLines(e)[i])
  {
    FieldsClean(e);
    hide Fields;
    DetailsOneLine(Fields(e));
    BulletsOneLine(Details(e));
  }

  lemma {:induction false} DetailsOneLine(fields: seq<Field>)
    requires forall i :: 0 <= i < |fields| ==> OneLine(fields[i].name) && OneLine(fields[i].value)
    ensures forall i :: 0 <= i < |DetailsOf(fields)| ==> OneLine(DetailsOf(fields)[i])
  {
    if fields != [] {
      DetailsOneLine(fields[1..]);
      assert OneLine(fields[0].name) && OneLine(fields[0].value);
    }
  }

  /** A name the readers can take apart: one line, no colon, nothing to strip. */
  predicate CleanName(name: string)
  {
    OneLine(name) && ':' !in name && name != "" && !IsSpace(name[0]) && !IsSpace(name[|name| - 1])
  }

  lemma {:induction false} PathNamesClean()
    ensures CleanName("Accepted draft") && CleanName("Official path") && CleanName("Lane")
  {
  }

  lemma {:induction false} FolderNamesClean()
    ensures CleanName("Source folder") && CleanName("Destination folder")
  {
  }

  lemma {:induction false} CheckNameClean()
    ensures CleanName("Duplicate check")
  {
  }

  lemma {:induction false} SnapshotNameClean()
    ensures CleanName("Snapshot recommendation")
  {
  }

  lemma {:induction false} BackquotedOneLine(s: string)
    requires OneLine(s)
    ensures OneLine(Quoted(s))
  {
  }

  lemma {:induction false} FieldsClean(e: Entry)
    ensures forall i :: 0 <= i < |Fields(e)| ==> CleanName(Fields(e)[i].name)
    ensures e.OneLineFields() ==> forall i :: 0 <= i < |Fields(e)| ==> OneLine(Fields(e)[i].value)
  {
    PathNamesClean();
    FolderNamesClean();
    CheckNameClean();
    SnapshotNameClean();
    assert OneLine("passed") && OneLine("run snapshot after review");
    if e.OneLineFields() {
      BackquotedOneLine(e.draftPath);
      BackquotedOneLine(e.officialPath);
      BackquotedOneLine(e.sourceFolder);
      BackquotedOneLine(e.destFolder);
    }
    hide CleanName, OneLine, Quoted;
  }

  lemma {:induction false} BulletsOneLine(details: seq<string>)
    requires forall i :: 0 <= i < |details| ==> OneLine(details[i])
    ensures forall i :: 0 <= i < |Bulleted(details)| ==> OneLine(Bulleted(details)[i])
  {
    if details != [] {
      BulletsOneLine(details[1..]);
      assert OneLine(details[0]);
    }
  }

  /** A reader's result on a log that may not exist yet. */
  function ReadBack<D>(add: (D, string) -> D, empty: D, log: Option<string>): seq<Read<D>>
  {
    match log case None => [] case Some(text) => WalkText(add, empty, text).Finished()
  }

  lemma {:induction false} LineReadsEmpty<D>(add: (D, string) -> D, empty: D, h: string)
    requires OneLine(h) && !StartsWith(h, "## ")
    ensures WalkText(add, empty, h + "\n") == Walk([], None)
  {
    var text := h + "\n";
    NoReturns(text);
    assert text == h + ['\n'] + "";
    SplitLine(h, "", '\n');
    SplitLast("", '\n');
    assert Lines(text) == [h] + [""];
    WalkBlank(add, empty, Walk([], None), [h]);
    assert WalkLines(add, empty, Walk([], None), [h], 0) == Walk([], None);
  }

  lemma {:induction false} HeaderLine()
    ensures OneLine(HEADER) && !StartsWith(HEADER, "## ")
  {
    OtherStart(HEADER, "## ", 1);
  }

  /** One more entry on any log: every reader sees what it saw before, then the entry. */
  lemma {:induction false} AppendReads<D>(add: (D, string) -> D, empty: D, log: Option<string>, e: Entry)
    requires e.OneLineFields()
    ensures ReadBack(add, empty, Some(Appended(log, e))) == ReadBack(add, empty, log) + [View(add, empty, e)]
  {
    hide WalkText, WalkLines, EntryText, EntryLines, View;
    var old' := match log case None => HEADER + "\n" case Some(text) => text;
    EntryTextLines(e);
    EntryOneLine(e);
    assert Appended(log, e) == old' + "\n" + Terminated(EntryLines(e));
    WalkAppended(add, empty, old', EntryLines(e));
    WalkEntry(add, empty, WalkText(add, empty, old'), e);
    HeaderLine();
    hide HEADER;
    LineReadsEmpty(add, empty, HEADER);
  }

  // ----- many entries

  function AppendAll(log: Option<string>, es: seq<Entry>): Option<string>
  {
    if es == [] then log else Some(Appended(AppendAll(log, es[..|es| - 1]), es[|es| - 1]))
  }

  function Views<D>(add: (D, string) -> D, empty: D, es: seq<Entry>): seq<Read<D>>
  {
    if es == [] then [] else Views(add, empty, es[..|es| - 1]) + [View(add, empty, es[|es| - 1])]
  }

  ghost predicate AllOneLine(es: seq<Entry>)
  {
    forall i :: 0 <= i < |es| ==> es[i].OneLineFields()
  }

  /** Appending any list of entries to any log and reading back returns what was there, then the
      entries in order; and the old log is a prefix of the new. */
  lemma {:induction false} RoundTrip<D>(add: (D, string) -> D, empty: D, log: Option<string>, es: seq<Entry>)
    requires AllOneLine(es)
    ensures ReadBack(add, empty, AppendAll(log, es)) == ReadBack(add, empty, log) + Views(add, empty, es)
    ensures log.Some? ==> AppendAll(log, es).Some? && log.value <= AppendAll(log, es).value
  {
    if es != [] {
      var init := es[..|es| - 1];
      assert forall i :: 0 <= i < |init| ==> init[i] == es[i];
      RoundTrip(add, empty, log, init);
      AppendReads(add, empty, AppendAll(log, init), es[|es| - 1]);
    }
  }

  // ----- what each reader sees of an entry

  lemma {:induction false} AddAllList(done: seq<string>, fields: seq<Field>)
    ensures AddAll(AddToList, done, DetailsOf(fields))
         == done + seq(|fields|, i requires 0 <= i < |fields| => Strip(Detail(fields[i])))
    decreases |fields|
  {
    hide Strip, Detail;
    if fields != [] {
      AddAllList(done + [Strip(Detail(fields[0]))], fields[1..]);
    }
  }

  /** The list reader returns every detail of the entry, stripped, in order. */
  lemma {:induction false} ListDetails(e: Entry)
    ensures var read := View(AddToList, [], e);
      && |read.details| == |Fields(e)|
      && forall i :: 0 <= i < |Fields(e)| ==> read.details[i] == Strip(Detail(Fields(e)[i]))
  {
    hide Strip, Detail, Fields;
    AddAllList([], Fields(e));
  }

  /** Quoted values keep their text, so only the lane can lose anything to stripping. */
  lemma {:induction false} QuotedDetail(name: string, value: string)
    requires CleanName(name)
    ensures Strip(Detail(Field(name, Quoted(value)))) == name + ": " + Quoted(value)
  {
    StripNothing(name + ": " + Quoted(value));
  }

  lemma {:induction false} SplitLabel(key: string, value: string)
    requires ':' !in key
    ensures SplitOnce(key + ": " + value) == Some((key, value))
  {
    var s := key + ": " + value;
    if key == [] {
      assert s == ": " + value && s[2..] == value;
    } else {
      assert s[1..] == key[1..] + ": " + value && s[0] == key[0];
      OtherStart(s, ": ", 0);
      SplitLabel(key[1..], value);
      assert [key[0]] + key[1..] == key;
    }
  }

  lemma {:induction false} AddDetail(m: map<string, string>, key: string, value: string, detail: string)
    requires ':' !in key && key != "" && !IsSpace(key[0]) && !IsSpace(key[|key| - 1])
    requires detail == key + ": " + value
    ensures AddToMap(m, detail) == m[key := Strip(value)]
  {
    SplitLabel(key, value);
    StripNothing(key);
    hide Strip, SplitOnce;
  }

  function PutAll(m: map<string, string>, fields: seq<Field>): map<string, string>
    decreases |fields|
  {
    if fields == [] then m else PutAll(m[fields[0].name := Strip(fields[0].value)], fields[1..])
  }

  lemma {:induction false} AddAllMap(m: map<string, string>, fields: seq<Field>)
    requires forall i :: 0 <= i < |fields| ==> CleanName(fields[i].name)
    ensures AddAll(AddToMap, m, DetailsOf(fields)) == PutAll(m, fields)
    decreases |fields|
  {
    hide Strip, AddToMap;
    if fields != [] {
      AddDetail(m, fields[0].name, fields[0].value, Detail(fields[0]));
      AddAllMap(m[fields[0].name := Strip(fields[0].value)], fields[1..]);
    }
  }

  lemma {:induction false} PutAllKeeps(m: map<string, string>, fields: seq<Field>, k: string)
    requires forall i :: 0 <= i < |fields| ==> fields[i].name != k
    ensures k in PutAll(m, fields) <==> k in m
    ensures k in m ==> PutAll(m, fields)[k] == m[k]
    decreases |fields|
  {
    hide Strip;
    if fields != [] { PutAllKeeps(m[fields[0].name := Strip(fields[0].value)], fields[1..], k); }
  }

  lemma {:induction false} PutAllGives(m: map<string, string>, fields: seq<Field>, i: nat)
    requires i < |fields| && forall j :: i < j < |fields| ==> fields[j].name != fields[i].name
    ensures fields[i].name in PutAll(m, fields) && PutAll(m, fields)[fields[i].name] == Strip(fields[i].value)
    decreases |fields|
  {
    hide Strip;
    var next := m[fields[0].name := Strip(fields[0].value)];
    if i == 0 {
      PutAllKeeps(next, fields[1..], fields[0].name);
    } else {
      PutAllGives(next, fields[1..], i - 1);
    }
  }

  lemma {:induction false} NamesDiffer(e: Entry, i: nat, j: nat)
    requires i < j < |Fields(e)|
    ensures Fields(e)[i].name != Fields(e)[j].name
  {
    var f := Fields(e);
    assert |f[0].name| == 14 && |f[1].name| == 13 && |f[2].name| == 4 && |f[3].name| == 13 && |f[4].name| == 18;
    assert |f[5].name| == 15 && |f[6].name| == 23 && f[1].name[0] == 'O' && f[3].name[0] == 'S';
  }

  /** The dictionary reader maps every field name to its value, stripped. */
  lemma {:induction false} MapDetails(e: Entry, i: nat)
    requires i < |Fields(e)|
    ensures var read := View(AddToMap, map[], e);
      Fields(e)[i].name in read.details && read.details[Fields(e)[i].name] == Strip(Fields(e)[i].value)
  {
    hide Strip, Fields;
    FieldsClean(e);
    AddAllMap(map[], Fields(e));
    forall j | i < j < |Fields(e)| ensures Fields(e)[j].name != Fields(e)[i].name { NamesDiffer(e, i, j); }
    PutAllGives(map[], Fields(e), i);
  }

  // ----- agreement

  /** On any text whatsoever the list reader and the dictionary reader find the same timestamps. */
  lemma {:induction false} SameTimestamps<D, E>(add: (D, string) -> D, empty: D, add': (E, string) -> E, empty': E,
                                                lines: seq<string>, n: nat)
    requires n <= |lines|
    ensures var w, w' := WalkLines(add, empty, Walk([], None), lines, n),
        WalkLines(add', empty', Walk([], None), lines, n);
      && |w.entries| == |w'.entries|
      && (forall i :: 0 <= i < |w.entries| ==> w.entries[i].timestamp == w'.entries[i].timestamp)
      && (w.current.Some? <==> w'.current.Some?)
      && (w.current.Some? ==> w.current.value.timestamp == w'.current.value.timestamp)
  {
    hide Strip;
    if n > 0 { SameTimestamps(add, empty, add', empty', lines, n - 1); }
  }

  lemma {:induction false} ReadersAgree(text: string)
    ensures var list, dict := Entries(AddToList, [], Lines(text)), Entries(AddToMap, map[], Lines(text));
      |list| == |dict| && forall i :: 0 <= i < |list| ==> list[i].timestamp == dict[i].timestamp
  {
    SameTimestamps(AddToList, [], AddToMap, map[], Lines(text), |Lines(text)|);
  }

  lemma {:induction false} StampsConcat(a: seq<string>, b: seq<string>, n: nat)
    requires n <= |b|
    ensures Stamps(a + b, |a| + n) == Stamps(a, |a|) + Stamps(b, n)
    decreases n, |a|
  {
    hide StampOf;
    if n > 0 {
      StampsConcat(a, b, n - 1);
    } else {
      StampsPrefix(a, b, |a|);
    }
  }

  lemma {:induction false} StampsPrefix(a: seq<string>, b: seq<string>, n: nat)
    requires n <= |a|
    ensures Stamps(a + b, n) == Stamps(a, n)
  {
    hide StampOf;
    if n > 0 { StampsPrefix(a, b, n - 1); }
  }

  lemma {:induction false} StampsSplit(a: seq<string>, b: seq<string>)
    ensures Stamps(a + b, |a + b|) == Stamps(a, |a|) + Stamps(b, |b|)
  {
    StampsConcat(a, b, |b|);
  }

  lemma {:induction false} NoStamps(lines: seq<string>, n: nat)
    requires n <= |lines| && forall i :: 0 <= i < |lines| ==> lines[i] == "" || lines[i][0] != '#'
    ensures Stamps(lines, n) == []
  {
    if n > 0 {
      NoStamps(lines, n - 1);
      var line := lines[n - 1];
      if line != "" { OtherStart(line, "## ", 0); }
    }
  }

  lemma {:induction false} EntryStamps(e: Entry)
    requires IsStamp(e.timestamp)
    ensures Stamps(EntryLines(e) + [""], |EntryLines(e) + [""]|) == [e.timestamp]
  {
    hide IsStamp, Details;
    var heading, rest := "## " + e.timestamp, [""] + Bulleted(Details(e)) + [""];
    assert EntryLines(e) + [""] == [heading] + rest;
    assert |e.timestamp| == 19 by { StampLength(e.timestamp); }
    assert heading[3..22] == e.timestamp && heading[..3] == "## ";
    assert Stamps([heading], 0) == [];
    StampsSplit([heading], rest);
    BulletsStartWithDash(Details(e));
    NoStamps(rest, |rest|);
  }

  lemma {:induction false} StampLength(s: string)
    requires IsStamp(s)
    ensures |s| == 19 && !IsSpace(s[0]) && !IsSpace(s[18]) && OneLine(s)
  {
    assert Digit(s[0]) && Digit(s[18]);
  }

  lemma {:induction false} BulletsStartWithDash(details: seq<string>)
    ensures forall i :: 0 <= i < |Bulleted(details)| ==> Bulleted(details)[i] != "" && Bulleted(details)[i][0] == '-'
  {
    if details != [] { BulletsStartWithDash(details[1..]); }
  }

  function StatusStamps(log: Option<string>): seq<string>
  {
    match log case None => [] case Some(text) => Stamps(Lines(text), |Lines(text)|)
  }

  lemma {:induction false} StampsAppended(old': string, lines: seq<string>)
    requires forall i :: 0 <= i < |lines| ==> OneLine(lines[i])
    ensures StatusStamps(Some(old' + "\n" + Terminated(lines)))
         == StatusStamps(Some(old')) + Stamps(lines + [""], |lines + [""]|)
  {
    hide Stamps, UniversalNewlines, Split, Terminated;
    var more, u := Terminated(lines), UniversalNewlines(old');
    SplitTerminated(lines);
    AppendNewlines(old', more);
    if old' != [] && old'[|old'| - 1] == '\r' {
      EndsWithReturn(old');
      var t := u[..|u| - 1];
      assert u == t + "\n" + "" && u + more == t + "\n" + more;
      SplitConcat(t, more, '\n');
      SplitConcat(t, "", '\n');
      SplitLast("", '\n');
      StampsSplit(Split(t, '\n'), lines + [""]);
      StampsSplit(Split(t, '\n'), [""]);
      NoStamps([""], 1);
    } else {
      SplitConcat(u, more, '\n');
      StampsSplit(Split(u, '\n'), lines + [""]);
    }
  }

  lemma {:induction false} LineHasNoStamp(h: string)
    requires OneLine(h) && !StartsWith(h, "## ")
    ensures StatusStamps(Some(h + "\n")) == []
  {
    var text := h + "\n";
    NoReturns(text);
    assert text == h + ['\n'] + "";
    SplitLine(h, "", '\n');
    SplitLast("", '\n');
    assert Lines(text) == [h] + [""];
    assert StampOf(h) == [];
    hide StampOf;
    StampsSplit([h], [""]);
    NoStamps([""], 1);
    assert Stamps([h], 0) == [];
  }

  lemma {:induction false} AppendStamps(log: Option<string>, e: Entry)
    requires e.OneLineFields() && IsStamp(e.timestamp)
    ensures StatusStamps(Some(Appended(log, e))) == StatusStamps(log) + [e.timestamp]
  {
    hide StatusStamps, Stamps, EntryText, EntryLines, IsStamp;
    var old' := match log case None => HEADER + "\n" case Some(text) => text;
    EntryTextLines(e);
    EntryOneLine(e);
    assert Appended(log, e) == old' + "\n" + Terminated(EntryLines(e));
    StampsAppended(old', EntryLines(e));
    EntryStamps(e);
    HeaderLine();
    hide HEADER;
    LineHasNoStamp(HEADER);
    assert log.None? ==> StatusStamps(log) == [] by { NoLogNoStamps(); }
  }

  lemma {:induction false} NoLogNoStamps()
    ensures StatusStamps(None) == []
  {
  }

  function TimestampsOf(es: seq<Entry>): seq<string>
  {
    if es == [] then [] else TimestampsOf(es[..|es| - 1]) + [es[|es| - 1].timestamp]
  }

  function ReadTimestamps<D>(rs: seq<Read<D>>): seq<string>
  {
    seq(|rs|, i requires 0 <= i < |rs| => rs[i].timestamp)
  }

  lemma {:induction false} ViewTimestamps<D>(add: (D, string) -> D, empty: D, es: seq<Entry>)
    requires forall i :: 0 <= i < |es| ==> IsStamp(es[i].timestamp)
    ensures ReadTimestamps(Views(add, empty, es)) == TimestampsOf(es)
  {
    hide IsStamp;
    if es != [] {
      var init, last := es[..|es| - 1], es[|es| - 1];
      assert forall i :: 0 <= i < |init| ==> init[i] == es[i];
      ViewTimestamps(add, empty, init);
      StampLength(last.timestamp);
      StripNothing(last.timestamp);
      hide Strip;
    }
  }

  lemma {:induction false} StampsRoundTrip(log: Option<string>, es: seq<Entry>)
    requires AllOneLine(es) && forall i :: 0 <= i < |es| ==> IsStamp(es[i].timestamp)
    ensures StatusStamps(AppendAll(log, es)) == StatusStamps(log) + TimestampsOf(es)
  {
    hide StatusStamps, IsStamp;
    if es != [] {
      var init := es[..|es| - 1];
      assert forall i :: 0 <= i < |init| ==> init[i] == es[i];
      StampsRoundTrip(log, init);
      AppendStamps(AppendAll(log, init), es[|es| - 1]);
    }
  }

  lemma {:induction false} ReadTimestampsConcat<D>(a: seq<Read<D>>, b: seq<Read<D>>)
    ensures ReadTimestamps(a + b) == ReadTimestamps(a) + ReadTimestamps(b)
  {
  }

  /** Appending entries with well-formed timestamps to any log, the list reader, the dictionary reader and
      the status regex each find the timestamps they found before, then those written. */
  lemma {:induction false} ThreeReadersAgree(log: Option<string>, es: seq<Entry>)
    requires AllOneLine(es) && forall i :: 0 <= i < |es| ==> IsStamp(es[i].timestamp)
    ensures ReadTimestamps(ReadBack(AddToList, [], AppendAll(log, es)))
         == ReadTimestamps(ReadBack(AddToList, [], log)) + TimestampsOf(es)
    ensures ReadTimestamps(ReadBack(AddToMap, map[], AppendAll(log, es)))
         == ReadTimestamps(ReadBack(AddToMap, map[], log)) + TimestampsOf(es)
    ensures StatusStamps(AppendAll(log, es)) == StatusStamps(log) + TimestampsOf(es)
  {
    hide AddToList, AddToMap, AppendAll, IsStamp, StatusStamps, ReadBack, Views, ReadTimestamps;
    RoundTrip(AddToList, [], log, es);
    RoundTrip(AddToMap, map[], log, es);
    ReadTimestampsConcat(ReadBack(AddToList, [], log), Views(AddToList, [], es));
    ReadTimestampsConcat(ReadBack(AddToMap, map[], log), Views(AddToMap, map[], es));
    ViewTimestamps(AddToList, [], es);
    ViewTimestamps(AddToMap, map[], es);
    StampsRoundTrip(log, es);
  }

  /** So after at least one append the three agree on the latest entry, whatever the old log held. */
  lemma {:induction false} LatestAgrees(log: Option<string>, es: seq<Entry>)
    requires es != [] && AllOneLine(es) && forall i :: 0 <= i < |es| ==> IsStamp(es[i].timestamp)
    ensures var list, dict := ReadBack(AddToList, [], AppendAll(log, es)),
        ReadBack(AddToMap, map[], AppendAll(log, es));
      var stamps := StatusStamps(AppendAll(log, es));
      && list != [] && dict != [] && stamps != []
      && list[|list| - 1].timestamp == dict[|dict| - 1].timestamp == stamps[|stamps| - 1] == es[|es| - 1].timestamp
  {
    hide AddToList, AddToMap, AppendAll, IsStamp, StatusStamps, ReadBack;
    ThreeReadersAgree(log, es);
    LastTimestamp(ReadBack(AddToList, [], AppendAll(log, es)));
    LastTimestamp(ReadBack(AddToMap, map[], AppendAll(log, es)));
  }

  lemma {:induction false} LastTimestamp<D>(rs: seq<Read<D>>)
    ensures |ReadTimestamps(rs)| == |rs|
    ensures rs != [] ==> ReadTimestamps(rs)[|rs| - 1] == rs[|rs| - 1].timestamp
  {
  }

  // ----- the recent entries

  lemma {:induction false} ViewsAre<D>(add: (D, string) -> D, empty: D, es: seq<Entry>)
    ensures |Views(add, empty, es)| == |es|
    ensures forall i :: 0 <= i < |es| ==> Views(add, empty, es)[i] == View(add, empty, es[i])
  {
    hide View;
    if es != [] { ViewsAre(add, empty, es[..|es| - 1]); }
  }

  /** Asking for up to as many entries as were appended gives the last of these and nothing older; asking
      for none gives the whole log. */
  lemma {:induction false} RecentEntries<D>(add: (D, string) -> D, empty: D, log: Option<string>, es: seq<Entry>,
      limit: nat)
    requires AllOneLine(es) && limit <= |es|
    ensures |Views(add, empty, es)| == |es|
    ensures var all := ReadBack(add, empty, AppendAll(log, es));
      LastEntries(all, limit) == if limit == 0 then all else Views(add, empty, es)[|es| - limit..]
  {
    hide ReadBack, AppendAll, Views;
    RoundTrip(add, empty, log, es);
    ViewsAre(add, empty, es);
  }

  // ----- the exact condition

  /** The fields written between backquotes. */
  predicate QuotedOneLine(e: Entry)
  {
    OneLine(e.draftPath) && OneLine(e.officialPath) && OneLine(e.sourceFolder) && OneLine(e.destFolder)
  }

  lemma {:induction false} NewlinesTranslated(text: string)
    ensures '\r' !in UniversalNewlines(text)
    decreases |text|
  {
    if text != "" {
      OneStep(text);
      NewlinesTranslated(text[Width(text)..]);
    }
  }

  lemma {:induction false} LinesAreLines(text: string)
    ensures forall i :: 0 <= i < |Lines(text)| ==> OneLine(Lines(text)[i])
  {
    hide Split, UniversalNewlines, Join;
    var translated := UniversalNewlines(text);
    NewlinesTranslated(text);
    JoinSplit(translated, '\n');
    forall i | 0 <= i < |Lines(text)| ensures OneLine(Lines(text)[i]) {
      PartsWithin(translated, '\n', i);
    }
  }

  lemma {:induction false} PartsWithin(s: string, separator: char, i: nat)
    requires i < |Split(s, separator)|
    ensures forall c :: c in Split(s, separator)[i] ==> c in s
  {
    if s != [] {
      var rest := Split(s[1..], separator);
      if s[0] == separator {
        if i > 0 { PartsWithin(s[1..], separator, i - 1); }
      } else {
        PartsWithin(s[1..], separator, if i == 0 then 0 else i);
      }
    }
  }

  lemma {:induction false} StripWithin(s: string)
    ensures forall c :: c in Strip(s) ==> c in s
  {
    hide IsSpace;
    StripLeftWithin(s);
    StripRightWithin(StripLeft(s));
  }

  lemma {:induction false} StripLeftWithin(s: string)
    ensures forall c :: c in StripLeft(s) ==> c in s
  {
    hide IsSpace;
    if s != [] && IsSpace(s[0]) { StripLeftWithin(s[1..]); }
  }

  lemma {:induction false} StripRightWithin(s: string)
    ensures forall c :: c in StripRight(s) ==> c in s
  {
    hide IsSpace;
    if s != [] && IsSpace(s[|s| - 1]) { StripRightWithin(s[..|s| - 1]); }
  }

  ghost predicate DetailsOnLines(r: Read<seq<string>>)
  {
    forall i :: 0 <= i < |r.details| ==> OneLine(r.details[i])
  }

  ghost predicate WalkOnLines(w: Walk<seq<string>>)
  {
    && (forall i :: 0 <= i < |w.entries| ==> DetailsOnLines(w.entries[i]))
    && (w.current.Some? ==> DetailsOnLines(w.current.value))
  }

  lemma {:induction false} LineKeepsOneLine(w: Walk<seq<string>>, line: string)
    requires WalkOnLines(w) && OneLine(line)
    ensures WalkOnLines(WalkLine(AddToList, [], w, line))
  {
    hide Strip;
    if w.current.Some? && StartsWith(line, "- ") && !StartsWith(line, "## ") {
      var detail := Strip(line[2..]);
      StripWithin(line[2..]);
      assert OneLine(detail);
      assert forall i :: 0 <= i < |w.current.value.details| ==> OneLine(w.current.value.details[i]);
      assert DetailsOnLines(w.current.value.(details := w.current.value.details + [detail]));
    }
  }

  lemma {:induction false} WalkKeepsOneLine(lines: seq<string>, n: nat)
    requires n <= |lines| && forall i :: 0 <= i < |lines| ==> OneLine(lines[i])
    ensures WalkOnLines(WalkLines(AddToList, [], Walk([], None), lines, n))
  {
    hide WalkLine, OneLine, WalkOnLines;
    if n == 0 {
      NothingWalked(lines);
    } else {
      WalkKeepsOneLine(lines, n - 1);
      LineKeepsOneLine(WalkLines(AddToList, [], Walk([], None), lines, n - 1), lines[n - 1]);
    }
  }

  lemma {:induction false} NothingWalked(lines: seq<string>)
    ensures WalkOnLines(WalkLines(AddToList, [], Walk([], None), lines, 0))
  {
  }

  /** The list reader never returns a detail with a line break in it. */
  lemma {:induction false} ReadDetailsOneLine(log: Option<string>, k: nat)
    requires k < |ReadBack(AddToList, [], log)|
    ensures DetailsOnLines(ReadBack(AddToList, [], log)[k])
  {
    hide WalkLines, AddToList, Lines, DetailsOnLines;
    LinesAreLines(log.value);
    WalkKeepsOneLine(Lines(log.value), |Lines(log.value)|);
  }

  lemma {:induction false} QuotedBreaks(name: string, value: string)
    requires CleanName(name) && OneLine(Strip(Detail(Field(name, Quoted(value)))))
    ensures OneLine(value)
  {
    hide Strip, CleanName;
    QuotedDetail(name, value);
    var detail := name + ": " + Quoted(value);
    assert forall i :: 0 <= i < |value| ==> detail[|name| + 3 + i] == value[i];
  }

  lemma {:induction false} ViewNeedsOneLine(e: Entry)
    requires DetailsOnLines(View(AddToList, [], e))
    ensures QuotedOneLine(e)
  {
    hide Strip, Detail, OneLine, CleanName, Quoted;
    ListDetails(e);
    FieldsClean(e);
    var f := Fields(e);
    assert f[0] == Field("Accepted draft", Quoted(e.draftPath))
        && f[1] == Field("Official path", Quoted(e.officialPath));
    assert f[3] == Field("Source folder", Quoted(e.sourceFolder))
        && f[4] == Field("Destination folder", Quoted(e.destFolder));
    QuotedBreaks(f[0].name, e.draftPath);
    QuotedBreaks(f[1].name, e.officialPath);
    QuotedBreaks(f[3].name, e.sourceFolder);
    QuotedBreaks(f[4].name, e.destFolder);
  }

  /** With timestamps and lanes on one line, as the writer makes them, the entries read back exactly when
      every quoted field is on one line: a line feed or a carriage return in one of them is lost. */
  lemma {:induction false} RoundTripExactly(log: Option<string>, es: seq<Entry>)
    requires forall i :: 0 <= i < |es| ==> OneLine(es[i].timestamp) && OneLine(es[i].lane)
    ensures ReadBack(AddToList, [], AppendAll(log, es)) == ReadBack(AddToList, [], log) + Views(AddToList, [], es)
      <==> forall i :: 0 <= i < |es| ==> QuotedOneLine(es[i])
  {
    hide AddToList, AppendAll, ReadBack, Views, OneLine, View;
    ViewsAre(AddToList, [], es);
    var before, views, after := ReadBack(AddToList, [], log), Views(AddToList, [], es),
        ReadBack(AddToList, [], AppendAll(log, es));
    if after == before + views {
      forall i | 0 <= i < |es| ensures QuotedOneLine(es[i]) {
        ReadDetailsOneLine(AppendAll(log, es), |before| + i);
        assert after[|before| + i] == views[i];
        ViewNeedsOneLine(es[i]);
      }
    }
    if forall i :: 0 <= i < |es| ==> QuotedOneLine(es[i]) {
      RoundTrip(AddToList, [], log, es);
    }
  }
}
