/** The append-only acceptance log: one writer, and three readers that must agree on it. */
module AcceptanceLog {
  import opened Results
  import opened Strings

  // ----- text

  /** Reading in text mode turns every `\r\n` and lone `\r` into `\n`. */
  function UniversalNewlines(s: string): string
  {
    if s == [] then []
    else if s[0] == '\r' then
      if |s| > 1 && s[1] == '\n' then ['\n'] + UniversalNewlines(s[2..]) else ['\n'] + UniversalNewlines(s[1..])
    else [s[0]] + UniversalNewlines(s[1..])
  }

  function Lines(text: string): seq<string> { Split(UniversalNewlines(text), '\n') }

  predicate OneLine(s: string) { '\n' !in s && '\r' !in s }

  /** Every line followed by a newline. */
  function Terminated(lines: seq<string>): string
  {
    if lines == [] then "" else lines[0] + ['\n'] + Terminated(lines[1..])
  }

  // ----- the writer

  datatype Entry = Entry(
    timestamp: string, draftPath: string, officialPath: string, lane: string, sourceFolder: string, destFolder: string)
  {
    predicate OneLineFields()
    {
      && OneLine(timestamp) && OneLine(draftPath) && OneLine(officialPath)
      && OneLine(lane) && OneLine(sourceFolder) && OneLine(destFolder)
    }
  }

  const HEADER := "# WilliamOS Acceptance Log"

  function Quoted(s: string): string { "`" + s + "`" }

  datatype Field = Field(name: string, value: string)

  function Fields(e: Entry): seq<Field>
  {
    [ Field("Accepted draft", Quoted(e.draftPath)),
      Field("Official path", Quoted(e.officialPath)),
      Field("Lane", e.lane),
      Field("Source folder", Quoted(e.sourceFolder)),
      Field("Destination folder", Quoted(e.destFolder)),
      Field("Duplicate check", "passed"),
      Field("Snapshot recommendation", "run snapshot after review") ]
  }

  function Detail(f: Field): string { f.name + ": " + f.value }

  function DetailsOf(fields: seq<Field>): seq<string>
  {
    if fields == [] then [] else [Detail(fields[0])] + DetailsOf(fields[1..])
  }

  function Details(e: Entry): seq<string> { DetailsOf(Fields(e)) }

  function Bulleted(details: seq<string>): seq<string>
  {
    if details == [] then [] else ["- " + details[0]] + Bulleted(details[1..])
  }

  /** The text of one entry, as the writer joins it. */
  function EntryText(e: Entry): string
  {
    Join(["\n## " + e.timestamp + "\n"] + Bulleted(Details(e)) + [""], "\n")
  }

  /** The log after one more entry. */
  function Appended(log: Option<string>, e: Entry): string
  {
    (match log case None => HEADER + "\n" case Some(text) => text) + EntryText(e)
  }

  function EntryLines(e: Entry): seq<string>
  {
    ["## " + e.timestamp, ""] + Bulleted(Details(e))
  }

  lemma {:induction false} JoinTerminated(lines: seq<string>)
    ensures Join(lines + [""], "\n") == Terminated(lines)
  {
    if lines != [] {
      JoinTerminated(lines[1..]);
      assert (lines + [""])[1..] == lines[1..] + [""];
    }
  }

  /** An entry is a line break followed by its lines, each terminated. */
  lemma {:induction false} EntryTextLines(e: Entry)
    ensures EntryText(e) == "\n" + Terminated(EntryLines(e))
  {
    var head, bullets := "\n## " + e.timestamp + "\n", Bulleted(Details(e));
    hide Details, Bulleted;
    assert ([head] + bullets + [""])[1..] == bullets + [""];
    JoinTerminated(bullets);
    var lines := ["## " + e.timestamp, ""] + bullets;
    assert lines[1..] == [""] + bullets && lines[1..][1..] == bullets;
    assert Terminated(lines) == lines[0] + ['\n'] + ("" + ['\n'] + Terminated(bullets));
  }

  // ----- the readers

  datatype Read<D> = Read(timestamp: string, details: D)

  /** Both list-building readers walk the lines with the same state; they differ in how a detail is
      added to the current entry. */
  datatype Walk<D> = Walk(entries: seq<Read<D>>, current: Option<Read<D>>)
  {
    function Finished(): seq<Read<D>>
    {
      entries + match current case None => [] case Some(r) => [r]
    }
  }

  function WalkLine<D>(add: (D, string) -> D, empty: D, w: Walk<D>, line: string): Walk<D>
  {
    if StartsWith(line, "## ") then Walk(w.Finished(), Some(Read(Strip(line[3..]), empty)))
    else if w.current.Some? && StartsWith(line, "- ") then
      w.(current := Some(w.current.value.(details := add(w.current.value.details, line[2..]))))
    else w
  }

  function WalkLines<D>(add: (D, string) -> D, empty: D, w: Walk<D>, lines: seq<string>, n: nat): Walk<D>
    requires n <= |lines|
  {
    if n == 0 then w else WalkLine(add, empty, WalkLines(add, empty, w, lines, n - 1), lines[n - 1])
  }

  function Entries<D>(add: (D, string) -> D, empty: D, lines: seq<string>): seq<Read<D>>
  {
    WalkLines(add, empty, Walk([], None), lines, |lines|).Finished()
  }

  method ReadEntries<D>(add: (D, string) -> D, empty: D, text: string) returns (entries: seq<Read<D>>)
    ensures entries == Entries(add, empty, Lines(text))
  {
    var lines := Lines(text);
    var current: Option<Read<D>> := None;
    entries := [];
    for i := 0 to |lines|
      invariant Walk(entries, current) == WalkLines(add, empty, Walk([], None), lines, i)
    {
      var line := lines[i];
      if StartsWith(line, "## ") {
        if current.Some? { entries := entries + [current.value]; }
        current := Some(Read(Strip(line[3..]), empty));
      } else if current.Some? && StartsWith(line, "- ") {
        current := Some(current.value.(details := add(current.value.details, line[2..])));
      }
    }
    if current.Some? { entries := entries + [current.value]; }
  }

  /** The acceptance assistant keeps a list of stripped details. */
  function AddToList(details: seq<string>, detail: string): seq<string> { details + [Strip(detail)] }

  /** `s.split(": ", 1)` when the separator occurs. */
  function SplitOnce(s: string): Option<(string, string)>
  {
    if s == [] then None
    else if StartsWith(s, ": ") then Some(("", s[2..]))
    else match SplitOnce(s[1..])
         case None => None
         case Some((k, v)) => Some(([s[0]] + k, v))
  }

  /** The closure report keeps a dictionary. */
  function AddToMap(details: map<string, string>, detail: string): map<string, string>
  {
    match SplitOnce(detail)
    case None => details
    case Some((k, v)) => details[Strip(k) := Strip(v)]
  }

  /** `entries[-limit:]`: zero keeps everything, a negative limit drops from the front. */
  function LastEntries<T>(entries: seq<T>, limit: int): seq<T>
  {
    if limit <= 0 then (if -limit <= |entries| then entries[-limit..] else [])
    else if limit <= |entries| then entries[|entries| - limit..] else entries
  }

  // ----- the status regex

  predicate Digit(c: char) { '0' <= c <= '9' }

  /** `dddd-dd-dd dd:dd:dd` */
  predicate IsStamp(s: string)
  {
    && |s| == 19
    && s[4] == '-' && s[7] == '-' && s[10] == ' ' && s[13] == ':' && s[16] == ':'
    && forall i :: 0 <= i < 19 && i !in {4, 7, 10, 13, 16} ==> Digit(s[i])
  }

  /** The pattern cannot match across a line break, so it is tried at the start of every line. */
  function StampOf(line: string): seq<string>
  {
    if StartsWith(line, "## ") && |line| >= 22 && IsStamp(line[3..22]) then [line[3..22]] else []
  }

  function Stamps(lines: seq<string>, n: nat): seq<string>
    requires n <= |lines|
  {
    if n == 0 then [] else Stamps(lines, n - 1) + StampOf(lines[n - 1])
  }
}
