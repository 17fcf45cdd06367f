/** Cutting a note into chunks for the search index: sections at headings, long sections into
    overlapping windows, and the index's parallel lists of texts and their origins. */
module SearchChunks {
  import opened Results
  import opened Strings

  const MAX_CHARS := 1200
  const OVERLAP_CHARS := 200
  const STRIDE := MAX_CHARS - OVERLAP_CHARS
  const MIN_CHARS := 20

  // ----- text

  /** `s.split(separator, 1)[1]`, when the separator occurs. */
  function Behind(s: string, separator: string): Option<string>
  {
    if StartsWith(s, separator) then Some(s[|separator|..])
    else if s == "" then None
    else Behind(s[1..], separator)
  }

  function StripFrontmatter(text: string): string
  {
    if !StartsWith(text, "---") then Strip(text)
    else
      match Behind(text[3..], "---")
      case None => Strip(text)
      case Some(rest) => Strip(rest)
  }

  /** Where `str.splitlines` ends a line. */
  predicate EndsLine(c: char)
  {
    var n := c as int;
    10 <= n <= 13 || 28 <= n <= 30 || n == 133 || n == 8232 || n == 8233
  }

  /** The characters a line ending takes up. */
  function EndingLength(s: string): nat
    requires s != "" && EndsLine(s[0])
  {
    if s[0] == '\r' && |s| > 1 && s[1] == '\n' then 2 else 1
  }

  function SplitLines(s: string): (lines: seq<string>)
    ensures lines == [] <==> s == ""
    decreases |s|
  {
    if s == "" then []
    else if EndsLine(s[0]) then [""] + SplitLines(s[EndingLength(s)..])
    else if |s| == 1 then [s]
    else
      var rest := SplitLines(s[1..]);
      [[s[0]] + rest[0]] + rest[1..]
  }

  /** One to three `#` and a space. */
  predicate Heading(line: string)
  {
    exists k :: 1 <= k <= 3 && HeadingOf(line, k)
  }

  predicate HeadingOf(line: string, k: nat)
  {
    k < |line| && IsSpace(line[k]) && forall i :: 0 <= i < k ==> line[i] == '#'
  }

  // ----- sections

  datatype Sections = Sections(closed: seq<seq<string>>, current: seq<string>)
  {
    function All(): seq<seq<string>> { closed + if current == [] then [] else [current] }
  }

  function AddLine(s: Sections, line: string): Sections
  {
    if Heading(line) && s.current != [] then Sections(s.closed + [s.current], [line])
    else Sections(s.closed, s.current + [line])
  }

  function SectionsOf(lines: seq<string>, n: nat): Sections
    requires n <= |lines|
  {
    if n == 0 then Sections([], []) else AddLine(SectionsOf(lines, n - 1), lines[n - 1])
  }

  function Joined(sections: seq<seq<string>>): seq<string>
  {
    seq(|sections|, i requires 0 <= i < |sections| => Join(sections[i], "\n"))
  }

  // ----- windows

  function WindowEnd(s: string, k: nat): nat
  {
    if k * STRIDE + MAX_CHARS <= |s| then k * STRIDE + MAX_CHARS else |s|
  }

  /** Window `k` of a section. */
  function Window(s: string, k: nat): string
    requires k * STRIDE <= |s|
  {
    s[k * STRIDE..WindowEnd(s, k)]
  }

  function WindowCount(length: nat): nat { (length + STRIDE - 1) / STRIDE }

  function Windows(s: string, n: nat): seq<string>
    requires n <= WindowCount(|s|)
  {
    if n == 0 then [] else Windows(s, n - 1) + [Window(s, n - 1)]
  }

  method CutWindows(s: string) returns (windows: seq<string>)
    ensures windows == Windows(s, WindowCount(|s|))
  {
    windows := [];
    var start := 0;
    ghost var k := 0;
    while start < |s|
      invariant start == k * STRIDE && k <= WindowCount(|s|) && windows == Windows(s, k)
      invariant start >= |s| ==> k == WindowCount(|s|)
      decreases |s| - start
    {
      var end := start + MAX_CHARS;
      windows := windows + [s[start..if end <= |s| then end else |s|]];
      start := end - OVERLAP_CHARS;
      k := k + 1;
    }
  }

  // ----- chunks

  function ChunksOfSection(section: string): seq<string>
  {
    var s := Strip(section);
    if |s| < MIN_CHARS then [] else if |s| <= MAX_CHARS then [s] else Windows(s, WindowCount(|s|))
  }

  function ChunksOf(sections: seq<string>, n: nat): seq<string>
    requires n <= |sections|
  {
    if n == 0 then [] else ChunksOf(sections, n - 1) + ChunksOfSection(sections[n - 1])
  }

  /** The chunk texts of a note. */
  function Texts(note: string): seq<string>
  {
    var body := StripFrontmatter(note);
    if Strip(body) == "" then []
    else
      var lines := SplitLines(body);
      var sections := Joined(SectionsOf(lines, |lines|).All());
      ChunksOf(sections, |sections|)
  }

  datatype Meta = Meta(source: string, title: string, index: nat)
  datatype Chunk = Chunk(meta: Meta, text: string)

  function Numbered(source: string, title: string, texts: seq<string>): seq<Chunk>
  {
    seq(|texts|, i requires 0 <= i < |texts| => Chunk(Meta(source, title, i), texts[i]))
  }

  method ChunkText(note: string, source: string, title: string) returns (chunks: seq<Chunk>)
    ensures chunks == Numbered(source, title, Texts(note))
  {
    hide StripFrontmatter, Strip, Heading, SplitLines, Join;
    var body := StripFrontmatter(note);
    if Strip(body) == "" { return []; }
    var lines := SplitLines(body);
    var sections, current: seq<string> := [], [];
    ghost var closed: seq<seq<string>> := [];
    for i := 0 to |lines|
      invariant Sections(closed, current) == SectionsOf(lines, i) && sections == Joined(closed)
    {
      if Heading(lines[i]) && current != [] {
        sections := sections + [Join(current, "\n")];
        closed := closed + [current];
        current := [lines[i]];
      } else {
        current := current + [lines[i]];
      }
    }
    if current != [] { sections := sections + [Join(current, "\n")]; }
    assert sections == Joined(SectionsOf(lines, |lines|).All());
    var texts := [];
    for i := 0 to |sections|
      invariant texts == ChunksOf(sections, i)
    {
      var section := Strip(sections[i]);
      if |section| >= MIN_CHARS {
        if |section| <= MAX_CHARS {
          texts := texts + [section];
        } else {
          var windows := CutWindows(section);
          texts := texts + windows;
        }
      } else {
        assert texts + [] == texts;
      }
    }
    chunks := Numbered(source, title, texts);
  }

  // ----- the index

  datatype Note = Note(source: string, title: string, text: string)

  function NoteChunks(note: Note): seq<Chunk> { Numbered(note.source, note.title, Texts(note.text)) }

  function AllChunks(notes: seq<Note>, n: nat): seq<Chunk>
    requires n <= |notes|
  {
    if n == 0 then [] else AllChunks(notes, n - 1) + NoteChunks(notes[n - 1])
  }

  /** The two parallel lists of the index file. */
  method BuildIndex(notes: seq<Note>) returns (texts: seq<string>, metas: seq<Meta>)
    ensures |texts| == |metas| == |AllChunks(notes, |notes|)|
    ensures forall k :: 0 <= k < |texts| ==> Chunk(metas[k], texts[k]) == AllChunks(notes, |notes|)[k]
  {
    hide Texts;
    var chunks := [];
    for i := 0 to |notes|
      invariant chunks == AllChunks(notes, i)
    {
      var more := ChunkText(notes[i].text, notes[i].source, notes[i].title);
      chunks := chunks + more;
    }
    hide AllChunks;
    texts := [];
    for k := 0 to |chunks|
      invariant |texts| == k && forall j :: 0 <= j < k ==> texts[j] == chunks[j].text
    {
      texts := texts + [chunks[k].text];
    }
    metas := [];
    for k := 0 to |chunks|
      invariant |metas| == k && forall j :: 0 <= j < k ==> metas[j] == chunks[j].meta
    {
      metas := metas + [chunks[k].meta];
    }
  }
}
