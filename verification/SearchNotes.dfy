/** From a note's text to its chunks: what is taken for frontmatter, for a line and for a heading, and which
    chunks the sections give. */
module SearchNotes {
  import opened Results
  import opened Strings
  import opened SearchChunks
  import opened SearchChunkLaws

  // ----- frontmatter

  lemma {:induction false} BehindFirst(before: string, separator: string, behind: string)
    requires separator != "" && !Contains(before + separator[..|separator| - 1], separator)
    ensures Behind(before + separator + behind, separator) == Some(behind)
  {
    var s, short := before + separator + behind, separator[..|separator| - 1];
    if before == "" {
      assert s == separator + behind && s[|separator|..] == behind;
    } else {
      assert (before + short)[1..] == before[1..] + short && (before + short)[0..] == before + short;
      OccursBehind(before + short, separator, 0);
      OccursBehind(before + short, separator, 1);
      assert s[1..] == before[1..] + separator + behind;
      assert s[..|separator|] == (before + short)[..|separator|];
      BehindFirst(before[1..], separator, behind);
    }
  }

  lemma {:induction false} BehindNothing(s: string, separator: string)
    requires separator != "" && !Contains(s, separator)
    ensures Behind(s, separator) == None
  {
    assert s[0..] == s;
    OccursBehind(s, separator, 0);
    if s != "" {
      OccursBehind(s, separator, 1);
      BehindNothing(s[1..], separator);
    }
  }

  /** A text that begins with three dashes loses everything up to the next three, if there are any; and every
      text the space around it. */
  lemma {:induction false} FrontmatterExactly(front: string, body: string, text: string)
    ensures !Contains(front + "--", "---") ==> StripFrontmatter("---" + front + "---" + body) == Strip(body)
    ensures !Contains(front, "---") ==> StripFrontmatter("---" + front) == Strip("---" + front)
    ensures !("---" <= text) ==> StripFrontmatter(text) == Strip(text)
  {
    hide Strip, Behind, Contains;
    var whole := "---" + front + "---" + body;
    assert whole[3..] == front + "---" + body && whole[..3] == "---";
    assert ("---" + front)[3..] == front && ("---" + front)[..3] == "---";
    if !Contains(front + "--", "---") {
      assert "---"[..2] == "--";
      BehindFirst(front, "---", body);
    }
    if !Contains(front, "---") { BehindNothing(front, "---"); }
  }

  // ----- lines and headings

  /** A line ends at a line feed or carriage return or both together, at the vertical tab and form feed, the
      separators 28 to 30, the next-line character and the Unicode line and paragraph separators. */
  predicate LineEnding(ending: string, rest: string)
  {
    || ending == "\r\n"
    || (|ending| == 1 && ending[0] as int in {10, 11, 12, 13, 28, 29, 30, 133, 8232, 8233}
        && !(ending == "\r" && rest != "" && rest[0] == '\n'))
  }

  lemma {:induction false} LineTaken(line: string, ending: string, rest: string)
    requires LineEnding(ending, rest) && forall c :: c in line ==> !EndsLine(c)
    ensures SplitLines(line + ending + rest) == [line] + SplitLines(rest)
  {
    hide LineEnding, EndsLine, EndingLength;
    var s := line + ending + rest;
    if line == "" {
      assert s == ending + rest;
      EndingTaken(ending, rest);
    } else {
      LineTaken(line[1..], ending, rest);
      assert s[1..] == line[1..] + ending + rest && s[0] == line[0] && !EndsLine(line[0]);
      assert [line[0]] + line[1..] == line;
    }
  }

  lemma {:induction false} EndingTaken(ending: string, rest: string)
    requires LineEnding(ending, rest)
    ensures SplitLines(ending + rest) == [""] + SplitLines(rest)
  {
    var s := ending + rest;
    assert EndsLine(s[0]) && s[EndingLength(s)..] == rest;
  }

  lemma {:induction false} LastLineTaken(line: string)
    requires line != "" && forall c :: c in line ==> !(c as int in {10, 11, 12, 13, 28, 29, 30, 133, 8232, 8233})
    ensures SplitLines(line) == [line]
  {
    WholeLine(line);
  }

  /** A heading begins with one, two or three number signs and a space. */
  lemma {:induction false} HeadingExactly(line: string)
    ensures Heading(line) <==>
      || ("#" <= line && |line| > 1 && IsSpace(line[1]))
      || ("##" <= line && |line| > 2 && IsSpace(line[2]))
      || ("###" <= line && |line| > 3 && IsSpace(line[3]))
  {
    hide IsSpace;
    assert "#" <= line && |line| > 1 && IsSpace(line[1]) <==> HeadingOf(line, 1);
    assert "##" <= line && |line| > 2 && IsSpace(line[2]) <==> HeadingOf(line, 2);
    assert "###" <= line && |line| > 3 && IsSpace(line[3]) <==> HeadingOf(line, 3);
  }

  // ----- chunks

  lemma {:induction false} StrippedLeft(s: string)
    ensures StripLeft(s) == "" || !IsSpace(StripLeft(s)[0])
  {
    hide IsSpace;
    if s != "" && IsSpace(s[0]) { StrippedLeft(s[1..]); }
  }

  lemma {:induction false} StrippedRight(s: string)
    ensures StripRight(s) == "" || (!IsSpace(StripRight(s)[|StripRight(s)| - 1]) && StripRight(s)[0] == s[0])
    ensures StripRight(s) <= s
  {
    hide IsSpace;
    if s != "" && IsSpace(s[|s| - 1]) { StrippedRight(s[..|s| - 1]); }
  }

  lemma {:induction false} StripTwice(s: string)
    ensures Strip(Strip(s)) == Strip(s)
  {
    hide IsSpace;
    StrippedLeft(s);
    StrippedRight(StripLeft(s));
    StripNothing(Strip(s));
  }

  lemma {:induction false} BodyStripped(note: string)
    ensures Strip(StripFrontmatter(note)) == StripFrontmatter(note)
  {
    hide Strip;
    StripTwice(note);
    if StartsWith(note, "---") && Behind(note[3..], "---").Some? { StripTwice(Behind(note[3..], "---").value); }
  }

  /** A section shorter than 20 characters gives no chunk, one of up to 1200 gives itself, and a longer one
      as many windows as it has thousands, begun ones included; the chunks rebuild it. */
  ghost predicate ChunksFor(section: string, chunks: seq<string>)
  {
    if |section| < 20 then chunks == []
    else if |section| <= 1200 then chunks == [section]
    else
      && |chunks| > 0 && 1000 * (|chunks| - 1) < |section| <= 1000 * |chunks|
      && Rebuilt(chunks) == section
      && (forall i :: 0 <= i < |chunks| ==>
            chunks[i] == section[1000 * i..if 1000 * i + 1200 <= |section| then 1000 * i + 1200 else |section|])
  }

  lemma {:induction false} SectionGives(section: string)
    ensures ChunksFor(Strip(section), ChunksOfSection(section))
  {
    hide Strip, Windows, Rebuilt;
    var s := Strip(section);
    if |s| > 1200 {
      WindowsAre(s, WindowCount(|s|));
      WindowSizes(s, 0);
      WindowsRebuild(s);
    }
  }

  lemma {:induction false} ChunksFlatten(sections: seq<string>, n: nat) returns (pieces: seq<seq<string>>)
    requires n <= |sections|
    ensures |pieces| == n && ChunksOf(sections, n) == Flatten(pieces)
    ensures forall k :: 0 <= k < n ==> ChunksFor(Strip(sections[k]), pieces[k])
  {
    hide Strip, ChunksOfSection, ChunksFor, Flatten;
    if n == 0 {
      pieces := [];
      NoLines();
    } else {
      pieces := ChunksFlatten(sections, n - 1);
      FlattenAppend(pieces, ChunksOfSection(sections[n - 1]));
      SectionGives(sections[n - 1]);
      pieces := pieces + [ChunksOfSection(sections[n - 1])];
    }
  }

  /** The chunks of a note, section by section: the sections part the lines of its body, none is empty, a
      heading stands only first in one and first in all but the first, and each gives its chunks in order. */
  lemma {:induction false} NoteInFull(note: string) returns (sections: seq<seq<string>>, pieces: seq<seq<string>>)
    ensures Flatten(sections) == SplitLines(StripFrontmatter(note)) && Texts(note) == Flatten(pieces)
    ensures forall k :: 0 <= k < |sections| ==> IsSection(sections[k])
    ensures forall k :: 1 <= k < |sections| ==> sections[k] != [] && Heading(sections[k][0])
    ensures |pieces| == |sections|
    ensures forall k :: 0 <= k < |pieces| ==> ChunksFor(Strip(Join(sections[k], "\n")), pieces[k])
  {
    hide Strip, ChunksFor, Flatten, Heading, SplitLines, Join, SectionsOf, ChunksOf, StripFrontmatter;
    var body := StripFrontmatter(note);
    BodyStripped(note);
    if body == "" {
      sections, pieces := [], [];
      NothingToSplit();
      NoLines();
    } else {
      var lines := SplitLines(body);
      sections := SectionsOf(lines, |lines|).All();
      SectionsPartition(lines);
      pieces := ChunksFlatten(Joined(sections), |sections|);
    }
  }
}
