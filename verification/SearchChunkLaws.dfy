/** Cutting loses nothing: sections partition the lines with headings only in front, and the windows of
    a long section rebuild it, every character lying in one or two of them. */
module SearchChunkLaws {
  import opened Strings
  import opened SearchChunks

  // ----- lines

  lemma {:induction false} LinesHoldNoEnding(s: string)
    ensures forall i, c :: 0 <= i < |SplitLines(s)| && c in SplitLines(s)[i] ==> !EndsLine(c)
    decreases |s|
  {
    if s != "" {
      if EndsLine(s[0]) {
        LinesHoldNoEnding(s[EndingLength(s)..]);
      } else {
        LinesHoldNoEnding(s[1..]);
      }
    }
  }

  /** Lines ended by a newline each, or but for the last, split into themselves. */
  lemma {:induction false} LinesRoundTrip(lines: seq<string>)
    requires forall i, c :: 0 <= i < |lines| && c in lines[i] ==> !EndsLine(c)
    ensures SplitLines(Ended(lines)) == lines
    ensures lines != [] && lines[|lines| - 1] != "" ==> SplitLines(Join(lines, "\n")) == lines
  {
    hide SplitLines, EndsLine;
    if lines == [] {
      NothingToSplit();
    } else {
      assert forall i :: 0 <= i < |lines[1..]| ==> lines[1..][i] == lines[i + 1];
      assert forall c :: c in lines[0] ==> !EndsLine(c);
      LinesRoundTrip(lines[1..]);
      FirstLine(lines[0], Ended(lines[1..]));
      if |lines| == 1 {
        if lines[0] != "" { WholeLine(lines[0]); }
      } else {
        FirstLine(lines[0], Join(lines[1..], "\n"));
      }
    }
  }

  /** Splitting depends on the lines alone, not on how each was ended. */
  lemma {:induction false} EndingsDoNotMatter(s: string)
    ensures SplitLines(Ended(SplitLines(s))) == SplitLines(s)
  {
    hide SplitLines, EndsLine;
    LinesHoldNoEnding(s);
    LinesRoundTrip(SplitLines(s));
  }

  function Ended(lines: seq<string>): string
  {
    if lines == [] then "" else lines[0] + "\n" + Ended(lines[1..])
  }

  lemma {:induction false} NothingToSplit()
    ensures SplitLines("") == []
  {
  }

  lemma {:induction false} FirstLine(line: string, rest: string)
    requires forall c :: c in line ==> !EndsLine(c)
    ensures SplitLines(line + "\n" + rest) == [line] + SplitLines(rest)
  {
    var s := line + "\n" + rest;
    if line == "" {
      assert s[0] == '\n' && EndsLine(s[0]) && s[1..] == rest;
    } else {
      FirstLine(line[1..], rest);
      assert s[1..] == line[1..] + "\n" + rest && s[0] == line[0] && !EndsLine(line[0]);
      assert [line[0]] + line[1..] == line;
    }
  }

  lemma {:induction false} WholeLine(line: string)
    requires line != "" && forall c :: c in line ==> !EndsLine(c)
    ensures SplitLines(line) == [line]
  {
    assert !EndsLine(line[0]);
    if |line| > 1 {
      WholeLine(line[1..]);
      assert [line[0]] + line[1..] == line;
    }
  }

  // ----- sections

  function Flatten(sections: seq<seq<string>>): seq<string>
  {
    if sections == [] then [] else Flatten(sections[..|sections| - 1]) + sections[|sections| - 1]
  }

  lemma {:induction false} FlattenAppend(sections: seq<seq<string>>, section: seq<string>)
    ensures Flatten(sections + [section]) == Flatten(sections) + section
  {
    assert (sections + [section])[..|sections|] == sections;
  }

  /** A section: not empty, and no heading behind its first line. */
  predicate IsSection(section: seq<string>)
  {
    section != [] && forall i :: 1 <= i < |section| ==> !Heading(section[i])
  }

  lemma {:induction false} SectionsStep(lines: seq<string>, n: nat)
    requires n <= |lines|
    ensures var s := SectionsOf(lines, n);
      && Flatten(s.closed) + s.current == lines[..n]
      && (forall k :: 0 <= k < |s.closed| ==> IsSection(s.closed[k]))
      && (s.current == [] <==> n == 0) && (n > 0 ==> IsSection(s.current))
      && (forall k :: 1 <= k < |s.closed| ==> Heading(s.closed[k][0]))
      && (s.closed != [] ==> Heading(s.current[0]))
  {
    hide Heading, Flatten;
    if n == 0 {
      NoLines();
    } else {
      SectionsStep(lines, n - 1);
      var before, line := SectionsOf(lines, n - 1), lines[n - 1];
      FlattenAppend(before.closed, before.current);
      assert lines[..n] == lines[..n - 1] + [line];
    }
  }

  lemma {:induction false} NoLines()
    ensures Flatten([]) == []
  {
  }

  /** The sections concatenate to the lines; none is empty; a heading stands only first in a section;
      and every section but the first starts with one. */
  lemma {:induction false} SectionsPartition(lines: seq<string>)
    ensures var sections := SectionsOf(lines, |lines|).All();
      && Flatten(sections) == lines
      && (forall k :: 0 <= k < |sections| ==> IsSection(sections[k]))
      && (forall k :: 1 <= k < |sections| ==> Heading(sections[k][0]))
  {
    hide Heading, Flatten, SectionsOf, IsSection;
    var s := SectionsOf(lines, |lines|);
    SectionsStep(lines, |lines|);
    FlattenAppend(s.closed, s.current);
    assert lines[..|lines|] == lines;
    assert s.closed + [] == s.closed;
    if s.current == [] { assert lines == []; NoLines(); }
  }

  // ----- windows

  lemma {:induction false} WindowsAre(s: string, n: nat)
    requires n <= WindowCount(|s|)
    ensures |Windows(s, n)| == n
    ensures forall k :: 0 <= k < n ==> k * STRIDE < |s| && Windows(s, n)[k] == Window(s, k)
  {
    if n > 0 { WindowsAre(s, n - 1); }
  }

  /** A section of `n` characters has `ceil(n / 1000)` windows, none empty and none over 1200. */
  lemma {:induction false} WindowSizes(s: string, k: nat)
    requires k < WindowCount(|s|)
    ensures 1000 * (WindowCount(|s|) - 1) < |s| <= 1000 * WindowCount(|s|)
    ensures |Windows(s, WindowCount(|s|))| == WindowCount(|s|)
    ensures 0 < |Windows(s, WindowCount(|s|))[k]| <= 1200
  {
    WindowsAre(s, WindowCount(|s|));
  }

  /** `w[200:]` */
  function Fresh(window: string): string { if |window| <= OVERLAP_CHARS then "" else window[OVERLAP_CHARS..] }

  function Rebuilt(windows: seq<string>): string
  {
    if windows == [] then ""
    else if |windows| == 1 then windows[0]
    else Rebuilt(windows[..|windows| - 1]) + Fresh(windows[|windows| - 1])
  }

  lemma {:induction false} RebuiltTo(s: string, n: nat)
    requires 0 < n <= WindowCount(|s|)
    ensures Rebuilt(Windows(s, n)) == s[..WindowEnd(s, n - 1)]
  {
    WindowsAre(s, n);
    if n == 1 {
      assert Windows(s, 0) == [] && Windows(s, 1) == [Window(s, 0)];
    } else {
      RebuiltTo(s, n - 1);
      var before, end, last := WindowEnd(s, n - 2), WindowEnd(s, n - 1), Window(s, n - 1);
      assert Windows(s, n)[..n - 1] == Windows(s, n - 1);
      assert Fresh(last) == s[before..end];
      assert s[..before] + s[before..end] == s[..end];
    }
  }

  lemma {:induction false} LastWindowEnds(s: string)
    requires s != ""
    ensures WindowCount(|s|) > 0 && WindowEnd(s, WindowCount(|s|) - 1) == |s|
  {
  }

  lemma {:induction false} NoWindows(s: string)
    requires s == ""
    ensures Rebuilt(Windows(s, WindowCount(|s|))) == s
  {
    assert WindowCount(|s|) == 0;
  }

  /** The first window and every later one without its first 200 characters rebuild the section. */
  lemma {:induction false} WindowsRebuild(s: string)
    ensures Rebuilt(Windows(s, WindowCount(|s|))) == s
  {
    hide Rebuilt, Windows, WindowCount, WindowEnd;
    if s == "" {
      NoWindows(s);
    } else {
      LastWindowEnds(s);
      RebuiltTo(s, WindowCount(|s|));
      assert s[..|s|] == s;
    }
  }

  /** Position `p` lies in window `p / 1000`, also in the one before when `p` is one of its first 200
      characters, and in no other. */
  lemma {:induction false} EachPositionOnceOrTwice(s: string, p: nat, k: nat)
    requires p < |s| && k < WindowCount(|s|)
    ensures p / 1000 < WindowCount(|s|)
    ensures k * STRIDE <= p < WindowEnd(s, k) <==> k == p / 1000 || (k == p / 1000 - 1 && p % 1000 < 200)
  {
    var q := p / 1000;
    assert 1000 * q <= p < 1000 * q + 1000;
  }

  /** The last of several windows adds nothing exactly when at most 200 characters were left for it. */
  lemma {:induction false} LastWindowRedundant(s: string)
    requires WindowCount(|s|) > 1
    ensures var n := WindowCount(|s|);
      Fresh(Window(s, n - 1)) == "" <==> 0 < |s| % 1000 <= 200
  {
    var n := WindowCount(|s|);
    assert |s| == 1000 * (n - 1) + (|s| - 1000 * (n - 1)) && 0 < |s| - 1000 * (n - 1) <= 1000;
  }

  // ----- notes

  lemma {:induction false} SectionChunks(section: string, i: nat)
    requires i < |ChunksOfSection(section)|
    ensures 0 < |ChunksOfSection(section)[i]| <= MAX_CHARS
    ensures |ChunksOfSection(section)| > 0 ==> |Strip(section)| >= MIN_CHARS
  {
    hide Strip, Windows;
    var s := Strip(section);
    if |s| > MAX_CHARS {
      WindowsAre(s, WindowCount(|s|));
      WindowSizes(s, i);
    }
  }

  /** A section long enough is recovered from its chunks, up to surrounding space; a shorter one is left out. */
  lemma {:induction false} SectionRecovered(section: string)
    ensures if |Strip(section)| < MIN_CHARS then ChunksOfSection(section) == []
            else Rebuilt(ChunksOfSection(section)) == Strip(section)
  {
    hide Strip, Windows;
    var s := Strip(section);
    if |s| > MAX_CHARS { WindowsRebuild(s); }
  }

  /** No chunk of a note is empty or longer than 1200 characters. */
  lemma {:induction false} ChunkSizes(sections: seq<string>, n: nat, i: nat)
    requires n <= |sections| && i < |ChunksOf(sections, n)|
    ensures 0 < |ChunksOf(sections, n)[i]| <= MAX_CHARS
  {
    hide ChunksOfSection;
    if n > 0 {
      var before := |ChunksOf(sections, n - 1)|;
      if i < before { ChunkSizes(sections, n - 1, i); } else { SectionChunks(sections[n - 1], i - before); }
    }
  }

  // ----- the index

  function Offset(notes: seq<Note>, n: nat): nat
    requires n <= |notes|
  {
    if n == 0 then 0 else Offset(notes, n - 1) + |Texts(notes[n - 1].text)|
  }

  lemma {:induction false} ChunksAt(notes: seq<Note>, n: nat, f: nat, i: nat)
    requires f < n <= |notes| && i < |Texts(notes[f].text)|
    ensures |AllChunks(notes, n)| == Offset(notes, n) && Offset(notes, f) + i < Offset(notes, n)
    ensures AllChunks(notes, n)[Offset(notes, f) + i]
         == Chunk(Meta(notes[f].source, notes[f].title, i), Texts(notes[f].text)[i])
    decreases n
  {
    hide Texts;
    TotalChunks(notes, n - 1);
    if f < n - 1 { ChunksAt(notes, n - 1, f, i); }
  }

  lemma {:induction false} TotalChunks(notes: seq<Note>, n: nat)
    requires n <= |notes|
    ensures |AllChunks(notes, n)| == Offset(notes, n)
  {
    hide Texts;
    if n > 0 { TotalChunks(notes, n - 1); }
  }

  /** Every chunk of every note is in the index, at one place in both lists, with its own number. */
  lemma {:induction false} IndexIsComplete(notes: seq<Note>, f: nat, i: nat)
    requires f < |notes| && i < |Texts(notes[f].text)|
    ensures |AllChunks(notes, |notes|)| == Offset(notes, |notes|)
    ensures Offset(notes, f) + i < |AllChunks(notes, |notes|)|
    ensures AllChunks(notes, |notes|)[Offset(notes, f) + i]
         == Chunk(Meta(notes[f].source, notes[f].title, i), Texts(notes[f].text)[i])
  {
    hide Texts, AllChunks, Offset;
    ChunksAt(notes, |notes|, f, i);
  }
}
