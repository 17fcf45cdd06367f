/** Strings as sequences of characters: the code-point order Python compares strings with,
    prefixes, and splitting and joining at a separator. */
module Strings {

  /** Code-point order, as Python's `<=` on `str`. */
  predicate Leq(s: string, t: string)
  {
    s == [] || (t != [] && (s[0] < t[0] || (s[0] == t[0] && Leq(s[1..], t[1..]))))
  }

  lemma {:induction false} LeqTotal(s: string, t: string)
    ensures Leq(s, t) || Leq(t, s)
  {
    if s != [] && t != [] && s[0] == t[0] { LeqTotal(s[1..], t[1..]); }
  }

  lemma {:induction false} LeqAntisymmetric(s: string, t: string)
    requires Leq(s, t) && Leq(t, s)
    ensures s == t
  {
    if s != [] {
      LeqAntisymmetric(s[1..], t[1..]);
      assert s == [s[0]] + s[1..] && t == [t[0]] + t[1..];
    }
  }

  lemma {:induction false} LeqTransitive(s: string, t: string, u: string)
    requires Leq(s, t) && Leq(t, u)
    ensures Leq(s, u)
  {
    if s != [] && s[0] == t[0] && t[0] == u[0] { LeqTransitive(s[1..], t[1..], u[1..]); }
  }

  /** One string is at most another when it begins the other, or has the smaller character in the first
      place where they differ. */
  lemma {:induction false} LeqExactly(s: string, t: string)
    ensures Leq(s, t) <==>
      s <= t || exists k :: 0 <= k < |s| && k < |t| && s[..k] == t[..k] && s[k] < t[k]
  {
    if s != [] && t != [] && s[0] == t[0] {
      LeqExactly(s[1..], t[1..]);
      assert s == [s[0]] + s[1..] && t == [t[0]] + t[1..];
      if k :| 0 <= k < |s[1..]| && k < |t[1..]| && s[1..][..k] == t[1..][..k] && s[1..][k] < t[1..][k] {
        assert s[..k + 1] == [s[0]] + s[1..][..k] && t[..k + 1] == [t[0]] + t[1..][..k];
        assert s[k + 1] < t[k + 1];
      }
      if k :| 0 <= k < |s| && k < |t| && s[..k] == t[..k] && s[k] < t[k] {
        assert s[1..][..k - 1] == s[..k][1..] && t[1..][..k - 1] == t[..k][1..];
        assert s[1..][k - 1] < t[1..][k - 1];
      }
    } else if s != [] && t != [] {
      assert s[..0] == t[..0];
      forall k | 0 < k < |s| && k < |t| ensures s[..k] != t[..k] { assert s[..k][0] != t[..k][0]; }
    }
  }

  predicate StartsWith(s: string, prefix: string)
  {
    |prefix| <= |s| && s[..|prefix|] == prefix
  }

  lemma {:induction false} OtherStart(s: string, prefix: string, k: nat)
    requires k < |prefix| && k < |s| && s[k] != prefix[k]
    ensures !StartsWith(s, prefix)
  {
    if |prefix| <= |s| { assert s[..|prefix|][k] == s[k]; }
  }

  lemma {:induction false} SameTail(prefix: string, a: string, b: string)
    requires prefix + a == prefix + b
    ensures a == b
  {
    assert (prefix + a)[|prefix|..] == a && (prefix + b)[|prefix|..] == b;
  }

  predicate EndsWith(s: string, suffix: string)
  {
    |suffix| <= |s| && s[|s| - |suffix|..] == suffix
  }

  function DropPrefix(s: string, prefix: string): string
  {
    if StartsWith(s, prefix) then s[|prefix|..] else s
  }

  /** `s.rstrip(c)` for one character. */
  function TrimRight(s: string, c: char): string
  {
    if s != "" && s[|s| - 1] == c then TrimRight(s[..|s| - 1], c) else s
  }

  /** The characters Python's `str.strip` removes. */
  predicate IsSpace(c: char)
  {
    var n := c as int;
    9 <= n <= 13 || 28 <= n <= 32 || n == 133 || n == 160 || n == 5760 || 8192 <= n <= 8202 ||
    n == 8232 || n == 8233 || n == 8239 || n == 8287 || n == 12288
  }

  /** `\s` of a JavaScript regular expression, and what its `trim` removes. */
  predicate JsSpace(c: char)
  {
    var n := c as int;
    9 <= n <= 13 || n == 32 || n == 160 || n == 5760 || 8192 <= n <= 8202 || n == 8232 || n == 8233 ||
    n == 8239 || n == 8287 || n == 12288 || n == 65279
  }

  function StripLeft(s: string): string
  {
    if s != [] && IsSpace(s[0]) then StripLeft(s[1..]) else s
  }
  function StripRight(s: string): string
  {
    if s != [] && IsSpace(s[|s| - 1]) then StripRight(s[..|s| - 1]) else s
  }
  function Strip(s: string): string { StripRight(StripLeft(s)) }

  lemma {:induction false} StripNothing(s: string)
    requires s == [] || (!IsSpace(s[0]) && !IsSpace(s[|s| - 1]))
    ensures Strip(s) == s
  {
  }

  /** Where the last dot stands, or -1. */
  function LastDot(name: string): int
    ensures -1 <= LastDot(name) < |name|
  {
    if name == "" then -1
    else if name[|name| - 1] == '.' then |name| - 1
    else LastDot(name[..|name| - 1])
  }

  /** Python's `needle in s`. */
  predicate Contains(s: string, needle: string)
  {
    exists i :: 0 <= i <= |s| && OccursAt(s, needle, i)
  }

  predicate OccursAt(s: string, needle: string, i: nat)
  {
    i + |needle| <= |s| && s[i..i + |needle|] == needle
  }

  /** `separator.join(lines)`. */
  function Join(lines: seq<string>, separator: string): string
  {
    if |lines| == 0 then "" else if |lines| == 1 then lines[0]
    else lines[0] + separator + Join(lines[1..], separator)
  }

  /** `s.split(separator)` for a one-character separator: always at least one part. */
  function Split(s: string, separator: char): (parts: seq<string>)
    ensures |parts| > 0
  {
    if s == [] then [""]
    else if s[0] == separator then [""] + Split(s[1..], separator)
    else
      var rest := Split(s[1..], separator);
      [[s[0]] + rest[0]] + rest[1..]
  }

  /** A line without its terminator splits off in front of the rest. */
  lemma {:induction false} SplitLine(line: string, rest: string, separator: char)
    requires separator !in line
    ensures Split(line + [separator] + rest, separator) == [line] + Split(rest, separator)
  {
    var s := line + [separator] + rest;
    if line == [] {
      assert s[1..] == rest;
    } else {
      SplitLine(line[1..], rest, separator);
      assert s[1..] == line[1..] + [separator] + rest;
      assert [line[0]] + line[1..] == line;
    }
  }

  lemma {:induction false} SplitLast(line: string, separator: char)
    requires separator !in line
    ensures Split(line, separator) == [line]
  {
    if line != [] {
      SplitLast(line[1..], separator);
      assert [line[0]] + line[1..] == line;
    }
  }

  lemma {:induction false} SplitConcat(a: string, b: string, separator: char)
    ensures Split(a + [separator] + b, separator) == Split(a, separator) + Split(b, separator)
  {
    var s := a + [separator] + b;
    if a == [] {
      assert s == [separator] + b && s[1..] == b;
    } else {
      assert s[1..] == a[1..] + [separator] + b;
      SplitConcat(a[1..], b, separator);
    }
  }

  lemma {:induction false} SplitJoined(parts: seq<string>, separator: char)
    requires parts != [] && forall i :: 0 <= i < |parts| ==> separator !in parts[i]
    ensures Split(Join(parts, [separator]), separator) == parts
  {
    hide Split;
    if |parts| == 1 {
      SplitLast(parts[0], separator);
    } else {
      SplitJoined(parts[1..], separator);
      SplitLine(parts[0], Join(parts[1..], [separator]), separator);
    }
  }

  lemma {:induction false} JoinSplit(s: string, separator: char)
    ensures Join(Split(s, separator), [separator]) == s
    ensures forall i :: 0 <= i < |Split(s, separator)| ==> separator !in Split(s, separator)[i]
  {
    if s != [] {
      JoinSplit(s[1..], separator);
      var rest := Split(s[1..], separator);
      if s[0] == separator {
        assert ([""] + rest)[1..] == rest;
      } else {
        var first := [s[0]] + rest[0];
        assert ([first] + rest[1..])[1..] == rest[1..];
      }
    }
  }

  lemma {:induction false} JoinConcat(a: seq<string>, b: seq<string>, separator: string)
    requires a != [] && b != []
    ensures Join(a + b, separator) == Join(a, separator) + separator + Join(b, separator)
  {
    if |a| == 1 {
      assert (a + b)[1..] == b;
    } else {
      assert (a + b)[1..] == a[1..] + b;
      JoinConcat(a[1..], b, separator);
    }
  }

  /** `s.replace(pattern, replacement)`: every non-overlapping occurrence, from the left. */
  function ReplaceAll(s: string, pattern: string, replacement: string): string
    requires pattern != ""
    decreases |s|
  {
    if s == [] then []
    else if StartsWith(s, pattern) then replacement + ReplaceAll(s[|pattern|..], pattern, replacement)
    else [s[0]] + ReplaceAll(s[1..], pattern, replacement)
  }

  lemma {:induction false} ReplaceAllStep(s: string, c: char, replacement: string)
    ensures ReplaceAll(s, [c], replacement)
         == if s == [] then [] else (if s[0] == c then replacement else [s[0]]) + ReplaceAll(s[1..], [c], replacement)
  {
    if s != [] { assert s[..1] == [s[0]]; }
  }

  lemma {:induction false} ReplaceAllConcat(s: string, t: string, c: char, replacement: string)
    ensures ReplaceAll(s + t, [c], replacement) == ReplaceAll(s, [c], replacement) + ReplaceAll(t, [c], replacement)
  {
    hide ReplaceAll;
    ReplaceAllStep(s, c, replacement);
    if s == [] {
      assert s + t == t;
    } else {
      ReplaceAllStep(s + t, c, replacement);
      ReplaceAllConcat(s[1..], t, c, replacement);
      assert (s + t)[1..] == s[1..] + t;
    }
  }

  lemma {:induction false} ReplaceAllAbsent(s: string, c: char, replacement: string)
    requires c !in s
    ensures ReplaceAll(s, [c], replacement) == s
  {
    if s != [] { ReplaceAllAbsent(s[1..], c, replacement); }
  }

  lemma {:induction false} ReplaceAllFree(s: string, pattern: string, replacement: string)
    requires pattern != "" && pattern[0] !in s
    ensures ReplaceAll(s, pattern, replacement) == s
  {
    if s != "" {
      OtherStart(s, pattern, 0);
      ReplaceAllFree(s[1..], pattern, replacement);
    }
  }

  /** A character that no pattern holds parts the replacement. */
  lemma {:induction false} ReplaceAllParts(a: string, c: char, b: string, pattern: string, replacement: string)
    requires pattern != "" && c !in pattern
    ensures ReplaceAll(a + [c] + b, pattern, replacement)
         == ReplaceAll(a, pattern, replacement) + [c] + ReplaceAll(b, pattern, replacement)
    decreases |a|
  {
    var s, k := a + [c] + b, |pattern|;
    StartsParted(a, c, b, pattern);
    if StartsWith(a, pattern) {
      assert s[k..] == a[k..] + [c] + b;
      ReplaceAllParts(a[k..], c, b, pattern, replacement);
    } else if a == "" {
      assert s[1..] == b;
    } else {
      assert s[1..] == a[1..] + [c] + b;
      ReplaceAllParts(a[1..], c, b, pattern, replacement);
    }
  }

  lemma {:induction false} StartsParted(a: string, c: char, b: string, pattern: string)
    requires c !in pattern
    ensures StartsWith(a + [c] + b, pattern) <==> StartsWith(a, pattern)
  {
    if |pattern| <= |a| {
      assert (a + [c] + b)[..|pattern|] == a[..|pattern|];
    } else {
      OtherStart(a + [c] + b, pattern, |a|);
    }
  }

  /** What occurs behind a place occurs. */
  lemma {:induction false} OccursBehind(s: string, needle: string, i: nat)
    requires i <= |s|
    ensures StartsWith(s[i..], needle) || Contains(s[i..], needle) ==> Contains(s, needle)
  {
    if StartsWith(s[i..], needle) {
      assert s[i..i + |needle|] == s[i..][..|needle|];
      assert OccursAt(s, needle, i);
    } else if j :| 0 <= j <= |s[i..]| && OccursAt(s[i..], needle, j) {
      assert s[i + j..i + j + |needle|] == s[i..][j..j + |needle|];
      assert OccursAt(s, needle, i + j);
    }
  }

  predicate Blank(s: string) { forall i :: 0 <= i < |s| ==> IsSpace(s[i]) }

  /** Stripping removes the spaces around a text that has none at its ends, and nothing else. */
  lemma {:induction false} StripExactly(left: string, core: string, right: string)
    requires Blank(left) && Blank(right) && (core != "" ==> !IsSpace(core[0]) && !IsSpace(core[|core| - 1]))
    ensures Strip(left + core + right) == core
  {
    hide IsSpace;
    StripLeftExactly(left, core + right);
    assert left + (core + right) == left + core + right;
    if core == "" {
      assert core + right == right && right + "" == right;
      StripLeftExactly(right, "");
    } else {
      StripRightExactly(core, right);
    }
  }

  lemma {:induction false} StripLeftExactly(left: string, rest: string)
    requires Blank(left)
    ensures rest == "" || !IsSpace(rest[0]) ==> StripLeft(left + rest) == rest
    ensures StripLeft(left + rest) == StripLeft(rest)
  {
    hide IsSpace;
    if left == "" {
      assert left + rest == rest;
    } else {
      assert (left + rest)[1..] == left[1..] + rest;
      StripLeftExactly(left[1..], rest);
    }
  }

  lemma {:induction false} StripRightExactly(core: string, right: string)
    requires Blank(right) && core != "" && !IsSpace(core[|core| - 1])
    ensures StripRight(core + right) == core
  {
    hide IsSpace;
    if right == "" {
      assert core + right == core;
    } else {
      assert (core + right)[..|core + right| - 1] == core + right[..|right| - 1];
      StripRightExactly(core, right[..|right| - 1]);
    }
  }
}
