/** Python's `splitlines`, `rstrip` and `"\n".join`, on text whose line ends were translated to `'\n'`. */
module Text {
  import opened Common

  /** The characters at which `splitlines` breaks. */
  predicate IsBreak(c: char) {
    c in {'\n', '\U{0B}', '\U{0C}', '\U{1C}', '\U{1D}', '\U{1E}', '\U{85}', '\U{2028}', '\U{2029}'}
  }

  /** The characters that `rstrip` strips. */
  predicate IsSpace(c: char) {
    || IsBreak(c) || c in {'\t', '\r', '\U{1F}', ' ', '\U{A0}', '\U{1680}', '\U{202F}', '\U{205F}', '\U{3000}'}
    || '\U{2000}' <= c <= '\U{200A}'
  }

  predicate EndsWith(line: string, suffix: string) {
    |suffix| <= |line| && line[|line| - |suffix|..] == suffix
  }

  /** The position of the first break, or the length. */
  function FirstBreak(t: string): (i: nat)
    ensures i <= |t|
    ensures forall j :: 0 <= j < i ==> !IsBreak(t[j])
    ensures i < |t| ==> IsBreak(t[i])
  {
    if t == [] || IsBreak(t[0]) then 0 else 1 + FirstBreak(t[1..])
  }

  function SplitLines(t: string): (lines: seq<string>)
    ensures forall i :: 0 <= i < |lines| ==> forall j :: 0 <= j < |lines[i]| ==> !IsBreak(lines[i][j])
  {
    if t == [] then [] else
      var i := FirstBreak(t);
      [t[..i]] + if i < |t| then SplitLines(t[i + 1..]) else []
  }

  function Rstrip(line: string): (r: string)
    ensures r <= line
    ensures r == [] || !IsSpace(r[|r| - 1])
  {
    if line == [] || !IsSpace(line[|line| - 1]) then line else Rstrip(line[..|line| - 1])
  }

  function Join(lines: seq<string>): string {
    if lines == [] then [] else if |lines| == 1 then lines[0] else lines[0] + "\n" + Join(lines[1..])
  }

  /** No break inside and no space at the end. */
  ghost predicate IsStripped(line: string) {
    && (forall j :: 0 <= j < |line| ==> !IsBreak(line[j]))
    && (line == [] || !IsSpace(line[|line| - 1]))
  }

  ghost predicate AreStripped(lines: seq<string>) {
    forall i :: 0 <= i < |lines| ==> IsStripped(lines[i])
  }

  /** `[line.rstrip() for line in text.splitlines()]`. */
  function Lines(t: string): (lines: seq<string>)
    ensures AreStripped(lines)
  {
    var split := SplitLines(t);
    seq(|split|, i requires 0 <= i < |split| => Rstrip(split[i]))
  }

  /** The lines without a last one that is empty: what is read back after joining. */
  function WithoutLastBlank(lines: seq<string>): seq<string> {
    if lines != [] && lines[|lines| - 1] == [] then lines[..|lines| - 1] else lines
  }

  lemma RstripKeeps(line: string)
    requires IsStripped(line)
    ensures Rstrip(line) == line
  {
  }

  lemma FirstBreakAt(line: string, rest: string)
    requires forall j :: 0 <= j < |line| ==> !IsBreak(line[j])
    requires rest == [] || IsBreak(rest[0])
    ensures FirstBreak(line + rest) == |line|
  {
    if line == [] {
      assert line + rest == rest;
    } else {
      assert (line + rest)[1..] == line[1..] + rest;
      FirstBreakAt(line[1..], rest);
    }
  }

  /** Joined lines are read back as they were, but for one blank line at the end. */
  lemma {:induction false} ReadBackLines(lines: seq<string>)
    requires AreStripped(lines)
    ensures Lines(Join(lines)) == WithoutLastBlank(lines)
  {
    SplitJoined(lines);
    var split := SplitLines(Join(lines));
    forall i | 0 <= i < |split|
      ensures Rstrip(split[i]) == split[i]
    {
      RstripKeeps(split[i]);
    }
  }

  lemma SplitAtBreak(t: string, i: nat)
    requires i < |t| && FirstBreak(t) == i
    ensures SplitLines(t) == [t[..i]] + SplitLines(t[i + 1..])
  {
  }

  /** A line and its break come off the front. */
  lemma SplitFirst(line: string, rest: string)
    requires IsStripped(line)
    ensures SplitLines(line + "\n" + rest) == [line] + SplitLines(rest)
  {
    var t := line + "\n" + rest;
    assert t == line + ("\n" + rest);
    FirstBreakAt(line, "\n" + rest);
    assert t[..|line|] == line && t[|line| + 1..] == rest;
    SplitAtBreak(t, |line|);
  }

  lemma SplitOnly(line: string)
    requires IsStripped(line)
    ensures SplitLines(line) == WithoutLastBlank([line])
  {
    FirstBreakAt(line, []);
    assert line + [] == line;
  }

  lemma WithoutLastBlankOfRest(lines: seq<string>)
    requires |lines| > 1
    ensures [lines[0]] + WithoutLastBlank(lines[1..]) == WithoutLastBlank(lines)
  {
  }

  lemma {:induction false} SplitJoined(lines: seq<string>)
    requires AreStripped(lines)
    ensures SplitLines(Join(lines)) == WithoutLastBlank(lines)
  {
    if lines == [] {
    } else if |lines| == 1 {
      assert lines == [lines[0]];
      SplitOnly(lines[0]);
    } else {
      SplitFirst(lines[0], Join(lines[1..]));
      SplitJoined(lines[1..]);
      WithoutLastBlankOfRest(lines);
    }
  }

  /** Dropping a blank line at the end makes the joined text shorter. */
  lemma {:induction false} BlankLineCounts(lines: seq<string>)
    requires |lines| > 1 && lines[|lines| - 1] == []
    ensures Join(lines) == Join(lines[..|lines| - 1]) + "\n"
  {
    if |lines| == 2 {
      assert lines[1..] == [lines[1]];
      assert lines[..1] == [lines[0]];
    } else {
      var front := lines[..|lines| - 1];
      BlankLineCounts(lines[1..]);
      assert lines[1..][..|lines| - 2] == front[1..];
      assert lines[0] + "\n" + (Join(front[1..]) + "\n") == (lines[0] + "\n" + Join(front[1..])) + "\n";
    }
  }
}
