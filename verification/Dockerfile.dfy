/** The Renku section of a Dockerfile: finding it, hashing it, and replacing it with a template's. */
module Dockerfile {
  import opened Common
  import opened Text

  // The markers, in pieces short enough to reason about single characters.
  const START_MARKER := "#        " + "Renku-" + "specific " + "section " + "- DO NOT " + "MODIFY" + "        #"
  const END_MARKER := "#        " + "      End " + "Renku-" + "specific " + "section" + "       " + "       #"

  predicate IsStart(line: string) {
    START_MARKER <= line
  }

  /** A line that is not taken for a start. */
  predicate IsEnd(line: string) {
    !IsStart(line) && EndsWith(line, END_MARKER)
  }

  // ---------- Finding the section ----------

  /** The first end marker, or the number of lines. */
  function FirstEnd(lines: seq<string>): (n: nat)
    ensures n <= |lines| && (n < |lines| ==> IsEnd(lines[n]))
    ensures forall i :: 0 <= i < n ==> !IsEnd(lines[i])
  {
    if lines == [] || IsEnd(lines[0]) then 0 else
      var n := FirstEnd(lines[1..]);
      assert forall i :: 0 < i < |lines| ==> lines[i] == lines[1..][i - 1];
      1 + n
  }

  /** The last start marker among the first `n` lines, or -1. */
  function LastStart(lines: seq<string>, n: nat): (start: int)
    requires n <= |lines|
    ensures -1 <= start < n && (0 <= start ==> IsStart(lines[start]))
    ensures forall i :: start < i < n ==> !IsStart(lines[i])
  {
    if n == 0 then -1 else if IsStart(lines[n - 1]) then n - 1 else LastStart(lines, n - 1)
  }

  datatype Section = Section(start: nat, end: nat)

  /** The section, where there is one: `0 <= start < end`. */
  function SectionOf(lines: seq<string>): (r: Option<Section>)
    ensures r.Some? ==> r.value.start < r.value.end < |lines|
    ensures r.Some? ==> IsStart(lines[r.value.start]) && IsEnd(lines[r.value.end])
  {
    var end := FirstEnd(lines);
    var start := LastStart(lines, end);
    if end < |lines| && 0 <= start then Some(Section(start, end)) else None
  }

  /** `find_renku_section`: the last start before the first end, and that end. */
  method FindRenkuSection(lines: seq<string>) returns (start: int, end: int)
    ensures start == LastStart(lines, FirstEnd(lines))
    ensures end == if FirstEnd(lines) < |lines| then FirstEnd(lines) else -1
    ensures SectionOf(lines) == if 0 <= start < end then Some(Section(start, end)) else None
  {
    start, end := -1, -1;
    for index := 0 to |lines|
      invariant index <= FirstEnd(lines) && start == LastStart(lines, index) && end == -1
    {
      if IsStart(lines[index]) {
        start := index;
      } else if EndsWith(lines[index], END_MARKER) {
        end := index;
        break;
      }
    }
  }

  /** A start, then no marker at all, then an end, and no end before. */
  ghost predicate HasSection(lines: seq<string>, s: Section) {
    && s.start < s.end < |lines| && IsStart(lines[s.start]) && IsEnd(lines[s.end])
    && (forall i :: 0 <= i < s.end ==> !IsEnd(lines[i]))
    && (forall i :: s.start < i < s.end ==> !IsStart(lines[i]))
  }

  lemma SectionIs(lines: seq<string>, s: Section)
    ensures HasSection(lines, s) <==> SectionOf(lines) == Some(s)
  {
    if HasSection(lines, s) {
      assert FirstEnd(lines) == s.end;
      assert LastStart(lines, s.end) == s.start;
    }
  }

  // ---------- Hashing ----------

  function NonEmpty(lines: seq<string>): (r: seq<string>)
    ensures forall l :: l in r <==> l in lines && l != []
  {
    if lines == [] then [] else (if lines[0] == [] then [] else [lines[0]]) + NonEmpty(lines[1..])
  }

  /** `get_renku_section_from_dockerfile`. */
  function RenkuSection(content: string): Option<string> {
    var lines := Lines(content);
    match SectionOf(lines)
    case Some(s) => Some(Join(NonEmpty(lines[s.start..s.end])))
    case None => None
  }

  /** What `calculate_dockerfile_checksum` hashes: `section or content`. */
  function HashedContent(content: string): string {
    match RenkuSection(content)
    case Some(section) => if section == [] then content else section
    case None => content
  }

  // ---------- Updating ----------

  /** The destination's lines with its section replaced by the source's. */
  function Spliced(source: seq<string>, s: Section, destination: seq<string>, d: Section): seq<string>
    requires s.start < s.end <= |source| && d.start < d.end <= |destination|
  {
    destination[..d.start] + source[s.start..s.end] + destination[d.end..]
  }

  function Updated(source: string, destination: string): string {
    var sourceLines, destinationLines := Lines(source), Lines(destination);
    match (SectionOf(sourceLines), SectionOf(destinationLines))
    case (Some(s), Some(d)) => Join(Spliced(sourceLines, s, destinationLines, d))
    case _ => source
  }

  class File {
    var text: string
  }

  /** `update_dockerfile_content`. */
  method UpdateDockerfileContent(source: File, destination: File)
    modifies destination
    ensures destination.text == Updated(old(source.text), old(destination.text))
  {
    var sourceLines := Lines(source.text);
    var sourceStart, sourceEnd := FindRenkuSection(sourceLines);
    var destinationLines := Lines(destination.text);
    var destinationStart, destinationEnd := FindRenkuSection(destinationLines);
    ghost var updated := Updated(source.text, destination.text);
    if 0 <= sourceStart < sourceEnd && 0 <= destinationStart < destinationEnd {
      destinationLines := destinationLines[..destinationStart] + sourceLines[sourceStart..sourceEnd] + destinationLines[destinationEnd..];
      assert updated == Join(destinationLines);
      destination.text := Join(destinationLines);
    } else {
      assert updated == source.text;
      destination.text := source.text;
    }
  }

  lemma Parts<T>(a: seq<T>, b: seq<T>, c: seq<T>)
    ensures (a + b + c)[..|a|] == a && (a + b + c)[|a|..|a| + |b|] == b && (a + b + c)[|a| + |b|..] == c
  {
  }

  /** Lines without an end marker, then a section without markers inside, then an end marker. */
  ghost predicate ArePartsWithSection(before: seq<string>, section: seq<string>, after: seq<string>) {
    && section != [] && IsStart(section[0]) && after != [] && IsEnd(after[0])
    && (forall i :: 0 <= i < |before| ==> !IsEnd(before[i])) && (forall i :: 0 <= i < |section| ==> !IsEnd(section[i]))
    && (forall i :: 1 <= i < |section| ==> !IsStart(section[i]))
  }

  lemma SectionOfParts(before: seq<string>, section: seq<string>, after: seq<string>, there: Section)
    requires ArePartsWithSection(before, section, after) && there == Section(|before|, |before| + |section|)
    ensures HasSection(before + section + after, there)
  {
    var lines, end := before + section + after, there.end;
    assert forall i :: 0 <= i < |before| ==> lines[i] == before[i];
    assert forall i :: |before| <= i < end ==> lines[i] == section[i - |before|];
    assert lines[end] == after[0];
  }

  /** What is before the destination's section, the source's section, and what is after the destination's. */
  lemma PartsOf(source: seq<string>, s: Section, destination: seq<string>, d: Section)
    requires HasSection(source, s) && HasSection(destination, d)
    ensures ArePartsWithSection(destination[..d.start], source[s.start..s.end], destination[d.end..])
    ensures ArePartsWithSection(destination[..d.start], source[s.start..s.end], WithoutLastBlank(destination[d.end..]))
    ensures destination[d.end..][0] != []
  {
    var section, after := source[s.start..s.end], destination[d.end..];
    assert forall i :: 0 <= i < |section| ==> section[i] == source[s.start + i];
    assert after[0] == destination[d.end];
    EndIsNotBlank(after[0]);
    assert WithoutLastBlank(after)[0] == after[0];
  }

  lemma EndIsNotBlank(line: string)
    requires IsEnd(line)
    ensures line != []
  {
  }

  lemma WithoutLastBlankOfParts(before: seq<string>, section: seq<string>, after: seq<string>)
    requires after != [] && after[0] != []
    ensures WithoutLastBlank(before + section + after) == before + section + WithoutLastBlank(after)
  {
    var lines := before + section + after;
    assert lines[|lines| - 1] == after[|after| - 1];
    if after[|after| - 1] == [] {
      assert lines[..|lines| - 1] == before + section + after[..|after| - 1];
    }
  }

  lemma UpdatedIs(source: string, s: Section, destination: string, d: Section)
    requires SectionOf(Lines(source)) == Some(s) && SectionOf(Lines(destination)) == Some(d)
    ensures Updated(source, destination) == Join(Spliced(Lines(source), s, Lines(destination), d))
  {
  }

  /** The section is replaced; before it and after it every line stays, up to spaces at its end and one blank last line. */
  lemma OutsideIsKept(source: string, s: Section, destination: string, d: Section)
    requires SectionOf(Lines(source)) == Some(s) && SectionOf(Lines(destination)) == Some(d)
    ensures Lines(Updated(source, destination)) ==
            Lines(destination)[..d.start] + Lines(source)[s.start..s.end] + WithoutLastBlank(Lines(destination)[d.end..])
    ensures SectionOf(Lines(Updated(source, destination))) == Some(Section(d.start, d.start + (s.end - s.start)))
  {
    UpdatedIs(source, s, destination, d);
    SectionIs(Lines(source), s);
    SectionIs(Lines(destination), d);
    KeptParts(Lines(source), s, Lines(destination), d);
    SectionIs(Lines(Updated(source, destination)), Section(d.start, d.start + (s.end - s.start)));
  }

  lemma KeptParts(source: seq<string>, s: Section, destination: seq<string>, d: Section)
    requires AreStripped(source) && AreStripped(destination)
    requires HasSection(source, s) && HasSection(destination, d)
    ensures var lines := Lines(Join(Spliced(source, s, destination, d)));
            && lines == destination[..d.start] + source[s.start..s.end] + WithoutLastBlank(destination[d.end..])
            && HasSection(lines, Section(d.start, d.start + (s.end - s.start)))
  {
    KeptLines(source, s, destination, d);
    KeptSection(source, s, destination, d);
  }

  lemma KeptLines(source: seq<string>, s: Section, destination: seq<string>, d: Section)
    requires AreStripped(source) && AreStripped(destination)
    requires HasSection(source, s) && HasSection(destination, d)
    ensures Lines(Join(Spliced(source, s, destination, d))) ==
            destination[..d.start] + source[s.start..s.end] + WithoutLastBlank(destination[d.end..])
  {
    StrippedSlice(destination, 0, d.start);
    StrippedSlice(source, s.start, s.end);
    StrippedSlice(destination, d.end, |destination|);
    EndIsNotBlank(destination[d.end..][0]);
    ReadBackParts(destination[..d.start], source[s.start..s.end], destination[d.end..]);
  }

  lemma KeptSection(source: seq<string>, s: Section, destination: seq<string>, d: Section)
    requires HasSection(source, s) && HasSection(destination, d)
    ensures HasSection(destination[..d.start] + source[s.start..s.end] + WithoutLastBlank(destination[d.end..]),
                       Section(d.start, d.start + (s.end - s.start)))
  {
    PartsOf(source, s, destination, d);
    var there := Section(d.start, d.start + (s.end - s.start));
    SectionOfParts(destination[..d.start], source[s.start..s.end], WithoutLastBlank(destination[d.end..]), there);
  }

  lemma StrippedSlice(lines: seq<string>, i: nat, j: nat)
    requires AreStripped(lines) && i <= j <= |lines|
    ensures AreStripped(lines[i..j])
  {
  }

  lemma ReadBackParts(before: seq<string>, section: seq<string>, after: seq<string>)
    requires AreStripped(before) && AreStripped(section) && AreStripped(after)
    requires after != [] && after[0] != []
    ensures Lines(Join(before + section + after)) == before + section + WithoutLastBlank(after)
  {
    StrippedParts(before, section, after);
    ReadBackLines(before + section + after);
    WithoutLastBlankOfParts(before, section, after);
  }

  lemma StrippedParts(a: seq<string>, b: seq<string>, c: seq<string>)
    requires AreStripped(a) && AreStripped(b) && AreStripped(c)
    ensures AreStripped(a + b + c)
  {
  }

  /** After an update the checksums agree, whatever the two files hold. */
  lemma ChecksumsAgree(source: string, destination: string)
    ensures HashedContent(Updated(source, destination)) == HashedContent(source)
  {
    match (SectionOf(Lines(source)), SectionOf(Lines(destination)))
    case (Some(s), Some(d)) => UpdatedSection(source, s, destination, d);
    case _ =>
  }

  lemma UpdatedSection(source: string, s: Section, destination: string, d: Section)
    requires SectionOf(Lines(source)) == Some(s) && SectionOf(Lines(destination)) == Some(d)
    ensures HashedContent(Updated(source, destination)) == HashedContent(source)
  {
    UpdatedHasSection(source, s, destination, d);
    HashedIs(source, s);
    HashedIs(Updated(source, destination), Section(d.start, d.start + (s.end - s.start)));
  }

  /** The updated file has the source's section where the destination had its own. */
  lemma UpdatedHasSection(source: string, s: Section, destination: string, d: Section)
    requires SectionOf(Lines(source)) == Some(s) && SectionOf(Lines(destination)) == Some(d)
    ensures var there := Section(d.start, d.start + (s.end - s.start));
            && SectionOf(Lines(Updated(source, destination))) == Some(there)
            && Lines(Updated(source, destination))[there.start..there.end] == Lines(source)[s.start..s.end]
  {
    OutsideIsKept(source, s, destination, d);
    MiddleIs(Lines(Updated(source, destination)), Lines(destination)[..d.start], Lines(source)[s.start..s.end],
             WithoutLastBlank(Lines(destination)[d.end..]));
  }

  lemma MiddleIs<T>(all: seq<T>, a: seq<T>, b: seq<T>, c: seq<T>)
    requires all == a + b + c
    ensures |a| + |b| <= |all| && all[|a|..|a| + |b|] == b
  {
    Parts(a, b, c);
  }

  /** The lines of the section that are not blank, and without a section the whole file. */
  lemma HashedContentIs(content: string)
    ensures HashedContent(content) ==
            match SectionOf(Lines(content))
            case Some(s) => Join(NonEmpty(Lines(content)[s.start..s.end]))
            case None => content
  {
    if SectionOf(Lines(content)).Some? {
      HashedIs(content, SectionOf(Lines(content)).value);
    }
  }

  /** The section's lines that are not blank. */
  lemma HashedIs(content: string, s: Section)
    requires SectionOf(Lines(content)) == Some(s)
    ensures HashedContent(content) == Join(NonEmpty(Lines(content)[s.start..s.end]))
  {
    SectionIsNotEmpty(Lines(content)[s.start..s.end]);
  }

  lemma SectionIsNotEmpty(section: seq<string>)
    requires section != [] && IsStart(section[0])
    ensures Join(NonEmpty(section)) != []
  {
    assert section[0] != [];
    assert NonEmpty(section)[0] == section[0];
  }

  /** Is a second update with the same source without effect? */
  predicate IsSettled(source: string, destination: string) {
    if SectionOf(Lines(source)).None? then true
    else if SectionOf(Lines(destination)).None? then source == Join(Lines(source))
    else Lines(destination)[|Lines(destination)| - 1] != []
  }

  /**
   * A second update changes nothing exactly if the source has no section, or the destination ends
   * with a line that is not blank, or (a destination without a section, which is overwritten) the
   * source is written the way the update writes: no spaces or line end at the end.
   */
  lemma UpdateTwiceIff(source: string, destination: string)
    ensures Updated(source, Updated(source, destination)) == Updated(source, destination) <==> IsSettled(source, destination)
  {
    if SectionOf(Lines(source)).Some? {
      if SectionOf(Lines(destination)).Some? {
        SecondUpdate(source, SectionOf(Lines(source)).value, destination, SectionOf(Lines(destination)).value);
      } else {
        UpdatedWithItself(source, SectionOf(Lines(source)).value);
      }
    }
  }

  lemma UpdatedWithItself(source: string, s: Section)
    requires SectionOf(Lines(source)) == Some(s)
    ensures Updated(source, source) == Join(Lines(source))
  {
    UpdatedIs(source, s, source, s);
    SplicedAgain(Lines(source), s, Lines(source), s);
  }

  /** Replacing lines by themselves. */
  lemma SplicedAgain(source: seq<string>, s: Section, lines: seq<string>, d: Section)
    requires s.start < s.end <= |source| && d.start < d.end <= |lines| && source[s.start..s.end] == lines[d.start..d.end]
    ensures Spliced(source, s, lines, d) == lines
  {
    assert lines == lines[..d.start] + lines[d.start..d.end] + lines[d.end..];
  }

  lemma SecondUpdate(source: string, s: Section, destination: string, d: Section)
    requires SectionOf(Lines(source)) == Some(s) && SectionOf(Lines(destination)) == Some(d)
    ensures Updated(source, Updated(source, destination)) == Updated(source, destination) <==>
            Lines(destination)[|Lines(destination)| - 1] != []
  {
    UpdatedIs(source, s, destination, d);
    SecondUpdateIs(source, s, destination, d);
    SectionIs(Lines(source), s);
    SectionIs(Lines(destination), d);
    SplicedJoins(Lines(source), s, Lines(destination), d);
  }

  lemma SplicedJoins(source: seq<string>, s: Section, destination: seq<string>, d: Section)
    requires HasSection(source, s) && HasSection(destination, d)
    ensures var spliced := Spliced(source, s, destination, d);
            Join(WithoutLastBlank(spliced)) == Join(spliced) <==> destination[|destination| - 1] != []
  {
    SplicedLast(source, s, destination, d);
    JoinWithoutLastBlank(Spliced(source, s, destination, d));
  }

  lemma SplicedLast(source: seq<string>, s: Section, destination: seq<string>, d: Section)
    requires s.start < s.end <= |source| && d.start < d.end < |destination|
    ensures var spliced := Spliced(source, s, destination, d);
            |spliced| > 1 && spliced[|spliced| - 1] == destination[|destination| - 1]
  {
  }

  lemma SecondUpdateIs(source: string, s: Section, destination: string, d: Section)
    requires SectionOf(Lines(source)) == Some(s) && SectionOf(Lines(destination)) == Some(d)
    ensures Updated(source, Updated(source, destination)) ==
            Join(WithoutLastBlank(Spliced(Lines(source), s, Lines(destination), d)))
  {
    var updated := Updated(source, destination);
    OutsideIsKept(source, s, destination, d);
    UpdatedIs(source, s, updated, Section(d.start, d.start + (s.end - s.start)));
    Parts(Lines(destination)[..d.start], Lines(source)[s.start..s.end], WithoutLastBlank(Lines(destination)[d.end..]));
    SplicedAgain(Lines(source), s, Lines(updated), Section(d.start, d.start + (s.end - s.start)));
    SplicedWithoutLastBlank(Lines(source), s, Lines(destination), d);
  }

  lemma SplicedWithoutLastBlank(source: seq<string>, s: Section, destination: seq<string>, d: Section)
    requires SectionOf(source) == Some(s) && SectionOf(destination) == Some(d)
    ensures WithoutLastBlank(Spliced(source, s, destination, d)) ==
            destination[..d.start] + source[s.start..s.end] + WithoutLastBlank(destination[d.end..])
  {
    EndIsNotBlank(destination[d.end..][0]);
    WithoutLastBlankOfParts(destination[..d.start], source[s.start..s.end], destination[d.end..]);
  }

  lemma JoinWithoutLastBlank(lines: seq<string>)
    requires |lines| > 1
    ensures Join(WithoutLastBlank(lines)) == Join(lines) <==> lines[|lines| - 1] != []
  {
    if lines[|lines| - 1] == [] {
      BlankLineCounts(lines);
    }
  }

  /** A file that ends with a blank line: the second update still changes it. */
  lemma SecondUpdateDropsBlankLine()
    ensures var file := START_MARKER + "\n" + END_MARKER + "\n\n";
            Updated(file, Updated(file, file)) != Updated(file, file)
  {
    var file := START_MARKER + "\n" + END_MARKER + "\n\n";
    JoinedExample();
    LinesOfExample(file);
    UpdateTwiceIff(file, file);
  }

  lemma LinesOfExample(file: string)
    requires file == Join([START_MARKER, END_MARKER, ""] + [""])
    ensures Lines(file) == [START_MARKER, END_MARKER, ""] && SectionOf(Lines(file)) == Some(Section(0, 1))
  {
    var lines: seq<string> := [START_MARKER, END_MARKER, ""];
    StartMarkerIsStripped();
    EndMarkerIsStripped();
    EndMarkerIsNoStart();
    ReadBackLines(lines + [""]);
    assert WithoutLastBlank(lines + [""]) == lines;
    SectionIs(lines, Section(0, 1));
  }

  lemma JoinedExample()
    ensures Join([START_MARKER, END_MARKER, ""] + [""]) == START_MARKER + "\n" + END_MARKER + "\n\n"
  {
    var lines := [START_MARKER, END_MARKER, ""];
    BlankLineCounts(lines + [""]);
    assert (lines + [""])[..3] == lines;
    BlankLineCounts(lines);
    assert lines[..2] == [START_MARKER, END_MARKER];
  }

  ghost predicate HasNoBreak(s: string) {
    forall j :: 0 <= j < |s| ==> !IsBreak(s[j])
  }

  lemma NoBreakTogether(a: string, b: string)
    requires HasNoBreak(a) && HasNoBreak(b)
    ensures HasNoBreak(a + b)
  {
  }

  lemma PiecesHaveNoBreak()
    ensures HasNoBreak("#        ") && HasNoBreak("Renku-") && HasNoBreak("specific ") && HasNoBreak("section ")
    ensures HasNoBreak("- DO NOT ") && HasNoBreak("MODIFY") && HasNoBreak("        #")
  {
  }

  lemma OtherPiecesHaveNoBreak()
    ensures HasNoBreak("      End ") && HasNoBreak("section") && HasNoBreak("       ") && HasNoBreak("       #")
  {
  }

  lemma StartMarkerIsStripped()
    ensures IsStripped(START_MARKER)
  {
    PiecesHaveNoBreak();
    NoBreakTogether("#        ", "Renku-");
    NoBreakTogether("#        " + "Renku-", "specific ");
    NoBreakTogether("#        " + "Renku-" + "specific ", "section ");
    NoBreakTogether("#        " + "Renku-" + "specific " + "section ", "- DO NOT ");
    NoBreakTogether("#        " + "Renku-" + "specific " + "section " + "- DO NOT ", "MODIFY");
    NoBreakTogether("#        " + "Renku-" + "specific " + "section " + "- DO NOT " + "MODIFY", "        #");
    assert START_MARKER[|START_MARKER| - 1] == '#';
  }

  lemma EndMarkerIsStripped()
    ensures IsStripped(END_MARKER)
  {
    PiecesHaveNoBreak();
    OtherPiecesHaveNoBreak();
    NoBreakTogether("#        ", "      End ");
    NoBreakTogether("#        " + "      End ", "Renku-");
    NoBreakTogether("#        " + "      End " + "Renku-", "specific ");
    NoBreakTogether("#        " + "      End " + "Renku-" + "specific ", "section");
    NoBreakTogether("#        " + "      End " + "Renku-" + "specific " + "section", "       ");
    NoBreakTogether("#        " + "      End " + "Renku-" + "specific " + "section" + "       ", "       #");
    assert END_MARKER[|END_MARKER| - 1] == '#';
  }

  lemma EndMarkerIsNoStart()
    ensures IsEnd(END_MARKER)
  {
    assert START_MARKER[9] == 'R' && END_MARKER[9] == ' ';
  }
}
