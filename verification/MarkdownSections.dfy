/** `splitAnalysisMarkdownSections`: one section per second-level heading. */
module MarkdownSections {
  import opened Text
  import opened Grouping

  datatype Section = Section(title: string, text: string)

  // ---------------------------------------------------------------------------
  // Lines.

  /** `strings.ReplaceAll(s, "\r\n", "\n")`. */
  function Normalize(s: string): string {
    if s == "" then ""
    else if |s| >= 2 && s[0] == '\r' && s[1] == '\n' then "\n" + Normalize(s[2..])
    else [s[0]] + Normalize(s[1..])
  }

  /** `strings.Split(s, "\n")`. */
  function Lines(s: string): (r: seq<string>)
    ensures r != []
  {
    if s == "" then [""]
    else if s[0] == '\n' then [""] + Lines(s[1..])
    else
      var rest := Lines(s[1..]);
      [[s[0]] + rest[0]] + rest[1..]
  }

  function JoinLines(lines: seq<string>): string { Join(lines, "\n") }

  predicate IsLine(s: string) { '\n' !in s }

  ghost predicate AllLines(lines: seq<string>) {
    forall i :: 0 <= i < |lines| ==> IsLine(lines[i])
  }

  lemma JoinTwo(first: string, rest: seq<string>)
    requires rest != []
    ensures JoinLines([first] + rest) == first + "\n" + JoinLines(rest)
  {
    assert ([first] + rest)[1..] == rest;
  }

  lemma {:induction false} LinesAreLines(s: string)
    ensures AllLines(Lines(s))
  {
    if s != "" {
      LinesAreLines(s[1..]);
    }
  }

  /** A character in front of the first of several lines. */
  lemma JoinLonger(c: char, lines: seq<string>)
    requires lines != []
    ensures JoinLines([[c] + lines[0]] + lines[1..]) == [c] + JoinLines(lines)
  {
    if |lines| > 1 {
      JoinTwo([c] + lines[0], lines[1..]);
      JoinTwo(lines[0], lines[1..]);
      assert lines == [lines[0]] + lines[1..];
    }
  }

  /** Splitting into lines and joining them again is the identity; LinesOfJoin is the other way round. */
  lemma {:induction false} JoinOfLines(s: string)
    ensures JoinLines(Lines(s)) == s
  {
    if s != "" {
      JoinOfLines(s[1..]);
      assert s == [s[0]] + s[1..];
      if s[0] == '\n' {
        JoinTwo("", Lines(s[1..]));
      } else {
        JoinLonger(s[0], Lines(s[1..]));
      }
    }
  }

  lemma {:induction false} LinesOfLine(s: string)
    requires IsLine(s)
    ensures Lines(s) == [s]
  {
    if s != "" {
      LinesOfLine(s[1..]);
      assert s == [s[0]] + s[1..];
    }
  }

  lemma LinesOfCons(c: char, s: string)
    ensures c == '\n' ==> Lines([c] + s) == [""] + Lines(s)
    ensures c != '\n' ==> Lines([c] + s) == [[c] + Lines(s)[0]] + Lines(s)[1..]
  {
    assert ([c] + s)[1..] == s;
  }

  lemma {:induction false} LinesOfTwo(a: string, b: string)
    ensures Lines(a + "\n" + b) == Lines(a) + Lines(b)
  {
    if a == "" {
      LinesOfCons('\n', b);
      assert a + "\n" + b == "\n" + b;
    } else {
      assert a == [a[0]] + a[1..];
      assert a + "\n" + b == [a[0]] + (a[1..] + "\n" + b);
      LinesOfTwo(a[1..], b);
      LinesOfCons(a[0], a[1..]);
      LinesOfCons(a[0], a[1..] + "\n" + b);
    }
  }

  lemma {:induction false} LinesOfJoin(lines: seq<string>)
    requires lines != [] && AllLines(lines)
    ensures Lines(JoinLines(lines)) == lines
  {
    LinesOfLine(lines[0]);
    if |lines| > 1 {
      LinesOfJoin(lines[1..]);
      LinesOfTwo(lines[0], JoinLines(lines[1..]));
      assert lines == [lines[0]] + lines[1..];
    }
  }

  /** The last character of a text belongs to its last line, or starts a new empty one. */
  lemma LinesOfLonger(s: string, c: char)
    ensures c == '\n' ==> Lines(s + [c]) == Lines(s) + [""]
    ensures c != '\n' ==> var ls := Lines(s); Lines(s + [c]) == ls[..|ls| - 1] + [ls[|ls| - 1] + [c]]
  {
    if c == '\n' {
      LinesOfTwo(s, "");
      assert s + "\n" + "" == s + [c];
    } else {
      LastLineGrows(s, c);
    }
  }

  lemma {:induction false} LastLineGrows(s: string, c: char)
    requires c != '\n'
    ensures var ls := Lines(s); Lines(s + [c]) == ls[..|ls| - 1] + [ls[|ls| - 1] + [c]]
  {
    if s == "" {
      assert s + [c] == [c];
      LinesOfLine([c]);
      assert Lines(s) == [""] && "" + [c] == [c];
    } else {
      assert s == [s[0]] + s[1..];
      assert s + [c] == [s[0]] + (s[1..] + [c]);
      LastLineGrows(s[1..], c);
      LinesOfCons(s[0], s[1..]);
      LinesOfCons(s[0], s[1..] + [c]);
      var rest := Lines(s[1..]);
      if |rest| == 1 {
        assert [s[0]] + (rest[0] + [c]) == [s[0]] + rest[0] + [c];
      }
    }
  }

  // ---------------------------------------------------------------------------
  // Headings and groups of lines.

  const HEADING := "## "
  const SUBHEADING := "### "

  /** `strings.HasPrefix`. */
  predicate HasPrefix(s: string, prefix: string) {
    |prefix| <= |s| && s[..|prefix|] == prefix
  }

  predicate IsHeading(line: string) {
    HasPrefix(Trim(line), HEADING) && !HasPrefix(Trim(line), SUBHEADING)
  }

  function TitleOf(line: string): string
    requires IsHeading(line)
  {
    Trim(Trim(line)[3..])
  }

  /** A heading's title is never blank. */
  lemma TitleIsFilled(line: string)
    requires IsHeading(line)
    ensures TitleOf(line) != "" && IsTight(TitleOf(line)) && Trim(TitleOf(line)) == TitleOf(line)
  {
    var t := Trim(line);
    TrimIdempotent(line);
    TrimIdempotent(t[3..]);
    assert t[2] == HEADING[2] == ' ';
    assert t[3..][|t| - 4] == t[|t| - 1];
    BlankIffAllSpace(t[3..]);
  }

  ghost predicate IsSection(group: seq<string>) { IsGroup(IsHeading, group) }

  /** The group's lines with the heading respaced. */
  function Respaced(group: seq<string>): seq<string>
    requires IsSection(group)
  {
    [HEADING + TitleOf(group[0])] + group[1..]
  }

  function Render(group: seq<string>): Section
    requires IsSection(group)
  {
    Section(TitleOf(group[0]), Trim(JoinLines(Respaced(group))))
  }

  function RenderAll(groups: seq<seq<string>>): (r: seq<Section>)
    requires AllGroups(IsHeading, groups)
    ensures |r| == |groups| && forall i :: 0 <= i < |groups| ==> r[i] == Render(groups[i])
  {
    seq(|groups|, i requires 0 <= i < |groups| => Render(groups[i]))
  }

  /** The lines of the sections of a text. */
  function SectionLines(markdown: string): (r: seq<seq<string>>)
    ensures AllGroups(IsHeading, r)
  {
    GroupsAreGroups(IsHeading, Lines(Normalize(markdown)));
    Groups(IsHeading, Lines(Normalize(markdown)))
  }

  function Sections(markdown: string): seq<Section> {
    RenderAll(SectionLines(markdown))
  }

  // ---------------------------------------------------------------------------
  // The method.

  /** The loop variables stand for the groups seen so far, the last of them still open. */
  ghost predicate Stands(groups: seq<seq<string>>, out: seq<Section>, currentTitle: string, currentLines: seq<string>)
    requires AllGroups(IsHeading, groups)
  {
    if groups == [] then
      out == [] && currentTitle == "" && currentLines == []
    else
      var last := groups[|groups| - 1];
      && out == RenderAll(groups[..|groups| - 1])
      && currentTitle == TitleOf(last[0]) && currentLines == Respaced(last)
  }

  /** The `flush` closure. */
  method Flush(out: seq<Section>, currentTitle: string, currentLines: seq<string>, ghost groups: seq<seq<string>>)
    returns (r: seq<Section>)
    requires AllGroups(IsHeading, groups) && Stands(groups, out, currentTitle, currentLines)
    ensures r == RenderAll(groups)
  {
    TitleTellsStart(groups, out, currentTitle, currentLines);
    if IsBlank(currentTitle) {
      return out;
    }
    return out + [Section(currentTitle, Trim(JoinLines(currentLines)))];
  }

  /** A heading has been seen exactly when the current title shows something. */
  lemma TitleTellsStart(groups: seq<seq<string>>, out: seq<Section>, currentTitle: string, currentLines: seq<string>)
    requires AllGroups(IsHeading, groups) && Stands(groups, out, currentTitle, currentLines)
    ensures IsBlank(currentTitle) <==> groups == []
  {
    if groups != [] {
      TitleIsFilled(groups[|groups| - 1][0]);
    }
  }

  lemma StandsOpened(groups: seq<seq<string>>, line: string)
    requires AllGroups(IsHeading, groups) && IsHeading(line)
    ensures AllGroups(IsHeading, groups + [[line]])
    ensures Stands(groups + [[line]], RenderAll(groups), TitleOf(line), [HEADING + TitleOf(line)])
  {
    assert (groups + [[line]])[..|groups|] == groups;
  }

  lemma StandsLonger(groups: seq<seq<string>>, line: string, out: seq<Section>, currentTitle: string,
                     currentLines: seq<string>)
    requires AllGroups(IsHeading, groups) && groups != [] && !IsHeading(line) &&
               Stands(groups, out, currentTitle, currentLines)
    ensures var longer := groups[..|groups| - 1] + [groups[|groups| - 1] + [line]];
            AllGroups(IsHeading, longer) && Stands(longer, out, currentTitle, currentLines + [line])
  {
    var front, last := groups[..|groups| - 1], groups[|groups| - 1];
    assert (front + [last + [line]])[..|front|] == front;
    assert Respaced(last + [line]) == Respaced(last) + [line];
  }

  method SplitAnalysisMarkdownSections(markdown: string) returns (out: seq<Section>)
    ensures out == Sections(markdown)
  {
    var lines := Lines(Normalize(markdown));
    out := [];
    var currentTitle := "";
    var currentLines := [];
    ghost var groups := [];
    for i := 0 to |lines|
      invariant groups == Groups(IsHeading, lines[..i]) && AllGroups(IsHeading, groups)
      invariant Stands(groups, out, currentTitle, currentLines)
    {
      var line := lines[i];
      assert lines[..i + 1] == lines[..i] + [line];
      GroupsOfMore(IsHeading, lines[..i], line);
      if IsHeading(line) {
        out := Flush(out, currentTitle, currentLines, groups);
        StandsOpened(groups, line);
        currentTitle := TitleOf(line);
        currentLines := [HEADING + currentTitle];
      } else {
        TitleTellsStart(groups, out, currentTitle, currentLines);
        if !IsBlank(currentTitle) {
          StandsLonger(groups, line, out, currentTitle, currentLines);
          currentLines := currentLines + [line];
        }
      }
      groups := Groups(IsHeading, lines[..i + 1]);
    }
    assert lines[..|lines|] == lines;
    out := Flush(out, currentTitle, currentLines, groups);
  }
}
