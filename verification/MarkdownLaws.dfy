/** What the sections of a text look like when they are joined and split again. */
module MarkdownLaws {
  import opened Text
  import opened Grouping
  import opened MarkdownSections
  import opened Sequences

  // ---------------------------------------------------------------------------
  // Carriage returns.

  predicate CrLfAt(s: string, i: nat) {
    i + 1 < |s| && s[i] == '\r' && s[i + 1] == '\n'
  }

  predicate HasCrLf(s: string) {
    exists i :: 0 <= i < |s| && CrLfAt(s, i)
  }

  predicate HasCrCrLf(s: string) {
    exists i :: 0 <= i < |s| && s[i] == '\r' && CrLfAt(s, i + 1)
  }

  lemma CrLfOfCons(c: char, s: string)
    ensures HasCrLf([c] + s) <==> CrLfAt([c] + s, 0) || HasCrLf(s)
  {
    var t := [c] + s;
    if HasCrLf(t) {
      var i :| 0 <= i < |t| && CrLfAt(t, i);
      if i > 0 {
        assert CrLfAt(s, i - 1);
      }
    }
    if HasCrLf(s) {
      var i :| 0 <= i < |s| && CrLfAt(s, i);
      assert CrLfAt(t, i + 1);
    }
  }

  lemma CrCrLfOfCons(c: char, s: string)
    ensures HasCrCrLf([c] + s) <==> (c == '\r' && CrLfAt(s, 0)) || HasCrCrLf(s)
  {
    var t := [c] + s;
    if HasCrCrLf(t) {
      var i :| 0 <= i < |t| && t[i] == '\r' && CrLfAt(t, i + 1);
      if i > 0 {
        assert s[i - 1] == '\r' && CrLfAt(s, i);
      } else {
        assert CrLfAt(s, 0);
      }
    }
    if HasCrCrLf(s) {
      var i :| 0 <= i < |s| && s[i] == '\r' && CrLfAt(s, i + 1);
      assert t[i + 1] == '\r' && CrLfAt(t, i + 2);
    }
    if c == '\r' && CrLfAt(s, 0) {
      assert t[0] == '\r' && CrLfAt(t, 1);
    }
  }

  /** Replacing line ends changes a text exactly when it has one to replace, and then shortens it. */
  lemma {:induction false} NormalizeShortens(s: string)
    ensures if HasCrLf(s) then |Normalize(s)| < |s| else Normalize(s) == s
    decreases |s|
  {
    if s != "" {
      assert s == [s[0]] + s[1..];
      CrLfOfCons(s[0], s[1..]);
      if CrLfAt(s, 0) {
        NormalizeShortens(s[2..]);
      } else {
        NormalizeShortens(s[1..]);
      }
    }
  }

  lemma NormalizeFirst(s: string)
    requires !CrLfAt(s, 0)
    ensures Normalize(s) != "" && Normalize(s)[0] == '\n' <==> s != "" && s[0] == '\n'
  {}

  /** A line end survives the replacement exactly when it was written with two carriage returns. */
  lemma {:induction false} CrLfSurvives(s: string)
    ensures HasCrLf(Normalize(s)) <==> HasCrCrLf(s)
    decreases |s|
  {
    if s != "" {
      var c, t := s[0], s[1..];
      assert s == [c] + t;
      CrCrLfOfCons(c, t);
      if CrLfAt(s, 0) {
        CrLfSurvives(s[2..]);
        assert t == [t[0]] + s[2..];
        CrCrLfOfCons(t[0], s[2..]);
        CrLfOfCons('\n', Normalize(s[2..]));
      } else {
        CrLfSurvives(t);
        CrLfOfCons(c, Normalize(t));
        if !CrLfAt(t, 0) {
          NormalizeFirst(t);
        }
      }
    }
  }

  predicate KeepsEnd(line: string) { line == "" || line[|line| - 1] != '\r' }

  lemma CrLfOfTwo(a: string, b: string)
    requires IsLine(a)
    ensures HasCrLf(a + "\n" + b) <==> !KeepsEnd(a) || HasCrLf(b)
  {
    var s := a + "\n" + b;
    if HasCrLf(s) {
      var i :| 0 <= i < |s| && CrLfAt(s, i);
      if i > |a| {
        assert CrLfAt(b, i - |a| - 1);
      } else {
        assert forall k :: 0 <= k < |a| ==> s[k] == a[k] && a[k] != '\n';
        assert i == |a| - 1;
      }
    }
    if !KeepsEnd(a) {
      assert CrLfAt(s, |a| - 1);
    }
    if HasCrLf(b) {
      var i :| 0 <= i < |b| && CrLfAt(b, i);
      assert CrLfAt(s, |a| + 1 + i);
    }
  }

  /** Joined lines hold a line end exactly when a line before the last ends in a carriage return. */
  lemma {:induction false} CrLfOfLines(lines: seq<string>)
    requires lines != [] && AllLines(lines)
    ensures HasCrLf(JoinLines(lines)) <==> !Inner(KeepsEnd, lines)
  {
    if |lines| == 1 {
      assert forall i :: CrLfAt(lines[0], i) ==> lines[0][i + 1] == '\n';
    } else {
      CrLfOfLines(lines[1..]);
      CrLfOfTwo(lines[0], JoinLines(lines[1..]));
      assert Inner(KeepsEnd, lines) <==> KeepsEnd(lines[0]) && Inner(KeepsEnd, lines[1..]) by {
        assert forall j :: 0 < j < |lines| ==> lines[j] == lines[1..][j - 1];
      }
    }
  }

  // ---------------------------------------------------------------------------
  // A rendered section.

  /** The lines start with the respaced heading and hold no other heading. */
  ghost predicate Headed(lines: seq<string>, title: string) {
    lines != [] && lines[0] == HEADING + title && forall j :: 1 <= j < |lines| ==> !IsHeading(lines[j])
  }

  predicate IsTitle(title: string) {
    title != "" && IsTight(title) && IsLine(title)
  }

  lemma HeadingReads(title: string)
    requires title != "" && IsTight(title)
    ensures IsHeading(HEADING + title) && TitleOf(HEADING + title) == title
  {
    var line := HEADING + title;
    assert line[|line| - 1] == title[|title| - 1] && line[0] == '#' && line[2] == ' ';
    TrimOfTight(line);
    assert line[3..] == title;
    TrimOfTight(title);
    assert line[..|HEADING|] == HEADING;
    assert SUBHEADING[2] == '#';
  }

  lemma HeadedIsSection(lines: seq<string>, title: string)
    requires Headed(lines, title) && title != "" && IsTight(title)
    ensures IsSection(lines) && Respaced(lines) == lines && TitleOf(lines[0]) == title
  {
    HeadingReads(title);
    assert lines == [lines[0]] + lines[1..];
  }

  lemma HeadingIgnoresSpace(line: string, c: char)
    requires IsSpace(c)
    ensures IsHeading(line + [c]) == IsHeading(line)
  {
    TrimIgnoresSpace(line, c);
  }

  lemma TrimIgnoresSpace(line: string, c: char)
    requires IsSpace(c)
    ensures Trim(line + [c]) == Trim(line)
  {
    var pre, post := TrimSplits(line);
    assert line + [c] == pre + Trim(line) + (post + [c]);
    TrimUnwraps(pre, Trim(line), post + [c]);
  }

  /** Dropping a space or an empty line at the end keeps the heading and adds no other. */
  lemma HeadedDropsSpace(x: string, c: char, title: string)
    requires IsSpace(c) && IsTitle(title) && Headed(Lines(x + [c]), title)
    ensures Headed(Lines(x), title)
  {
    LinesOfLonger(x, c);
    var ls := Lines(x);
    if c == '\n' {
      HeadedPrefix(ls, "", title);
    } else {
      var last := ls[|ls| - 1];
      HeadingIgnoresSpace(last, c);
      HeadedLast(ls[..|ls| - 1], last, c, title);
      assert ls == ls[..|ls| - 1] + [last];
    }
  }

  lemma HeadedPrefix(lines: seq<string>, last: string, title: string)
    requires lines != [] && Headed(lines + [last], title)
    ensures Headed(lines, title)
  {
    assert forall j :: 0 <= j < |lines| ==> (lines + [last])[j] == lines[j];
  }

  lemma HeadedLast(front: seq<string>, last: string, c: char, title: string)
    requires Headed(front + [last + [c]], title) && IsHeading(last + [c]) == IsHeading(last)
    requires IsSpace(c) && title != "" && IsTight(title)
    ensures Headed(front + [last], title)
  {
    var longer := front + [last + [c]];
    HeadingEndsFilled(title, last, c);
    assert longer[|front|] == last + [c];
    assert forall j :: 0 <= j < |front| ==> longer[j] == front[j] == (front + [last])[j];
  }

  lemma HeadingEndsFilled(title: string, last: string, c: char)
    requires IsSpace(c) && title != "" && IsTight(title)
    ensures HEADING + title != last + [c]
  {
    assert (HEADING + title)[|HEADING + title| - 1] == title[|title| - 1];
    assert (last + [c])[|last + [c]| - 1] == c;
  }

  lemma {:induction false} HeadedTrimRight(x: string, title: string)
    requires IsTitle(title) && Headed(Lines(x), title)
    ensures Headed(Lines(TrimRight(x)), title)
    decreases |x|
  {
    if x != "" && IsSpace(x[|x| - 1]) {
      var y := x[..|x| - 1];
      assert x == y + [x[|x| - 1]];
      HeadedDropsSpace(y, x[|x| - 1], title);
      HeadedTrimRight(y, title);
    }
  }

  /** A section's text is tight, starts with its heading, and renders to itself. */
  lemma RenderedReads(group: seq<string>)
    requires IsSection(group) && AllLines(group)
    ensures var r := Render(group);
            var ls := Lines(r.text);
            && IsTight(r.text) && r.text != "" && AllLines(ls) && IsSection(ls) && Render(ls) == r
  {
    var title := TitleOf(group[0]);
    var x := JoinLines(Respaced(group));
    var t := Trim(x);
    TitleIsFilled(group[0]);
    TitleIsLine(group[0]);
    RespacedIsHeaded(group);
    LinesOfJoin(Respaced(group));
    StartsWithHeading(x, title);
    assert t == TrimRight(x);
    HeadedTrimRight(x, title);
    TrimIdempotent(x);
    HeadedIsSection(Lines(t), title);
    JoinOfLines(t);
    LinesAreLines(t);
    StartsWithHeading(t, title);
  }

  lemma StartsWithHeading(x: string, title: string)
    requires Headed(Lines(x), title)
    ensures x != "" && x[0] == '#' && TrimLeft(x) == x
  {
    JoinOfLines(x);
    var ls := Lines(x);
    if |ls| > 1 {
      assert ls == [ls[0]] + ls[1..];
      JoinTwo(ls[0], ls[1..]);
    }
    assert x[0] == ls[0][0] == HEADING[0];
  }

  lemma RespacedIsHeaded(group: seq<string>)
    requires IsSection(group) && AllLines(group)
    ensures Headed(Respaced(group), TitleOf(group[0])) && AllLines(Respaced(group))
  {
    TitleIsLine(group[0]);
    var r := Respaced(group);
    assert forall j :: 1 <= j < |r| ==> r[j] == group[j];
  }

  lemma TitleIsLine(line: string)
    requires IsHeading(line) && IsLine(line)
    ensures IsLine(TitleOf(line))
  {
    TrimIsLine(line);
    var t := Trim(line);
    assert forall c :: c in t[3..] ==> c in t;
    TrimIsLine(t[3..]);
  }

  lemma TrimIsLine(line: string)
    requires IsLine(line)
    ensures IsLine(Trim(line))
  {
    var pre, post := TrimSplits(line);
    assert forall c :: c in Trim(line) ==> c in pre + Trim(line) + post;
  }

  // ---------------------------------------------------------------------------
  // Splitting the joined texts again.

  function Texts(sections: seq<Section>): seq<string> {
    seq(|sections|, i requires 0 <= i < |sections| => sections[i].text)
  }

  /** The texts of the sections, joined by line ends. */
  function Joined(sections: seq<Section>): string { JoinLines(Texts(sections)) }

  lemma {:induction false} JoinAtEnd(parts: seq<string>, last: string)
    requires parts != []
    ensures JoinLines(parts + [last]) == JoinLines(parts) + "\n" + last
  {
    if |parts| == 1 {
      JoinTwo(parts[0], [last]);
      assert parts + [last] == [parts[0]] + [last];
    } else {
      JoinAtEnd(parts[1..], last);
      assert parts + [last] == [parts[0]] + (parts[1..] + [last]);
      JoinTwo(parts[0], parts[1..] + [last]);
    }
  }

  function LinesOfEach(parts: seq<string>): (r: seq<seq<string>>)
    ensures |r| == |parts| && forall i :: 0 <= i < |parts| ==> r[i] == Lines(parts[i])
  {
    seq(|parts|, i requires 0 <= i < |parts| => Lines(parts[i]))
  }

  lemma {:induction false} LinesOfParts(parts: seq<string>)
    requires parts != []
    ensures Lines(JoinLines(parts)) == Flatten(LinesOfEach(parts))
  {
    var front, last := parts[..|parts| - 1], parts[|parts| - 1];
    assert LinesOfEach(parts) == LinesOfEach(front) + [Lines(last)];
    FlattenMore(LinesOfEach(front), Lines(last));
    if front == [] {
      assert LinesOfEach(front) == [];
    } else {
      LinesOfParts(front);
      JoinAtEnd(front, last);
      assert parts == front + [last];
      LinesOfTwo(JoinLines(front), last);
    }
  }

  ghost predicate AllOfLines(groups: seq<seq<string>>) {
    forall i :: 0 <= i < |groups| ==> AllLines(groups[i])
  }

  lemma NotALine(s: string)
    ensures s == "" ==> Groups(IsHeading, Lines(s)) == []
  {
    if s == "" {
      assert Lines(s) == [""];
      assert Lines(s)[..0] == [];
      assert !IsHeading("");
    }
  }

  /** The lines of the joined texts fall into the lines of each text. */
  lemma LinesOfJoined(groups: seq<seq<string>>)
    requires AllGroups(IsHeading, groups) && AllOfLines(groups)
    ensures var again := Groups(IsHeading, Lines(Joined(RenderAll(groups))));
            AllGroups(IsHeading, again) && RenderAll(again) == RenderAll(groups)
  {
    var texts := Texts(RenderAll(groups));
    if groups == [] {
      NotALine(JoinLines(texts));
    } else {
      forall i | 0 <= i < |groups|
        ensures IsSection(LinesOfEach(texts)[i]) && Render(LinesOfEach(texts)[i]) == Render(groups[i])
      {
        RenderedReads(groups[i]);
      }
      LinesOfParts(texts);
      GroupsOfFlatten(IsHeading, LinesOfEach(texts));
    }
  }

  lemma {:induction false} GroupsAreLines(lines: seq<string>)
    requires AllLines(lines)
    ensures AllOfLines(Groups(IsHeading, lines))
  {
    if lines != [] {
      GroupsAreLines(lines[..|lines| - 1]);
    }
  }

  // ---------------------------------------------------------------------------
  // Sizes.

  function Size(lines: seq<string>): nat {
    if lines == [] then 0 else Size(lines[..|lines| - 1]) + |lines[|lines| - 1]| + 1
  }

  lemma SizeOfMore(lines: seq<string>, line: string)
    ensures Size(lines + [line]) == Size(lines) + |line| + 1
  {
    assert (lines + [line])[..|lines|] == lines;
  }

  lemma {:induction false} SizeOfConcat(a: seq<string>, b: seq<string>)
    ensures Size(a + b) == Size(a) + Size(b)
  {
    if b == [] {
      assert a + b == a;
    } else {
      SizeOfConcat(a, b[..|b| - 1]);
      assert a + b == (a + b[..|b| - 1]) + [b[|b| - 1]];
      SizeOfMore(a + b[..|b| - 1], b[|b| - 1]);
    }
  }

  lemma {:induction false} JoinSize(lines: seq<string>)
    requires lines != []
    ensures |JoinLines(lines)| + 1 == Size(lines)
  {
    var front, last := lines[..|lines| - 1], lines[|lines| - 1];
    assert lines == front + [last];
    if front == [] {
      assert Size([]) == 0;
    } else {
      JoinSize(front);
      JoinAtEnd(front, last);
    }
  }

  lemma TrimShrinks(s: string)
    ensures |Trim(s)| <= |s|
  {
    var _, _ := TrimSplits(s);
  }

  /** Rendering never makes a group longer. */
  lemma RenderShrinks(group: seq<string>)
    requires IsSection(group)
    ensures |Render(group).text| + 1 <= Size(group)
  {
    var head := HEADING + TitleOf(group[0]);
    TrimShrinks(group[0]);
    TrimShrinks(Trim(group[0])[3..]);
    TrimShrinks(JoinLines(Respaced(group)));
    JoinSize(Respaced(group));
    assert group == [group[0]] + group[1..];
    SizeOfConcat([group[0]], group[1..]);
    SizeOfConcat([head], group[1..]);
    SizeOfOne(group[0]);
    SizeOfOne(head);
  }

  lemma SizeOfOne(line: string)
    ensures Size([line]) == |line| + 1
  {
    assert [line][..0] == [];
  }

  lemma TextsOfMore(front: seq<seq<string>>, last: seq<string>)
    requires AllGroups(IsHeading, front) && IsSection(last)
    ensures AllGroups(IsHeading, front + [last])
    ensures Size(Texts(RenderAll(front + [last]))) == Size(Texts(RenderAll(front))) + |Render(last).text| + 1
  {
    assert Texts(RenderAll(front + [last])) == Texts(RenderAll(front)) + [Render(last).text];
    SizeOfMore(Texts(RenderAll(front)), Render(last).text);
  }

  lemma FlattenSize(front: seq<seq<string>>, last: seq<string>)
    ensures Size(Flatten(front + [last])) == Size(Flatten(front)) + Size(last)
  {
    FlattenMore(front, last);
    SizeOfConcat(Flatten(front), last);
  }

  lemma {:induction false} TextsShrink(groups: seq<seq<string>>)
    requires AllGroups(IsHeading, groups)
    ensures Size(Texts(RenderAll(groups))) <= Size(Flatten(groups))
  {
    if groups != [] {
      var front, last := groups[..|groups| - 1], groups[|groups| - 1];
      assert groups == front + [last];
      TextsShrink(front);
      RenderShrinks(last);
      TextsOfMore(front, last);
      FlattenSize(front, last);
    }
  }

  /** The joined texts are never longer than the normalized text they come from. */
  lemma JoinedShrinks(markdown: string)
    ensures |Joined(Sections(markdown))| <= |Normalize(markdown)|
  {
    var lines, groups := Lines(Normalize(markdown)), SectionLines(markdown);
    var texts := Texts(RenderAll(groups));
    if groups != [] {
      TextsShrink(groups);
      GroupsCover(IsHeading, lines);
      var k := FirstOpening(IsHeading, lines);
      assert lines == lines[..k] + lines[k..];
      SizeOfConcat(lines[..k], lines[k..]);
      JoinSize(texts);
      JoinSize(lines);
      JoinOfLines(Normalize(markdown));
    }
  }

  // ---------------------------------------------------------------------------
  // The laws.

  /** Splitting the joined section texts gives the same sections exactly when they hold no carriage return
      with a line end behind it. */
  lemma ResplitIffNoCrLf(markdown: string)
    ensures var sections := Sections(markdown);
            Sections(Joined(sections)) == sections <==> !HasCrLf(Joined(sections))
  {
    var sections := Sections(markdown);
    var again := Joined(sections);
    NormalizeShortens(again);
    if HasCrLf(again) {
      JoinedShrinks(again);
    } else {
      LinesAreLines(Normalize(markdown));
      GroupsAreLines(Lines(Normalize(markdown)));
      LinesOfJoined(SectionLines(markdown));
    }
  }

  lemma TrimKeepsCrLf(s: string)
    requires HasCrLf(Trim(s))
    ensures HasCrLf(s)
  {
    var pre, post := TrimSplits(s);
    var i :| 0 <= i < |Trim(s)| && CrLfAt(Trim(s), i);
    assert CrLfAt(s, |pre| + i);
  }

  /** A section cut from lines that keep their ends has no carriage return with a line end behind it. */
  lemma RenderedHasNoCrLf(group: seq<string>)
    requires IsSection(group) && AllLines(group) && Inner(KeepsEnd, group)
    ensures !HasCrLf(Render(group).text)
  {
    var r := Respaced(group);
    RespacedIsHeaded(group);
    TitleIsFilled(group[0]);
    var title := TitleOf(group[0]);
    assert (HEADING + title)[|HEADING + title| - 1] == title[|title| - 1];
    assert forall j :: 1 <= j < |r| ==> r[j] == group[j];
    CrLfOfLines(r);
    if HasCrLf(Render(group).text) {
      TrimKeepsCrLf(JoinLines(r));
    }
  }

  lemma {:induction false} TightPartsHaveNoCrLf(parts: seq<string>)
    requires forall i :: 0 <= i < |parts| ==> IsTight(parts[i]) && !HasCrLf(parts[i])
    ensures !HasCrLf(JoinLines(parts))
  {
    if |parts| > 1 {
      TightPartsHaveNoCrLf(parts[1..]);
      CrLfComesFrom(parts[0], JoinLines(parts[1..]));
    }
  }

  lemma CrLfComesFrom(a: string, b: string)
    ensures HasCrLf(a + "\n" + b) ==> HasCrLf(a) || !KeepsEnd(a) || HasCrLf(b)
  {
    var s := a + "\n" + b;
    if HasCrLf(s) {
      var i :| 0 <= i < |s| && CrLfAt(s, i);
      assert i + 1 < |a| ==> CrLfAt(a, i);
      assert i > |a| ==> CrLfAt(b, i - |a| - 1);
    }
  }

  /** A text without two carriage returns before a line feed, in particular one without carriage returns,
      can be split, joined and split again. */
  lemma Resplit(markdown: string)
    requires !HasCrCrLf(markdown)
    ensures Sections(Joined(Sections(markdown))) == Sections(markdown)
  {
    var lines, groups := Lines(Normalize(markdown)), SectionLines(markdown);
    CrLfSurvives(markdown);
    JoinOfLines(Normalize(markdown));
    LinesAreLines(Normalize(markdown));
    CrLfOfLines(lines);
    GroupsInner(IsHeading, lines, KeepsEnd);
    GroupsAreLines(lines);
    var texts := Texts(RenderAll(groups));
    forall i | 0 <= i < |texts|
      ensures IsTight(texts[i]) && !HasCrLf(texts[i])
    {
      TrimIdempotent(JoinLines(Respaced(groups[i])));
      RenderedHasNoCrLf(groups[i]);
    }
    TightPartsHaveNoCrLf(texts);
    ResplitIffNoCrLf(markdown);
  }

  /** One section per heading line, each line of a section and nothing else, in order. */
  lemma SectionsPartition(markdown: string)
    ensures var lines := Lines(Normalize(markdown));
            && |Sections(markdown)| == |SectionLines(markdown)|
            && Flatten(SectionLines(markdown)) == lines[FirstOpening(IsHeading, lines)..]
            && forall groups :: AllGroups(IsHeading, groups) && Flatten(groups) == Flatten(SectionLines(markdown)) ==>
                 groups == SectionLines(markdown)
  {
    GroupsCover(IsHeading, Lines(Normalize(markdown)));
    forall groups | AllGroups(IsHeading, groups) && Flatten(groups) == Flatten(SectionLines(markdown))
      ensures groups == SectionLines(markdown)
    {
      GroupsOfFlatten(IsHeading, groups);
      GroupsOfFlatten(IsHeading, SectionLines(markdown));
    }
  }

  lemma NoHashNoHeading(line: string)
    requires '#' !in line
    ensures !IsHeading(line)
  {
    var pre, post := TrimSplits(line);
    var t := Trim(line);
    assert forall c :: c in t ==> c in pre + t + post;
    assert t != "" ==> t[0] in t;
    assert HEADING[0] == '#';
  }

  /** A line's end is replaced together with one carriage return before it. */
  lemma {:induction false} NormalizeOfTwo(a: string, b: string)
    requires IsLine(a)
    ensures Normalize(a + "\n" + b) == (if KeepsEnd(a) then a else a[..|a| - 1]) + "\n" + Normalize(b)
  {
    var s := a + "\n" + b;
    if a == "" {
      assert s[1..] == b;
    } else if a == "\r" {
      assert s[2..] == b;
    } else {
      assert s[0] == a[0] && s[1..] == a[1..] + "\n" + b;
      assert !CrLfAt(s, 0);
      NormalizeOfTwo(a[1..], b);
      assert a == [a[0]] + a[1..];
    }
  }

  lemma NormalizeDropsOne(first: string, x: string, y: string)
    requires IsLine(first) && KeepsEnd(first) && IsLine(x) && IsLine(y)
    ensures Normalize(JoinLines([first, x + "\r\r", y])) == JoinLines([first, x + "\r", y])
  {
    JoinThree(first, x + "\r\r", y);
    JoinThree(first, x + "\r", y);
    NormalizeOfTwo(first, x + "\r\r" + "\n" + y);
    NormalizeOfTwo(x + "\r\r", y);
    NormalizeShortens(y);
    LineHasNoCrLf(y);
    assert (x + "\r\r")[..|x + "\r\r"| - 1] == x + "\r";
  }

  /** A section whose lines are already spaced and whose last line is tight is its lines joined. */
  lemma OneSection(markdown: string, title: string, x: string, y: string)
    requires IsTitle(title) && IsLine(x) && IsLine(y) && y != "" && IsTight(y) && !IsHeading(x) && !IsHeading(y)
    requires Normalize(markdown) == JoinLines([HEADING + title, x, y])
    ensures Texts(Sections(markdown)) == [JoinLines([HEADING + title, x, y])]
  {
    var group := [HEADING + title, x, y];
    var text := JoinLines(group);
    HeadedIsSection(group, title);
    LinesOfJoin(group);
    OneGroup(group);
    JoinThree(HEADING + title, x, y);
    assert text[0] == HEADING[0] == '#' && text[|text| - 1] == y[|y| - 1];
    TrimOfTight(text);
    TextOfOne(markdown, group);
  }

  lemma TextOfOne(markdown: string, group: seq<string>)
    requires IsSection(group) && SectionLines(markdown) == [group]
    ensures Texts(Sections(markdown)) == [Trim(JoinLines(Respaced(group)))]
  {
    assert Sections(markdown) == [Render(group)];
  }

  /** A text whose sections change when they are joined and split again: one heading, a line ending in
      two carriage returns and a line feed, and a last line. */
  lemma ResplitCanFail(title: string, x: string, y: string)
    requires IsTitle(title) && IsLine(x) && '#' !in x && IsLine(y) && '#' !in y && y != "" && IsTight(y)
    ensures var markdown := JoinLines([HEADING + title, x + "\r\r", y]);
            HasCrCrLf(markdown) && Sections(Joined(Sections(markdown))) != Sections(markdown)
  {
    var group := [HEADING + title, x + "\r", y];
    var markdown := JoinLines([HEADING + title, x + "\r\r", y]);
    HeadingEndsFilled(title, (HEADING + title)[..|HEADING + title| - 1], '\r');
    NoHashNoHeading(x + "\r");
    NoHashNoHeading(y);
    NormalizeDropsOne(HEADING + title, x, y);
    OneSection(markdown, title, x + "\r", y);
    CrLfOfLines(group);
    assert !KeepsEnd(group[1]);
    CrLfSurvives(markdown);
    assert JoinLines([JoinLines(group)]) == JoinLines(group);
    ResplitIffNoCrLf(markdown);
  }

  lemma JoinThree(a: string, b: string, c: string)
    ensures JoinLines([a, b, c]) == a + "\n" + (b + "\n" + c)
  {
    JoinTwo(a, [b, c]);
    JoinTwo(b, [c]);
    assert [a, b, c] == [a] + [b, c] && [b, c] == [b] + [c];
  }

  lemma LineHasNoCrLf(line: string)
    requires IsLine(line)
    ensures !HasCrLf(line)
  {
    assert forall i :: CrLfAt(line, i) ==> line[i + 1] in line;
  }

  lemma OneGroup(group: seq<string>)
    requires IsSection(group)
    ensures Groups(IsHeading, group) == [group]
  {
    GroupsWithGroup(IsHeading, [], group);
    assert [] + group == group;
  }
}
