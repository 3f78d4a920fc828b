/** What counts as a heading and what a section's text is, character by character. */
module MarkdownText {
  import opened MarkdownLaws
  import opened MarkdownSections
  import opened Text

  /** Two hashes and a space open the line, white space aside, and the title is what else it shows. */
  ghost predicate Titled(line: string, title: string) {
    title != "" && IsTight(title)
    && exists pre, gap, post :: Around(line, title, pre, gap, post)
  }

  ghost predicate Around(line: string, title: string, pre: string, gap: string, post: string) {
    AllSpace(pre) && AllSpace(gap) && AllSpace(post) && line == pre + ("## " + gap + title) + post
  }

  lemma TitledReads(line: string, title: string)
    requires Titled(line, title)
    ensures IsHeading(line) && TitleOf(line) == title
  {
    var pre, gap, post :| Around(line, title, pre, gap, post);
    var t := "## " + gap + title;
    assert t[|t| - 1] == title[|title| - 1];
    TrimUnwraps(pre, t, post);
    assert t[..3] == HEADING && t[2] != SUBHEADING[2];
    assert t[3..] == gap + title + [];
    TrimUnwraps(gap, title, []);
  }

  lemma HeadingIsTitled(line: string)
    requires IsHeading(line)
    ensures Titled(line, TitleOf(line))
  {
    var t := Trim(line);
    var pre, post := TrimSplits(line);
    var gap, rest := TrimSplits(t[3..]);
    TitleIsFilled(line);
    var title := TitleOf(line);
    assert t == HEADING + t[3..];
    assert line == pre + ("## " + gap + title) + (rest + post);
    assert Around(line, title, pre, gap, rest + post);
  }

  /** A line is a heading exactly when it can be read that way, and its title is the only reading. */
  lemma HeadingMeans(line: string, title: string)
    ensures IsHeading(line) <==> exists other :: Titled(line, other)
    ensures Titled(line, title) <==> IsHeading(line) && TitleOf(line) == title
  {
    if IsHeading(line) {
      HeadingIsTitled(line);
    }
    if other :| Titled(line, other) {
      TitledReads(line, other);
    }
    if Titled(line, title) {
      TitledReads(line, title);
    }
  }

  /** A section has the title of its heading, and its text is the heading, respaced, with the lines below it,
      less the white space at the end. */
  lemma SectionReads(markdown: string, i: nat) returns (post: string)
    requires i < |Sections(markdown)|
    ensures var s, lines := Sections(markdown)[i], SectionLines(markdown)[i];
            && lines != [] && Titled(lines[0], s.title) && IsTight(s.text) && AllSpace(post)
            && s.text + post == JoinLines(["## " + s.title] + lines[1..])
  {
    var lines := SectionLines(markdown)[i];
    LinesAreLines(Normalize(markdown));
    GroupsAreLines(Lines(Normalize(markdown)));
    HeadingIsTitled(lines[0]);
    RespacedIsHeaded(lines);
    var x := JoinLines(Respaced(lines));
    LinesOfJoin(Respaced(lines));
    StartsWithHeading(x, TitleOf(lines[0]));
    post := TrimRightSplits(x);
    TrimIdempotent(x);
  }
}
