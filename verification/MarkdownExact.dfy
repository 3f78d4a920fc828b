/** Exactly which documents can be split, joined and split again, in terms of their own lines. */
module MarkdownExact {
  import opened MarkdownLaws
  import opened MarkdownSections
  import opened Text

  // ---------------------------------------------------------------------------
  // Line ends that trimming does not reach.

  /** A carriage return and line feed with something to show behind them. */
  predicate InnerCrLfAt(s: string, i: nat) {
    CrLfAt(s, i) && !AllSpace(s[i + 2..])
  }

  ghost predicate HasInnerCrLf(s: string) {
    exists i :: 0 <= i < |s| && InnerCrLfAt(s, i)
  }

  lemma TightHasInner(t: string, i: nat)
    requires IsTight(t) && CrLfAt(t, i)
    ensures InnerCrLfAt(t, i)
  {
    assert t[|t| - 1] != '\n';
    assert t[i + 2..][|t| - 1 - (i + 2)] == t[|t| - 1];
  }

  lemma InnerBehindSpace(t: string, post: string, i: nat)
    requires IsTight(t) && AllSpace(post) && i < |t + post|
    ensures InnerCrLfAt(t + post, i) <==> CrLfAt(t, i)
  {
    var s := t + post;
    if CrLfAt(t, i) {
      TightHasInner(t, i);
      var m :| 0 <= m < |t[i + 2..]| && !IsSpace(t[i + 2..][m]);
      assert s[i + 2..][m] == t[i + 2 + m];
    }
    if InnerCrLfAt(s, i) {
      var m :| 0 <= m < |s[i + 2..]| && !IsSpace(s[i + 2..][m]);
      assert s[i + 2 + m] == s[i + 2..][m];
      assert i + 2 + m >= |t| ==> s[i + 2 + m] == post[i + 2 + m - |t|];
    }
  }

  /** Trimming a text that starts tight leaves exactly its inner line ends. */
  lemma TrimmedHasInner(s: string)
    requires TrimLeft(s) == s
    ensures HasCrLf(Trim(s)) <==> HasInnerCrLf(s)
  {
    var post := TrimRightSplits(s);
    var t := Trim(s);
    TrimIdempotent(s);
    forall i: nat | i < |t + post|
      ensures InnerCrLfAt(t + post, i) <==> CrLfAt(t, i)
    {
      InnerBehindSpace(t, post, i);
    }
    if HasInnerCrLf(s) {
      var i :| 0 <= i < |s| && InnerCrLfAt(s, i);
      assert CrLfAt(t, i);
    }
  }

  // ---------------------------------------------------------------------------
  // In terms of lines.

  /** A line that ends in a carriage return, with a line that shows something behind it. */
  ghost predicate ReturnBefore(lines: seq<string>) {
    exists j, k :: 0 <= j < k < |lines| && !KeepsEnd(lines[j]) && !IsBlank(lines[k])
  }

  lemma SpaceOfTwo(a: string, b: string)
    ensures AllSpace(a + "\n" + b) <==> AllSpace(a) && AllSpace(b)
  {
    var s := a + "\n" + b;
    assert forall i :: 0 <= i < |a| ==> s[i] == a[i];
    assert forall i :: 0 <= i < |b| ==> s[|a| + 1 + i] == b[i];
    assert forall i :: |a| < i < |s| ==> s[i] == b[i - |a| - 1];
  }

  lemma {:induction false} SpaceOfLines(lines: seq<string>)
    requires lines != []
    ensures AllSpace(JoinLines(lines)) <==> forall k :: 0 <= k < |lines| ==> IsBlank(lines[k])
  {
    BlankIffAllSpace(lines[0]);
    if |lines| > 1 {
      SpaceOfLines(lines[1..]);
      SpaceOfTwo(lines[0], JoinLines(lines[1..]));
      assert forall k :: 0 < k < |lines| ==> lines[k] == lines[1..][k - 1];
    }
  }

  lemma InnerBehind(a: string, b: string, i: nat)
    ensures InnerCrLfAt(a + "\n" + b, |a| + 1 + i) <==> InnerCrLfAt(b, i)
  {
    var s := a + "\n" + b;
    assert s[|a| + 1..] == b;
    if i + 2 <= |b| {
      assert s[|a| + 1 + i + 2..] == b[i + 2..];
      assert s[|a| + 1 + i] == b[i] && s[|a| + 1 + i + 1] == b[i + 1];
    }
  }

  lemma InnerAtSeam(a: string, b: string, i: nat)
    requires IsLine(a) && i <= |a|
    ensures InnerCrLfAt(a + "\n" + b, i) <==> i == |a| - 1 && !KeepsEnd(a) && !AllSpace(b)
  {
    var s := a + "\n" + b;
    assert s[|a| + 1..] == b;
    assert i < |a| ==> s[i] == a[i];
    assert i + 1 < |a| ==> s[i + 1] == a[i + 1] && a[i + 1] != '\n';
  }

  lemma InnerOfTwo(a: string, b: string)
    requires IsLine(a)
    ensures HasInnerCrLf(a + "\n" + b) <==> (!KeepsEnd(a) && !AllSpace(b)) || HasInnerCrLf(b)
  {
    var s := a + "\n" + b;
    if HasInnerCrLf(s) {
      var i :| 0 <= i < |s| && InnerCrLfAt(s, i);
      if i > |a| {
        InnerBehind(a, b, i - |a| - 1);
      } else {
        InnerAtSeam(a, b, i);
      }
    }
    if !KeepsEnd(a) && !AllSpace(b) {
      InnerAtSeam(a, b, |a| - 1);
    }
    if HasInnerCrLf(b) {
      var i :| 0 <= i < |b| && InnerCrLfAt(b, i);
      InnerBehind(a, b, i);
    }
  }

  lemma ReturnBeforeSplits(lines: seq<string>)
    requires lines != []
    ensures ReturnBefore(lines) <==>
              (!KeepsEnd(lines[0]) && exists k :: 0 < k < |lines| && !IsBlank(lines[k])) || ReturnBefore(lines[1..])
  {
    var rest := lines[1..];
    assert forall k :: 0 < k < |lines| ==> lines[k] == rest[k - 1];
    if ReturnBefore(rest) {
      var j, k :| 0 <= j < k < |rest| && !KeepsEnd(rest[j]) && !IsBlank(rest[k]);
      assert !KeepsEnd(lines[j + 1]) && !IsBlank(lines[k + 1]);
    }
    if ReturnBefore(lines) {
      var j, k :| 0 <= j < k < |lines| && !KeepsEnd(lines[j]) && !IsBlank(lines[k]);
      if j > 0 {
        assert !KeepsEnd(rest[j - 1]) && !IsBlank(rest[k - 1]);
      }
    }
  }

  lemma LineHasNoInner(line: string)
    requires IsLine(line)
    ensures !HasInnerCrLf(line)
  {
    LineHasNoCrLf(line);
  }

  lemma {:induction false} InnerOfLines(lines: seq<string>)
    requires lines != [] && AllLines(lines)
    ensures HasInnerCrLf(JoinLines(lines)) <==> ReturnBefore(lines)
  {
    if |lines| == 1 {
      LineHasNoInner(lines[0]);
    } else {
      var rest := lines[1..];
      InnerOfLines(rest);
      InnerOfTwo(lines[0], JoinLines(rest));
      SpaceOfLines(rest);
      ReturnBeforeSplits(lines);
      assert forall k :: 0 < k < |lines| ==> lines[k] == rest[k - 1];
    }
  }

  // ---------------------------------------------------------------------------
  // In terms of the document.

  /** Below the heading, a line that ends in a carriage return stands before a line that shows something. */
  ghost predicate LosesReturn(group: seq<string>) {
    group != [] && ReturnBefore(group[1..])
  }

  lemma RenderedHasCrLfIff(group: seq<string>)
    requires IsSection(group) && AllLines(group)
    ensures HasCrLf(Render(group).text) <==> LosesReturn(group)
  {
    var r, title := Respaced(group), TitleOf(group[0]);
    RespacedIsHeaded(group);
    TitleIsFilled(group[0]);
    LinesOfJoin(r);
    StartsWithHeading(JoinLines(r), title);
    TrimmedHasInner(JoinLines(r));
    InnerOfLines(r);
    RespacedLoses(group);
  }

  lemma RespacedLoses(group: seq<string>)
    requires IsSection(group)
    ensures ReturnBefore(Respaced(group)) <==> LosesReturn(group)
  {
    var r, title := Respaced(group), TitleOf(group[0]);
    TitleIsFilled(group[0]);
    ReturnBeforeSplits(r);
    assert (HEADING + title)[|HEADING + title| - 1] == title[|title| - 1];
    assert r[1..] == group[1..];
  }

  lemma PartHasCrLf(a: string, b: string)
    ensures HasCrLf(a) || HasCrLf(b) ==> HasCrLf(a + "\n" + b)
  {
    var s := a + "\n" + b;
    if HasCrLf(a) {
      var i :| 0 <= i < |a| && CrLfAt(a, i);
      assert CrLfAt(s, i);
    }
    if HasCrLf(b) {
      var i :| 0 <= i < |b| && CrLfAt(b, i);
      assert CrLfAt(s, |a| + 1 + i);
    }
  }

  lemma {:induction false} JoinedHasCrLf(parts: seq<string>, k: nat)
    requires k < |parts| && HasCrLf(parts[k])
    ensures HasCrLf(JoinLines(parts))
  {
    if |parts| > 1 {
      if k > 0 {
        JoinedHasCrLf(parts[1..], k - 1);
      }
      PartHasCrLf(parts[0], JoinLines(parts[1..]));
    }
  }

  /** The exact condition on the document: splitting, joining and splitting again gives the same sections
      exactly when no section has a line that still ends in a carriage return before a line that shows
      something. */
  lemma ResplitIff(markdown: string)
    ensures Sections(Joined(Sections(markdown))) == Sections(markdown) <==>
              forall i :: 0 <= i < |SectionLines(markdown)| ==> !LosesReturn(SectionLines(markdown)[i])
  {
    var groups := SectionLines(markdown);
    var texts := Texts(Sections(markdown));
    LinesAreLines(Normalize(markdown));
    GroupsAreLines(Lines(Normalize(markdown)));
    forall i | 0 <= i < |groups|
      ensures HasCrLf(texts[i]) <==> LosesReturn(groups[i])
      ensures IsTight(texts[i])
    {
      RenderedHasCrLfIff(groups[i]);
      TrimIdempotent(JoinLines(Respaced(groups[i])));
    }
    if i :| 0 <= i < |groups| && LosesReturn(groups[i]) {
      JoinedHasCrLf(texts, i);
    } else {
      TightPartsHaveNoCrLf(texts);
    }
    ResplitIffNoCrLf(markdown);
  }

  // ---------------------------------------------------------------------------
  // The lines of the document.

  /** Every line but the last loses one carriage return at its end. */
  function DropReturns(lines: seq<string>): seq<string> {
    seq(|lines|, i requires 0 <= i < |lines| =>
      if i < |lines| - 1 && !KeepsEnd(lines[i]) then lines[i][..|lines[i]| - 1] else lines[i])
  }

  lemma {:induction false} NormalizeOfLines(lines: seq<string>)
    requires lines != [] && AllLines(lines)
    ensures Normalize(JoinLines(lines)) == JoinLines(DropReturns(lines)) && AllLines(DropReturns(lines))
  {
    if |lines| == 1 {
      LineHasNoCrLf(lines[0]);
      NormalizeShortens(lines[0]);
      assert DropReturns(lines) == lines;
    } else {
      var first, rest := lines[0], lines[1..];
      NormalizeOfLines(rest);
      NormalizeOfTwo(first, JoinLines(rest));
      assert DropReturns(lines)[1..] == DropReturns(rest);
      assert DropReturns(lines) == [DropReturns(lines)[0]] + DropReturns(rest);
      JoinTwo(DropReturns(lines)[0], DropReturns(rest));
    }
  }

  /** So a line of a section ends in a carriage return, when another follows, exactly if the document has
      two of them before its line feed. */
  lemma NormalizedLines(markdown: string)
    ensures Lines(Normalize(markdown)) == DropReturns(Lines(markdown))
  {
    var lines := Lines(markdown);
    JoinOfLines(markdown);
    LinesAreLines(markdown);
    NormalizeOfLines(lines);
    LinesOfJoin(DropReturns(lines));
  }
}
