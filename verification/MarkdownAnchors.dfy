/** Heading anchors: the loop of `analysisDashboardMarkdownAnchor` and the regular expressions of the
    browser's `markdownAnchor`, which must produce the same links. */
module MarkdownAnchors {
  import opened Text

  predicate IsSlug(c: char) { 'a' <= c <= 'z' || '0' <= c <= '9' }

  /** `s` without the run of other characters at its start. */
  function DropRun(s: string): (r: string)
    ensures |r| <= |s|
  {
    if s != "" && !IsSlug(s[0]) then DropRun(s[1..]) else s
  }

  /** `s.replace(/[^a-z0-9]+/g, '-')`. */
  function Collapse(s: string): string
    decreases |s|
  {
    if s == "" then ""
    else if IsSlug(s[0]) then [s[0]] + Collapse(s[1..])
    else "-" + Collapse(DropRun(s[1..]))
  }

  function StripLeft(s: string): string {
    if s != "" && s[0] == '-' then StripLeft(s[1..]) else s
  }

  function StripRight(s: string): string {
    if s != "" && s[|s| - 1] == '-' then StripRight(s[..|s| - 1]) else s
  }

  /** `strings.Trim(s, "-")`, and `s.replace(/^-+|-+$/g, '')`. */
  function Strip(s: string): string { StripRight(StripLeft(s)) }

  function Anchor(s: string): string { Strip(Collapse(s)) }

  /** The browser's white space and lower-casing, which are not quite those of Go. */
  datatype Browser = Browser(isSpace: char -> bool, toLowerCase: string -> string) {

    function TrimStart(s: string): string {
      if s != "" && isSpace(s[0]) then TrimStart(s[1..]) else s
    }

    function TrimEnd(s: string): string {
      if s != "" && isSpace(s[|s| - 1]) then TrimEnd(s[..|s| - 1]) else s
    }

    /** `markdownAnchor`. */
    function MarkdownAnchor(value: string): string {
      Anchor(TrimEnd(TrimStart(toLowerCase(value))))
    }
  }

  // ---------------------------------------------------------------------------
  // The loop.

  predicate EndsInDash(s: string) { s != "" && s[|s| - 1] == '-' }

  /** What the builder holds: the collapsed text without the dash at its start. */
  function Built(s: string): string {
    var t := Collapse(s);
    if t != "" && t[0] == '-' then t[1..] else t
  }

  method AnalysisDashboardMarkdownAnchor(lower: char -> char, title: string) returns (r: string)
    ensures r == Anchor(Lower(lower, Trim(title)))
  {
    var lowered := Lower(lower, Trim(title));
    var b := "";
    var lastDash := false;
    for i := 0 to |lowered|
      invariant b == Built(lowered[..i]) && lastDash == EndsInDash(b)
    {
      var c := lowered[i];
      assert lowered[..i + 1] == lowered[..i] + [c];
      BuiltOfMore(lowered[..i], c);
      if IsSlug(c) {
        b := b + [c];
        lastDash := false;
      } else if !lastDash && |b| > 0 {
        b := b + "-";
        lastDash := true;
      }
    }
    assert lowered[..|lowered|] == lowered;
    return Strip(b);
  }

  lemma CollapseOfCons(c: char, s: string)
    ensures IsSlug(c) ==> Collapse([c] + s) == [c] + Collapse(s)
    ensures !IsSlug(c) ==> Collapse([c] + s) == "-" + Collapse(DropRun(s))
  {
    assert ([c] + s)[1..] == s;
  }

  /** One character more at the end. */
  lemma {:induction false} CollapseOfMore(s: string, c: char)
    ensures IsSlug(c) ==> Collapse(s + [c]) == Collapse(s) + [c]
    ensures !IsSlug(c) ==> Collapse(s + [c]) == if EndsInDash(Collapse(s)) then Collapse(s) else Collapse(s) + "-"
    ensures s != "" ==> Collapse(s) != ""
    decreases |s|
  {
    if s == "" {
      assert s + [c] == [c] + s;
      CollapseOfCons(c, s);
    } else {
      var first, tail := s[0], s[1..];
      var rest := if IsSlug(first) then tail else DropRun(tail);
      assert s == [first] + tail && s + [c] == [first] + (tail + [c]);
      CollapseOfCons(first, tail);
      CollapseOfCons(first, tail + [c]);
      CollapseOfMore(rest, c);
      if IsSlug(first) {
        AddsToEnd([first], Collapse(rest), c);
      } else {
        DropRunOfMore(tail, c);
        AddsToEnd("-", Collapse(rest), c);
      }
    }
  }

  lemma AddsToEnd(head: string, rest: string, c: char)
    ensures head + (rest + [c]) == (head + rest) + [c] && head + (rest + "-") == (head + rest) + "-"
    ensures rest != "" ==> EndsInDash(head + rest) == EndsInDash(rest)
  {}

  lemma {:induction false} DropRunOfMore(s: string, c: char)
    ensures DropRun(s + [c]) == if DropRun(s) == "" && !IsSlug(c) then "" else DropRun(s) + [c]
    ensures DropRun(s) == "" || IsSlug(DropRun(s)[0])
  {
    if s == "" {
      assert s + [c] == [c] && [c][1..] == "";
    } else if !IsSlug(s[0]) {
      assert (s + [c])[1..] == s[1..] + [c];
      DropRunOfMore(s[1..], c);
    }
  }

  lemma BuiltOfMore(s: string, c: char)
    ensures Built(s + [c]) ==
              if IsSlug(c) then Built(s) + [c]
              else if !EndsInDash(Built(s)) && |Built(s)| > 0 then Built(s) + "-"
              else Built(s)
  {
    CollapseOfMore(s, c);
  }

  // ---------------------------------------------------------------------------
  // What an anchor looks like.

  /** Letters, digits and single dashes, none at an end. */
  ghost predicate IsAnchor(s: string) {
    && (forall i :: 0 <= i < |s| ==> 'a' <= s[i] <= 'z' || '0' <= s[i] <= '9' || s[i] == '-')
    && (forall i :: 0 <= i < |s| - 1 && s[i] == '-' ==> s[i + 1] != '-')
    && (s != "" ==> s[0] != '-' && s[|s| - 1] != '-')
  }

  /** Slug characters and single dashes, ends included. */
  ghost predicate IsCollapsed(s: string) {
    && (forall i :: 0 <= i < |s| ==> IsSlug(s[i]) || s[i] == '-')
    && (forall i :: 0 <= i < |s| - 1 && s[i] == '-' ==> s[i + 1] != '-')
  }

  lemma {:induction false} CollapseIsCollapsed(s: string)
    ensures IsCollapsed(Collapse(s))
    ensures s != "" && IsSlug(s[0]) ==> Collapse(s)[0] == s[0]
    decreases |s|
  {
    if s != "" {
      if IsSlug(s[0]) {
        CollapseIsCollapsed(s[1..]);
      } else {
        CollapseIsCollapsed(DropRun(s[1..]));
        DropRunOfMore(s[1..], 'a');
      }
    }
  }

  lemma {:induction false} StripLeftOfCollapsed(s: string)
    requires IsCollapsed(s)
    ensures IsCollapsed(StripLeft(s)) && (StripLeft(s) != "" ==> StripLeft(s)[0] != '-')
  {
    if s != "" && s[0] == '-' {
      StripLeftOfCollapsed(s[1..]);
    }
  }

  lemma {:induction false} StripRightOfCollapsed(s: string)
    requires IsCollapsed(s) && (s != "" ==> s[0] != '-')
    ensures IsAnchor(StripRight(s))
  {
    if s != "" && s[|s| - 1] == '-' {
      StripRightOfCollapsed(s[..|s| - 1]);
    }
  }

  lemma StripOfCollapsed(s: string)
    requires IsCollapsed(s)
    ensures IsAnchor(Strip(s))
  {
    StripLeftOfCollapsed(s);
    StripRightOfCollapsed(StripLeft(s));
  }

  /** An anchor has no other characters than letters and digits and single dashes between them. */
  lemma AnchorIsAnchor(s: string)
    ensures IsAnchor(Anchor(s))
  {
    CollapseIsCollapsed(s);
    StripOfCollapsed(Collapse(s));
  }

  lemma {:induction false} CollapseOfCollapsed(s: string)
    requires IsCollapsed(s)
    ensures Collapse(s) == s
  {
    if s != "" {
      assert IsCollapsed(s[1..]);
      CollapseOfCollapsed(s[1..]);
      assert s == [s[0]] + s[1..];
      if s[0] == '-' {
        assert s[1..] == "" || IsSlug(s[1..][0]);
        assert DropRun(s[1..]) == s[1..];
      }
    }
  }

  lemma AnchorOfAnchor(s: string)
    requires IsAnchor(s)
    ensures Anchor(s) == s
  {
    CollapseOfCollapsed(s);
  }

  /** Anchors are fixed points: making an anchor of an anchor changes nothing, case mapping and trimming
      included. */
  lemma AnchorIsIdempotent(lower: char -> char, title: string)
    ensures var a := Anchor(Lower(lower, Trim(title))); Anchor(Lower(lower, Trim(a))) == a
  {
    var a := Anchor(Lower(lower, Trim(title)));
    AnchorIsAnchor(Lower(lower, Trim(title)));
    AnchorOfAnchor(a);
    TrimOfTight(a);
    assert Lower(lower, a) == a;
  }

  // ---------------------------------------------------------------------------
  // The two agree.

  ghost predicate NoSlug(s: string) {
    forall i :: 0 <= i < |s| ==> !IsSlug(s[i])
  }

  lemma {:induction false} AnchorDropsEnd(s: string, junk: string)
    requires NoSlug(junk)
    ensures Anchor(s + junk) == Anchor(s)
  {
    if junk == "" {
      assert s + junk == s;
    } else {
      var front, c := junk[..|junk| - 1], junk[|junk| - 1];
      AnchorDropsEnd(s, front);
      assert s + junk == (s + front) + [c];
      CollapseOfMore(s + front, c);
      StripDropsDash(Collapse(s + front));
    }
  }

  lemma {:induction false} StripDropsDash(s: string)
    ensures Strip(s + "-") == Strip(s)
  {
    if s == "" {
      assert s + "-" == "-" && "-"[1..] == "";
    } else if s[0] == '-' {
      assert (s + "-")[1..] == s[1..] + "-";
      StripDropsDash(s[1..]);
    } else {
      assert (s + "-")[..|s|] == s;
    }
  }

  lemma {:induction false} AnchorDropsStart(junk: string, s: string)
    requires NoSlug(junk)
    ensures Anchor(junk + s) == Anchor(s)
  {
    if junk == "" {
      assert junk + s == s;
    } else {
      var rest := junk[1..] + s;
      assert junk + s == [junk[0]] + rest;
      AnchorDropsStart(junk[1..], s);
      assert ([junk[0]] + rest)[1..] == rest;
      DropRunKeepsAnchor(rest);
    }
  }

  lemma DropRunKeepsAnchor(s: string)
    ensures Strip("-" + Collapse(DropRun(s))) == Anchor(s)
  {
    assert ("-" + Collapse(DropRun(s)))[1..] == Collapse(DropRun(s));
  }

  lemma {:induction false} TrimStartSplits(browser: Browser, s: string) returns (pre: string)
    ensures s == pre + browser.TrimStart(s) && forall i :: 0 <= i < |pre| ==> browser.isSpace(pre[i])
  {
    if s != "" && browser.isSpace(s[0]) {
      var rest := TrimStartSplits(browser, s[1..]);
      pre := [s[0]] + rest;
      assert s == [s[0]] + s[1..];
    } else {
      pre := "";
    }
  }

  lemma {:induction false} TrimEndSplits(browser: Browser, s: string) returns (post: string)
    ensures s == browser.TrimEnd(s) + post && forall i :: 0 <= i < |post| ==> browser.isSpace(post[i])
  {
    if s != "" && browser.isSpace(s[|s| - 1]) {
      var rest := TrimEndSplits(browser, s[..|s| - 1]);
      post := rest + [s[|s| - 1]];
      assert s == s[..|s| - 1] + [s[|s| - 1]];
    } else {
      post := "";
    }
  }

  /** Trimming never shows in the browser's anchor, as long as white space is no letter or digit. */
  lemma BrowserTrimIsInvisible(browser: Browser, value: string)
    requires forall c :: browser.isSpace(c) ==> !IsSlug(c)
    ensures browser.MarkdownAnchor(value) == Anchor(browser.toLowerCase(value))
  {
    var t := browser.toLowerCase(value);
    var pre := TrimStartSplits(browser, t);
    var post := TrimEndSplits(browser, browser.TrimStart(t));
    AnchorDropsStart(pre, browser.TrimStart(t));
    AnchorDropsEnd(browser.TrimEnd(browser.TrimStart(t)), post);
  }

  /** Nor does it in Go, as long as lower-casing turns no white space into a letter or digit. */
  lemma GoTrimIsInvisible(lower: char -> char, title: string)
    requires forall c :: IsSpace(c) ==> !IsSlug(LowerChar(lower, c))
    ensures Anchor(Lower(lower, Trim(title))) == Anchor(Lower(lower, title))
  {
    var pre, post := TrimSplits(title);
    var a, b, c := Lower(lower, pre), Lower(lower, Trim(title)), Lower(lower, post);
    assert Lower(lower, title) == a + (b + c);
    AnchorDropsStart(a, b + c);
    AnchorDropsEnd(b, c);
  }

  /** Where Go's link and the browser's anchor differ: a letter that Go lower-cases to one letter and the
      browser to that letter and a combining mark, as with a capital I with a dot. The link then misses its
      anchor. */
  lemma AnchorsCanDiffer(lower: char -> char, browser: Browser, dotted: char)
    requires LowerChar(lower, dotted) == 'i' && !IsSpace(dotted)
    requires browser.toLowerCase([dotted, 'a']) == "i\U{0307}a"
    requires forall c :: browser.isSpace(c) ==> !IsSlug(c)
    ensures Anchor(Lower(lower, Trim([dotted, 'a']))) == "ia"
    ensures browser.MarkdownAnchor([dotted, 'a']) == "i-a"
  {
    TrimOfTight([dotted, 'a']);
    assert Lower(lower, [dotted, 'a']) == "ia";
    assert IsAnchor("ia") && IsAnchor("i-a");
    AnchorOfAnchor("ia");
    BrowserTrimIsInvisible(browser, [dotted, 'a']);
    assert Collapse("i\U{0307}a") == "i-a" by {
      var t := "i\U{0307}a";
      assert t[1..] == "\U{0307}a" && t[1..][1..] == "a" && "a"[1..] == "";
      assert DropRun("a") == "a" && Collapse("a") == "a";
    }
    CollapseOfCollapsed("i-a");
    AnchorOfAnchor("i-a");
  }
}
