/** Exactly when Go and the browser make the same anchor: an anchor is its words joined by dashes, so it
    is decided by the words of the lower-cased title. */
module AnchorAgreement {
  import opened MarkdownAnchors
  import opened Text

  // ---------------------------------------------------------------------------
  // Words.

  predicate EndsInSlug(s: string) { s != "" && IsSlug(s[|s| - 1]) }

  /** The maximal runs of letters and digits, in order. */
  function Words(s: string): seq<string> {
    if s == "" then [] else WordsAfter(Words(s[..|s| - 1]), EndsInSlug(s[..|s| - 1]), s[|s| - 1])
  }

  /** One character more: it lengthens the word it touches, starts a word, or belongs to none. */
  function WordsAfter(words: seq<string>, touching: bool, c: char): seq<string> {
    if !IsSlug(c) then words
    else if touching && words != [] then words[..|words| - 1] + [words[|words| - 1] + [c]]
    else words + [[c]]
  }

  lemma WordsOfMore(s: string, c: char)
    ensures Words(s + [c]) == WordsAfter(Words(s), EndsInSlug(s), c)
    ensures EndsInSlug(s + [c]) == IsSlug(c)
  {
    assert (s + [c])[..|s|] == s;
  }

  predicate IsWord(w: string) {
    w != "" && forall i :: 0 <= i < |w| ==> 'a' <= w[i] <= 'z' || '0' <= w[i] <= '9'
  }

  predicate IsGap(g: string) {
    forall i :: 0 <= i < |g| ==> !('a' <= g[i] <= 'z' || '0' <= g[i] <= '9')
  }

  ghost predicate AllWords(words: seq<string>) {
    forall i :: 0 <= i < |words| ==> IsWord(words[i])
  }

  lemma {:induction false} WordsAreWords(s: string)
    ensures AllWords(Words(s)) && (EndsInSlug(s) ==> Words(s) != [])
  {
    if s != "" {
      WordsAreWords(s[..|s| - 1]);
    }
  }

  /** A gap, a word, a gap, and so on. */
  function Woven(gaps: seq<string>, words: seq<string>): string
    requires |gaps| == |words| + 1
  {
    var n := |words|;
    if n == 0 then gaps[0] else Woven(gaps[..n], words[..n - 1]) + words[n - 1] + gaps[n]
  }

  /** The words and what lies between them make up the text; only at its ends may a gap be empty. */
  ghost predicate FallsInto(s: string, gaps: seq<string>, words: seq<string>) {
    && |gaps| == |words| + 1 && Woven(gaps, words) == s && AllWords(words)
    && (forall i :: 0 <= i < |gaps| ==> IsGap(gaps[i]))
    && forall i :: 0 < i < |words| ==> gaps[i] != ""
  }

  /** The last gap is empty exactly when the text ends in a word. */
  predicate EndsOpen(s: string, gaps: seq<string>, words: seq<string>) {
    |gaps| > 0 && (EndsInSlug(s) <==> words != [] && gaps[|gaps| - 1] == "")
  }

  /** The words of a text are what is left of it between the gaps. */
  lemma {:induction false} WordsSplit(s: string) returns (gaps: seq<string>)
    ensures FallsInto(s, gaps, Words(s)) && EndsOpen(s, gaps, Words(s))
  {
    if s == "" {
      gaps := [""];
    } else {
      var front, c := s[..|s| - 1], s[|s| - 1];
      var before := WordsSplit(front);
      assert s == front + [c];
      WordsOfMore(front, c);
      if !IsSlug(c) {
        gaps := GapLonger(front, before, Words(front), c);
      } else if EndsInSlug(front) {
        gaps := before;
        WordLonger(front, before, Words(front), c);
      } else {
        gaps := before + [""];
        WordMore(front, before, Words(front), c);
      }
    }
  }

  lemma GapLonger(s: string, gaps: seq<string>, words: seq<string>, c: char) returns (gaps': seq<string>)
    requires FallsInto(s, gaps, words) && !IsSlug(c)
    ensures FallsInto(s + [c], gaps', words) && gaps'[|gaps'| - 1] != ""
  {
    var n := |words|;
    gaps' := gaps[..n] + [gaps[n] + [c]];
    assert gaps'[..n] == gaps[..n];
    if n > 0 {
      var w := Woven(gaps[..n], words[..n - 1]) + words[n - 1];
      assert w + (gaps[n] + [c]) == (w + gaps[n]) + [c];
    }
  }

  lemma WordLonger(s: string, gaps: seq<string>, words: seq<string>, c: char)
    requires FallsInto(s, gaps, words) && IsSlug(c) && words != [] && gaps[|words|] == ""
    ensures FallsInto(s + [c], gaps, words[..|words| - 1] + [words[|words| - 1] + [c]])
  {
    var n := |words|;
    var longer := words[..n - 1] + [words[n - 1] + [c]];
    assert longer[..n - 1] == words[..n - 1];
    var w := Woven(gaps[..n], words[..n - 1]);
    assert w + words[n - 1] + "" == w + words[n - 1];
    assert w + (words[n - 1] + [c]) + "" == (w + words[n - 1]) + [c];
  }

  lemma WordMore(s: string, gaps: seq<string>, words: seq<string>, c: char)
    requires FallsInto(s, gaps, words) && IsSlug(c) && (words == [] || gaps[|words|] != "")
    ensures FallsInto(s + [c], gaps + [""], words + [[c]])
  {
    var n := |words|;
    assert (gaps + [""])[..n + 1] == gaps && (words + [[c]])[..n] == words;
    assert s + [c] + "" == s + [c];
  }

  // ---------------------------------------------------------------------------
  // An anchor is its words joined by dashes.

  function Dashed(words: seq<string>): string { Join(words, "-") }

  lemma {:induction false} DashedMore(words: seq<string>, w: string)
    ensures Dashed(words + [w]) == (if words == [] then "" else Dashed(words) + "-") + w
  {
    if words == [] {
      assert words + [w] == [w];
    } else {
      assert (words + [w])[1..] == words[1..] + [w];
      DashedMore(words[1..], w);
      if |words| == 1 {
        assert words[1..] == [];
      }
    }
  }

  /** A letter more in the last word. */
  lemma DashedLonger(front: seq<string>, last: string, c: char)
    ensures Dashed(front + [last + [c]]) == Dashed(front + [last]) + [c]
  {
    DashedMore(front, last);
    DashedMore(front, last + [c]);
  }

  /** What the anchor loop has built: the words so far, and a dash when one is due. */
  ghost predicate BuiltIs(s: string) {
    Built(s) == Dashed(Words(s)) + if Words(s) != [] && !EndsInSlug(s) then "-" else ""
  }

  lemma DashedShows(words: seq<string>)
    requires AllWords(words) && words != []
    ensures Dashed(words) != "" && !EndsInDash(Dashed(words)) && Dashed(words)[0] != '-'
  {
    var front, last := words[..|words| - 1], words[|words| - 1];
    assert words == front + [last];
    DashedMore(front, last);
    assert Dashed(words)[|Dashed(words)| - 1] == last[|last| - 1];
    DashedStarts(words);
  }

  lemma DashedStarts(words: seq<string>)
    requires AllWords(words) && words != []
    ensures Dashed(words) != "" && Dashed(words)[0] == words[0][0]
  {}

  lemma {:induction false} BuiltIsWords(s: string)
    ensures BuiltIs(s)
  {
    if s != "" {
      var front, c := s[..|s| - 1], s[|s| - 1];
      assert s == front + [c];
      BuiltIsWords(front);
      BuiltStep(front, c);
    }
  }

  lemma BuiltStep(s: string, c: char)
    requires BuiltIs(s)
    ensures BuiltIs(s + [c])
  {
    BuiltOfMore(s, c);
    WordsOfMore(s, c);
    WordsAreWords(s);
    BuiltAfter(Words(s), EndsInSlug(s), c, Built(s));
  }

  lemma BuiltAfter(words: seq<string>, touching: bool, c: char, built: string)
    requires AllWords(words) && (touching ==> words != [])
    requires built == Dashed(words) + if words != [] && !touching then "-" else ""
    ensures var after := WordsAfter(words, touching, c);
            Dashed(after) + (if after != [] && !IsSlug(c) then "-" else "") ==
              if IsSlug(c) then built + [c]
              else if !EndsInDash(built) && |built| > 0 then built + "-"
              else built
  {
    DashedMore(words, [c]);
    if words != [] {
      DashedShows(words);
      DashedLonger(words[..|words| - 1], words[|words| - 1], c);
      assert words == words[..|words| - 1] + [words[|words| - 1]];
    }
  }

  /** Every anchor is the words of its text, joined by dashes. */
  lemma AnchorIsDashed(s: string)
    ensures Anchor(s) == Dashed(Words(s))
  {
    BuiltIsWords(s);
    WordsAreWords(s);
    var words := Words(s);
    StripOfBuilt(s);
    if words != [] {
      DashedShows(words);
      StripDropsDash(Dashed(words));
    }
  }

  lemma StripOfBuilt(s: string)
    ensures Anchor(s) == Strip(Built(s))
  {}

  /** Joining loses nothing: the words can be read off the anchor. */
  lemma {:induction false} WordsOfDashed(words: seq<string>)
    requires AllWords(words)
    ensures Words(Dashed(words)) == words
  {
    if words != [] {
      var front, last := words[..|words| - 1], words[|words| - 1];
      assert words == front + [last];
      WordsOfDashed(front);
      DashedMore(front, last);
      if front == [] {
        assert Words("") == [];
        WordsOfWord("", last);
      } else {
        WordsOfMore(Dashed(front), '-');
        WordsOfWord(Dashed(front) + "-", last);
      }
    }
  }

  lemma {:induction false} WordsOfWord(s: string, w: string)
    requires IsWord(w) && !EndsInSlug(s)
    ensures Words(s + w) == Words(s) + [w] && EndsInSlug(s + w)
  {
    var front, c := w[..|w| - 1], w[|w| - 1];
    assert w == front + [c] && s + w == (s + front) + [c];
    WordsOfMore(s + front, c);
    if front == "" {
      assert s + front == s;
    } else {
      WordsOfWord(s, front);
    }
  }

  lemma SameAnchorIff(a: string, b: string)
    ensures Anchor(a) == Anchor(b) <==> Words(a) == Words(b)
  {
    AnchorIsDashed(a);
    AnchorIsDashed(b);
    WordsAreWords(a);
    WordsAreWords(b);
    WordsOfDashed(Words(a));
    WordsOfDashed(Words(b));
  }

  // ---------------------------------------------------------------------------
  // Agreement, for any two lower-casings.

  /** Go's link and the browser's anchor are the same exactly when the two lower-casings of the title have
      the same words, however the two trim. */
  lemma AnchorsAgreeIff(lower: char -> char, browser: Browser, title: string)
    requires forall c :: IsSpace(c) ==> !IsSlug(LowerChar(lower, c))
    requires forall c :: browser.isSpace(c) ==> !IsSlug(c)
    ensures Anchor(Lower(lower, Trim(title))) == browser.MarkdownAnchor(title) <==>
              Words(Lower(lower, title)) == Words(browser.toLowerCase(title))
  {
    GoTrimIsInvisible(lower, title);
    BrowserTrimIsInvisible(browser, title);
    SameAnchorIff(Lower(lower, title), browser.toLowerCase(title));
  }

  /** In particular, every title that both lower-case alike keeps its link. */
  lemma AnchorsAgree(lower: char -> char, browser: Browser, title: string)
    requires forall c :: IsSpace(c) ==> !IsSlug(LowerChar(lower, c))
    requires forall c :: browser.isSpace(c) ==> !IsSlug(c)
    requires browser.toLowerCase(title) == Lower(lower, title)
    ensures Anchor(Lower(lower, Trim(title))) == browser.MarkdownAnchor(title)
  {
    AnchorsAgreeIff(lower, browser, title);
  }

  // ---------------------------------------------------------------------------
  // Agreement, in terms of the title.

  /** The capital I with a dot, which the browser lower-cases to a small i and a combining dot. */
  const DOTTED_I: char := '\U{0130}'
  const COMBINING_DOT: char := '\U{0307}'

  /** The browser's image of the last character: that of Go and a combining dot for the dotted I, else one
      character, the same as in Go wherever one of the two is a letter or digit. */
  predicate LowersTo(lower: char -> char, c: char, piece: string) {
    if c == DOTTED_I then piece == ['i', COMBINING_DOT]
    else |piece| == 1 && (IsSlug(piece[0]) || IsSlug(LowerChar(lower, c)) ==> piece[0] == LowerChar(lower, c))
  }

  /** `lowered` is the browser's lower-casing of the title, character by character. */
  ghost predicate IsLowered(lower: char -> char, title: string, lowered: string) {
    if title == "" then lowered == ""
    else
      exists k :: 0 <= k <= |lowered| && IsLowered(lower, title[..|title| - 1], lowered[..k]) &&
        LowersTo(lower, title[|title| - 1], lowered[k..])
  }

  /** A dotted I directly before a character that lower-cases to a letter or digit. */
  predicate Splits(lower: char -> char, title: string, i: nat) {
    i + 1 < |title| && title[i] == DOTTED_I && IsSlug(LowerChar(lower, title[i + 1]))
  }

  /** How often that happens. */
  function Count(lower: char -> char, title: string): nat {
    if title == "" then 0
    else Count(lower, title[..|title| - 1]) + if |title| > 1 && Splits(lower, title, |title| - 2) then 1 else 0
  }

  lemma {:induction false} CountMeans(lower: char -> char, title: string)
    ensures Count(lower, title) == 0 <==> forall i :: 0 <= i < |title| ==> !Splits(lower, title, i)
  {
    if title != "" {
      var front := title[..|title| - 1];
      CountMeans(lower, front);
      assert forall i :: 0 <= i < |title| - 2 ==> Splits(lower, title, i) == Splits(lower, front, i);
    }
  }

  /** How the words of the two lower-casings compare after a prefix of the title. */
  ghost predicate Compared(lower: char -> char, title: string, go: string, js: string) {
    && |Words(js)| == |Words(go)| + Count(lower, title)
    && (Count(lower, title) == 0 ==> Words(js) == Words(go))
    && (title == "" ==> go == "" && js == "")
    && (title != "" ==> EndsInSlug(go) == IsSlug(LowerChar(lower, title[|title| - 1])))
    && (title != "" ==> EndsInSlug(js) == (title[|title| - 1] != DOTTED_I && EndsInSlug(go)))
  }

  lemma AfterCount(words: seq<string>, touching: bool, c: char)
    ensures |WordsAfter(words, touching, c)| == |words| + if IsSlug(c) && !(touching && words != []) then 1 else 0
  {}

  lemma ComparedNext(lower: char -> char, title: string, c: char, go: string, js: string, piece: string)
    requires LowerChar(lower, DOTTED_I) == 'i' && Compared(lower, title, go, js) && LowersTo(lower, c, piece)
    ensures Compared(lower, title + [c], go + [LowerChar(lower, c)], js + piece)
  {
    var d := LowerChar(lower, c);
    var e := piece[0];
    WordsOfMore(go, d);
    WordsOfMore(js, e);
    WordsAreWords(go);
    WordsAreWords(js);
    AfterCount(Words(go), EndsInSlug(go), d);
    AfterCount(Words(js), EndsInSlug(js), e);
    assert (title + [c])[..|title|] == title;
    if c == DOTTED_I {
      WordsOfMore(js + [e], COMBINING_DOT);
      assert js + piece == (js + [e]) + [COMBINING_DOT];
    } else {
      assert piece == [e];
    }
  }

  lemma LoweredSplits(lower: char -> char, title: string, js: string) returns (before: string, piece: string)
    requires title != "" && IsLowered(lower, title, js)
    ensures js == before + piece
    ensures IsLowered(lower, title[..|title| - 1], before) && LowersTo(lower, title[|title| - 1], piece)
  {
    var k :| 0 <= k <= |js| && IsLowered(lower, title[..|title| - 1], js[..k]) &&
      LowersTo(lower, title[|title| - 1], js[k..]);
    before, piece := js[..k], js[k..];
  }

  lemma LowerOfMore(lower: char -> char, front: string, c: char)
    ensures Lower(lower, front + [c]) == Lower(lower, front) + [LowerChar(lower, c)]
  {}

  lemma {:induction false} TitleCompares(lower: char -> char, title: string, js: string)
    requires LowerChar(lower, DOTTED_I) == 'i' && IsLowered(lower, title, js)
    ensures Compared(lower, title, Lower(lower, title), js)
  {
    if title != "" {
      var front, c := title[..|title| - 1], title[|title| - 1];
      assert title == front + [c];
      var before, piece := LoweredSplits(lower, title, js);
      TitleCompares(lower, front, before);
      LowerOfMore(lower, front, c);
      ComparedNext(lower, front, c, Lower(lower, front), before, piece);
    }
  }

  /** With the Unicode case rules, under which only the dotted I lower-cases to more than one character: the
      anchors agree exactly when no dotted I stands directly before a character that becomes a letter or
      digit. */
  lemma TitleAgreesIff(lower: char -> char, browser: Browser, title: string)
    requires forall c :: IsSpace(c) ==> !IsSlug(LowerChar(lower, c))
    requires forall c :: browser.isSpace(c) ==> !IsSlug(c)
    requires LowerChar(lower, DOTTED_I) == 'i' && IsLowered(lower, title, browser.toLowerCase(title))
    ensures Anchor(Lower(lower, Trim(title))) == browser.MarkdownAnchor(title) <==>
              forall i :: 0 <= i < |title| ==> !Splits(lower, title, i)
  {
    AnchorsAgreeIff(lower, browser, title);
    TitleCompares(lower, title, browser.toLowerCase(title));
    CountMeans(lower, title);
  }
}
