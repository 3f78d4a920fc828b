/** The tokenizer's round trip on all token lists, by counting what the scanner drops. */
module CommandLineExact {
  import opened CommandLine
  import opened Text

  // ---------------------------------------------------------------------------
  // Counting double quotes.

  function Doubles(s: string): nat {
    if s == "" then 0 else (if s[0] == '"' then 1 else 0) + Doubles(s[1..])
  }

  lemma {:induction false} DoublesConcat(a: string, b: string)
    ensures Doubles(a + b) == Doubles(a) + Doubles(b)
  {
    if a == "" {
      assert a + b == b;
    } else {
      assert (a + b)[1..] == a[1..] + b;
      DoublesConcat(a[1..], b);
    }
  }

  lemma {:induction false} DoublesNone(s: string)
    ensures Doubles(s) == 0 <==> NoDoubleQuote(s)
  {
    if s != "" {
      DoublesNone(s[1..]);
      assert s == [s[0]] + s[1..];
    }
  }

  lemma {:induction false} DoublesOfSpace(s: string)
    requires AllSpace(s)
    ensures Doubles(s) == 0
  {
    if s != "" {
      DoublesOfSpace(s[1..]);
    }
  }

  /** Trimming drops no quote. */
  lemma DoublesOfTrim(s: string)
    ensures Doubles(Trim(s)) == Doubles(s) && |Trim(s)| <= |s|
  {
    var pre, post := TrimSplits(s);
    DoublesOfSpace(pre);
    DoublesOfSpace(post);
    DoublesConcat(pre + Trim(s), post);
    DoublesConcat(pre, Trim(s));
  }

  // ---------------------------------------------------------------------------
  // What a scan keeps.

  /** All tokens without what separated them. */
  function Glue(tokens: seq<string>): string {
    if tokens == [] then "" else tokens[0] + Glue(tokens[1..])
  }

  lemma {:induction false} GlueMore(tokens: seq<string>, token: string)
    ensures Glue(tokens + [token]) == Glue(tokens) + token
  {
    if tokens == [] {
      assert tokens + [token] == [token];
      assert [token][1..] == [];
    } else {
      assert (tokens + [token])[1..] == tokens[1..] + [token];
      GlueMore(tokens[1..], token);
    }
  }

  /** The characters kept so far, and one for every token finished. */
  function Kept(s: Scanner): nat { |Glue(s.out)| + |s.current| + |s.out| }

  function KeptDoubles(s: Scanner): nat { Doubles(Glue(s.out)) + Doubles(s.current) }

  predicate InSingle(s: Scanner) { s.inQuote && s.quote == '\'' }

  predicate Sound(s: Scanner) { s.inQuote ==> IsQuote(s.quote) }

  /** Whether the character opens or closes a quoted stretch, which drops it. */
  predicate Toggles(s: Scanner, r: char) {
    if s.inQuote then r == s.quote else IsQuote(r)
  }

  /** Flushing keeps all quotes, and a token it finishes costs at least the break that ended it. */
  lemma FlushKeeps(s: Scanner)
    ensures KeptDoubles(s.Flush()) == KeptDoubles(s) && Kept(s.Flush()) <= Kept(s) + 1
    ensures s.Flush().current == ""
  {
    DoublesOfTrim(s.current);
    GlueMore(s.out, Trim(s.current));
    DoublesConcat(Glue(s.out), Trim(s.current));
    assert Doubles("") == 0;
  }

  lemma StepKeeps(s: Scanner, r: char)
    requires Sound(s)
    ensures var next := s.Step(r);
            var toggled := if Toggles(s, r) then 1 else 0;
            var double := if Toggles(s, r) && r == '"' then 1 else 0;
            && Sound(next) && Kept(next) + toggled <= Kept(s) + 1
            && KeptDoubles(next) + double == KeptDoubles(s) + (if r == '"' then 1 else 0)
            && (!InSingle(s) && toggled == double ==> !InSingle(next) && KeptDoubles(next) == KeptDoubles(s))
  {
    FlushKeeps(s);
    DoublesConcat(s.current, [r]);
    assert [r][1..] == "" && Doubles([r]) == if r == '"' then 1 else 0;
  }

  /** Over a whole text: how many characters opened or closed quotes, and how many of these were double
      quotes. If all were, no single-quoted stretch was ever open, and no double quote was kept. */
  lemma {:induction false} ScanKeeps(s: Scanner, text: string) returns (toggled: nat, doubles: nat)
    requires Sound(s)
    ensures var end := s.Scan(text);
            && doubles <= toggled && Kept(end) + toggled <= Kept(s) + |text|
            && KeptDoubles(end) + doubles == KeptDoubles(s) + Doubles(text)
            && (!InSingle(s) && toggled == doubles ==> KeptDoubles(end) == KeptDoubles(s))
    decreases |text|
  {
    if text == "" {
      toggled, doubles := 0, 0;
    } else {
      StepKeeps(s, text[0]);
      toggled, doubles := ScanKeeps(s.Step(text[0]), text[1..]);
      toggled := toggled + if Toggles(s, text[0]) then 1 else 0;
      doubles := doubles + if Toggles(s, text[0]) && text[0] == '"' then 1 else 0;
    }
  }

  // ---------------------------------------------------------------------------
  // Quoted lists.

  lemma QuotedCounts(token: string)
    ensures |Quoted(token)| == |token| + 2 && Doubles(Quoted(token)) == Doubles(token) + 2
  {
    DoublesConcat("\"" + token, "\"");
    DoublesConcat("\"", token);
    assert "\""[1..] == "" && Doubles("\"") == 1;
  }

  /** The joined text has two quotes around every token and a space between each two. */
  lemma {:induction false} QuoteJoinCounts(tokens: seq<string>)
    requires tokens != []
    ensures |QuoteJoin(tokens)| + 1 == |Glue(tokens)| + 3 * |tokens|
    ensures Doubles(QuoteJoin(tokens)) == Doubles(Glue(tokens)) + 2 * |tokens|
  {
    var first, rest := tokens[0], tokens[1..];
    QuotedCounts(first);
    DoublesConcat(first, Glue(rest));
    if rest == [] {
      assert tokens == [first];
      assert QuoteJoin(tokens) == Quoted(first);
    } else {
      QuoteJoinTail(tokens);
      QuoteJoinCounts(rest);
      DoublesConcat(Quoted(first), " " + QuoteJoin(rest));
      DoublesConcat(" ", QuoteJoin(rest));
      assert " "[1..] == "" && Doubles(" ") == 0;
    }
  }

  lemma {:induction false} GlueHasNone(tokens: seq<string>)
    requires Doubles(Glue(tokens)) == 0
    ensures forall i :: 0 <= i < |tokens| ==> NoDoubleQuote(tokens[i])
  {
    if tokens != [] {
      DoublesConcat(tokens[0], Glue(tokens[1..]));
      DoublesNone(tokens[0]);
      GlueHasNone(tokens[1..]);
      assert forall i :: 0 < i < |tokens| ==> tokens[i] == tokens[1..][i - 1];
    }
  }

  /** A list that comes back holds no double quote: the breaks between its tokens and two quotes around
      each account for all the scanner may drop. */
  lemma ReturnedHasNoQuote(tokens: seq<string>)
    requires Tokens(QuoteJoin(tokens)) == tokens
    ensures forall i :: 0 <= i < |tokens| ==> NoDoubleQuote(tokens[i])
  {
    if tokens != [] {
      var start := Scanner([], "", false, ' ');
      var toggled, doubles := ScanKeeps(start, QuoteJoin(tokens));
      FlushKeeps(start.Scan(QuoteJoin(tokens)));
      QuoteJoinCounts(tokens);
      GlueHasNone(tokens);
    }
  }

  /** The round trip, on all token lists: a list comes back unchanged exactly when every token is free of
      double quotes, not empty, and without white space at an end. */
  lemma RoundTripIff(tokens: seq<string>)
    ensures Tokens(QuoteJoin(tokens)) == tokens <==>
              forall i :: 0 <= i < |tokens| ==> NoDoubleQuote(tokens[i]) && tokens[i] != "" && IsTight(tokens[i])
  {
    if Tokens(QuoteJoin(tokens)) == tokens {
      ReturnedHasNoQuote(tokens);
    }
    if forall i :: 0 <= i < |tokens| ==> NoDoubleQuote(tokens[i]) {
      RoundTrip(tokens);
    }
  }
}
