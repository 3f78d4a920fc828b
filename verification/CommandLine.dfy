/** `splitAnalysisCommandLine`: the command-line tokenizer, and what it does to quoted tokens. */
module CommandLine {
  import opened Sequences
  import opened Text

  predicate IsQuote(c: char) { c == '"' || c == '\'' }

  predicate IsBreak(c: char) { c == ' ' || c == '\t' || c == '\r' || c == '\n' }

  /** The variables of the loop. `quote` is meaningful only inside a quoted stretch. */
  datatype Scanner = Scanner(out: seq<string>, current: string, inQuote: bool, quote: char) {

    /** The `flush` closure. */
    function Flush(): Scanner {
      var token := Trim(current);
      Scanner(if token != "" then out + [token] else out, "", inQuote, quote)
    }

    function Step(r: char): Scanner {
      if inQuote && r == quote then Scanner(out, current, false, quote)
      else if !inQuote && IsQuote(r) then Scanner(out, current, true, r)
      else if !inQuote && IsBreak(r) then Flush()
      else Scanner(out, current + [r], inQuote, quote)
    }

    function Scan(text: string): Scanner
      decreases |text|
    {
      if text == "" then this else Step(text[0]).Scan(text[1..])
    }
  }

  function Tokens(command: string): seq<string> {
    Scanner([], "", false, ' ').Scan(command).Flush().out
  }

  method SplitAnalysisCommandLine(command: string) returns (out: seq<string>)
    ensures out == Tokens(command)
  {
    var current := "";
    var inQuote := false;
    var quote := ' ';
    out := [];
    for i := 0 to |command|
      invariant Scanner(out, current, inQuote, quote).Scan(command[i..]) == Scanner([], "", false, ' ').Scan(command)
    {
      var r := command[i];
      assert command[i..][0] == r && command[i..][1..] == command[i + 1..];
      if inQuote && r == quote {
        inQuote := false;
      } else if !inQuote && IsQuote(r) {
        inQuote := true;
        quote := r;
      } else if !inQuote && IsBreak(r) {
        var token := Trim(current);
        current := "";
        if token != "" {
          out := out + [token];
        }
      } else {
        current := current + [r];
      }
    }
    var token := Trim(current);
    if token != "" {
      out := out + [token];
    }
  }

  // ---------------------------------------------------------------------------
  // Quoting.

  function Quoted(token: string): string { "\"" + token + "\"" }

  function QuotedAll(tokens: seq<string>): seq<string> {
    seq(|tokens|, i requires 0 <= i < |tokens| => Quoted(tokens[i]))
  }

  /** The tokens joined by spaces, each in double quotes. */
  function QuoteJoin(tokens: seq<string>): string {
    Join(QuotedAll(tokens), " ")
  }

  /** What is left of a list when its entries are trimmed and the blank ones dropped. */
  function Trimmed(tokens: seq<string>): seq<string> {
    if tokens == [] then []
    else (if Trim(tokens[0]) == "" then [] else [Trim(tokens[0])]) + Trimmed(tokens[1..])
  }

  predicate NoDoubleQuote(token: string) { '"' !in token }

  lemma {:induction false} ScanConcat(s: Scanner, a: string, b: string)
    ensures s.Scan(a + b) == s.Scan(a).Scan(b)
    decreases |a|
  {
    if a == "" {
      assert a + b == b;
    } else {
      assert (a + b)[0] == a[0] && (a + b)[1..] == a[1..] + b;
      ScanConcat(s.Step(a[0]), a[1..], b);
    }
  }

  /** Inside quotes everything but the closing quote is taken literally, spaces and the other kind of
      quote included. */
  lemma {:induction false} ScanInside(s: Scanner, token: string)
    requires s.inQuote && s.quote !in token
    ensures s.Scan(token) == s.(current := s.current + token)
    decreases |token|
  {
    if token == "" {
      assert s.current + token == s.current;
    } else {
      ScanInside(s.Step(token[0]), token[1..]);
      assert s.current + [token[0]] + token[1..] == s.current + token;
    }
  }

  lemma ScanQuoted(s: Scanner, token: string)
    requires !s.inQuote && NoDoubleQuote(token)
    ensures s.Scan(Quoted(token)) == Scanner(s.out, s.current + token, false, '"')
  {
    var inside := Scanner(s.out, s.current, true, '"');
    assert Quoted(token)[0] == '"' && Quoted(token)[1..] == token + "\"";
    assert s.Step('"') == inside;
    ScanConcat(inside, token, "\"");
    ScanInside(inside, token);
    assert "\""[1..] == "";
  }

  lemma QuotedAllTail(tokens: seq<string>)
    requires tokens != []
    ensures QuotedAll(tokens) == [Quoted(tokens[0])] + QuotedAll(tokens[1..])
  {}

  lemma QuoteJoinTail(tokens: seq<string>)
    requires |tokens| >= 2
    ensures QuoteJoin(tokens) == Quoted(tokens[0]) + (" " + QuoteJoin(tokens[1..]))
  {
    QuotedAllTail(tokens);
    assert QuotedAll(tokens)[1..] == QuotedAll(tokens[1..]);
  }

  /** A quoted token followed by a space is flushed as one token. */
  lemma ScanThenBreak(s: Scanner, token: string, rest: string)
    requires !s.inQuote && s.current == "" && NoDoubleQuote(token)
    ensures s.Scan(Quoted(token) + (" " + rest)) == Scanner(s.out, token, false, '"').Flush().Scan(rest)
  {
    ScanConcat(s, Quoted(token), " " + rest);
    ScanQuoted(s, token);
    assert s.current + token == token;
    assert (" " + rest)[0] == ' ' && (" " + rest)[1..] == rest;
  }

  /** The last quoted token is flushed when the text ends. */
  lemma ScanThenEnd(s: Scanner, token: string)
    requires !s.inQuote && s.current == "" && NoDoubleQuote(token)
    ensures s.Scan(QuoteJoin([token])).Flush().out == s.out + Trimmed([token])
  {
    ScanQuoted(s, token);
    assert s.current + token == token;
    assert QuoteJoin([token]) == Quoted(token);
    FlushAdds(Scanner(s.out, token, false, '"'));
  }

  lemma FlushAdds(s: Scanner)
    ensures s.Flush().out == s.out + Trimmed([s.current])
  {
    assert [s.current][1..] == [];
    assert Trimmed([]) == [];
    if Trim(s.current) == "" {
      assert Trimmed([s.current]) == [];
    } else {
      assert Trimmed([s.current]) == [Trim(s.current)];
    }
  }

  lemma TrimmedSplits(tokens: seq<string>)
    requires tokens != []
    ensures Trimmed(tokens) == Trimmed([tokens[0]]) + Trimmed(tokens[1..])
  {
    FlushAdds(Scanner([], tokens[0], false, '"'));
  }

  /** The first token of several is flushed at the space behind it. */
  lemma ScanFirst(s: Scanner, tokens: seq<string>) returns (next: Scanner)
    requires !s.inQuote && s.current == "" && |tokens| >= 2 && NoDoubleQuote(tokens[0])
    ensures !next.inQuote && next.current == "" && next.out == s.out + Trimmed([tokens[0]])
    ensures s.Scan(QuoteJoin(tokens)) == next.Scan(QuoteJoin(tokens[1..]))
  {
    var last := Scanner(s.out, tokens[0], false, '"');
    next := last.Flush();
    FlushAdds(last);
    QuoteJoinTail(tokens);
    ScanThenBreak(s, tokens[0], QuoteJoin(tokens[1..]));
  }

  lemma {:induction false} ScanQuoteJoin(s: Scanner, tokens: seq<string>)
    requires !s.inQuote && s.current == "" && tokens != []
    requires forall i :: 0 <= i < |tokens| ==> NoDoubleQuote(tokens[i])
    ensures s.Scan(QuoteJoin(tokens)).Flush().out == s.out + Trimmed(tokens)
    decreases |tokens|
  {
    var first, rest := tokens[0], tokens[1..];
    if rest == [] {
      ScanThenEnd(s, first);
      assert tokens == [first];
    } else {
      var next := ScanFirst(s, tokens);
      ScanQuoteJoin(next, rest);
      TrimmedSplits(tokens);
      Associative(s.out, Trimmed([first]), Trimmed(rest));
    }
  }

  /** Splitting the quoted, space-joined list trims its entries and drops the blank ones. */
  lemma SplitOfQuoted(tokens: seq<string>)
    requires forall i :: 0 <= i < |tokens| ==> NoDoubleQuote(tokens[i])
    ensures Tokens(QuoteJoin(tokens)) == Trimmed(tokens)
  {
    if tokens != [] {
      ScanQuoteJoin(Scanner([], "", false, ' '), tokens);
    }
  }

  lemma {:induction false} TrimmedIsSame(tokens: seq<string>)
    ensures |Trimmed(tokens)| <= |tokens|
    ensures Trimmed(tokens) == tokens <==> forall i :: 0 <= i < |tokens| ==> tokens[i] != "" && IsTight(tokens[i])
  {
    if tokens != [] {
      TrimmedIsSame(tokens[1..]);
      TrimIdempotent(tokens[0]);
      if IsTight(tokens[0]) {
        TrimOfTight(tokens[0]);
      }
      assert tokens == [tokens[0]] + tokens[1..];
      if Trimmed(tokens) == tokens {
        assert Trimmed(tokens)[0] == tokens[0] && Trimmed(tokens)[1..] == tokens[1..];
      }
    }
  }

  /** Round trip: a list free of double quotes comes back unchanged exactly when none of its tokens is
      empty or has white space at an end. */
  lemma RoundTrip(tokens: seq<string>)
    requires forall i :: 0 <= i < |tokens| ==> NoDoubleQuote(tokens[i])
    ensures Tokens(QuoteJoin(tokens)) == tokens <==>
              forall i :: 0 <= i < |tokens| ==> tokens[i] != "" && IsTight(tokens[i])
  {
    SplitOfQuoted(tokens);
    TrimmedIsSame(tokens);
  }

  /** No token is ever blank or carries white space at an end. */
  lemma {:induction false} TokensAreTight(s: Scanner, text: string)
    requires forall t :: t in s.out ==> t != "" && IsTight(t)
    ensures forall t :: t in s.Scan(text).Flush().out ==> t != "" && IsTight(t)
    decreases |text|
  {
    if text == "" {
      TrimIdempotent(s.current);
    } else {
      TrimIdempotent(s.current);
      TokensAreTight(s.Step(text[0]), text[1..]);
    }
  }
}
