/** What the tokenizer does to any command: the command falls into single characters, breaks and quoted
    stretches, and the tokens are what stands between the breaks. */
module CommandPieces {
  import opened CommandLine
  import opened Sequences

  /** `Quoted` has its closing quote; `Unclosed` runs to the end of the command. */
  datatype Piece =
    | Plain(c: char)
    | Break(c: char)
    | Quoted(quote: char, text: string)
    | Unclosed(quote: char, text: string)
  {

    /** How the piece is written. */
    function Written(): string {
      match this
      case Plain(c) => [c]
      case Break(c) => [c]
      case Quoted(quote, text) => [quote] + text + [quote]
      case Unclosed(quote, text) => [quote] + text
    }

    /** What a token keeps of it. */
    function Meant(): string {
      match this
      case Plain(c) => [c]
      case Break(_) => ""
      case Quoted(_, text) => text
      case Unclosed(_, text) => text
    }

    predicate Valid() {
      match this
      case Plain(c) => c !in "\"' \t\r\n"
      case Break(c) => c in " \t\r\n"
      case Quoted(quote, text) => quote in "\"'" && quote !in text
      case Unclosed(quote, text) => quote in "\"'" && quote !in text
    }
  }

  function Command(pieces: seq<Piece>): string {
    if pieces == [] then "" else pieces[0].Written() + Command(pieces[1..])
  }

  /** Each piece is valid, and only the last may lack its closing quote. */
  predicate Valid(pieces: seq<Piece>) {
    && (forall i :: 0 <= i < |pieces| ==> pieces[i].Valid())
    && forall i :: 0 <= i < |pieces| - 1 ==> !pieces[i].Unclosed?
  }

  /** The stretches between the breaks, quotes removed. */
  function Words(pieces: seq<Piece>): (words: seq<string>)
    ensures words != []
  {
    if pieces == [] then [""]
    else if pieces[0].Break? then [""] + Words(pieces[1..])
    else Put(pieces[0].Meant(), Words(pieces[1..]))
  }

  /** The text in front of the first word. */
  function Put(text: string, words: seq<string>): (r: seq<string>)
    requires words != []
    ensures |r| == |words|
  {
    [text + words[0]] + words[1..]
  }

  // ---------------------------------------------------------------------------
  // Every command falls into pieces.

  lemma PiecesOfMore(first: Piece, rest: seq<Piece>)
    requires first.Valid() && Valid(rest) && (first.Unclosed? ==> rest == [])
    ensures Valid([first] + rest) && Command([first] + rest) == first.Written() + Command(rest)
  {
    var pieces := [first] + rest;
    assert pieces[1..] == rest;
    assert forall i :: 0 < i < |pieces| ==> pieces[i] == rest[i - 1];
  }

  /** The quoted stretch a command starts with. */
  lemma QuotedStart(command: string) returns (first: Piece, rest: string)
    requires command != "" && IsQuote(command[0])
    ensures first.Valid() && first.Written() + rest == command && |rest| < |command|
    ensures first.Quoted? || (first.Unclosed? && rest == "")
  {
    var quote, tail := command[0], command[1..];
    if quote in tail {
      var i := FirstAt(tail, quote);
      first, rest := Quoted(quote, tail[..i]), tail[i + 1..];
      assert tail == tail[..i] + [quote] + rest;
    } else {
      first, rest := Unclosed(quote, tail), "";
    }
    assert command == [quote] + tail;
  }

  lemma FirstAt(s: string, c: char) returns (i: nat)
    requires c in s
    ensures i < |s| && s[i] == c && c !in s[..i]
  {
    i := 0;
    while s[i] != c
      invariant i < |s| && c !in s[..i] && c in s[i..]
      decreases |s| - i
    {
      assert s[i..] == [s[i]] + s[i + 1..];
      assert s[..i + 1] == s[..i] + [s[i]];
      i := i + 1;
    }
  }

  lemma {:induction false} EveryCommandHasPieces(command: string) returns (pieces: seq<Piece>)
    ensures Valid(pieces) && Command(pieces) == command
    decreases |command|
  {
    if command == "" {
      pieces := [];
    } else {
      var first, rest := Plain(command[0]), command[1..];
      if IsQuote(command[0]) {
        first, rest := QuotedStart(command);
      } else if IsBreak(command[0]) {
        first := Break(command[0]);
      }
      var tail := EveryCommandHasPieces(rest);
      if first.Unclosed? {
        tail := [];
      }
      PiecesOfMore(first, tail);
      pieces := [first] + tail;
      assert first.Written() + rest == command;
    }
  }

  // ---------------------------------------------------------------------------
  // What the scanner makes of them.

  lemma ScanUnclosed(s: Scanner, quote: char, text: string)
    requires !s.inQuote && IsQuote(quote) && quote !in text
    ensures s.Scan([quote] + text) == Scanner(s.out, s.current + text, true, quote)
  {
    assert ([quote] + text)[0] == quote && ([quote] + text)[1..] == text;
    ScanInside(s.Step(quote), text);
  }

  lemma ScanClosed(s: Scanner, quote: char, text: string)
    requires !s.inQuote && IsQuote(quote) && quote !in text
    ensures s.Scan([quote] + text + [quote]) == Scanner(s.out, s.current + text, false, quote)
  {
    ScanConcat(s, [quote] + text, [quote]);
    ScanUnclosed(s, quote, text);
    assert [quote][1..] == "";
  }

  /** One piece: a break ends the token, anything else adds to it. */
  lemma ScanPiece(s: Scanner, p: Piece)
    requires !s.inQuote && p.Valid()
    ensures var next := s.Scan(p.Written());
      && (p.Break? ==> next == s.Flush())
      && (!p.Break? ==> next.out == s.out && next.current == s.current + p.Meant())
      && (next.inQuote ==> p.Unclosed?)
  {
    match p
    case Plain(c) => assert [c][1..] == "";
    case Break(c) => assert [c][1..] == "";
    case Quoted(quote, text) => ScanClosed(s, quote, text);
    case Unclosed(quote, text) => ScanUnclosed(s, quote, text);
  }

  lemma PutNothing(text: string, words: seq<string>)
    requires words != []
    ensures Put("", words) == words && Put(text, [""]) == [text]
  {
    assert "" + words[0] == words[0] && text + "" == text;
  }

  lemma PutTwice(a: string, b: string, words: seq<string>)
    requires words != []
    ensures Put(a, Put(b, words)) == Put(a + b, words)
  {
    Associative(a, b, words[0]);
  }

  lemma BreakAfter(out: seq<string>, current: string, words: seq<string>)
    requires words != []
    ensures out + Trimmed(Put(current, [""] + words)) == out + Trimmed([current]) + Trimmed(words)
  {
    assert current + "" == current;
    assert Put(current, [""] + words) == [current] + words;
    TrimmedSplits([current] + words);
    assert ([current] + words)[1..] == words;
    Associative(out, Trimmed([current]), Trimmed(words));
  }

  lemma {:induction false} ScanPieces(s: Scanner, pieces: seq<Piece>)
    requires Valid(pieces) && (s.inQuote ==> pieces == [])
    ensures s.Scan(Command(pieces)).Flush().out == s.out + Trimmed(Put(s.current, Words(pieces)))
    decreases |pieces|
  {
    if pieces == [] {
      FlushAdds(s);
      PutNothing(s.current, [""]);
    } else {
      var p, rest := pieces[0], pieces[1..];
      var next := s.Scan(p.Written());
      ScanConcat(s, p.Written(), Command(rest));
      ScanPiece(s, p);
      ScanPieces(next, rest);
      if p.Break? {
        FlushAdds(s);
        PutNothing("", Words(rest));
        BreakAfter(s.out, s.current, Words(rest));
      } else {
        PutTwice(s.current, p.Meant(), Words(rest));
      }
    }
  }

  /** The tokens of any command are the stretches between its breaks outside quotes, without the quotes
      that open or close them, trimmed, the blank ones dropped. */
  lemma TokensMean(command: string, pieces: seq<Piece>)
    requires Valid(pieces) && Command(pieces) == command
    ensures Tokens(command) == Trimmed(Words(pieces))
  {
    ScanPieces(Scanner([], "", false, ' '), pieces);
    PutNothing("", Words(pieces));
  }
}
