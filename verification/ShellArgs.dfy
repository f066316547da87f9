/** Splitting a command line into arguments, as splitShellArgs of internal/gws/gws.go does. */
module ShellArgs {
  import opened Base
  import opened Search

  datatype State = State(args: seq<string>, current: string, inDouble: bool, inSingle: bool)

  const START := State([], "", false, false)

  function Step(s: State, c: char): State {
    if c == '"' && !s.inSingle then s.(inDouble := !s.inDouble)
    else if c == '\'' && !s.inDouble then s.(inSingle := !s.inSingle)
    else if c == ' ' && !s.inDouble && !s.inSingle then Flush(s)
    else s.(current := s.current + [c])
  }

  function Flush(s: State): State {
    if s.current == "" then s else s.(args := s.args + [s.current], current := "")
  }

  function Scan(s: State, text: string): State
    decreases |text|
  {
    if text == "" then s else Scan(Step(s, text[0]), text[1..])
  }

  function Split(text: string): seq<string> { Flush(Scan(START, text)).args }

  method SplitShellArgs(text: string) returns (args: seq<string>)
    ensures args == Split(text)
  {
    args := [];
    var current := "";
    var inDouble, inSingle := false, false;
    assert text[0..] == text;
    for i := 0 to |text|
      invariant Scan(START, text) == Scan(State(args, current, inDouble, inSingle), text[i..])
    {
      var c := text[i];
      assert text[i..][0] == c && text[i..][1..] == text[i + 1..];
      if c == '"' && !inSingle {
        inDouble := !inDouble;
      } else if c == '\'' && !inDouble {
        inSingle := !inSingle;
      } else if c == ' ' && !inDouble && !inSingle {
        if |current| > 0 { args, current := args + [current], ""; }
      } else {
        current := current + [c];
      }
    }
    if |current| > 0 { args := args + [current]; }
  }

  // ---- Any command line -----------------------------------------------------------------------

  /** A gap between arguments, a character outside quotes, or what a pair of quotes holds; quotes that
      are never closed run to the end of the line. */
  datatype Piece = Gap | Bare(c: char) | Quotes(mark: char, text: string, closed: bool)

  function Source(p: Piece): string {
    match p
    case Gap => " "
    case Bare(c) => [c]
    case Quotes(mark, text, closed) => [mark] + (text + if closed then [mark] else "")
  }

  function Content(p: Piece): string {
    match p
    case Gap => ""
    case Bare(c) => [c]
    case Quotes(_, text, _) => text
  }

  predicate IsPiece(p: Piece, last: bool) {
    match p
    case Gap => true
    case Bare(c) => c != ' ' && c != '"' && c != '\''
    case Quotes(mark, text, closed) =>
      (mark == '"' || mark == '\'') && (forall i | 0 <= i < |text| :: text[i] != mark) && (closed || last)
  }

  predicate ArePieces(ps: seq<Piece>) { forall i | 0 <= i < |ps| :: IsPiece(ps[i], i == |ps| - 1) }

  function Line(ps: seq<Piece>): string { if ps == [] then "" else Source(ps[0]) + Line(ps[1..]) }

  /** What stands between two gaps, quotes taken off, is one argument, unless nothing is left. */
  function Words(word: string, ps: seq<Piece>): seq<string>
    decreases |ps|
  {
    if ps == [] then if word == "" then [] else [word]
    else if ps[0].Gap? then (if word == "" then [] else [word]) + Words("", ps[1..])
    else Words(word + Content(ps[0]), ps[1..])
  }

  lemma {:induction false} ScanConcat(s: State, a: string, b: string)
    ensures Scan(s, a + b) == Scan(Scan(s, a), b)
    decreases |a|
  {
    if a == "" {
      assert a + b == b;
    } else {
      assert (a + b)[0] == a[0] && (a + b)[1..] == a[1..] + b;
      ScanConcat(Step(s, a[0]), a[1..], b);
    }
  }

  /** Inside quotes every other character is kept. */
  lemma {:induction false} ScanInside(s: State, text: string, quote: char)
    requires (quote == '"' || quote == '\'') && forall i | 0 <= i < |text| :: text[i] != quote
    requires s.inDouble == (quote == '"') && s.inSingle == (quote == '\'')
    ensures Scan(s, text) == s.(current := s.current + text)
    decreases |text|
  {
    if text == "" {
      Unit(s.current);
    } else {
      assert text[0] != quote;
      ScanInside(Step(s, text[0]), text[1..], quote);
      assert text == [text[0]] + text[1..];
      Associative(s.current, [text[0]], text[1..]);
    }
  }

  lemma ScanQuotes(args: seq<string>, word: string, p: Piece, last: bool)
    requires p.Quotes? && IsPiece(p, last)
    ensures var r := Scan(State(args, word, false, false), Source(p));
            r.args == args && r.current == word + p.text && (p.closed ==> !r.inDouble && !r.inSingle)
  {
    var s := State(args, word, false, false);
    var inside := Step(s, p.mark);
    var rest := p.text + if p.closed then [p.mark] else "";
    ScanConcat(s, [p.mark], rest);
    assert Scan(s, [p.mark]) == inside;
    ScanInside(inside, p.text, p.mark);
    if p.closed { ScanConcat(inside, p.text, [p.mark]); } else { Unit(p.text); }
  }

  /** However a line is cut into such pieces, these are its arguments. */
  lemma {:induction false} ScanPieces(args: seq<string>, word: string, ps: seq<Piece>)
    requires ArePieces(ps)
    ensures Flush(Scan(State(args, word, false, false), Line(ps))).args == args + Words(word, ps)
    decreases |ps|
  {
    hide Scan;
    var s := State(args, word, false, false);
    if ps == [] {
      ScanNothing(s);
      Unit(args);
    } else {
      var p, rest := ps[0], ps[1..];
      assert IsPiece(p, |ps| == 1);
      assert forall i | 0 <= i < |rest| :: rest[i] == ps[i + 1];
      ScanConcat(s, Source(p), Line(rest));
      match p
      case Gap =>
        ScanOne(s, ' ');
        var flushed := if word == "" then [] else [word];
        Unit(args);
        ScanPieces(args + flushed, "", rest);
        Associative(args, flushed, Words("", rest));
      case Bare(c) =>
        ScanOne(s, c);
        ScanPieces(args, word + [c], rest);
      case Quotes(_, text, closed) =>
        ScanQuotes(args, word, p, |ps| == 1);
        if closed {
          ScanPieces(args, word + text, rest);
        } else {
          ScanNothing(Scan(s, Source(p)));
          Unit(args);
        }
    }
  }

  lemma ScanOne(s: State, c: char)
    ensures Scan(s, [c]) == Step(s, c)
  {}

  lemma ScanNothing(s: State)
    ensures Scan(s, "") == s
  {}

  lemma SplitsExactly(ps: seq<Piece>)
    requires ArePieces(ps)
    ensures Split(Line(ps)) == Words("", ps)
  {
    ScanPieces([], "", ps);
    Unit(Words("", ps));
  }

  /** And every line is cut into such pieces. */
  lemma {:induction false} EveryLineHasPieces(text: string) returns (ps: seq<Piece>)
    ensures ArePieces(ps) && Line(ps) == text
    decreases |text|
  {
    if text == "" {
      ps := [];
    } else {
      var p := FirstPiece(text);
      NotNothing([p]);
      var rest := EveryLineHasPieces(text[|Source(p)|..]);
      ps := PiecesOn(p, rest, text);
    }
  }

  lemma PiecesOn(p: Piece, rest: seq<Piece>, text: string) returns (ps: seq<Piece>)
    requires Source(p) <= text && IsPiece(p, |Source(p)| == |text|)
    requires ArePieces(rest) && Line(rest) == text[|Source(p)|..]
    ensures ArePieces(ps) && Line(ps) == text
  {
    hide IsPiece, Source;
    ps := [p] + rest;
    assert ps[1..] == rest && text == text[..|Source(p)|] + text[|Source(p)|..];
    if rest != [] { NotNothing(rest); }
  }

  lemma NotNothing(ps: seq<Piece>)
    requires ps != []
    ensures Line(ps) != "" && Source(ps[0]) != ""
  {}

  lemma FirstPiece(text: string) returns (p: Piece)
    requires text != ""
    ensures Source(p) <= text && IsPiece(p, |Source(p)| == |text|)
  {
    var c := text[0];
    if c == ' ' {
      p := Gap;
    } else if c != '"' && c != '\'' {
      p := Bare(c);
    } else {
      var n := Find(text, c, 1);
      p := Quotes(c, text[1..n], n < |text|);
      QuotesFirst(text, c, n);
    }
  }

  lemma QuotesFirst(text: string, mark: char, n: nat)
    requires 1 <= n <= |text| && text[0] == mark && (n < |text| ==> text[n] == mark)
    ensures var source := Source(Quotes(mark, text[1..n], n < |text|));
            source == text[..|source|] && |source| == if n < |text| then n + 1 else n
  {
    if n < |text| {
      assert text[..n + 1] == [mark] + (text[1..n] + [mark]);
    } else {
      assert text == [mark] + (text[1..n] + "");
    }
  }

  // ---- Quoting --------------------------------------------------------------------------------

  /** An argument and the quote character it is wrapped in. */
  datatype Arg = Arg(text: string, quote: char)

  predicate Quotable(a: Arg) {
    (a.quote == '"' || a.quote == '\'') && forall i | 0 <= i < |a.text| :: a.text[i] != a.quote
  }

  predicate AllQuotable(args: seq<Arg>) { forall i | 0 <= i < |args| :: Quotable(args[i]) }

  function Quoted(a: Arg): string { [a.quote] + (a.text + [a.quote]) }

  function CommandLine(args: seq<Arg>): string {
    if args == [] then "" else Quoted(args[0]) + if |args| == 1 then "" else [' '] + CommandLine(args[1..])
  }

  /** The texts of the arguments that are not empty. */
  function Visible(args: seq<Arg>): seq<string> {
    if args == [] then [] else (if args[0].text == "" then [] else [args[0].text]) + Visible(args[1..])
  }

  lemma ScanQuoted(args: seq<string>, a: Arg)
    requires Quotable(a)
    ensures Scan(State(args, "", false, false), Quoted(a)) == State(args, a.text, false, false)
  {
    var s := State(args, "", false, false);
    ScanConcat(s, [a.quote], a.text + [a.quote]);
    var inside := Step(s, a.quote);
    ScanConcat(inside, a.text, [a.quote]);
    ScanInside(inside, a.text, a.quote);
    Unit(a.text);
  }

  lemma {:induction false} ScanLine(done: seq<string>, args: seq<Arg>)
    requires AllQuotable(args)
    ensures Flush(Scan(State(done, "", false, false), CommandLine(args))).args == done + Visible(args)
    decreases |args|
  {
    if args == [] {
      Unit(done);
    } else {
      var a, rest := args[0], args[1..];
      var one := if a.text == "" then [] else [a.text];
      ScanQuoted(done, a);
      Associative(done, one, Visible(rest));
      Unit(done);
      if |args| == 1 {
        Unit(Quoted(a));
        Unit(one);
      } else {
        var s := State(done, "", false, false);
        ScanConcat(s, Quoted(a), [' '] + CommandLine(rest));
        ScanConcat(Scan(s, Quoted(a)), [' '], CommandLine(rest));
        ScanLine(done + one, rest);
      }
    }
  }

  /** Arguments wrapped in a quote character they do not hold, one space between, split back to
      themselves, but that empty ones disappear. */
  lemma SplitInvertsQuoting(args: seq<Arg>)
    requires AllQuotable(args)
    ensures Split(CommandLine(args)) == Visible(args)
  {
    ScanLine([], args);
    Unit(Visible(args));
  }

  /** So they all come back exactly when none is empty. */
  lemma {:induction false} NoneLostExactly(args: seq<Arg>)
    requires AllQuotable(args)
    ensures |Split(CommandLine(args))| <= |args|
    ensures (|Split(CommandLine(args))| == |args|
             && forall i | 0 <= i < |args| :: Split(CommandLine(args))[i] == args[i].text)
        <==> forall i | 0 <= i < |args| :: args[i].text != ""
  {
    SplitInvertsQuoting(args);
    VisibleAll(args);
  }

  lemma {:induction false} VisibleAll(args: seq<Arg>)
    ensures |Visible(args)| <= |args|
    ensures (|Visible(args)| == |args| && forall i | 0 <= i < |args| :: Visible(args)[i] == args[i].text)
        <==> forall i | 0 <= i < |args| :: args[i].text != ""
    decreases |args|
  {
    if args != [] {
      var rest := args[1..];
      VisibleAll(rest);
      assert forall i | 0 <= i < |rest| :: rest[i] == args[i + 1];
      assert args[0].text != "" ==> Visible(args) == [args[0].text] + Visible(rest);
      assert args[0].text == "" ==> |Visible(args)| < |args|;
    }
  }

  /** It happens: an empty argument in quotes splits to nothing. */
  lemma EmptyIsLost()
    ensures Split(CommandLine([Arg("", '"')])) == []
  {
    SplitInvertsQuoting([Arg("", '"')]);
  }
}
