/**
 Which bodies the parser takes, and for which commands: exactly those that the pkt-line grammar gives
 these commands. White space is told by the code points it encodes.
 */
module RefCommandsExact {
  import opened Base
  import opened Search
  import opened CodePoints
  import opened RefCommands

  // ---- White space ----------------------------------------------------------------------------

  /** A code point below U+10000 in UTF-8. */
  function Utf8(c: int): string
    requires 0 <= c < 0x10000
  {
    if c < 0x80 then [c as char]
    else if c < 0x800 then [(0xC0 + c / 64) as char, (0x80 + c % 64) as char]
    else [(0xE0 + c / 4096) as char, (0x80 + c / 64 % 64) as char, (0x80 + c % 64) as char]
  }

  /** The length of a code point in bytes is that of its encoding. */
  lemma WidthExactly(c: int)
    requires 0 <= c < 0xD800
    ensures Width(c as char) == |Utf8(c)|
  {}

  predicate StartsWithSpace(s: string, c: int) {
    0 <= c < 0xD800 && IsSpace(c as char) && Utf8(c) <= s
  }

  lemma SpacesAreFew(c: int)
    requires 0 <= c < 0xD800 && IsSpace(c as char)
    ensures c == 0x20 || 9 <= c <= 13 || c == 0x85 || c == 0xA0 || c == 0x1680 || 0x2000 <= c <= 0x200A
            || c == 0x2028 || c == 0x2029 || c == 0x202F || c == 0x205F || c == 0x3000
  {}

  lemma SpaceRead(s: string, c: int)
    requires StartsWithSpace(s, c)
    ensures SpaceLength(s) == |Utf8(c)|
  {
    SpacesAreFew(c);
    assert forall i | 0 <= i < |Utf8(c)| :: s[i] == Utf8(c)[i];
  }

  lemma SpaceFound(s: string) returns (c: int)
    requires SpaceLength(s) > 0
    ensures StartsWithSpace(s, c)
  {
    var a := s[0] as int;
    if SpaceLength(s) == 1 {
      c := a;
    } else if SpaceLength(s) == 2 {
      c := s[1] as int;
    } else {
      var b, d := s[1] as int - 0x80, s[2] as int - 0x80;
      c := (a - 0xE0) * 4096 + b * 64 + d;
      assert c / 4096 == a - 0xE0 && c / 64 % 64 == b && c % 64 == d;
    }
    assert s[..|Utf8(c)|] == Utf8(c);
  }

  /** A text starts with white space exactly when it starts with such a code point, and that long. */
  lemma SpaceExactly(s: string, n: nat)
    requires n > 0
    ensures SpaceLength(s) == n <==> exists c :: StartsWithSpace(s, c) && |Utf8(c)| == n
  {
    if SpaceLength(s) == n {
      var c := SpaceFound(s);
      SpaceRead(s, c);
    }
    if c :| StartsWithSpace(s, c) && |Utf8(c)| == n { SpaceRead(s, c); }
  }

  // ---- Words ----------------------------------------------------------------------------------

  predicate White(s: string)
    decreases |s|
  {
    s == "" || (SpaceLength(s) > 0 && White(s[SpaceLength(s)..]))
  }

  /** A word, which white space or the end follows. */
  predicate WordThen(w: string, rest: string) {
    && w != "" && (forall i | 0 <= i < |w| :: SpaceLength((w + rest)[i..]) == 0)
    && (rest == "" || SpaceLength(rest) > 0)
  }

  ghost predicate FirstWord(s: string, gap: string, w: string, rest: string) {
    s == gap + (w + rest) && White(gap) && WordThen(w, rest)
  }

  /** A text is these words with white space between them, and around them perhaps. */
  ghost predicate HasWords(s: string, ws: seq<string>)
    decreases |ws|
  {
    if ws == [] then White(s)
    else exists gap, rest :: FirstWord(s, gap, ws[0], rest) && HasWords(rest, ws[1..])
  }

  lemma {:induction false} WordEndAt(w: string, rest: string)
    requires (forall i | 0 <= i < |w| :: SpaceLength((w + rest)[i..]) == 0) && (rest == "" || SpaceLength(rest) > 0)
    ensures WordEnd(w + rest) == |w|
    decreases |w|
  {
    if w == "" {
      assert w + rest == rest;
    } else {
      assert (w + rest)[0..] == w + rest && (w + rest)[1..] == w[1..] + rest;
      forall i | 0 <= i < |w| - 1 ensures SpaceLength((w[1..] + rest)[i..]) == 0 {
        assert (w[1..] + rest)[i..] == (w + rest)[i + 1..];
      }
      WordEndAt(w[1..], rest);
    }
  }

  /** Where a word ends there is white space, or nothing. */
  lemma {:induction false} WordEndStops(s: string)
    ensures var n := WordEnd(s); n == |s| || SpaceLength(s[n..]) > 0
    ensures forall i | 0 <= i < WordEnd(s) :: SpaceLength(s[i..]) == 0
    decreases |s|
  {
    if s != "" && SpaceLength(s) == 0 {
      WordEndStops(s[1..]);
      assert s[0..] == s;
      forall i | 0 < i < WordEnd(s) ensures SpaceLength(s[i..]) == 0 { assert s[i..] == s[1..][i - 1..]; }
      assert s[WordEnd(s)..] == s[1..][WordEnd(s) - 1..];
    } else {
      assert s[0..] == s;
    }
  }

  /** White space in front of a text changes neither its words nor what follows them. */
  lemma {:induction false} SkipWhite(gap: string, s: string)
    requires White(gap) && gap != ""
    ensures Fields(gap + s) == Fields(s)
    decreases |gap|
  {
    var n := SpaceLength(gap);
    SpaceKept(gap, s);
    assert (gap + s)[n..] == gap[n..] + s;
    if gap[n..] == "" { assert gap[n..] + s == s; } else { SkipWhite(gap[n..], s); }
  }

  lemma SpaceKept(gap: string, s: string)
    requires SpaceLength(gap) > 0
    ensures SpaceLength(gap + s) == SpaceLength(gap)
  {
    var c := SpaceFound(gap);
    SpaceRead(gap, c);
    assert Utf8(c) <= gap + s;
    SpaceRead(gap + s, c);
  }

  lemma {:induction false} WhiteHasNoWords(s: string)
    ensures White(s) <==> Fields(s) == []
    decreases |s|
  {
    if SpaceLength(s) > 0 { WhiteHasNoWords(s[SpaceLength(s)..]); }
  }

  lemma FieldsOf(s: string, gap: string, w: string, rest: string)
    requires FirstWord(s, gap, w, rest)
    ensures Fields(s) == [w] + Fields(rest)
  {
    var t := w + rest;
    assert t[0..] == t;
    WordEndAt(w, rest);
    assert t[..|w|] == w && t[|w|..] == rest;
    if gap == "" { assert s == t; } else { SkipWhite(gap, t); }
  }

  lemma {:induction false} HasTheseWords(s: string, ws: seq<string>)
    requires HasWords(s, ws)
    ensures Fields(s) == ws
    decreases |ws|
  {
    if ws == [] {
      WhiteHasNoWords(s);
    } else {
      var gap, rest :| FirstWord(s, gap, ws[0], rest) && HasWords(rest, ws[1..]);
      FieldsOf(s, gap, ws[0], rest);
      HasTheseWords(rest, ws[1..]);
    }
  }

  lemma {:induction false} FieldsAreWords(s: string)
    ensures HasWords(s, Fields(s))
    decreases |s|
  {
    hide HasWords, WordEnd, SpaceLength;
    if White(s) {
      WhiteHasNoWords(s);
      NoWords(s);
    } else {
      var gap, t := Gap(s);
      WordEndStops(t);
      var w, rest := t[..WordEnd(t)], t[WordEnd(t)..];
      assert t[0..] == t && w + rest == t;
      assert w != "" by { NotEmpty(t); }
      assert FirstWord(s, gap, w, rest);
      FieldsOf(s, gap, w, rest);
      FieldsAreWords(rest);
      MoreWords(s, gap, w, rest, Fields(rest));
    }
  }

  lemma NotEmpty(t: string)
    requires t != "" && SpaceLength(t) == 0
    ensures WordEnd(t) > 0
  {}

  lemma NoWords(s: string)
    requires White(s)
    ensures HasWords(s, [])
  {}

  lemma MoreWords(s: string, gap: string, w: string, rest: string, ws: seq<string>)
    requires FirstWord(s, gap, w, rest) && HasWords(rest, ws)
    ensures HasWords(s, [w] + ws)
  {
    var all := [w] + ws;
    assert all[1..] == ws && all[0] == w;
    assert FirstWord(s, gap, all[0], rest) && HasWords(rest, all[1..]);
  }

  /** The white space a text starts with, and what comes after it. */
  lemma {:induction false} Gap(s: string) returns (gap: string, t: string)
    requires !White(s)
    ensures s == gap + t && White(gap) && t != "" && SpaceLength(t) == 0
    decreases |s|
  {
    hide SpaceLength, IsSpace, Utf8;
    if SpaceLength(s) == 0 {
      gap, t := "", s;
      assert "" + s == s;
    } else {
      var n := SpaceLength(s);
      var more;
      more, t := Gap(s[n..]);
      gap := s[..n] + more;
      var c := SpaceFound(s);
      SpaceRead(s, c);
      assert Utf8(c) <= gap;
      SpaceRead(gap, c);
      assert gap[n..] == more;
      assert s == s[..n] + s[n..];
    }
  }

  // ---- One command ----------------------------------------------------------------------------

  /** The payload before its first NUL byte is three words. */
  predicate BeforeNul(payload: string, head: string) {
    head <= payload && (forall i | 0 <= i < |head| :: head[i] as int != 0)
    && (|head| < |payload| ==> payload[|head|] as int == 0)
  }

  ghost predicate IsCommand(payload: string, c: RefCommand) {
    exists head :: BeforeNul(payload, head) && HasWords(head, [c.oldOid, c.newOid, c.ref])
  }

  /** Newlines at the end of a text are none of its words. */
  lemma {:induction false} TrimKeepsFields(s: string)
    ensures Fields(TrimNewlines(s)) == Fields(s)
    decreases |s|
  {
    hide Fields;
    if s != "" && s[|s| - 1] == '\n' {
      var n := |s| - 1;
      TrimKeepsFields(s[..n]);
      NewlineAtEnd(s[..n]);
      assert s[..n] + "\n" == s;
    }
  }

  lemma {:induction false} NewlineAtEnd(s: string)
    ensures Fields(s + "\n") == Fields(s)
    decreases |s|
  {
    FieldsAreWords(s);
    NewlineAfterWords(s, Fields(s));
    HasTheseWords(s + "\n", Fields(s));
  }

  lemma {:induction false} NewlineAfterWords(s: string, ws: seq<string>)
    requires HasWords(s, ws)
    ensures HasWords(s + "\n", ws)
    decreases |ws|
  {
    hide White, WordThen;
    if ws == [] {
      WhiteThenNewline(s);
    } else {
      var gap, rest :| FirstWord(s, gap, ws[0], rest) && HasWords(rest, ws[1..]);
      NewlineAfterWords(rest, ws[1..]);
      NewlineAfterWord(ws[0], rest);
      assert s + "\n" == gap + (ws[0] + (rest + "\n"));
      MoreWords(s + "\n", gap, ws[0], rest + "\n", ws[1..]);
      assert [ws[0]] + ws[1..] == ws;
    }
  }

  lemma {:induction false} WhiteThenNewline(s: string)
    requires White(s)
    ensures White(s + "\n")
    decreases |s|
  {
    if s == "" {
      assert s + "\n" == "\n" && "\n"[1..] == "";
    } else {
      var n := SpaceLength(s);
      SpaceKept(s, "\n");
      assert (s + "\n")[n..] == s[n..] + "\n";
      WhiteThenNewline(s[n..]);
    }
  }

  /** A newline completes no white space of several bytes. */
  lemma NewlineAfterWord(w: string, rest: string)
    requires WordThen(w, rest)
    ensures WordThen(w, rest + "\n")
  {
    forall i | 0 <= i < |w| ensures SpaceLength((w + (rest + "\n"))[i..]) == 0 {
      assert (w + (rest + "\n"))[i..] == (w + rest)[i..] + "\n";
      NewlineNotInside((w + rest)[i..]);
    }
    if rest != "" { SpaceKept(rest, "\n"); } else { assert rest + "\n" == "\n"; }
  }

  lemma NewlineNotInside(s: string)
    requires s != "" && SpaceLength(s) == 0
    ensures SpaceLength(s + "\n") == 0
  {}

  /** A payload is a command exactly when the grammar says so, and then that one. */
  lemma CommandExactly(payload: string, c: RefCommand)
    ensures ParseCommand(payload) == Some(c) <==> IsCommand(payload, c)
  {
    hide Fields, HasWords;
    var n := Find(payload, NUL, 0);
    var head := payload[..n];
    assert BeforeNul(payload, head);
    TrimKeepsFields(head);
    FieldsAreWords(head);
    if IsCommand(payload, c) {
      var other :| BeforeNul(payload, other) && HasWords(other, [c.oldOid, c.newOid, c.ref]);
      assert other == head by { OneHead(payload, head, other); }
      HasTheseWords(head, [c.oldOid, c.newOid, c.ref]);
    }
    if ParseCommand(payload) == Some(c) {
      assert Fields(head) == [c.oldOid, c.newOid, c.ref];
    }
  }

  lemma OneHead(payload: string, a: string, b: string)
    requires BeforeNul(payload, a) && BeforeNul(payload, b)
    ensures a == b
  {}

  // ---- The section ----------------------------------------------------------------------------

  /** A hex digit in either case. */
  predicate IsDigit(c: char, d: int) {
    var n := c as int;
    || (48 <= n <= 57 && d == n - 48) || (97 <= n <= 102 && d == n - 87) || (65 <= n <= 70 && d == n - 55)
  }

  ghost predicate Digits(s: string, n: int) {
    |s| == 4 && exists a, b, c, d ::
      IsDigit(s[0], a) && IsDigit(s[1], b) && IsDigit(s[2], c) && IsDigit(s[3], d)
      && n == a * 4096 + b * 256 + c * 16 + d
  }

  lemma DigitRead(c: char, d: int)
    ensures IsDigit(c, d) <==> 0 <= d && HexDigit(c) == Some(d)
  {}

  lemma LengthRead(s: string, n: nat)
    requires PktLength(s) == Some(n)
    ensures Digits(s, n)
  {
    hide IsDigit, HexDigit;
    var a, b, c, d := HexDigit(s[0]).value, HexDigit(s[1]).value, HexDigit(s[2]).value, HexDigit(s[3]).value;
    DigitRead(s[0], a);
    DigitRead(s[1], b);
    DigitRead(s[2], c);
    DigitRead(s[3], d);
    assert n == a * 4096 + b * 256 + c * 16 + d;
  }

  lemma LengthExactly(s: string, n: nat)
    ensures PktLength(s) == Some(n) <==> Digits(s, n)
  {
    hide IsDigit, HexDigit;
    if PktLength(s) == Some(n) { LengthRead(s, n); }
    if Digits(s, n) {
      var a, b, c, d :|
        IsDigit(s[0], a) && IsDigit(s[1], b) && IsDigit(s[2], c) && IsDigit(s[3], d)
        && n == a * 4096 + b * 256 + c * 16 + d;
      DigitRead(s[0], a);
      DigitRead(s[1], b);
      DigitRead(s[2], c);
      DigitRead(s[3], d);
    }
  }

  /** A pkt-line: four digits that count the whole line, and a command. */
  ghost predicate IsLine(line: string, c: RefCommand) {
    4 <= |line| && Digits(line[..4], |line|) && IsCommand(line[4..], c)
  }

  /** Pkt-lines of these commands, then the flush packet, n bytes in all. */
  ghost predicate IsSection(s: string, cs: seq<RefCommand>, n: nat)
    decreases |cs|
  {
    if cs == [] then n == 4 && "0000" <= s
    else exists k: nat :: k <= n && k <= |s| && IsLine(s[..k], cs[0]) && IsSection(s[k..], cs[1..], n - k)
  }

  lemma ZeroLength(s: string)
    requires |s| == 4
    ensures Digits(s, 0) <==> s == "0000"
  {
    if s == "0000" {
      assert IsDigit(s[0], 0) && IsDigit(s[1], 0) && IsDigit(s[2], 0) && IsDigit(s[3], 0);
      assert 0 == 0 * 4096 + 0 * 256 + 0 * 16 + 0;
    }
  }

  lemma LineExactly(s: string, c: RefCommand, k: nat)
    ensures ParseLine(s) == (Command(c), k) <==> 4 <= k <= |s| && IsLine(s[..k], c)
  {
    hide Digits, IsCommand, PktLength, ParseCommand;
    if |s| >= 4 {
      LengthExactly(s[..4], k);
      if 4 <= k <= |s| {
        assert s[..k][..4] == s[..4] && s[..k][4..] == s[4..k];
        CommandExactly(s[4..k], c);
      }
    }
  }

  lemma FlushExactly(s: string)
    ensures ParseLine(s).0.Flush? <==> "0000" <= s
  {
    hide Digits, PktLength, ParseCommand;
    if |s| >= 4 {
      LengthExactly(s[..4], 0);
      ZeroLength(s[..4]);
    }
  }

  lemma {:induction false} SectionExactly(s: string, cs: seq<RefCommand>, n: nat)
    ensures ParseSection(s) == Commands(cs, n) <==> IsSection(s, cs, n)
    decreases |s|
  {
    hide ParseLine, IsLine;
    FlushExactly(s);
    var (line, k) := ParseLine(s);
    match line
    case Flush => NoCommandFirst(s, cs, n);
    case Broken(_) =>
      if IsSection(s, cs, n) && cs != [] {
        var i: nat :| i <= n && i <= |s| && IsLine(s[..i], cs[0]) && IsSection(s[i..], cs[1..], n - i);
        LineFound(s, cs[0], i);
      }
    case Command(c) =>
      LineExactly(s, c, k);
      if cs != [] {
        assert [cs[0]] + cs[1..] == cs;
        if k <= n { SectionExactly(s[k..], cs[1..], n - k); }
        if IsSection(s, cs, n) {
          var i: nat :| i <= n && i <= |s| && IsLine(s[..i], cs[0]) && IsSection(s[i..], cs[1..], n - i);
          LineFound(s, cs[0], i);
        }
      }
  }

  lemma LineFound(s: string, c: RefCommand, k: nat)
    requires k <= |s| && IsLine(s[..k], c)
    ensures ParseLine(s) == (Command(c), k)
  {
    LineExactly(s, c, k);
  }

  lemma NoCommandFirst(s: string, cs: seq<RefCommand>, n: nat)
    requires ParseLine(s).0.Flush? && "0000" <= s
    ensures ParseSection(s) == Commands(cs, n) <==> IsSection(s, cs, n)
  {
    if IsSection(s, cs, n) && cs != [] {
      var i: nat :| i <= n && i <= |s| && IsLine(s[..i], cs[0]) && IsSection(s[i..], cs[1..], n - i);
      LineFound(s, cs[0], i);
      assert false;
    }
  }

  /** The parser takes a body for these commands and this many bytes exactly when it starts with
      their pkt-lines and the flush packet, that long, and within 64 KiB; every other body is
      refused. */
  lemma ParsesExactly(body: string, cs: seq<RefCommand>, n: nat)
    ensures Parse(body) == Commands(cs, n) <==> IsSection(body, cs, n) && n <= 65536
  {
    hide ParseSection;
    var cut := Cut(body, COMMAND_SECTION_LIMIT);
    SectionExactly(cut, cs, n);
    if IsSection(body, cs, n) && n <= 65536 { SectionWithin(body, cut, cs, n); }
    if IsSection(cut, cs, n) {
      SectionSize(cut, cs, n);
      SectionWithin(cut, body, cs, n);
    }
  }

  lemma {:induction false} SectionSize(s: string, cs: seq<RefCommand>, n: nat)
    requires IsSection(s, cs, n)
    ensures n <= |s|
    decreases |cs|
  {
    hide IsLine;
    if cs != [] {
      var k: nat :| k <= n && k <= |s| && IsLine(s[..k], cs[0]) && IsSection(s[k..], cs[1..], n - k);
      SectionSize(s[k..], cs[1..], n - k);
    }
  }

  /** What a section is depends on its own bytes alone. */
  lemma {:induction false} SectionWithin(s: string, u: string, cs: seq<RefCommand>, n: nat)
    requires IsSection(s, cs, n) && n <= |u| && n <= |s| && u[..n] == s[..n]
    ensures IsSection(u, cs, n)
    decreases |cs|
  {
    hide IsLine;
    if cs == [] {
      assert u[..4] == s[..4] == "0000";
    } else {
      var k: nat :| k <= n && k <= |s| && IsLine(s[..k], cs[0]) && IsSection(s[k..], cs[1..], n - k);
      assert u[..k] == u[..n][..k] == s[..k];
      assert u[k..][..n - k] == u[..n][k..] == s[k..][..n - k];
      SectionWithin(s[k..], u[k..], cs[1..], n - k);
    }
  }
}
