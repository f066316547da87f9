/**
 The ref commands at the head of a git-receive-pack request body, as internal/gitproxy/refs.go
 reads them: pkt-lines, each a length in four hex digits and a payload, up to a flush packet.
 Bodies are bytes.
 */
module RefCommands {
  import opened Base
  import opened Search

  const COMMAND_SECTION_LIMIT := 65536

  datatype RefCommand = RefCommand(oldOid: string, newOid: string, ref: string)

  datatype ParseError = ShortLength | MalformedLength | LengthBelowHeader | ShortPayload | MalformedCommand

  /** The commands, and how much of the body they and the flush packet take. */
  datatype Parsed = Commands(commands: seq<RefCommand>, consumed: nat) | Refused(error: ParseError)

  const NUL: char := 0 as char

  /** The length in bytes of the white space a text starts with, in UTF-8: 0 when it starts with none. */
  function SpaceLength(s: string): (n: nat)
    ensures n <= |s|
  {
    if s == "" then 0
    else if s[0] == ' ' || 9 <= s[0] as int <= 13 then 1
    else if |s| >= 2 && s[0] as int == 0xC2 && (s[1] as int == 0x85 || s[1] as int == 0xA0) then 2
    else if |s| >= 3 && IsWideSpace(s[0] as int, s[1] as int, s[2] as int) then 3
    else 0
  }

  /** U+1680, U+2000 to U+200A, U+2028, U+2029, U+202F, U+205F and U+3000. */
  predicate IsWideSpace(a: int, b: int, c: int) {
    || (a == 0xE1 && b == 0x9A && c == 0x80)
    || (a == 0xE2 && b == 0x80 && (0x80 <= c <= 0x8A || c == 0xA8 || c == 0xA9 || c == 0xAF))
    || (a == 0xE2 && b == 0x81 && c == 0x9F)
    || (a == 0xE3 && b == 0x80 && c == 0x80)
  }

  function HexDigit(c: char): Option<nat> {
    if '0' <= c <= '9' then Some(c as int - '0' as int)
    else if 'a' <= c <= 'f' then Some(c as int - 'a' as int + 10)
    else if 'A' <= c <= 'F' then Some(c as int - 'A' as int + 10)
    else None
  }

  /** parsePktLength: two hex-encoded bytes, the high one first. */
  function PktLength(raw: string): Option<nat> {
    if |raw| != 4 then None
    else match (HexDigit(raw[0]), HexDigit(raw[1]), HexDigit(raw[2]), HexDigit(raw[3]))
      case (Some(a), Some(b), Some(c), Some(d)) => Some((a * 16 + b) * 256 + (c * 16 + d))
      case _ => None
  }

  /** Where the word a text starts with ends. */
  function WordEnd(s: string): (r: nat)
    ensures r <= |s| && (s != "" && SpaceLength(s) == 0 ==> 0 < r)
  {
    if s == "" || SpaceLength(s) > 0 then 0 else 1 + WordEnd(s[1..])
  }

  /** The words of a text, as strings.Fields splits it. */
  function Fields(s: string): seq<string>
    decreases |s|
  {
    if s == "" then []
    else if SpaceLength(s) > 0 then Fields(s[SpaceLength(s)..])
    else [s[..WordEnd(s)]] + Fields(s[WordEnd(s)..])
  }

  /** parseRefCommand: three words, whatever follows a NUL byte being capabilities. */
  function ParseCommand(payload: string): Option<RefCommand> {
    var line := TrimNewlines(payload[..Find(payload, NUL, 0)]);
    var fields := Fields(line);
    if |fields| == 3 then Some(RefCommand(fields[0], fields[1], fields[2])) else None
  }

  /** One pkt-line: the flush packet, a command, or something the parser refuses. */
  datatype Line = Flush | Command(command: RefCommand) | Broken(error: ParseError)

  /** The pkt-line at the start of a text, and its length. */
  function ParseLine(s: string): (r: (Line, nat))
    ensures !r.0.Broken? ==> 4 <= r.1 <= |s|
    ensures r.0.Flush? ==> r.1 == 4
  {
    if |s| < 4 then (Broken(ShortLength), 0)
    else match PktLength(s[..4])
      case None => (Broken(MalformedLength), 0)
      case Some(n) =>
        if n == 0 then (Flush, 4)
        else if n < 4 then (Broken(LengthBelowHeader), 0)
        else if |s| < n then (Broken(ShortPayload), 0)
        else match ParseCommand(s[4..n])
          case None => (Broken(MalformedCommand), 0)
          case Some(c) => (Command(c), n)
  }

  /** The result of a section, a command of n bytes standing before it. */
  function After(c: RefCommand, n: nat, rest: Parsed): Parsed {
    match rest
    case Commands(cs, k) => Commands([c] + cs, n + k)
    case Refused(e) => rest
  }

  /** The command section at the start of a text. */
  function ParseSection(s: string): (r: Parsed)
    ensures r.Commands? ==> 4 <= r.consumed <= |s|
    decreases |s|
  {
    match ParseLine(s)
    case (Flush, n) => Commands([], n)
    case (Command(c), n) => After(c, n, ParseSection(s[n..]))
    case (Broken(e), _) => Refused(e)
  }

  function Cut(s: string, limit: nat): string {
    if |s| <= limit then s else s[..limit]
  }

  /** What parseRefCommands makes of a body: nothing past the limit is looked at. */
  function Parse(body: string): (r: Parsed)
    ensures r.Commands? ==> 4 <= r.consumed <= |body| && r.consumed <= COMMAND_SECTION_LIMIT
  {
    ParseSection(Cut(body, COMMAND_SECTION_LIMIT))
  }

  // ---- The parser over a reader --------------------------------------------------------------

  /** A request body on the wire: what has not been read yet. */
  class Body {
    var unread: string

    constructor (unread: string)
      ensures this.unread == unread
    {
      this.unread := unread;
    }

    /** io.ReadFull through a LimitReader that lets through this many more bytes. */
    method ReadFull(n: nat, limit: nat) returns (got: string, full: bool)
      modifies this
      ensures got + unread == old(unread) && |got| <= limit && |got| <= n
      ensures full <==> |got| == n
      ensures full <==> n <= limit && n <= |old(unread)|
    {
      var k := if n < limit then n else limit;
      k := if k < |unread| then k else |unread|;
      got, unread := unread[..k], unread[k..];
      full := k == n;
    }
  }

  /** Reads one pkt-line through a limit on the bytes left. */
  method ReadLine(body: Body, limit: nat, ghost unread: string) returns (line: Line, seen: string)
    requires unread == body.unread
    modifies body
    ensures unread == seen + body.unread && |seen| <= limit
    ensures line == ParseLine(Cut(unread, limit)).0
    ensures !line.Broken? ==> |seen| == ParseLine(Cut(unread, limit)).1
  {
    ghost var rest := Cut(unread, limit);
    var header, full := body.ReadFull(4, limit);
    seen := header;
    if !full { return Broken(ShortLength), seen; }
    assert rest[..4] == header;
    var length := PktLength(header);
    if length.None? { return Broken(MalformedLength), seen; }
    if length.value == 0 { return Flush, seen; }
    if length.value < 4 { return Broken(LengthBelowHeader), seen; }
    var payload;
    payload, full := body.ReadFull(length.value - 4, limit - 4);
    seen := seen + payload;
    if !full { return Broken(ShortPayload), seen; }
    assert rest[4..length.value] == payload;
    var command := ParseCommand(payload);
    return if command.None? then Broken(MalformedCommand) else Command(command.value), seen;
  }

  lemma CutDrop(s: string, limit: nat, k: nat)
    requires k <= limit && k <= |s|
    ensures Cut(s, limit)[k..] == Cut(s[k..], limit - k)
  {}

  lemma SectionStep(line: string, rest: string, limit: nat, c: RefCommand)
    requires ParseLine(Cut(line + rest, limit)) == (Command(c), |line|)
    ensures |line| <= limit
    ensures ParseSection(Cut(line + rest, limit)) == After(c, |line|, ParseSection(Cut(rest, limit - |line|)))
  {
    assert |line| <= |Cut(line + rest, limit)| <= limit;
    CutDrop(line + rest, limit, |line|);
    assert (line + rest)[|line|..] == rest;
  }

  /** The result of a section whose first bytes held these commands. */
  function Resume(commands: seq<RefCommand>, n: nat, rest: Parsed): Parsed {
    match rest
    case Commands(cs, k) => Commands(commands + cs, n + k)
    case Refused(e) => rest
  }

  lemma ResumeAfter(commands: seq<RefCommand>, n: nat, c: RefCommand, k: nat, rest: Parsed)
    ensures Resume(commands, n, After(c, k, rest)) == Resume(commands + [c], n + k, rest)
  {
    if rest.Commands? { Associative(commands, [c], rest.commands); }
  }

  /** What is left to parse once some commands have been read. */
  ghost predicate Reading(goal: Parsed, commands: seq<RefCommand>, n: nat, left: nat, unread: string) {
    goal == Resume(commands, n, ParseSection(Cut(unread, left)))
  }

  lemma CommandRead(goal: Parsed, commands: seq<RefCommand>, n: nat, left: nat, line: string,
                    unread: string, c: RefCommand)
    requires Reading(goal, commands, n, left, line + unread)
    requires ParseLine(Cut(line + unread, left)) == (Command(c), |line|)
    ensures |line| <= left && Reading(goal, commands + [c], n + |line|, left - |line|, unread)
  {
    SectionStep(line, unread, left, c);
    ResumeAfter(commands, n, c, |line|, ParseSection(Cut(unread, left - |line|)));
  }

  lemma SectionRead(goal: Parsed, commands: seq<RefCommand>, n: nat, left: nat, unread: string)
    requires Reading(goal, commands, n, left, unread)
    requires ParseLine(Cut(unread, left)).0.Flush?
    ensures goal == Commands(commands, n + 4)
  {
    Unit(commands);
  }

  lemma SectionBegins(goal: Parsed, left: nat, unread: string)
    requires goal == ParseSection(Cut(unread, left))
    ensures Reading(goal, [], 0, left, unread)
  {
    if goal.Commands? { Unit(goal.commands); }
  }

  lemma SectionBroken(goal: Parsed, commands: seq<RefCommand>, n: nat, left: nat, unread: string)
    requires Reading(goal, commands, n, left, unread)
    requires ParseLine(Cut(unread, left)).0.Broken?
    ensures goal == Refused(ParseLine(Cut(unread, left)).0.error)
  {}

  /** parseRefCommands: the commands and the bytes read for them. On success, the bytes read
      followed by those still on the wire are the body that arrived. */
  method ParseRefCommands(body: Body) returns (result: Parsed, seen: string)
    modifies body
    ensures result == Parse(old(body.unread))
    ensures result.Commands? ==> |seen| == result.consumed && seen + body.unread == old(body.unread)
  {
    hide ParseSection, ParseLine, Resume;
    var commands: seq<RefCommand> := [];
    seen := "";
    ghost var whole, unread := body.unread, body.unread;
    ghost var goal := Parse(whole);
    SectionBegins(goal, COMMAND_SECTION_LIMIT, whole);
    while true
      invariant unread == body.unread && whole == seen + unread
      invariant |seen| <= COMMAND_SECTION_LIMIT
      invariant Reading(goal, commands, |seen|, COMMAND_SECTION_LIMIT - |seen|, unread)
      decreases |unread|
    {
      var left := COMMAND_SECTION_LIMIT - |seen|;
      var line, bytes := ReadLine(body, left, unread);
      ghost var rest := body.unread;
      Associative(seen, bytes, rest);
      match line {
        case Broken(e) =>
          SectionBroken(goal, commands, |seen|, left, unread);
          return Refused(e), "";
        case Flush =>
          SectionRead(goal, commands, |seen|, left, unread);
          seen := seen + bytes;
          return Commands(commands, |seen|), seen;
        case Command(c) =>
          CommandRead(goal, commands, |seen|, left, bytes, rest, c);
          commands := commands + [c];
          seen := seen + bytes;
          unread := rest;
      }
    }
  }
}
