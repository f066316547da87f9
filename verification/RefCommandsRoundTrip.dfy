/**
 A push as Git writes it, one pkt-line for each command and a flush packet, parses back to the
 commands it holds and leaves the packfile behind it unread; past the limit it is refused.
 */
module RefCommandsRoundTrip {
  import opened Base
  import opened Search
  import opened RefCommands

  /** A command and what follows it on its line. */
  datatype Sent = Sent(command: RefCommand, tail: string)

  predicate IsWord(w: string) {
    w != "" && forall i | 0 <= i < |w| :: w[i] != NUL && SpaceLength(w[i..]) == 0
  }

  /** Newlines, then perhaps a NUL byte and capabilities of any kind. */
  predicate IsTail(t: string) {
    t == "" || t[0] == NUL || (t[0] == '\n' && IsTail(t[1..]))
  }

  function Text(c: RefCommand): string {
    c.oldOid + (" " + (c.newOid + (" " + c.ref)))
  }

  predicate WellFormed(x: Sent) {
    && IsWord(x.command.oldOid) && IsWord(x.command.newOid) && IsWord(x.command.ref) && IsTail(x.tail)
    && 4 + |Text(x.command) + x.tail| < 0x10000
  }

  function HexChar(d: nat): char
    requires d < 16
  {
    if d < 10 then ('0' as int + d) as char else ('a' as int + d - 10) as char
  }

  function Hex4(n: nat): (r: string)
    requires n < 0x10000
    ensures |r| == 4
  {
    [HexChar(n / 16 / 16 / 16), HexChar(n / 16 / 16 % 16), HexChar(n / 16 % 16), HexChar(n % 16)]
  }

  lemma HexCharRead(d: nat)
    requires d < 16
    ensures HexDigit(HexChar(d)) == Some(d)
  {}

  lemma Hex4Read(n: nat)
    requires n < 0x10000
    ensures PktLength(Hex4(n)) == Some(n)
  {
    var p, q := n / 16, n / 16 / 16;
    assert n == p * 16 + n % 16 && p == q * 16 + p % 16 && q == q / 16 * 16 + q % 16;
    HexCharRead(q / 16);
    HexCharRead(q % 16);
    HexCharRead(p % 16);
    HexCharRead(n % 16);
  }

  function EncodeLine(x: Sent): string
    requires WellFormed(x)
  {
    Hex4(4 + |Text(x.command) + x.tail|) + (Text(x.command) + x.tail)
  }

  predicate AllWellFormed(xs: seq<Sent>) {
    forall i | 0 <= i < |xs| :: WellFormed(xs[i])
  }

  function Encode(xs: seq<Sent>): string
    requires AllWellFormed(xs)
  {
    if xs == [] then "0000" else EncodeLine(xs[0]) + Encode(xs[1..])
  }

  function Sendings(xs: seq<Sent>): seq<RefCommand> {
    if xs == [] then [] else [xs[0].command] + Sendings(xs[1..])
  }

  // ---- One command ----------------------------------------------------------------------------

  lemma {:induction false} WordEnds(w: string, rest: string)
    requires forall i | 0 <= i < |w| :: SpaceLength(w[i..]) == 0
    requires rest == "" || rest[0] == ' '
    ensures WordEnd(w + rest) == |w|
  {
    if w == "" {
      assert w + rest == rest;
    } else {
      assert SpaceLength(w[0..]) == 0 && w[0..] == w;
      forall i | 0 <= i < |w[1..]| ensures SpaceLength(w[1..][i..]) == 0 {
        assert w[1..][i..] == w[i + 1..];
      }
      WordEnds(w[1..], rest);
      assert (w + rest)[1..] == w[1..] + rest;
    }
  }

  lemma FieldsOfWord(w: string, rest: string)
    requires IsWord(w) && (rest == "" || rest[0] == ' ')
    ensures Fields(w + rest) == [w] + Fields(rest)
  {
    WordEnds(w, rest);
    assert w[0..] == w && SpaceLength(w) == 0;
    assert (w + rest)[..|w|] == w && (w + rest)[|w|..] == rest;
  }

  lemma FieldsAfterSpace(s: string)
    ensures Fields(" " + s) == Fields(s)
  {
    assert (" " + s)[1..] == s;
  }

  lemma FieldsOfText(c: RefCommand)
    requires IsWord(c.oldOid) && IsWord(c.newOid) && IsWord(c.ref)
    ensures Fields(Text(c)) == [c.oldOid, c.newOid, c.ref]
  {
    FieldsOfWord(c.oldOid, " " + (c.newOid + (" " + c.ref)));
    FieldsAfterSpace(c.newOid + (" " + c.ref));
    FieldsOfWord(c.newOid, " " + c.ref);
    FieldsAfterSpace(c.ref);
    FieldsOfWord(c.ref, "");
    assert c.ref + "" == c.ref;
  }

  /** Cutting at the NUL byte and trimming newlines takes the tail away. */
  lemma {:induction false} TailDrops(s: string, t: string)
    requires s != "" && s[|s| - 1] != '\n' && (forall i | 0 <= i < |s| :: s[i] != NUL) && IsTail(t)
    ensures TrimNewlines((s + t)[..Find(s + t, NUL, 0)]) == s
  {
    var n := NewlinesOf(t);
    var end := Find(s + t, NUL, 0);
    assert end == |s| + n by {
      assert forall i | 0 <= i < |s| + n :: (s + t)[i] != NUL;
      assert n < |t| ==> (s + t)[|s| + n] == NUL;
    }
    assert (s + t)[..end] == s + t[..n];
    NewlinesTrim(s, t[..n]);
  }

  function NewlinesOf(t: string): (n: nat)
    requires IsTail(t)
    ensures n <= |t| && (n < |t| ==> t[n] == NUL) && forall i | 0 <= i < n :: t[i] == '\n'
  {
    if t == "" || t[0] == NUL then 0 else 1 + NewlinesOf(t[1..])
  }

  lemma {:induction false} NewlinesTrim(s: string, t: string)
    requires s != "" && s[|s| - 1] != '\n' && forall i | 0 <= i < |t| :: t[i] == '\n'
    ensures TrimNewlines(s + t) == s
  {
    if t == "" {
      Unit(s);
    } else {
      NewlinesTrim(s, t[..|t| - 1]);
      assert (s + t)[..|s + t| - 1] == s + t[..|t| - 1];
    }
  }

  lemma CommandReadsBack(x: Sent)
    requires WellFormed(x)
    ensures ParseCommand(Text(x.command) + x.tail) == Some(x.command)
  {
    var c := x.command;
    var last := c.ref[|c.ref| - 1];
    assert SpaceLength(c.ref[|c.ref| - 1..]) == 0 && last != '\n';
    TextHasNoNul(c);
    TailDrops(Text(c), x.tail);
    FieldsOfText(c);
  }

  lemma TextHasNoNul(c: RefCommand)
    requires IsWord(c.oldOid) && IsWord(c.newOid) && IsWord(c.ref)
    ensures Text(c) != "" && Text(c)[|Text(c)| - 1] == c.ref[|c.ref| - 1]
    ensures forall i | 0 <= i < |Text(c)| :: Text(c)[i] != NUL
  {}

  // ---- The section ----------------------------------------------------------------------------

  lemma LineReadsBack(x: Sent, rest: string)
    requires WellFormed(x)
    ensures ParseLine(EncodeLine(x) + rest) == (Command(x.command), |EncodeLine(x)|)
  {
    var payload := Text(x.command) + x.tail;
    var n := 4 + |payload|;
    var s := EncodeLine(x) + rest;
    Hex4Read(n);
    assert s[..4] == Hex4(n);
    assert s[4..n] == payload;
    CommandReadsBack(x);
  }

  /** A line the limit cuts short is refused. */
  lemma CutLineBroken(x: Sent, limit: nat)
    requires WellFormed(x) && limit < |EncodeLine(x)|
    ensures ParseLine(EncodeLine(x)[..limit]).0.Broken?
  {
    var n := 4 + |Text(x.command) + x.tail|;
    Hex4Read(n);
    if limit >= 4 {
      assert EncodeLine(x)[..limit][..4] == Hex4(n);
    }
  }

  lemma FlushReads(rest: string)
    ensures ParseLine("0000" + rest) == (Flush, 4)
  {
    assert ("0000" + rest)[..4] == "0000";
  }

  lemma CutLonger(a: string, b: string, limit: nat)
    requires |a| <= limit
    ensures Cut(a + b, limit) == a + Cut(b, limit - |a|)
  {}

  lemma LineThenSection(x: Sent, rest: string, limit: nat)
    requires WellFormed(x) && |EncodeLine(x)| <= limit
    ensures ParseSection(Cut(EncodeLine(x) + rest, limit))
         == After(x.command, |EncodeLine(x)|, ParseSection(Cut(rest, limit - |EncodeLine(x)|)))
  {
    var line := EncodeLine(x);
    CutLonger(line, rest, limit);
    LineReadsBack(x, Cut(rest, limit - |line|));
    SectionStep(line, rest, limit, x.command);
  }

  lemma CutLineRefused(x: Sent, rest: string, limit: nat)
    requires WellFormed(x) && limit < |EncodeLine(x)|
    ensures ParseSection(Cut(EncodeLine(x) + rest, limit)).Refused?
  {
    assert Cut(EncodeLine(x) + rest, limit) == EncodeLine(x)[..limit];
    CutLineBroken(x, limit);
  }

  lemma FlushEndsSection(pack: string, limit: nat)
    ensures ParseSection(Cut("0000" + pack, limit)) == if limit < 4 then Refused(ShortLength) else Commands([], 4)
  {
    if 4 <= limit {
      CutLonger("0000", pack, limit);
      FlushReads(Cut(pack, limit - 4));
    }
  }

  lemma {:induction false} SectionReadsBack(xs: seq<Sent>, pack: string, limit: nat)
    requires AllWellFormed(xs)
    ensures |Encode(xs)| <= limit ==>
              ParseSection(Cut(Encode(xs) + pack, limit)) == Commands(Sendings(xs), |Encode(xs)|)
    ensures |Encode(xs)| > limit ==> ParseSection(Cut(Encode(xs) + pack, limit)).Refused?
    decreases |xs|
  {
    hide ParseSection, EncodeLine;
    if xs == [] {
      FlushEndsSection(pack, limit);
    } else {
      var line, later := EncodeLine(xs[0]), Encode(xs[1..]);
      Associative(line, later, pack);
      if |line| <= limit {
        LineThenSection(xs[0], later + pack, limit);
        SectionReadsBack(xs[1..], pack, limit - |line|);
      } else {
        CutLineRefused(xs[0], later + pack, limit);
      }
    }
  }

  /** A well-formed push is read exactly, whatever packfile follows, when its section fits the
      limit; a longer one is refused. */
  lemma PushReadsBack(xs: seq<Sent>, pack: string)
    requires AllWellFormed(xs)
    ensures |Encode(xs)| <= COMMAND_SECTION_LIMIT ==>
              Parse(Encode(xs) + pack) == Commands(Sendings(xs), |Encode(xs)|)
              && (Encode(xs) + pack)[|Encode(xs)|..] == pack
    ensures |Encode(xs)| > COMMAND_SECTION_LIMIT ==> Parse(Encode(xs) + pack).Refused?
  {
    SectionReadsBack(xs, pack, COMMAND_SECTION_LIMIT);
  }
}
