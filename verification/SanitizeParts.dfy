/**
 What the sanitiser makes of any text, part by part: the text splits as the tag pattern
 <(/?)([a-zA-Z][a-zA-Z0-9_-]*)((?:\s[^>]*)?)> and the blocks of code split it, and each part is
 kept, dropped, or written as an entity.
 */
module SanitizeParts {
  import opened Base
  import opened Search
  import opened Sanitize

  // ---- Tags -----------------------------------------------------------------------------------

  predicate Upper(c: char) { 0x41 <= c as int <= 0x5A }

  predicate Letter(c: char) { Upper(c) || 0x61 <= c as int <= 0x7A }

  predicate NameByte(c: char) { Letter(c) || 0x30 <= c as int <= 0x39 || c as int == 0x5F || c as int == 0x2D }

  predicate Space(c: char) { c as int == 0x20 || 9 <= c as int <= 10 || 12 <= c as int <= 13 }

  /** What the pattern's three groups match. */
  datatype Groups = Groups(closing: bool, name: string, rest: string)

  predicate Matches(t: Groups) {
    && t.name != "" && Letter(t.name[0]) && (forall i | 0 <= i < |t.name| :: NameByte(t.name[i]))
    && (t.rest != "" ==> Space(t.rest[0])) && forall i | 0 <= i < |t.rest| :: t.rest[i] != '>'
  }

  function TagText(t: Groups): string { (if t.closing then "</" else "<") + (t.name + (t.rest + ">")) }

  /** A name spells a word in letters of any case. */
  predicate Spells(name: string, word: string) {
    |name| == |word| && forall i | 0 <= i < |name| ::
      if Upper(name[i]) then word[i] as int == name[i] as int + 0x20 else word[i] == name[i]
  }

  const ACCEPTED := ["b", "strong", "i", "em", "u", "ins", "s", "strike", "del", "code", "pre", "blockquote", "a",
                     "tg-spoiler", "tg-emoji"]

  predicate Accepted(name: string) { exists k :: 0 <= k < |ACCEPTED| && Spells(name, ACCEPTED[k]) }

  // ---- Parts ----------------------------------------------------------------------------------

  /** Text without a bracket, a bracket that begins no tag, a tag that is not accepted, one that is,
      and a block of code, closed or not. */
  datatype Part =
    | Plain(text: string)
    | Bare
    | Dropped(tag: Groups)
    | Kept(tag: Groups)
    | Block(tag: Groups, word: string, inside: string, closed: bool)

  function Ending(word: string): string { "</" + (word + ">") }

  function Source(p: Part): string {
    match p
    case Plain(text) => text
    case Bare => "<"
    case Dropped(tag) => TagText(tag)
    case Kept(tag) => TagText(tag)
    case Block(tag, word, inside, closed) => TagText(tag) + (inside + if closed then Ending(word) else "")
  }

  function Output(p: Part): string {
    match p
    case Bare => "&lt;"
    case Dropped(_) => ""
    case _ => Source(p)
  }

  predicate BeginsBlock(tag: Groups, word: string) {
    !tag.closing && Spells(tag.name, word) && (word == "pre" || word == "code")
  }

  /** Whether a part is what it says, this text coming after it. */
  ghost predicate Splits(p: Part, after: string) {
    match p
    case Plain(text) => text != "" && (forall i | 0 <= i < |text| :: text[i] != '<') && (after == "" || after[0] == '<')
    case Bare => forall t: Groups | Matches(t) :: !(TagText(t) <= "<" + after)
    case Dropped(tag) => Matches(tag) && !Accepted(tag.name)
    case Kept(tag) => Matches(tag) && Accepted(tag.name) && !BeginsBlock(tag, "pre") && !BeginsBlock(tag, "code")
    case Block(tag, word, inside, closed) =>
      Matches(tag) && BeginsBlock(tag, word)
      && if closed then forall j | 0 <= j < |inside| :: !Occurs(inside + Ending(word), Ending(word), j)
         else after == "" && forall j | 0 <= j <= |inside| :: !Occurs(inside, Ending(word), j)
  }

  function Sources(ps: seq<Part>): string { if ps == [] then "" else Source(ps[0]) + Sources(ps[1..]) }

  function Outputs(ps: seq<Part>): string { if ps == [] then "" else Output(ps[0]) + Outputs(ps[1..]) }

  ghost predicate AllSplit(ps: seq<Part>) {
    ps == [] || (Splits(ps[0], Sources(ps[1..])) && AllSplit(ps[1..]))
  }

  // ---- The matcher finds the pattern's tags ---------------------------------------------------

  lemma SameCharacters(c: char)
    ensures IsLetter(c) == Letter(c) && IsNameChar(c) == NameByte(c) && IsTagSpace(c) == Space(c)
  {}

  lemma {:induction false} NameEndsAt(s: string, i: nat, b: nat)
    requires i <= b < |s| && !IsNameChar(s[b]) && forall j | i <= j < b :: IsNameChar(s[j])
    ensures NameEnd(s, i) == b
    decreases b - i
  {
    if i < b { NameEndsAt(s, i + 1, b); }
  }

  lemma {:induction false} FindsAt(s: string, c: char, i: nat, e: nat)
    requires i <= e < |s| && s[e] == c && forall j | i <= j < e :: s[j] != c
    ensures Find(s, c, i) == e
    decreases e - i
  {
    if i < e { FindsAt(s, c, i + 1, e); }
  }

  /** Where the parts of a tag stand. */
  lemma TagPlaces(t: Groups, s: string)
    requires TagText(t) <= s
    ensures var a := if t.closing then 2 else 1;
            var b := a + |t.name|;
            var e := b + |t.rest|;
            && |TagText(t)| == e + 1 && s[0] == '<' && (t.closing ==> s[1] == '/')
            && s[a..b] == t.name && s[b..e] == t.rest && s[e] == '>'
            && (forall i | 0 <= i < |t.name| :: s[a + i] == t.name[i])
            && (forall i | 0 <= i < |t.rest| :: s[b + i] == t.rest[i])
  {
    var a := if t.closing then 2 else 1;
    var b := a + |t.name|;
    var e := b + |t.rest|;
    var after, front := s[e + 1..], if t.closing then "</" else "<";
    assert s == TagText(t) + after;
    assert TagText(t) == front + (t.name + (t.rest + ">"));
    hide TagText;
    Behind(front, t.name, t.rest + ">", after);
    Behind(front + t.name, t.rest, ">", after);
    Associative(front, t.name, t.rest + ">");
  }

  /** The middle one of some texts put together. */
  lemma Behind(front: string, text: string, more: string, after: string)
    ensures var s := (front + (text + more)) + after;
            var b := |front| + |text|;
            && s[|front|..b] == text && (forall i | 0 <= i < |text| :: s[|front| + i] == text[i])
            && (forall i | 0 <= i < |front| :: s[i] == front[i]) && (more != "" ==> s[b] == more[0])
  {
    var s := (front + (text + more)) + after;
    assert s == front + (text + (more + after));
  }

  lemma FindsTag(s: string, t: Groups)
    requires Matches(t) && TagText(t) <= s
    ensures MatchTag(s) == Some(Tag(|TagText(t)|, Lower(t.name), t.closing))
  {
    TagPlaces(t, s);
    var a := if t.closing then 2 else 1;
    var b := a + |t.name|;
    var e := b + |t.rest|;
    SameCharacters(s[a]);
    forall j | a + 1 <= j < b ensures IsNameChar(s[j]) { SameCharacters(s[j]); assert s[j] == t.name[j - a]; }
    SameCharacters(s[b]);
    assert s[b] == if t.rest == "" then '>' else t.rest[0];
    NameEndsAt(s, a + 1, b);
    if t.rest != "" {
      forall j | b + 1 <= j < e ensures s[j] != '>' { assert s[j] == t.rest[j - b]; }
      FindsAt(s, '>', b + 1, e);
    }
  }

  /** Where the matcher finds the parts of a tag. */
  lemma MatchPlaces(s: string) returns (a: nat, b: nat, e: nat)
    requires MatchTag(s).Some?
    ensures a == (if s[1] == '/' then 2 else 1) && 2 <= |s| && a < b <= e < |s|
    ensures s[0] == '<' && IsLetter(s[a]) && (forall j | a <= j < b :: IsNameChar(s[j])) && s[e] == '>'
    ensures (b < e ==> IsTagSpace(s[b])) && forall j | b <= j < e :: s[j] != '>'
    ensures MatchTag(s) == Some(Tag(e + 1, Lower(s[a..b]), a == 2))
  {
    a := if s[1] == '/' then 2 else 1;
    b := NameEnd(s, a + 1);
    e := if IsTagSpace(s[b]) then Find(s, '>', b + 1) else b;
  }

  lemma TagOfPlaces(s: string, a: nat, b: nat, e: nat)
    requires 2 <= |s| && a == (if s[1] == '/' then 2 else 1) && a < b <= e < |s| && s[0] == '<' && s[e] == '>'
    ensures TagText(Groups(a == 2, s[a..b], s[b..e])) == s[..e + 1]
  {
    assert s[..a] == if a == 2 then "</" else "<";
    assert s[..e + 1] == s[..a] + (s[a..b] + (s[b..e] + [s[e]]));
  }

  /** And nothing else: what it matches is a tag of the pattern. */
  lemma TagFound(s: string) returns (t: Groups)
    requires MatchTag(s).Some?
    ensures Matches(t) && TagText(t) <= s
    ensures MatchTag(s) == Some(Tag(|TagText(t)|, Lower(t.name), t.closing))
  {
    hide MatchTag, TagText, Lower;
    var a, b, e := MatchPlaces(s);
    t := Groups(a == 2, s[a..b], s[b..e]);
    TagOfPlaces(s, a, b, e);
    SameCharacters(s[a]);
    SameCharacters(s[b]);
    forall i | 0 <= i < |t.name| ensures NameByte(t.name[i]) { SameCharacters(s[a + i]); }
    forall i | 0 <= i < |t.rest| ensures t.rest[i] != '>' { assert t.rest[i] == s[b + i]; }
  }

  // ---- Names ----------------------------------------------------------------------------------

  lemma LowerSpells(name: string, word: string)
    requires forall i | 0 <= i < |word| :: !Upper(word[i])
    ensures Spells(name, word) <==> Lower(name) == word
  {
    if Spells(name, word) { assert Lower(name) == word; }
  }

  lemma AcceptedNames(name: string)
    ensures Accepted(name) <==> AllowedTag(Lower(name))
  {
    forall k | 0 <= k < |ACCEPTED| ensures Spells(name, ACCEPTED[k]) <==> Lower(name) == ACCEPTED[k] {
      AcceptedAreLower(k);
      LowerSpells(name, ACCEPTED[k]);
    }
    if AllowedTag(Lower(name)) {
      var k := PlaceOf(Lower(name));
      assert Spells(name, ACCEPTED[k]);
    }
  }

  lemma AcceptedAreLower(k: nat)
    requires k < |ACCEPTED|
    ensures forall i | 0 <= i < |ACCEPTED[k]| :: !Upper(ACCEPTED[k][i])
  {}

  lemma PlaceOf(word: string) returns (k: nat)
    requires AllowedTag(word)
    ensures k < |ACCEPTED| && ACCEPTED[k] == word
  {
    k := if word == "b" then 0 else if word == "strong" then 1 else if word == "i" then 2
         else if word == "em" then 3 else if word == "u" then 4 else if word == "ins" then 5
         else if word == "s" then 6 else if word == "strike" then 7 else if word == "del" then 8
         else if word == "code" then 9 else if word == "pre" then 10 else if word == "blockquote" then 11
         else if word == "a" then 12 else if word == "tg-spoiler" then 13 else 14;
  }

  lemma BlockNames(tag: Groups, word: string)
    requires word == "pre" || word == "code"
    ensures Spells(tag.name, word) <==> Lower(tag.name) == word
  {
    LowerSpells(tag.name, word);
  }

  // ---- Every text -----------------------------------------------------------------------------

  lemma SanitizeBracket(s: string)
    requires s != "" && s[0] == '<'
    ensures SanitizeHTML(s) == SanitizeTag(s)
  {
    assert s[0..] == s && s[..0] == "";
    Unit(SanitizeTag(s));
  }

  lemma PlainThen(text: string, after: string)
    requires Splits(Plain(text), after)
    ensures SanitizeHTML(text + after) == text + SanitizeHTML(after)
  {
    var s := text + after;
    if after == "" {
      assert s == text;
      Unit(text);
    } else {
      assert forall j | 0 <= j < |text| :: s[j] == text[j];
      FindsAt(s, '<', 0, |text|);
      assert s[..|text|] == text && s[|text|..] == after;
      SanitizeBracket(after);
    }
  }

  lemma BareThen(after: string)
    requires Splits(Bare, after)
    ensures SanitizeHTML("<" + after) == "&lt;" + SanitizeHTML(after)
  {
    var s := "<" + after;
    SanitizeBracket(s);
    if MatchTag(s).Some? { var t := TagFound(s); }
    assert s[1..] == after;
  }

  lemma TagThen(p: Part, after: string)
    requires (p.Dropped? || p.Kept?) && Splits(p, after)
    ensures SanitizeHTML(Source(p) + after) == Output(p) + SanitizeHTML(after)
  {
    var tag, text := p.tag, TagText(p.tag);
    var s := text + after;
    TagPlaces(tag, text);
    SanitizeBracket(s);
    FindsTag(s, tag);
    AcceptedNames(tag.name);
    BlockNames(tag, "pre");
    BlockNames(tag, "code");
    assert s[..|text|] == text && s[|text|..] == after && s[..0] == "";
  }

  /** A place inside the first part of a text is the same place of the whole. */
  lemma OccursWithin(u: string, after: string, sub: string, j: nat)
    requires j + |sub| <= |u|
    ensures Occurs(u + after, sub, j) == Occurs(u, sub, j)
  {
    assert (u + after)[j..j + |sub|] == u[j..j + |sub|];
  }

  lemma FirstAt(u: string, sub: string, e: nat)
    requires Occurs(u, sub, e) && forall j | 0 <= j < e :: !Occurs(u, sub, j)
    ensures FindText(u, sub, 0) == Some(e)
  {
    FirstOccurrence(u, sub, e);
  }

  /** Where a block ends, the text behind its tag being given. */
  lemma ClosedEnds(word: string, inside: string, after: string)
    requires forall j | 0 <= j < |inside| :: !Occurs(inside + Ending(word), Ending(word), j)
    ensures ZoneLength((inside + Ending(word)) + after, word) == |inside + Ending(word)|
  {
    var u := inside + Ending(word);
    assert CloseTag(word) == Ending(word);
    assert u[|inside|..|inside| + |Ending(word)|] == Ending(word);
    forall j | 0 <= j <= |inside| ensures Occurs(u + after, Ending(word), j) == Occurs(u, Ending(word), j) {
      OccursWithin(u, after, Ending(word), j);
    }
    FirstAt(u + after, Ending(word), |inside|);
  }

  lemma OpenEnds(word: string, inside: string)
    requires forall j | 0 <= j <= |inside| :: !Occurs(inside, Ending(word), j)
    ensures ZoneLength(inside, word) == |inside|
  {
    assert CloseTag(word) == Ending(word);
  }

  lemma BlockTag(s: string, tag: Groups, word: string, zone: string)
    requires Matches(tag) && BeginsBlock(tag, word) && s == TagText(tag) + zone
    ensures var n := |TagText(tag)| + ZoneLength(zone, word);
            n <= |s| && SanitizeHTML(s) == s[..n] + SanitizeHTML(s[n..])
  {
    hide ZoneLength;
    TagPlaces(tag, TagText(tag));
    SanitizeBracket(s);
    FindsTag(s, tag);
    BlockNames(tag, word);
    assert s[|TagText(tag)|..] == zone;
  }

  lemma BlockThen(p: Part, after: string)
    requires p.Block? && Splits(p, after)
    ensures SanitizeHTML(Source(p) + after) == Output(p) + SanitizeHTML(after)
  {
    hide TagText, Matches, ZoneLength, SanitizeHTML, Occurs, BeginsBlock;
    var inner := p.inside + if p.closed then Ending(p.word) else "";
    Associative(TagText(p.tag), inner, after);
    BlockTag(Source(p) + after, p.tag, p.word, inner + after);
    if p.closed {
      ClosedEnds(p.word, p.inside, after);
    } else {
      Unit(p.inside);
      Unit(inner);
      OpenEnds(p.word, p.inside);
    }
    assert (Source(p) + after)[..|Source(p)|] == Source(p) && (Source(p) + after)[|Source(p)|..] == after;
  }

  /** However a text splits into such parts, the sanitiser writes what becomes of each, in order. */
  lemma {:induction false} SplitsSanitized(ps: seq<Part>)
    requires AllSplit(ps)
    ensures SanitizeHTML(Sources(ps)) == Outputs(ps)
    decreases |ps|
  {
    hide SanitizeHTML, Splits;
    if ps == [] {
      Nothing();
    } else {
      var after := Sources(ps[1..]);
      SplitsSanitized(ps[1..]);
      match ps[0]
      case Plain(text) => PlainThen(text, after);
      case Bare => BareThen(after);
      case Block(_, _, _, _) => BlockThen(ps[0], after);
      case _ => TagThen(ps[0], after);
    }
  }

  lemma Nothing()
    ensures SanitizeHTML("") == ""
  {}

  /** And every text splits so. */
  lemma {:induction false} EveryTextSplits(s: string) returns (ps: seq<Part>)
    ensures AllSplit(ps) && Sources(ps) == s
    decreases |s|
  {
    hide Splits;
    if s == "" {
      ps := [];
    } else {
      var p := FirstPart(s);
      var n := |Source(p)|;
      var rest := EveryTextSplits(s[n..]);
      ps := [p] + rest;
      assert ps[1..] == rest;
      assert s == s[..n] + s[n..];
    }
  }

  lemma FirstPart(s: string) returns (p: Part)
    requires s != ""
    ensures Source(p) != "" && Source(p) <= s && Splits(p, s[|Source(p)|..])
  {
    if s[0] != '<' {
      var n := Find(s, '<', 0);
      p := Plain(s[..n]);
    } else if MatchTag(s).None? {
      p := Bare;
      assert s == "<" + s[1..];
      forall t: Groups | Matches(t) ensures !(TagText(t) <= s) {
        if TagText(t) <= s { FindsTag(s, t); }
      }
    } else {
      var tag := TagFound(s);
      TagPlaces(tag, s);
      p := PartOfTag(s, tag);
    }
  }

  lemma PartOfTag(s: string, tag: Groups) returns (p: Part)
    requires Matches(tag) && TagText(tag) <= s
    ensures Source(p) != "" && Source(p) <= s && Splits(p, s[|Source(p)|..])
  {
    hide TagText, Matches;
    TagPlaces(tag, s);
    if !Accepted(tag.name) {
      p := Dropped(tag);
    } else if BeginsBlock(tag, "pre") {
      p := BlockOf(s, tag, "pre");
    } else if BeginsBlock(tag, "code") {
      p := BlockOf(s, tag, "code");
    } else {
      p := Kept(tag);
    }
  }

  lemma BlockOf(s: string, tag: Groups, word: string) returns (p: Part)
    requires Matches(tag) && TagText(tag) <= s && BeginsBlock(tag, word)
    ensures Source(p) != "" && Source(p) <= s && Splits(p, s[|Source(p)|..])
  {
    hide TagText, Matches;
    TagPlaces(tag, s);
    var n := |TagText(tag)|;
    var inner := s[n..];
    assert s == TagText(tag) + inner;
    match FindText(inner, Ending(word), 0)
    case None =>
      p := Block(tag, word, inner, false);
      Unit(inner);
      assert s[|s|..] == "";
    case Some(e) =>
      p := Block(tag, word, inner[..e], true);
      ClosedBlock(s, tag, word, inner, e);
  }

  lemma ClosedBlock(s: string, tag: Groups, word: string, inner: string, e: nat)
    requires s == TagText(tag) + inner && FindText(inner, Ending(word), 0) == Some(e)
    ensures Source(Block(tag, word, inner[..e], true)) <= s
    ensures forall j | 0 <= j < e :: !Occurs(inner[..e] + Ending(word), Ending(word), j)
  {
    hide TagText;
    var part, after := inner[..e] + Ending(word), inner[e + |Ending(word)|..];
    assert inner == part + after;
    Associative(TagText(tag), part, after);
    forall j | 0 <= j < e ensures !Occurs(part, Ending(word), j) { OccursWithin(part, after, Ending(word), j); }
  }
}
