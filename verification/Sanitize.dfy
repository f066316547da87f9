/**
 The HTML sanitiser of internal/telegram/sanitize.go. It drops the tags Telegram does not accept,
 escapes every other '<', and leaves the inside of code and pre blocks as it is. Texts are bytes.
 */
module Sanitize {
  import opened Base
  import opened Search

  predicate IsLetter(c: char) { 'a' <= c <= 'z' || 'A' <= c <= 'Z' }

  predicate IsNameChar(c: char) { IsLetter(c) || '0' <= c <= '9' || c == '_' || c == '-' }

  /** What \s matches in a Go regular expression. */
  predicate IsTagSpace(c: char) { c == ' ' || c == '\t' || c == '\n' || c == '\r' || c == 12 as char }

  function LowerChar(c: char): char {
    if 'A' <= c <= 'Z' then (c as int + 32) as char else c
  }

  function Lower(s: string): string {
    seq(|s|, i requires 0 <= i < |s| => LowerChar(s[i]))
  }

  predicate AllowedTag(name: string) {
    name in {"b", "strong", "i", "em", "u", "ins", "s", "strike", "del", "code", "pre", "blockquote", "a",
             "tg-spoiler", "tg-emoji"}
  }

  /** The end of the run of tag-name characters from i on. */
  function NameEnd(s: string, i: nat): (r: nat)
    requires i <= |s|
    ensures i <= r <= |s| && (r < |s| ==> !IsNameChar(s[r])) && forall j | i <= j < r :: IsNameChar(s[j])
    decreases |s| - i
  {
    if i == |s| || !IsNameChar(s[i]) then i else NameEnd(s, i + 1)
  }

  // ---- One tag -------------------------------------------------------------------------------

  /** A tag at the start of a text: its length, its name in lower case, whether it closes. */
  datatype Tag = Tag(length: nat, name: string, closing: bool)

  /** htmlTagPattern matched at the start of the text: <, an optional slash, a name, then either
      > or white space and anything up to >. */
  function MatchTag(s: string): (r: Option<Tag>)
    ensures r.Some? ==> 0 < r.value.length <= |s| && s[0] == '<'
  {
    if |s| < 2 || s[0] != '<' then None
    else
      var a := if s[1] == '/' then 2 else 1;
      if a == |s| || !IsLetter(s[a]) then None
      else
        var b := NameEnd(s, a + 1);
        if b == |s| then None
        else
          var e := if IsTagSpace(s[b]) then Find(s, '>', b + 1) else b;
          if e < |s| && s[e] == '>' then Some(Tag(e + 1, Lower(s[a..b]), a == 2)) else None
  }

  /** Whether a tag opens a zone copied as it is. */
  predicate OpensZone(t: Tag) {
    !t.closing && (t.name == "pre" || t.name == "code")
  }

  function CloseTag(name: string): string { "</" + name + ">" }

  /** How much after a zone's opening tag belongs to the zone: up to its close tag, or everything. */
  function ZoneLength(s: string, name: string): (n: nat)
    ensures n <= |s|
  {
    match FindText(s, CloseTag(name), 0)
    case Some(i) => i + |CloseTag(name)|
    case None => |s|
  }

  const ESCAPED := "&lt;"

  // ---- The sanitiser -------------------------------------------------------------------------

  /** What the tag at the start of a text is copied as: nothing, itself, or its whole zone. */
  function Copied(s: string, t: Tag): (n: nat)
    requires t.length <= |s|
    ensures n <= |s|
  {
    if !AllowedTag(t.name) then 0
    else if OpensZone(t) then t.length + ZoneLength(s[t.length..], t.name)
    else t.length
  }

  /** How far the scanner moves on from the tag: past what it copied, or past the dropped tag. */
  function Consumed(s: string, t: Tag): (n: nat)
    requires t.length <= |s|
    ensures n <= |s|
  {
    if AllowedTag(t.name) then Copied(s, t) else t.length
  }

  function SanitizeHTML(s: string): string
    decreases |s|, 1
  {
    var i := Find(s, '<', 0);
    if i == |s| then s else s[..i] + SanitizeTag(s[i..])
  }

  /** The rest of a text that starts with '<'. */
  function SanitizeTag(s: string): string
    requires s != "" && s[0] == '<'
    decreases |s|, 0
  {
    match MatchTag(s)
    case None => ESCAPED + SanitizeHTML(s[1..])
    case Some(t) => s[..Copied(s, t)] + SanitizeHTML(s[Consumed(s, t)..])
  }

  lemma Slices(s: string, p: nat, i: nat)
    requires p + i <= |s|
    ensures s[p..][i..] == s[p + i..] && s[p..][..i] == s[p..p + i]
  {}

  /** The scanner: pos moves over the text and out collects what is kept. */
  method Scan(s: string) returns (out: string)
    ensures out == SanitizeHTML(s)
  {
    out := "";
    var pos := 0;
    while pos < |s|
      invariant pos <= |s|
      invariant SanitizeHTML(s) == out + SanitizeHTML(s[pos..])
      decreases |s| - pos
    {
      var idx := Find(s[pos..], '<', 0);
      if idx == |s[pos..]| {
        return out + s[pos..];
      }
      ghost var before := out;
      Slices(s, pos, idx);
      out := out + s[pos..pos + idx];
      pos := pos + idx;
      var kept, consumed := CopyTag(s[pos..]);
      Slices(s, pos, consumed);
      Regroup(before, s[pos - idx..pos], kept, SanitizeHTML(s[pos + consumed..]));
      out := out + kept;
      pos := pos + consumed;
    }
  }

  lemma DroppedTag(rest: string, t: Tag)
    requires MatchTag(rest) == Some(t) && !AllowedTag(t.name)
    ensures SanitizeTag(rest) == "" + SanitizeHTML(rest[t.length..])
  {
    assert rest[..0] == "";
  }

  lemma KeptTag(rest: string, t: Tag, n: nat)
    requires MatchTag(rest) == Some(t) && AllowedTag(t.name) && n == Copied(rest, t)
    ensures SanitizeTag(rest) == rest[..n] + SanitizeHTML(rest[n..])
  {}

  /** What the scanner writes at a '<', and how far it moves on. */
  method CopyTag(rest: string) returns (kept: string, consumed: nat)
    requires rest != "" && rest[0] == '<'
    ensures 0 < consumed <= |rest|
    ensures SanitizeTag(rest) == kept + SanitizeHTML(rest[consumed..])
  {
    var m := MatchTag(rest);
    if m.None? {
      kept, consumed := ESCAPED, 1;
    } else if !AllowedTag(m.value.name) {
      kept, consumed := "", m.value.length;
      DroppedTag(rest, m.value);
    } else {
      consumed := m.value.length;
      if OpensZone(m.value) {
        var zone := ZoneEnd(rest[consumed..], m.value.name);
        consumed := consumed + zone;
      }
      kept := rest[..consumed];
      KeptTag(rest, m.value, consumed);
    }
  }

  method ZoneEnd(inside: string, name: string) returns (n: nat)
    ensures n == ZoneLength(inside, name)
  {
    var end := FindText(inside, CloseTag(name), 0);
    if end.None? { return |inside|; }
    return end.value + |CloseTag(name)|;
  }

  lemma Regroup(a: string, b: string, c: string, d: string)
    ensures a + (b + (c + d)) == ((a + b) + c) + d
  {}
}
