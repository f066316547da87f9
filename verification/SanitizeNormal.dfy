/**
 The normal form of sanitised text. The sanitiser's output is a list of segments, each text free
 of '<', a complete allowed tag, or a code or pre block as it stood; a second scan finds the same
 segments, so sanitising twice changes nothing.
 */
module SanitizeNormal {
  import opened Base
  import opened Search
  import opened Sanitize

  datatype Segment = Text(text: string) | Markup(text: string) | Zone(text: string)

  function Render(g: seq<Segment>): string {
    if g == [] then "" else g[0].text + Render(g[1..])
  }

  /** A zone's close tag is there. */
  predicate Closed(s: string, t: Tag)
    requires t.length <= |s|
  {
    FindText(s[t.length..], CloseTag(t.name), 0).Some?
  }

  /** A segment on its own: only the last one may be a zone that is never closed. */
  predicate WellFormed(seg: Segment, last: bool) {
    var m := MatchTag(seg.text);
    match seg
    case Text(text) => text != "" && Find(text, '<', 0) == |text|
    case Markup(text) => m.Some? && AllowedTag(m.value.name) && !OpensZone(m.value) && m.value.length == |text|
    case Zone(text) => m.Some? && AllowedTag(m.value.name) && OpensZone(m.value) && Copied(text, m.value) == |text|
                       && (last || Closed(text, m.value))
  }

  /** Segments in normal form: no two texts stand next to each other. */
  predicate Normal(g: seq<Segment>) {
    g == [] || (WellFormed(g[0], |g| == 1) && (|g| > 1 && g[0].Text? ==> !g[1].Text?) && Normal(g[1..]))
  }

  function Prepend(t: string, g: seq<Segment>): seq<Segment> {
    if t == "" then g
    else if g != [] && g[0].Text? then [Text(t + g[0].text)] + g[1..]
    else [Text(t)] + g
  }

  /** The segments one scan of a text keeps. */
  function Segments(s: string): seq<Segment>
    decreases |s|, 1
  {
    var i := Find(s, '<', 0);
    if i == |s| then Prepend(s, []) else Prepend(s[..i], TagSegments(s[i..]))
  }

  function Piece(s: string, t: Tag): Segment
    requires t.length <= |s|
  {
    if OpensZone(t) then Zone(s[..Copied(s, t)]) else Markup(s[..Copied(s, t)])
  }

  function TagSegments(s: string): seq<Segment>
    requires s != "" && s[0] == '<'
    decreases |s|, 0
  {
    match MatchTag(s)
    case None => Prepend(ESCAPED, Segments(s[1..]))
    case Some(t) =>
      if AllowedTag(t.name) then [Piece(s, t)] + Segments(s[Copied(s, t)..]) else Segments(s[t.length..])
  }

  lemma RenderCons(seg: Segment, g: seq<Segment>)
    ensures Render([seg] + g) == seg.text + Render(g)
  {
    assert ([seg] + g)[1..] == g;
  }

  lemma RenderPrepend(t: string, g: seq<Segment>)
    ensures Render(Prepend(t, g)) == t + Render(g)
  {
    if t == "" {
      Unit(Render(g));
    } else if g != [] && g[0].Text? {
      RenderCons(Text(t + g[0].text), g[1..]);
      Associative(t, g[0].text, Render(g[1..]));
    } else {
      RenderCons(Text(t), g);
    }
  }

  /** The sanitiser writes exactly the segments it keeps. */
  lemma {:induction false} RenderSegments(s: string)
    ensures Render(Segments(s)) == SanitizeHTML(s)
    decreases |s|, 1
  {
    var i := Find(s, '<', 0);
    if i == |s| {
      RenderPrepend(s, []);
      Unit(s);
    } else {
      RenderPrepend(s[..i], TagSegments(s[i..]));
      RenderTagSegments(s[i..]);
    }
  }

  lemma {:induction false} RenderTagSegments(s: string)
    requires s != "" && s[0] == '<'
    ensures Render(TagSegments(s)) == SanitizeTag(s)
    decreases |s|, 0
  {
    match MatchTag(s) {
      case None =>
        RenderPrepend(ESCAPED, Segments(s[1..]));
        RenderSegments(s[1..]);
      case Some(t) =>
        RenderSegments(s[Consumed(s, t)..]);
        if AllowedTag(t.name) {
          RenderCons(Piece(s, t), Segments(s[Copied(s, t)..]));
        } else {
          DroppedTag(s, t);
          Unit(SanitizeHTML(s[t.length..]));
        }
    }
  }

  // ---- A tag and a zone are found again -------------------------------------------------------

  lemma NameEndAgain(s: string, u: string, i: nat, b: nat)
    requires i <= b < |s| && b < |u| && b == NameEnd(s, i) && forall j | 0 <= j <= b :: u[j] == s[j]
    ensures NameEnd(u, i) == b
  {}

  lemma FindAgain(s: string, u: string, c: char, i: nat, e: nat)
    requires i <= e < |s| && e < |u| && e == Find(s, c, i) && forall j | 0 <= j <= e :: u[j] == s[j]
    ensures Find(u, c, i) == e
  {}

  /** Whether a tag matches depends on the tag's own characters only. */
  lemma MatchAgain(s: string, u: string, t: Tag)
    requires MatchTag(s) == Some(t) && t.length <= |u| && u[..t.length] == s[..t.length]
    ensures MatchTag(u) == Some(t)
  {
    var n := t.length;
    assert forall j | 0 <= j < n :: u[j] == u[..n][j] == s[j];
    MatchByCharacters(s, u, t);
  }

  lemma MatchByCharacters(s: string, u: string, t: Tag)
    requires MatchTag(s) == Some(t) && t.length <= |u| && forall j | 0 <= j < t.length :: u[j] == s[j]
    ensures MatchTag(u) == Some(t)
  {
    var a := if s[1] == '/' then 2 else 1;
    var b := NameEnd(s, a + 1);
    NameEndAgain(s, u, a + 1, b);
    if IsTagSpace(s[b]) { FindAgain(s, u, '>', b + 1, t.length - 1); }
    assert u[a..b] == s[a..b];
  }

  lemma OccursAgain(s: string, u: string, sub: string, j: nat, n: nat)
    requires j + |sub| <= n <= |s| && n <= |u| && u[..n] == s[..n]
    ensures Occurs(u, sub, j) == Occurs(s, sub, j)
  {
    assert u[j..j + |sub|] == u[..n][j..j + |sub|] && s[j..j + |sub|] == s[..n][j..j + |sub|];
  }

  lemma FindTextAgain(s: string, u: string, sub: string, e: nat)
    requires FindText(s, sub, 0) == Some(e)
    requires forall j | 0 <= j <= e :: Occurs(u, sub, j) == Occurs(s, sub, j)
    ensures FindText(u, sub, 0) == Some(e)
  {
    FirstOccurrence(u, sub, e);
  }

  lemma PrefixParts(s: string, a: nat, n: nat)
    requires a <= n <= |s|
    ensures s[..n][..a] == s[..a] && s[..n][a..] == s[a..][..n - a]
  {}

  /** So does where its zone ends, if the zone is closed. */
  lemma ZoneAgain(s: string, u: string, t: Tag)
    requires MatchTag(s) == Some(t) && AllowedTag(t.name) && OpensZone(t) && Closed(s, t)
    requires var n := Copied(s, t); n <= |u| && u[..n] == s[..n]
    ensures MatchTag(u) == Some(t) && Copied(u, t) == Copied(s, t) && Closed(u, t)
  {
    var n := Copied(s, t);
    var close := CloseTag(t.name);
    var e := FindText(s[t.length..], close, 0).value;
    PrefixParts(s, t.length, n);
    PrefixParts(u, t.length, n);
    MatchAgain(s, u, t);
    assert n - t.length == e + |close|;
    forall j | 0 <= j <= e ensures Occurs(u[t.length..], close, j) == Occurs(s[t.length..], close, j) {
      OccursAgain(s[t.length..], u[t.length..], close, j, e + |close|);
    }
    FindTextAgain(s[t.length..], u[t.length..], close, e);
  }

  // ---- Normal form ---------------------------------------------------------------------------

  lemma PrependNormal(t: string, g: seq<Segment>)
    requires Find(t, '<', 0) == |t| && Normal(g)
    ensures Normal(Prepend(t, g))
  {
    if t != "" && g != [] && g[0].Text? {
      var both := t + g[0].text;
      assert forall j | 0 <= j < |both| :: both[j] != '<';
      assert ([Text(both)] + g[1..])[1..] == g[1..];
    } else {
      assert ([Text(t)] + g)[1..] == g;
    }
  }

  /** A kept tag or zone is well formed on its own; a zone never closed takes the whole text. */
  lemma PieceWellFormed(s: string, t: Tag)
    requires MatchTag(s) == Some(t) && AllowedTag(t.name)
    ensures WellFormed(Piece(s, t), Copied(s, t) == |s|)
  {
    var n := Copied(s, t);
    var text := s[..n];
    assert s[..t.length] == text[..t.length];
    MatchAgain(s, text, t);
    if OpensZone(t) {
      if Closed(s, t) { ZoneAgain(s, text, t); } else { assert text == s; }
    }
  }

  lemma {:induction false} SegmentsNormal(s: string)
    ensures Normal(Segments(s)) && (s == "" ==> Segments(s) == [])
    decreases |s|, 1
  {
    var i := Find(s, '<', 0);
    if i == |s| {
      PrependNormal(s, []);
    } else {
      TagSegmentsNormal(s[i..]);
      assert forall j | 0 <= j < i :: s[..i][j] == s[j];
      PrependNormal(s[..i], TagSegments(s[i..]));
    }
  }

  lemma {:induction false} TagSegmentsNormal(s: string)
    requires s != "" && s[0] == '<'
    ensures Normal(TagSegments(s))
    decreases |s|, 0
  {
    match MatchTag(s) {
      case None =>
        SegmentsNormal(s[1..]);
        PrependNormal(ESCAPED, Segments(s[1..]));
      case Some(t) =>
        var rest := s[Consumed(s, t)..];
        SegmentsNormal(rest);
        if AllowedTag(t.name) {
          PieceWellFormed(s, t);
          assert ([Piece(s, t)] + Segments(rest))[1..] == Segments(rest);
        }
    }
  }

  /** A list in normal form is what a scan of its own text finds. */
  lemma {:induction false} NormalScansToItself(g: seq<Segment>)
    requires Normal(g)
    ensures Segments(Render(g)) == g
  {
    if g != [] {
      var text, rest := g[0].text, Render(g[1..]);
      var s := text + rest;
      NormalScansToItself(g[1..]);
      assert [g[0]] + g[1..] == g;
      if g[0].Text? {
        NormalStartsWithTag(g[1..]);
        TextThenTag(text, rest);
      } else {
        var t := MatchTag(text).value;
        assert s[..|text|] == text && s[|text|..] == rest;
        assert s[..t.length] == text[..t.length];
        MatchAgain(text, s, t);
        if g[0].Zone? {
          if Closed(text, t) { ZoneAgain(text, s, t); } else { assert s == text; }
        }
        assert s[..0] == "";
      }
    }
  }

  /** A list in normal form that does not start with a text renders to nothing or to a '<'. */
  lemma NormalStartsWithTag(g: seq<Segment>)
    requires Normal(g)
    ensures g == [] || g[0].Text? || (Render(g) != "" && Render(g)[0] == '<')
  {}

  lemma TextThenTag(text: string, rest: string)
    requires text != "" && Find(text, '<', 0) == |text| && (rest == "" || rest[0] == '<')
    requires Segments(rest) == [] || !Segments(rest)[0].Text?
    ensures Segments(text + rest) == [Text(text)] + Segments(rest)
  {
    var s := text + rest;
    assert forall j | 0 <= j < |text| :: s[j] == text[j];
    assert s[..|text|] == text && s[|text|..] == rest;
    if rest == "" {
      assert s == text;
    } else {
      assert Find(s, '<', 0) == |text|;
      assert rest[0..] == rest && rest[..0] == "";
    }
  }

  // ---- The theorems --------------------------------------------------------------------------

  /** Sanitised text is the rendering of one list in normal form, and only of that one. */
  lemma SanitizedIsNormal(s: string)
    ensures Normal(Segments(s)) && Render(Segments(s)) == SanitizeHTML(s)
    ensures Segments(SanitizeHTML(s)) == Segments(s)
    ensures forall g :: Normal(g) && Render(g) == SanitizeHTML(s) ==> g == Segments(s)
  {
    SegmentsNormal(s);
    RenderSegments(s);
    NormalScansToItself(Segments(s));
    forall g | Normal(g) && Render(g) == SanitizeHTML(s) ensures g == Segments(s) {
      NormalScansToItself(g);
    }
  }

  /** Sanitising twice changes nothing. */
  lemma SanitizeIdempotent(s: string)
    ensures SanitizeHTML(SanitizeHTML(s)) == SanitizeHTML(s)
  {
    SanitizedIsNormal(s);
    RenderSegments(SanitizeHTML(s));
  }

  /** The texts the sanitiser leaves alone are exactly those in normal form. */
  lemma UnchangedExactlyWhenNormal(o: string)
    ensures SanitizeHTML(o) == o <==> exists g :: Normal(g) && Render(g) == o
  {
    SanitizedIsNormal(o);
    if g :| Normal(g) && Render(g) == o {
      NormalScansToItself(g);
    }
  }
}
