/**
 A message shows the same text however it arrives: in any split of its blocks into deltas, or as
 one whole event; and a whole copy that arrives inside the stream adds nothing.
 */
module StreamFoldMeaning {
  import opened Base
  import opened Search
  import opened StreamFold

  // ---- What is shown, however it was cut into writes -------------------------------------------

  /** A text added to what is shown: it joins a last text of its own kind. */
  function Join(shown: seq<Write>, w: Write): seq<Write> {
    var n := |shown|;
    if w.text == "" then shown
    else if n > 0 && shown[n - 1].kind == w.kind then shown[..n - 1] + [Write(w.kind, shown[n - 1].text + w.text)]
    else shown + [w]
  }

  /** The writes with neighbours of one kind joined and empty ones dropped. */
  function Shown(out: seq<Write>): seq<Write> {
    if out == [] then [] else Join(Shown(out[..|out| - 1]), out[|out| - 1])
  }

  lemma ShownPut(s: Fold, kind: Kind, text: string)
    ensures Shown(Put(s, kind, text).out) == Join(Shown(s.out), Write(kind, text))
  {
    assert Put(s, kind, text).out[..|s.out|] == s.out;
  }

  lemma JoinTwice(shown: seq<Write>, kind: Kind, a: string, b: string)
    ensures Join(Join(shown, Write(kind, a)), Write(kind, b)) == Join(shown, Write(kind, a + b))
  {
    var n := |shown|;
    if a == "" {
      assert a + b == b;
    } else if b == "" {
      assert a + b == a;
    } else if n > 0 && shown[n - 1].kind == kind {
      JoinOn(shown[..n - 1], kind, shown[n - 1].text, a);
      JoinOn(shown[..n - 1], kind, shown[n - 1].text + a, b);
      JoinOn(shown[..n - 1], kind, shown[n - 1].text, a + b);
      assert shown == shown[..n - 1] + [Write(kind, shown[n - 1].text)];
      Associative(shown[n - 1].text, a, b);
    } else {
      JoinOn(shown, kind, a, b);
    }
  }

  /** A text joins one of its own kind. */
  lemma JoinOn(before: seq<Write>, kind: Kind, a: string, b: string)
    requires b != ""
    ensures Join(before + [Write(kind, a)], Write(kind, b)) == before + [Write(kind, a + b)]
  {
    var shown := before + [Write(kind, a)];
    assert shown[|shown| - 1] == Write(kind, a) && shown[..|shown| - 1] == before;
  }

  // ---- A block, streamed or whole ------------------------------------------------------------

  /** A block as it streams: its start, then its deltas. */
  datatype Piece = Piece(start: Block, deltas: seq<Delta>)

  function TextOf(ds: seq<Delta>): string {
    if ds == [] then "" else TextOf(ds[..|ds| - 1]) + match ds[|ds| - 1] case TextDelta(t) => t case _ => ""
  }

  function ThoughtOf(ds: seq<Delta>): string {
    if ds == [] then "" else ThoughtOf(ds[..|ds| - 1]) + match ds[|ds| - 1] case ThinkingDelta(t) => t case _ => ""
  }

  function InputOf(ds: seq<Delta>): string {
    if ds == [] then "" else InputOf(ds[..|ds| - 1]) + match ds[|ds| - 1] case InputDelta(j) => j case _ => ""
  }

  /** The block a piece adds up to. */
  function BlockOf(p: Piece): Block {
    match p.start
    case Text(_) => Text(TextOf(p.deltas))
    case Thinking(_) => Thinking(ThoughtOf(p.deltas))
    case ToolUse(name, input) => ToolUse(name, if InputOf(p.deltas) != "" then InputOf(p.deltas) else input)
    case OtherBlock => OtherBlock
  }

  predicate Carries(t: BlockType, d: Delta) {
    match d
    case TextDelta(_) => t == TextType
    case ThinkingDelta(_) => t == ThinkingType
    case InputDelta(_) => t == ToolUseType
    case OtherDelta => true
  }

  predicate AllCarried(t: BlockType, ds: seq<Delta>) {
    forall i | 0 <= i < |ds| :: Carries(t, ds[i])
  }

  /** The deltas of a piece are of its block's type, or of a type that carries no content. */
  predicate WellFormed(p: Piece) {
    AllCarried(TypeOf(p.start), p.deltas)
  }

  function DeltaEvents(ds: seq<Delta>): seq<Event> {
    if ds == [] then [] else DeltaEvents(ds[..|ds| - 1]) + [BlockDelta(ds[|ds| - 1])]
  }

  function PieceEvents(p: Piece): seq<Event> {
    [BlockStart(p.start)] + DeltaEvents(p.deltas) + [BlockStop]
  }

  function AddDeltas(s: Fold, ds: seq<Delta>): Fold {
    if ds == [] then s else AddDelta(AddDeltas(s, ds[..|ds| - 1]), ds[|ds| - 1])
  }

  lemma RunOne(f: Format, s: Fold, e: Event)
    requires s.ending.Going?
    ensures Run(f, s, [e]) == Step(f, s, e)
  {
    assert [e][1..] == [];
  }

  lemma {:induction false} RunDeltas(f: Format, s: Fold, ds: seq<Delta>)
    requires s.ending.Going?
    ensures Run(f, s, DeltaEvents(ds)) == AddDeltas(s, ds) && AddDeltas(s, ds).ending.Going?
  {
    if ds != [] {
      var front, last := ds[..|ds| - 1], ds[|ds| - 1];
      RunDeltas(f, s, front);
      RunConcat(f, s, DeltaEvents(front), [BlockDelta(last)]);
      RunOne(f, AddDeltas(s, front), BlockDelta(last));
    }
  }

  lemma RunPiece(f: Format, s: Fold, p: Piece)
    requires s.ending.Going?
    ensures Run(f, s, PieceEvents(p)) == StopBlock(f, AddDeltas(StartBlock(s, p.start), p.deltas))
  {
    var ds := DeltaEvents(p.deltas);
    var started := StartBlock(s, p.start);
    RunConcat(f, s, [BlockStart(p.start)] + ds, [BlockStop]);
    RunConcat(f, s, [BlockStart(p.start)], ds);
    RunOne(f, s, BlockStart(p.start));
    RunDeltas(f, started, p.deltas);
    RunOne(f, AddDeltas(started, p.deltas), BlockStop);
  }

  lemma {:induction false} TextDeltas(s: Fold, ds: seq<Delta>)
    requires AllCarried(TextType, ds)
    ensures AddDeltas(s, ds) == s.(out := AddDeltas(s, ds).out)
    ensures Shown(AddDeltas(s, ds).out) == Join(Shown(s.out), Write(Reply, TextOf(ds)))
  {
    if ds != [] {
      var front, last := ds[..|ds| - 1], ds[|ds| - 1];
      TextDeltas(s, front);
      if last.TextDelta? {
        ShownPut(AddDeltas(s, front), Reply, last.text);
        JoinTwice(Shown(s.out), Reply, TextOf(front), last.text);
      } else {
        Unit(TextOf(front));
      }
    }
  }

  lemma {:induction false} InputDeltas(s: Fold, ds: seq<Delta>)
    requires AllCarried(ToolUseType, ds)
    ensures AddDeltas(s, ds) == s.(toolInput := s.toolInput + InputOf(ds))
  {
    if ds == [] {
      Unit(s.toolInput);
    } else {
      var front, last := ds[..|ds| - 1], ds[|ds| - 1];
      InputDeltas(s, front);
      if last.InputDelta? { Associative(s.toolInput, InputOf(front), last.json); } else { Unit(InputOf(front)); }
    }
  }

  lemma {:induction false} OtherDeltas(s: Fold, ds: seq<Delta>)
    requires AllCarried(OtherType, ds)
    ensures AddDeltas(s, ds) == s
  {
    if ds != [] { OtherDeltas(s, ds[..|ds| - 1]); }
  }

  lemma TrimUnique(s: string, t: string)
    requires t <= s && (t == "" || t[|t| - 1] != '\n') && forall i | |t| <= i < |s| :: s[i] == '\n'
    ensures t == TrimNewlines(s)
  {
    var u := TrimNewlines(s);
    assert |u| > 0 ==> u[|u| - 1] == s[|u| - 1];
    assert |t| > 0 ==> t[|t| - 1] == s[|t| - 1];
    assert u == s[..|u|] && t == s[..|t|];
  }

  /** Newlines held back until more text follows give the same text as trimming at the end. */
  lemma TrimInParts(a: string, b: string)
    ensures var v := TrimNewlines(a); var held := a[|v|..] + b; var w := TrimNewlines(held);
            TrimNewlines(a + b) == v + w && (a + b)[|v + w|..] == held[|w|..]
  {
    var v := TrimNewlines(a);
    var newlines := a[|v|..];
    var held := newlines + b;
    var w := TrimNewlines(held);
    assert v + newlines == a;
    Associative(v, newlines, b);
    TrimPrefixed(v, held);
  }

  lemma TrimPrefixed(v: string, held: string)
    requires v == "" || v[|v| - 1] != '\n'
    ensures var w := TrimNewlines(held); TrimNewlines(v + held) == v + w && (v + held)[|v + w|..] == held[|w|..]
  {
    var w := TrimNewlines(held);
    var rest := held[|w|..];
    assert held == w + rest;
    Associative(v, w, rest);
    DropPrefix(v + w, rest);
    Unit(v);
    TrimUnique((v + w) + rest, v + w);
  }

  lemma DropPrefix<T>(a: seq<T>, b: seq<T>)
    ensures a <= a + b && (a + b)[|a|..] == b && forall i | |a| <= i < |a + b| :: (a + b)[i] == b[i - |a|]
  {}

  /** The loop's state once the text x of a thinking block has arrived. */
  ghost predicate Thought(before: Fold, s: Fold, x: string) {
    var v := TrimNewlines(x);
    && s == before.(out := s.out, lineStarted := v != "", heldNewlines := x[|v|..])
    && Shown(s.out) == if v == "" then Shown(before.out) else Join(Shown(before.out), Write(Status, THOUGHT + v))
  }

  lemma ThinkingStep(before: Fold, s: Fold, x: string, more: string)
    requires Thought(before, s, x)
    ensures Thought(before, AddDelta(s, ThinkingDelta(more)), x + more)
  {
    var v, w := TrimNewlines(x), TrimNewlines(s.heldNewlines + more);
    TrimInParts(x, more);
    Unit(v);
    Unit(w);
    if w != "" {
      var line := if s.lineStarted then w else THOUGHT + w;
      ShownPut(s, Status, line);
      JoinTwice(Shown(before.out), Status, THOUGHT + v, w);
      Associative(THOUGHT, v, w);
    }
  }

  lemma {:induction false} ThinkingDeltas(s: Fold, ds: seq<Delta>)
    requires !s.lineStarted && s.heldNewlines == "" && AllCarried(ThinkingType, ds)
    ensures Thought(s, AddDeltas(s, ds), ThoughtOf(ds))
  {
    if ds != [] {
      var front, last := ds[..|ds| - 1], ds[|ds| - 1];
      ThinkingDeltas(s, front);
      if last.ThinkingDelta? {
        ThinkingStep(s, AddDeltas(s, front), ThoughtOf(front), last.thinking);
      } else {
        Unit(ThoughtOf(front));
      }
    }
  }

  /** What is shown, and whether a text block has been shown, after one more block. */
  datatype View = View(shown: seq<Write>, had: bool)

  function Seen(s: Fold): View { View(Shown(s.out), s.hadText) }

  /** A block that streams. An empty text block still writes its separator. */
  function Streamed(f: Format, v: View, b: Block): View {
    if b.Text? then View(Join(v.shown, Write(Reply, (if v.had then SEPARATOR else "") + b.text)), true)
    else View(Join(v.shown, Write(Status, FormatBlock(f, b))), v.had)
  }

  /** A block of a whole event. An empty one shows nothing at all. */
  function Whole(f: Format, v: View, b: Block): View {
    if b == Text("") then v else Streamed(f, v, b)
  }

  lemma TextSeen(f: Format, s: Fold, start: Block, ds: seq<Delta>)
    requires start.Text? && AllCarried(TextType, ds)
    ensures var s' := StopBlock(f, AddDeltas(StartBlock(s, start), ds));
            Seen(s') == Streamed(f, Seen(s), Text(TextOf(ds))) && s'.ending == s.ending && s'.streaming == s.streaming
  {
    TextDeltas(StartBlock(s, start), ds);
    Unit(TextOf(ds));
    if s.hadText {
      ShownPut(s.(blockType := TextType), Reply, SEPARATOR);
      JoinTwice(Shown(s.out), Reply, SEPARATOR, TextOf(ds));
    }
  }

  lemma ThinkingSeen(f: Format, s: Fold, start: Block, ds: seq<Delta>)
    requires start.Thinking? && AllCarried(ThinkingType, ds)
    ensures var s' := StopBlock(f, AddDeltas(StartBlock(s, start), ds));
            Seen(s') == Streamed(f, Seen(s), Thinking(ThoughtOf(ds))) && s'.ending == s.ending
            && s'.streaming == s.streaming
  {
    hide TrimNewlines, Shown, AllCarried;
    var started := StartBlock(s, start);
    ThinkingDeltas(started, ds);
    var added, v := AddDeltas(started, ds), TrimNewlines(ThoughtOf(ds));
    assert added.blockType == ThinkingType && added.hadText == s.hadText && started.out == s.out;
    if v == "" {
      assert StopBlock(f, added) == added.(blockType := NoType);
    } else {
      assert StopBlock(f, added) == Put(added.(blockType := NoType), Status, "\n");
      ShownPut(added.(blockType := NoType), Status, "\n");
      JoinTwice(Shown(s.out), Status, THOUGHT + v, "\n");
    }
  }

  lemma ToolUseSeen(f: Format, s: Fold, p: Piece)
    requires p.start.ToolUse? && AllCarried(ToolUseType, p.deltas)
    ensures var s' := StopBlock(f, AddDeltas(StartBlock(s, p.start), p.deltas));
            Seen(s') == Streamed(f, Seen(s), BlockOf(p)) && s'.ending == s.ending && s'.streaming == s.streaming
  {
    var started := StartBlock(s, p.start);
    InputDeltas(started, p.deltas);
    Unit(InputOf(p.deltas));
    var added := AddDeltas(started, p.deltas);
    assert added.toolInput == InputOf(p.deltas) && added.out == s.out;
    assert StopBlock(f, added) == Put(added.(blockType := NoType), Status, FormatBlock(f, BlockOf(p)));
    ShownPut(added.(blockType := NoType), Status, FormatBlock(f, BlockOf(p)));
  }

  /** A streamed block shows what its whole form shows, wherever it was cut. */
  lemma PieceSeen(f: Format, s: Fold, p: Piece)
    requires s.ending.Going? && WellFormed(p)
    ensures var s' := Run(f, s, PieceEvents(p));
            Seen(s') == Streamed(f, Seen(s), BlockOf(p)) && s'.ending.Going? && s'.streaming == s.streaming
  {
    RunPiece(f, s, p);
    match p.start
    case Text(_) => TextSeen(f, s, p.start, p.deltas);
    case Thinking(_) => ThinkingSeen(f, s, p.start, p.deltas);
    case ToolUse(_, _) => ToolUseSeen(f, s, p);
    case OtherBlock => OtherDeltas(StartBlock(s, p.start), p.deltas);
  }

  // ---- A message -----------------------------------------------------------------------------

  function BlocksOf(ps: seq<Piece>): seq<Block> {
    if ps == [] then [] else BlocksOf(ps[..|ps| - 1]) + [BlockOf(ps[|ps| - 1])]
  }

  function PiecesEvents(ps: seq<Piece>): seq<Event> {
    if ps == [] then [] else PiecesEvents(ps[..|ps| - 1]) + PieceEvents(ps[|ps| - 1])
  }

  function StreamedAll(f: Format, v: View, bs: seq<Block>): View {
    if bs == [] then v else Streamed(f, StreamedAll(f, v, bs[..|bs| - 1]), bs[|bs| - 1])
  }

  function WholeAll(f: Format, v: View, bs: seq<Block>): View {
    if bs == [] then v else Whole(f, WholeAll(f, v, bs[..|bs| - 1]), bs[|bs| - 1])
  }

  lemma {:induction false} PiecesSeen(f: Format, s: Fold, ps: seq<Piece>)
    requires s.ending.Going? && forall i | 0 <= i < |ps| :: WellFormed(ps[i])
    ensures var s' := Run(f, s, PiecesEvents(ps));
            Seen(s') == StreamedAll(f, Seen(s), BlocksOf(ps)) && s'.ending.Going? && s'.streaming == s.streaming
  {
    if ps != [] {
      var front, last := ps[..|ps| - 1], ps[|ps| - 1];
      PiecesSeen(f, s, front);
      RunConcat(f, s, PiecesEvents(front), PieceEvents(last));
      PieceSeen(f, Run(f, s, PiecesEvents(front)), last);
      assert BlocksOf(ps)[..|BlocksOf(front)|] == BlocksOf(front);
    }
  }

  lemma {:induction false} WholeBlocksSeen(f: Format, s: Fold, bs: seq<Block>, had: bool, before: seq<Block>, v: View)
    requires WholeAll(f, v, before) == View(Shown(s.out), s.hadText || had)
    ensures var s' := WholeBlocks(f, s, bs, had);
            Seen(s') == WholeAll(f, v, before + bs) && s'.ending == s.ending && s'.streaming == s.streaming
    decreases |bs|
  {
    if bs == [] {
      Unit(before);
    } else {
      var text := FormatBlock(f, bs[0]);
      Associative(before, [bs[0]], bs[1..]);
      assert [bs[0]] + bs[1..] == bs && (before + [bs[0]])[..|before|] == before;
      Unit(text);
      if text == "" {
        WholeBlocksSeen(f, s, bs[1..], had, before + [bs[0]], v);
      } else if bs[0].Text? {
        var shown := if had || s.hadText then SEPARATOR + text else text;
        ShownPut(s, Reply, shown);
        WholeBlocksSeen(f, Put(s, Reply, shown), bs[1..], true, before + [bs[0]], v);
      } else {
        ShownPut(s, Status, text);
        WholeBlocksSeen(f, Put(s, Status, text), bs[1..], had, before + [bs[0]], v);
      }
    }
  }

  /** What may arrive inside a streamed message without being part of it: a whole copy of blocks
      already streamed, and a subagent's stream. */
  predicate Repeats(e: Event) {
    e.SubagentStream? || (e.Assistant? && !e.subagent && e.error.NoError?)
  }

  function Essential(es: seq<Event>): seq<Event> {
    if es == [] then [] else (if Repeats(es[0]) then [] else [es[0]]) + Essential(es[1..])
  }

  /** Inside a streamed message repeats add nothing. */
  lemma {:induction false} RepeatsAddNothing(f: Format, s: Fold, es: seq<Event>)
    requires s.streaming && forall i | 0 <= i < |es| :: es[i] != MessageStop
    ensures Run(f, s, es) == Run(f, s, Essential(es))
    decreases |es|
  {
    if es != [] && s.ending.Going? {
      var rest := Essential(es[1..]);
      if Repeats(es[0]) {
        Unit(rest);
        RepeatsAddNothing(f, s, es[1..]);
      } else {
        assert ([es[0]] + rest)[1..] == rest;
        RepeatsAddNothing(f, Step(f, s, es[0]), es[1..]);
      }
    }
  }

  /** A message streamed in these pieces, with whole copies anywhere among them. */
  predicate StreamsMessage(ps: seq<Piece>, es: seq<Event>) {
    && |es| >= 2 && es[0] == MessageStart && es[|es| - 1] == MessageStop
    && Essential(es[1..|es| - 1]) == PiecesEvents(ps)
    && (forall i | 1 <= i < |es| - 1 :: es[i] != MessageStop)
    && forall i | 0 <= i < |ps| :: WellFormed(ps[i])
  }

  lemma StreamedMessageSeen(f: Format, s: Fold, ps: seq<Piece>, es: seq<Event>)
    requires StreamsMessage(ps, es) && s.ending.Going?
    ensures Seen(Run(f, s, es)) == StreamedAll(f, Seen(s), BlocksOf(ps))
    ensures Run(f, s, es).ending.Going? && !Run(f, s, es).streaming
  {
    var body := es[1..|es| - 1];
    assert es == ([MessageStart] + body) + [MessageStop];
    RunConcat(f, s, [MessageStart] + body, [MessageStop]);
    RunConcat(f, s, [MessageStart], body);
    RunOne(f, s, MessageStart);
    var started := Step(f, s, MessageStart);
    RepeatsAddNothing(f, started, body);
    PiecesSeen(f, started, ps);
    RunOne(f, Run(f, started, body), MessageStop);
  }

  lemma WholeMessageSeen(f: Format, s: Fold, bs: seq<Block>)
    requires s.ending.Going? && !s.streaming
    ensures Seen(Run(f, s, [Assistant(false, NoError, bs)])) == WholeAll(f, Seen(s), bs)
  {
    RunOne(f, s, Assistant(false, NoError, bs));
    WholeBlocksSeen(f, s, bs, false, [], Seen(s));
    Unit(bs);
  }

  /** The chunking of a message never shows: two streams of the same blocks end alike. */
  lemma ChunkingNeverShows(f: Format, s: Fold, ps: seq<Piece>, es: seq<Event>, ps': seq<Piece>, es': seq<Event>)
    requires StreamsMessage(ps, es) && StreamsMessage(ps', es') && BlocksOf(ps) == BlocksOf(ps') && s.ending.Going?
    ensures Seen(Run(f, s, es)) == Seen(Run(f, s, es'))
  {
    StreamedMessageSeen(f, s, ps, es);
    StreamedMessageSeen(f, s, ps', es');
  }

  // ---- Streamed or whole ---------------------------------------------------------------------

  function ReplyLen(shown: seq<Write>): nat {
    if shown == [] then 0
    else ReplyLen(shown[..|shown| - 1]) + if shown[|shown| - 1].kind == Reply then |shown[|shown| - 1].text| else 0
  }

  lemma ReplyLenJoin(shown: seq<Write>, w: Write)
    ensures ReplyLen(Join(shown, w)) == ReplyLen(shown) + if w.kind == Reply then |w.text| else 0
  {
    var n := |shown|;
    if w.text != "" {
      if n > 0 && shown[n - 1].kind == w.kind {
        assert Join(shown, w)[..n - 1] == shown[..n - 1];
      } else {
        assert Join(shown, w)[..n] == shown;
      }
    }
  }

  lemma StreamedLen(f: Format, v: View, b: Block)
    ensures ReplyLen(Streamed(f, v, b).shown)
            == ReplyLen(v.shown) + if b.Text? then |b.text| + (if v.had then |SEPARATOR| else 0) else 0
  {
    if b.Text? {
      ReplyLenJoin(v.shown, Write(Reply, (if v.had then SEPARATOR else "") + b.text));
    } else {
      ReplyLenJoin(v.shown, Write(Status, FormatBlock(f, b)));
    }
  }

  predicate NoEmptyText(bs: seq<Block>) {
    forall i | 0 <= i < |bs| :: bs[i] != Text("")
  }

  lemma {:induction false} SameWithoutEmptyText(f: Format, v: View, bs: seq<Block>)
    requires NoEmptyText(bs)
    ensures StreamedAll(f, v, bs) == WholeAll(f, v, bs)
  {
    if bs != [] { SameWithoutEmptyText(f, v, bs[..|bs| - 1]); }
  }

  /** A stream never shows less reply than the whole event; and once an empty text block has
      streamed, it has shown more or has already counted as a text. */
  lemma {:induction false} StreamShowsMore(f: Format, v: View, bs: seq<Block>)
    ensures var a, b := StreamedAll(f, v, bs), WholeAll(f, v, bs);
            && ReplyLen(a.shown) >= ReplyLen(b.shown) && (b.had ==> a.had)
            && (!NoEmptyText(bs) ==> ReplyLen(a.shown) > ReplyLen(b.shown) || (a.had && !b.had))
  {
    if bs != [] {
      var front, last := bs[..|bs| - 1], bs[|bs| - 1];
      StreamShowsMore(f, v, front);
      StreamedLen(f, StreamedAll(f, v, front), last);
      StreamedLen(f, WholeAll(f, v, front), last);
      assert NoEmptyText(front) && last != Text("") ==> NoEmptyText(bs);
    }
  }

  /** A message shows the same status and reply text, and leaves the same separator state, whether
      it streams in any pieces or arrives as one whole event, exactly when no text block of it is
      empty: an empty one still writes its separator, and still counts, when it streams. */
  lemma StreamedShowsAsWhole(f: Format, s: Fold, ps: seq<Piece>, es: seq<Event>)
    requires StreamsMessage(ps, es) && s.ending.Going? && !s.streaming
    ensures Seen(Run(f, s, es)) == Seen(Run(f, s, [Assistant(false, NoError, BlocksOf(ps))]))
            <==> NoEmptyText(BlocksOf(ps))
  {
    var bs := BlocksOf(ps);
    StreamedMessageSeen(f, s, ps, es);
    WholeMessageSeen(f, s, bs);
    StreamShowsMore(f, Seen(s), bs);
    if NoEmptyText(bs) { SameWithoutEmptyText(f, Seen(s), bs); }
  }

  // ---- A witness ------------------------------------------------------------------------------

  lemma PiecesSnoc(ps: seq<Piece>, p: Piece)
    ensures BlocksOf(ps + [p]) == BlocksOf(ps) + [BlockOf(p)]
    ensures PiecesEvents(ps + [p]) == PiecesEvents(ps) + PieceEvents(p)
  {
    hide BlockOf, PieceEvents;
    assert (ps + [p])[..|ps|] == ps;
  }

  lemma BlocksSnoc(f: Format, v: View, bs: seq<Block>, b: Block)
    ensures StreamedAll(f, v, bs + [b]) == Streamed(f, StreamedAll(f, v, bs), b)
    ensures WholeAll(f, v, bs + [b]) == Whole(f, WholeAll(f, v, bs), b)
  {
    hide Streamed, Whole;
    assert (bs + [b])[..|bs|] == bs;
  }

  const FIRST := Piece(Text(""), [TextDelta("a")])
  const SECOND := Piece(Text(""), [])

  lemma TwoPieces()
    ensures WellFormed(FIRST) && WellFormed(SECOND)
    ensures BlocksOf([FIRST, SECOND]) == [Text("a"), Text("")]
    ensures PiecesEvents([FIRST, SECOND]) == PieceEvents(FIRST) + PieceEvents(SECOND)
  {
    assert [TextDelta("a")][..0] == [] && "" + "a" == "a";
    assert BlockOf(FIRST) == Text("a") && BlockOf(SECOND) == Text("");
    PiecesSnoc([], FIRST);
    PiecesSnoc([FIRST], SECOND);
    assert [] + [FIRST] == [FIRST] && [FIRST] + [SECOND] == [FIRST, SECOND];
    Unit(PieceEvents(FIRST));
    assert [] + [Text("a")] == [Text("a")];
  }

  lemma TwoBlocks(f: Format, v: View)
    requires v == View([], false)
    ensures StreamedAll(f, v, [Text("a"), Text("")]) == View([Write(Reply, "a\n\n")], true)
    ensures WholeAll(f, v, [Text("a"), Text("")]) == View([Write(Reply, "a")], true)
  {
    hide StreamedAll, WholeAll, Join;
    OneBlock(f, v);
    BlocksSnoc(f, v, [Text("a")], Text(""));
    assert [Text("a")] + [Text("")] == [Text("a"), Text("")];
    JoinOn([], Reply, "a", SEPARATOR);
    assert [] + [Write(Reply, "a")] == [Write(Reply, "a")] && "a" + SEPARATOR == "a\n\n";
    Unit(SEPARATOR);
    assert [] + [Write(Reply, "a\n\n")] == [Write(Reply, "a\n\n")];
  }

  lemma OneBlock(f: Format, v: View)
    requires v == View([], false)
    ensures StreamedAll(f, v, [Text("a")]) == View([Write(Reply, "a")], true)
    ensures WholeAll(f, v, [Text("a")]) == View([Write(Reply, "a")], true)
  {
    BlocksSnoc(f, v, [], Text("a"));
    assert [] + [Text("a")] == [Text("a")] && "" + "a" == "a";
  }

  lemma {:induction false} NoRepeats(es: seq<Event>)
    requires forall i | 0 <= i < |es| :: !Repeats(es[i])
    ensures Essential(es) == es
  {
    if es != [] {
      NoRepeats(es[1..]);
      assert es == [es[0]] + es[1..];
    }
  }

  /** It happens: a text and an empty text show a trailing separator when they stream and none when
      they arrive whole. */
  lemma EmptyTextShows(f: Format) returns (es: seq<Event>)
    ensures StreamsMessage([FIRST, SECOND], es) && BlocksOf([FIRST, SECOND]) == [Text("a"), Text("")]
    ensures Seen(Run(f, START, es)) == View([Write(Reply, "a\n\n")], true)
    ensures Seen(Run(f, START, [Assistant(false, NoError, BlocksOf([FIRST, SECOND]))]))
         == View([Write(Reply, "a")], true)
  {
    hide Run, PiecesEvents, StreamedAll, WholeAll, BlocksOf;
    TwoPieces();
    var body := PieceEvents(FIRST) + PieceEvents(SECOND);
    PieceHasNoStops();
    NoRepeats(body);
    es := [MessageStart] + body + [MessageStop];
    assert es[1..|es| - 1] == body;
    StreamedMessageSeen(f, START, [FIRST, SECOND], es);
    WholeMessageSeen(f, START, [Text("a"), Text("")]);
    assert Seen(START) == View([], false);
    TwoBlocks(f, Seen(START));
  }

  lemma PieceHasNoStops()
    ensures var body := PieceEvents(FIRST) + PieceEvents(SECOND);
            forall i | 0 <= i < |body| :: !Repeats(body[i]) && body[i] != MessageStop
  {
    assert [TextDelta("a")][..0] == [];
    assert DeltaEvents([TextDelta("a")]) == [BlockDelta(TextDelta("a"))];
  }
}
