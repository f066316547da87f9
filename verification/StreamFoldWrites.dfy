/**
 Which events of a stream write what: a subagent's messages and the notices only ever show as
 status, the reply is the main thread's text alone, and what ends the turn decides its outcome.
 */
module StreamFoldWrites {
  import opened Base
  import opened Places
  import opened Search
  import opened StreamFold
  import opened StreamFoldMeaning

  // ---- A subagent's message -------------------------------------------------------------------

  /** What a subagent's block shows: its tool calls and its words. */
  function Progress(f: Format, b: Block): string {
    if b.ToolUse? then f.toolUse(b.name, b.input) else if b.Text? then f.subagentText(b.text) else ""
  }

  function ProgressParts(f: Format, blocks: seq<Block>): (parts: seq<seq<Write>>) {
    seq(|blocks|, i requires 0 <= i < |blocks| =>
      if Progress(f, blocks[i]) == "" then [] else [Write(Status, Progress(f, blocks[i]))])
  }

  lemma {:induction false} SubagentWrites(f: Format, s: Fold, blocks: seq<Block>)
    ensures SubagentBlocks(f, s, blocks) == s.(out := s.out + Flat(ProgressParts(f, blocks)))
    decreases |blocks|
  {
    if blocks == [] {
      Unit(s.out);
    } else {
      var parts := ProgressParts(f, blocks);
      SubagentWrites(f, s.(out := s.out + parts[0]), blocks[1..]);
      assert parts[1..] == ProgressParts(f, blocks[1..]);
      Associative(s.out, parts[0], Flat(parts[1..]));
      Unit(s.out);
    }
  }

  /** A subagent's message shows, as status, one line for each tool call and each text that has one,
      in order, and changes nothing else. */
  lemma SubagentShows(f: Format, s: Fold, error: AssistantError, blocks: seq<Block>)
    returns (from: seq<nat>, lines: seq<Write>)
    requires s.ending.Going? && error != AuthFailed
    ensures Run(f, s, [Assistant(true, error, blocks)]) == s.(out := s.out + lines)
    ensures Increasing(from, |blocks|) && |lines| == |from|
    ensures forall i: nat | i < |blocks| :: i in from <==> Progress(f, blocks[i]) != ""
    ensures forall k | 0 <= k < |from| :: lines[k] == Write(Status, Progress(f, blocks[from[k]]))
  {
    RunOne(f, s, Assistant(true, error, blocks));
    SubagentWrites(f, s, blocks);
    lines := Flat(ProgressParts(f, blocks));
    from := FlatComes(ProgressParts(f, blocks));
  }

  /** So does every other event that is not the main thread's: at most one status text. */
  lemma AsidesShow(f: Format, s: Fold, line: string, refused: set<string>, stats: string)
    requires s.ending.Going?
    ensures Run(f, s, [SubagentStream]) == s
    ensures Run(f, s, [Notice(line)]) == s.(out := s.out + [Write(Status, line)])
    ensures var r := Run(f, s, [Result(NoFailure, refused, stats)]);
            r == s.(out := s.out + [Write(Status, stats)], denied := r.denied)
  {
    RunOne(f, s, SubagentStream);
    RunOne(f, s, Notice(line));
    RunOne(f, s, Result(NoFailure, refused, stats));
  }

  // ---- A whole message ------------------------------------------------------------------------

  /** What a block of a whole message shows. */
  function Line(f: Format, b: Block): string {
    match b
    case Text(text) => text
    case Thinking(thinking) =>
      if TrimNewlines(thinking) == "" then "" else "💭 " + TrimNewlines(thinking) + "\n"
    case ToolUse(name, input) => f.toolUse(name, input)
    case OtherBlock => ""
  }

  /** A text before place i of the message, or before the message. */
  predicate TextBefore(had: bool, blocks: seq<Block>, i: nat) {
    had || exists j :: 0 <= j < i && j < |blocks| && blocks[j].Text? && blocks[j].text != ""
  }

  function WriteAt(f: Format, had: bool, blocks: seq<Block>, i: nat): Write
    requires i < |blocks|
  {
    if blocks[i].Text? then Write(Reply, (if TextBefore(had, blocks, i) then "\n\n" else "") + blocks[i].text)
    else Write(Status, Line(f, blocks[i]))
  }

  function WholeParts(f: Format, had: bool, blocks: seq<Block>): (parts: seq<seq<Write>>) {
    seq(|blocks|, i requires 0 <= i < |blocks| => if Line(f, blocks[i]) == "" then [] else [WriteAt(f, had, blocks, i)])
  }

  lemma TextBeforeRest(had: bool, blocks: seq<Block>, i: nat)
    requires blocks != []
    ensures var had' := had || (blocks[0].Text? && blocks[0].text != "");
            TextBefore(had', blocks[1..], i) <==> TextBefore(had, blocks, i + 1)
  {
    if j :| 0 <= j < i + 1 && j < |blocks| && blocks[j].Text? && blocks[j].text != "" {
      if j > 0 { assert blocks[1..][j - 1] == blocks[j]; }
    }
    if j :| 0 <= j < i && j < |blocks[1..]| && blocks[1..][j].Text? && blocks[1..][j].text != "" {
      assert blocks[j + 1] == blocks[1..][j];
    }
  }

  lemma WholePartsRest(f: Format, had: bool, blocks: seq<Block>)
    requires blocks != []
    ensures WholeParts(f, had, blocks)[1..]
         == WholeParts(f, had || (blocks[0].Text? && blocks[0].text != ""), blocks[1..])
  {
    hide Line;
    var had' := had || (blocks[0].Text? && blocks[0].text != "");
    forall i: nat | i < |blocks| - 1 ensures WriteAt(f, had, blocks, i + 1) == WriteAt(f, had', blocks[1..], i) {
      TextBeforeRest(had, blocks, i);
    }
  }

  /** One block of a whole message. */
  lemma WholeOne(f: Format, s: Fold, blocks: seq<Block>, had: bool)
    requires blocks != []
    ensures var part := WholeParts(f, s.hadText || had, blocks)[0];
            WholeBlocks(f, s, blocks, had)
            == WholeBlocks(f, s.(out := s.out + part), blocks[1..], had || (blocks[0].Text? && blocks[0].text != ""))
  {
    Unit(s.out);
    NoneBefore(s.hadText || had, blocks);
    if blocks[0].Text? { Unit(blocks[0].text); }
  }

  lemma NoneBefore(had: bool, blocks: seq<Block>)
    ensures TextBefore(had, blocks, 0) == had
  {}

  lemma {:induction false} WholeWrites(f: Format, s: Fold, blocks: seq<Block>, had: bool)
    ensures WholeBlocks(f, s, blocks, had)
         == s.(out := s.out + Flat(WholeParts(f, s.hadText || had, blocks)),
               hadText := TextBefore(s.hadText || had, blocks, |blocks|))
    decreases |blocks|
  {
    if blocks == [] {
      Unit(s.out);
    } else {
      hide WholeBlocks, WholeParts, TextBefore;
      var before, given := s.hadText || had, blocks[0].Text? && blocks[0].text != "";
      WholeSize(f, before, blocks);
      var parts := WholeParts(f, before, blocks);
      WholeOne(f, s, blocks, had);
      WholeWrites(f, s.(out := s.out + parts[0]), blocks[1..], had || given);
      WholePartsRest(f, before, blocks);
      TextBeforeRest(before, blocks, |blocks| - 1);
      Associative(s.out, parts[0], Flat(parts[1..]));
    }
  }

  lemma WholeSize(f: Format, had: bool, blocks: seq<Block>)
    ensures |WholeParts(f, had, blocks)| == |blocks|
  {}

  /** A whole message of the main thread that no stream gave, or that is an error: each block that
      shows something writes it, in order, text as reply and the rest as status; a blank line comes
      between one text and the next. */
  lemma WholeMessageWrites(f: Format, s: Fold, error: AssistantError, blocks: seq<Block>)
    returns (from: seq<nat>, writes: seq<Write>)
    requires s.ending.Going? && (error == OtherError || (error == NoError && !s.streaming))
    ensures Run(f, s, [Assistant(false, error, blocks)])
         == s.(out := s.out + writes, hadText := TextBefore(s.hadText, blocks, |blocks|))
    ensures Increasing(from, |blocks|) && |writes| == |from|
    ensures forall i: nat | i < |blocks| :: i in from <==> Line(f, blocks[i]) != ""
    ensures forall k | 0 <= k < |from| :: writes[k] == WriteAt(f, s.hadText, blocks, from[k])
  {
    hide WholeBlocks;
    RunOne(f, s, Assistant(false, error, blocks));
    WholeWrites(f, s, blocks, false);
    writes := Flat(WholeParts(f, s.hadText, blocks));
    from := FlatComes(WholeParts(f, s.hadText, blocks));
  }

  // ---- The reply ------------------------------------------------------------------------------

  function Replies(ws: seq<Write>): seq<Write> {
    if ws == [] then []
    else Replies(ws[..|ws| - 1]) + if ws[|ws| - 1].kind == Reply then [ws[|ws| - 1]] else []
  }

  lemma {:induction false} RepliesConcat(a: seq<Write>, b: seq<Write>)
    ensures Replies(a + b) == Replies(a) + Replies(b)
    decreases |b|
  {
    if b == [] {
      Unit(a);
      Unit(Replies(a));
    } else {
      var n := |b| - 1;
      var last := if b[n].kind == Reply then [b[n]] else [];
      assert (a + b)[..|a + b| - 1] == a + b[..n] && (a + b)[|a + b| - 1] == b[n];
      RepliesConcat(a, b[..n]);
      Associative(Replies(a), Replies(b[..n]), last);
    }
  }

  /** Events that are no part of the main thread's messages, and do not end the turn. */
  predicate IsAside(e: Event) {
    e.SubagentStream? || e.Notice? || (e.Assistant? && e.subagent && e.error != AuthFailed)
    || (e.Result? && e.failure.NoFailure?)
  }

  function MainThread(events: seq<Event>): seq<Event> {
    if events == [] then [] else (if IsAside(events[0]) then [] else [events[0]]) + MainThread(events[1..])
  }

  /** Two states that differ in the status written and the tools refused alone. */
  ghost predicate SameReply(a: Fold, b: Fold) {
    b == a.(out := b.out, denied := b.denied) && Replies(a.out) == Replies(b.out)
  }

  lemma AsideKeepsReply(f: Format, s: Fold, e: Event)
    requires IsAside(e) && s.ending.Going?
    ensures SameReply(s, Step(f, s, e))
  {
    RunOne(f, s, e);
    match e
    case Assistant(_, error, blocks) =>
      var from, lines := SubagentShows(f, s, error, blocks);
      StatusOnly(lines);
      RepliesConcat(s.out, lines);
    case Notice(line) =>
      AsidesShow(f, s, line, {}, "");
      StatusOnly([Write(Status, line)]);
      RepliesConcat(s.out, [Write(Status, line)]);
    case Result(_, refused, stats) =>
      AsidesShow(f, s, "", refused, stats);
      StatusOnly([Write(Status, stats)]);
      RepliesConcat(s.out, [Write(Status, stats)]);
    case _ =>
  }

  lemma {:induction false} StatusOnly(ws: seq<Write>)
    requires forall i | 0 <= i < |ws| :: ws[i].kind == Status
    ensures Replies(ws) == []
    decreases |ws|
  {
    if ws != [] { StatusOnly(ws[..|ws| - 1]); }
  }

  /** What a piece of a streamed message writes: reply text as it comes, thinking and tool calls as
      status. */
  function PieceWrites(f: Format, s: Fold, e: Event): seq<Write> {
    match e
    case BlockStart(Text(_)) => if s.hadText then [Write(Reply, "\n\n")] else []
    case BlockDelta(TextDelta(text)) => [Write(Reply, text)]
    case BlockDelta(ThinkingDelta(thinking)) =>
      var visible := TrimNewlines(s.heldNewlines + thinking);
      if visible == "" then [] else [Write(Status, (if s.lineStarted then "" else "💭 ") + visible)]
    case BlockStop =>
      if s.blockType == ToolUseType then
        [Write(Status, f.toolUse(s.toolName, if s.toolInput != "" then s.toolInput else s.toolStartInput))]
      else if s.blockType == ThinkingType && s.lineStarted then [Write(Status, "\n")] else []
    case _ => []
  }

  lemma PieceAdds(f: Format, s: Fold, e: Event)
    requires !e.Assistant? && !IsAside(e)
    ensures Step(f, s, e).out == s.out + PieceWrites(f, s, e)
  {
    Unit(s.out);
    if e.BlockDelta? && e.delta.ThinkingDelta? { Unit(TrimNewlines(s.heldNewlines + e.delta.thinking)); }
  }

  /** What it leaves to remember: a text has been shown once a text block has stopped, a message streams
      from its start to its stop, and a block's type lasts until the block stops. */
  lemma PieceKeeps(f: Format, s: Fold, e: Event)
    requires !e.Assistant? && !IsAside(e)
    ensures var r := Step(f, s, e);
            && (r.hadText <==> s.hadText || (e.BlockStop? && s.blockType == TextType))
            && (r.streaming <==> e.MessageStart? || (s.streaming && !e.MessageStop?))
            && r.blockType == match e
                              case BlockStart(Text(_)) => TextType
                              case BlockStart(Thinking(_)) => ThinkingType
                              case BlockStart(ToolUse(_, _)) => ToolUseType
                              case BlockStart(OtherBlock) => OtherType
                              case BlockStop => NoType
                              case _ => s.blockType
  {}

  /** What an event of the main thread writes depends on nothing a subagent or a notice did. */
  lemma MainStepAlike(f: Format, a: Fold, b: Fold, e: Event)
    requires SameReply(a, b) && a.ending.Going? && !IsAside(e)
    ensures SameReply(Step(f, a, e), Step(f, b, e))
  {
    if e.Assistant? {
      if !e.error.AuthFailed? && !(a.streaming && e.error.NoError?) {
        WholeWrites(f, a, e.blocks, false);
        WholeWrites(f, b, e.blocks, false);
        RepliesConcat(a.out, Flat(WholeParts(f, a.hadText, e.blocks)));
        RepliesConcat(b.out, Flat(WholeParts(f, a.hadText, e.blocks)));
      }
    } else {
      PieceAdds(f, a, e);
      PieceAdds(f, b, e);
      RepliesConcat(a.out, PieceWrites(f, a, e));
      RepliesConcat(b.out, PieceWrites(f, b, e));
      SameLocals(f, a, b, e);
    }
  }

  lemma SameLocals(f: Format, a: Fold, b: Fold, e: Event)
    requires b == a.(out := b.out, denied := b.denied) && a.ending.Going? && !IsAside(e) && !e.Assistant?
    ensures Step(f, b, e) == Step(f, a, e).(out := Step(f, b, e).out, denied := Step(f, b, e).denied)
    ensures PieceWrites(f, a, e) == PieceWrites(f, b, e)
  {
    hide TrimNewlines;
    match e
    case BlockStart(_) => SameStart(a, b, e.block);
    case BlockDelta(d) => SameDelta(a, b, d);
    case BlockStop => SameStop(f, a, b);
    case _ =>
  }

  lemma SameStart(a: Fold, b: Fold, block: Block)
    requires b == a.(out := b.out, denied := b.denied)
    ensures StartBlock(b, block)
         == StartBlock(a, block).(out := StartBlock(b, block).out, denied := StartBlock(b, block).denied)
  {}

  lemma SameDelta(a: Fold, b: Fold, d: Delta)
    requires b == a.(out := b.out, denied := b.denied)
    ensures AddDelta(b, d) == AddDelta(a, d).(out := AddDelta(b, d).out, denied := AddDelta(b, d).denied)
  {
    hide TrimNewlines;
  }

  lemma SameStop(f: Format, a: Fold, b: Fold)
    requires b == a.(out := b.out, denied := b.denied)
    ensures StopBlock(f, b) == StopBlock(f, a).(out := StopBlock(f, b).out, denied := StopBlock(f, b).denied)
  {
    match a.blockType
    case ToolUseType =>
    case ThinkingType =>
    case _ =>
  }

  /** The reply is the main thread's alone: without the subagents' messages and streams, the notices
      and the results, a turn writes the same reply texts. */
  lemma {:induction false} ReplyIsMainThread(f: Format, a: Fold, b: Fold, events: seq<Event>)
    requires SameReply(a, b)
    ensures SameReply(Run(f, a, events), Run(f, b, MainThread(events)))
    decreases |events|
  {
    hide Step, Replies;
    if events != [] && a.ending.Going? {
      var e, rest := events[0], MainThread(events[1..]);
      if IsAside(e) {
        AsideKeepsReply(f, a, e);
        ReplyIsMainThread(f, Step(f, a, e), b, events[1..]);
        Unit(rest);
      } else {
        MainStepAlike(f, a, b, e);
        ReplyIsMainThread(f, Step(f, a, e), Step(f, b, e), events[1..]);
        assert ([e] + rest)[1..] == rest;
      }
    }
  }

  // ---- How a turn ends ------------------------------------------------------------------------

  /** What an event ends the turn with, if it does. */
  function EndsWith(e: Event): Ending {
    match e
    case Assistant(_, AuthFailed, _) => AuthRequired
    case Result(RateLimit, _, _) => RateLimited
    case Result(OtherFailure, _, _) => TurnFailed
    case ContextDone => Stopped
    case ReadError => ReadFailed
    case _ => Going
  }

  /** The first event that ends the turn. */
  predicate FirstEnd(events: seq<Event>, i: nat) {
    i < |events| && EndsWith(events[i]) != Going && forall j | 0 <= j < i :: EndsWith(events[j]) == Going
  }

  predicate NoneEnds(events: seq<Event>) { forall i | 0 <= i < |events| :: EndsWith(events[i]) == Going }

  /** A tool that a result reports as refused. */
  predicate Reported(events: seq<Event>, tool: string) {
    exists i :: 0 <= i < |events| && RefusedAt(events, i, tool)
  }

  predicate RefusedAt(events: seq<Event>, i: nat, tool: string)
    requires i < |events|
  {
    events[i].Result? && tool in events[i].refused
  }

  lemma StepEnds(f: Format, s: Fold, e: Event)
    requires s.ending.Going?
    ensures Step(f, s, e).ending == EndsWith(e)
    ensures EndsWith(e) != Going ==> Step(f, s, e).out == s.out
    ensures EndsWith(e) == Going ==> forall tool ::
              tool in Step(f, s, e).denied
              <==> tool in s.denied || (RefusedAt([e], 0, tool) && f.allowed != {} && tool !in f.allowed)
  {
    if e.Assistant? && !e.error.AuthFailed? {
      if e.subagent { SubagentWrites(f, s, e.blocks); } else { WholeWrites(f, s, e.blocks, false); }
    }
  }

  lemma ReportedFirst(e: Event, rest: seq<Event>, tool: string)
    ensures Reported([e] + rest, tool) <==> RefusedAt([e], 0, tool) || Reported(rest, tool)
  {
    var all := [e] + rest;
    if Reported(all, tool) {
      var i :| 0 <= i < |all| && RefusedAt(all, i, tool);
      if i > 0 { assert RefusedAt(rest, i - 1, tool); }
    }
    if RefusedAt([e], 0, tool) { assert RefusedAt(all, 0, tool); }
    if Reported(rest, tool) {
      var i :| 0 <= i < |rest| && RefusedAt(rest, i, tool);
      assert RefusedAt(all, i + 1, tool);
    }
  }

  lemma {:induction false} RunEnds(f: Format, s: Fold, events: seq<Event>)
    requires s.ending.Going? && NoneEnds(events)
    ensures var r := Run(f, s, events);
            r.ending.Going? && forall tool ::
              tool in r.denied
              <==> tool in s.denied || (Reported(events, tool) && f.allowed != {} && tool !in f.allowed)
    decreases |events|
  {
    hide Step, EndsWith, RefusedAt, Reported;
    if events == [] {
      NoneReported();
    } else {
      assert events == [events[0]] + events[1..];
      StepEnds(f, s, events[0]);
      RunEnds(f, Step(f, s, events[0]), events[1..]);
      forall tool ensures Reported(events, tool) <==> RefusedAt([events[0]], 0, tool) || Reported(events[1..], tool) {
        ReportedFirst(events[0], events[1..], tool);
      }
    }
  }

  lemma NoneReported()
    ensures forall tool :: !Reported([], tool)
  {}

  /** What a turn returns: the first event that ends it decides, and what comes after it writes
      nothing. If none does, the turn is denied tools exactly when a result reported some that are
      missing from the channel's list, and then exactly those; where there is no list it is denied
      none. */
  lemma OutcomeExactly(f: Format, events: seq<Event>)
    ensures var r := Run(f, START, events);
            && (forall i: nat | FirstEnd(events, i) ::
                  OutcomeOf(r) == Ended(EndsWith(events[i])) && r.out == Run(f, START, events[..i]).out)
            && (NoneEnds(events) ==>
                  match OutcomeOf(r)
                  case Ended(_) => false
                  case ToolsDenied(tools) =>
                    tools != {} && f.allowed != {}
                    && forall tool :: tool in tools <==> Reported(events, tool) && tool !in f.allowed
                  case Finished => f.allowed == {} || forall tool :: Reported(events, tool) ==> tool in f.allowed)
  {
    hide Step, EndsWith, RefusedAt, Reported;
    forall i: nat | FirstEnd(events, i)
      ensures OutcomeOf(Run(f, START, events)) == Ended(EndsWith(events[i]))
      ensures Run(f, START, events).out == Run(f, START, events[..i]).out
    {
      var before := Run(f, START, events[..i]);
      RunEnds(f, START, events[..i]);
      assert events == events[..i] + events[i..] && events[i..][0] == events[i];
      RunConcat(f, START, events[..i], events[i..]);
      StepEnds(f, before, events[i]);
      RunDone(f, Step(f, before, events[i]), events[i..][1..]);
    }
    if NoneEnds(events) { RunEnds(f, START, events); }
  }
}
