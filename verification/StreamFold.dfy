/**
 How a turn's stream of CLI events becomes status and reply text: streamResponse of
 internal/agent/handle.go. A message arrives piece by piece, as a whole copy, or both.
 */
module StreamFold {
  import opened Base
  import opened Search

  datatype Block =
    | Text(text: string)
    | Thinking(thinking: string)
    | ToolUse(name: string, input: string)
    | OtherBlock

  datatype Delta =
    | TextDelta(text: string)
    | ThinkingDelta(thinking: string)
    | InputDelta(json: string)
    | OtherDelta

  datatype AssistantError = NoError | AuthFailed | OtherError

  datatype Event =
    | MessageStart
    | MessageStop
    | BlockStart(block: Block)
    | BlockDelta(delta: Delta)
    | BlockStop
    | Assistant(subagent: bool, error: AssistantError, blocks: seq<Block>)
    | SubagentStream                // a stream event that carries a parent tool use
    | Notice(line: string)          // any event shown as one status text, already formatted
    | Result(failure: Failure, refused: set<string>, stats: string)
    | ContextDone                   // the turn's context is found cancelled
    | ReadError                     // the CLI's output cannot be read on

  datatype Failure = NoFailure | RateLimit | OtherFailure

  /** How tool calls and a subagent's words are shown, and the channel's list of tools. */
  datatype Format = Format(
    toolUse: (string, string) -> string, subagentText: string -> string, allowed: set<string>)

  /** Why the loop stops before the stream does, if it does. */
  datatype Ending = Going | AuthRequired | RateLimited | TurnFailed | Stopped | ReadFailed

  /** What the turn returns. */
  datatype Outcome = Finished | ToolsDenied(tools: set<string>) | Ended(why: Ending)

  datatype BlockType = NoType | TextType | ThinkingType | ToolUseType | OtherType

  /** The locals of the loop, and what was written so far. */
  datatype Fold = Fold(
    blockType: BlockType, streaming: bool, toolName: string, toolStartInput: string, toolInput: string,
    lineStarted: bool, heldNewlines: string, hadText: bool, denied: set<string>, out: seq<Write>,
    ending: Ending)

  const START := Fold(NoType, false, "", "", "", false, "", false, {}, [], Going)

  const THOUGHT := "💭 "
  const SEPARATOR := "\n\n"

  function TypeOf(b: Block): BlockType {
    match b
    case Text(_) => TextType
    case Thinking(_) => ThinkingType
    case ToolUse(_, _) => ToolUseType
    case OtherBlock => OtherType
  }

  /** formatBlock of internal/agent/format.go. */
  function FormatBlock(f: Format, b: Block): string {
    match b
    case Text(text) => text
    case Thinking(thinking) =>
      var thought := TrimNewlines(thinking);
      if thought == "" then "" else THOUGHT + thought + "\n"
    case ToolUse(name, input) => f.toolUse(name, input)
    case OtherBlock => ""
  }

  function Put(s: Fold, kind: Kind, text: string): Fold {
    s.(out := s.out + [Write(kind, text)])
  }

  function StartBlock(s: Fold, b: Block): Fold {
    var s := s.(blockType := TypeOf(b));
    match b
    case Text(_) => if s.hadText then Put(s, Reply, SEPARATOR) else s
    case Thinking(_) => s.(lineStarted := false, heldNewlines := "")
    case ToolUse(name, input) => s.(toolName := name, toolStartInput := input, toolInput := "")
    case OtherBlock => s
  }

  function AddDelta(s: Fold, d: Delta): Fold {
    match d
    case TextDelta(text) => Put(s, Reply, text)
    case ThinkingDelta(thinking) =>
      var text := s.heldNewlines + thinking;
      var visible := TrimNewlines(text);
      var s := s.(heldNewlines := text[|visible|..]);
      if visible == "" then s
      else Put(s.(lineStarted := true), Status, if s.lineStarted then visible else THOUGHT + visible)
    case InputDelta(json) => s.(toolInput := s.toolInput + json)
    case OtherDelta => s
  }

  function StopBlock(f: Format, s: Fold): Fold {
    var s' := s.(blockType := NoType);
    match s.blockType
    case ToolUseType => Put(s', Status,
      f.toolUse(s.toolName, if s.toolInput != "" then s.toolInput else s.toolStartInput))
    case TextType => s'.(hadText := true)
    case ThinkingType => if s.lineStarted then Put(s', Status, "\n") else s'
    case _ => s'
  }

  /** A subagent's whole message: its tool calls and words show as progress. */
  function SubagentBlocks(f: Format, s: Fold, blocks: seq<Block>): (r: Fold)
    ensures r.streaming == s.streaming && r.denied == s.denied
    decreases |blocks|
  {
    if blocks == [] then s
    else
      var line := match blocks[0]
        case ToolUse(name, input) => f.toolUse(name, input)
        case Text(text) => f.subagentText(text)
        case _ => "";
      SubagentBlocks(f, if line == "" then s else Put(s, Status, line), blocks[1..])
  }

  /** A whole message of the main thread; had says whether it already gave a text. */
  function WholeBlocks(f: Format, s: Fold, blocks: seq<Block>, had: bool): (r: Fold)
    ensures r.streaming == s.streaming && r.denied == s.denied
    decreases |blocks|
  {
    if blocks == [] then s.(hadText := s.hadText || had)
    else
      var text := FormatBlock(f, blocks[0]);
      if text == "" then WholeBlocks(f, s, blocks[1..], had)
      else if blocks[0].Text? then
        WholeBlocks(f, Put(s, Reply, if had || s.hadText then SEPARATOR + text else text), blocks[1..], true)
      else WholeBlocks(f, Put(s, Status, text), blocks[1..], had)
  }

  function Step(f: Format, s: Fold, e: Event): Fold {
    match e
    case MessageStart => s.(streaming := true)
    case MessageStop => s.(streaming := false)
    case BlockStart(b) => StartBlock(s, b)
    case BlockDelta(d) => AddDelta(s, d)
    case BlockStop => StopBlock(f, s)
    case Assistant(subagent, error, blocks) =>
      if error.AuthFailed? then s.(ending := AuthRequired)
      else if subagent then SubagentBlocks(f, s, blocks)
      else if s.streaming && error.NoError? then s  // already written from the stream
      else WholeBlocks(f, s, blocks, false)
    case SubagentStream => s
    case Notice(line) => Put(s, Status, line)
    case Result(failure, refused, stats) =>
      if failure.RateLimit? then s.(ending := RateLimited)
      else if failure.OtherFailure? then s.(ending := TurnFailed)
      else Put(s.(denied := s.denied + Offered(f, refused)), Status, stats)
    case ContextDone => s.(ending := Stopped)
    case ReadError => s.(ending := ReadFailed)
  }

  /** The refused tools that allowing could change: those missing from the channel's list. */
  function Offered(f: Format, refused: set<string>): set<string> {
    if f.allowed == {} then {} else refused - f.allowed
  }

  function OutcomeOf(s: Fold): Outcome {
    if !s.ending.Going? then Ended(s.ending) else if s.denied != {} then ToolsDenied(s.denied) else Finished
  }

  /** The whole stream, up to what ends it. */
  function Run(f: Format, s: Fold, events: seq<Event>): Fold
    decreases |events|
  {
    if events == [] || !s.ending.Going? then s else Run(f, Step(f, s, events[0]), events[1..])
  }

  lemma {:induction false} RunConcat(f: Format, s: Fold, a: seq<Event>, b: seq<Event>)
    ensures Run(f, s, a + b) == Run(f, Run(f, s, a), b)
    decreases |a|
  {
    if a == [] {
      assert a + b == b;
    } else {
      assert (a + b)[1..] == a[1..] + b;
      if s.ending.Going? { RunConcat(f, Step(f, s, a[0]), a[1..], b); }
    }
  }

  /** A turn never offers a tool the channel already allows, nor any where there is no list. */
  lemma {:induction false} DeniedAreMissing(f: Format, s: Fold, events: seq<Event>)
    requires s.denied !! f.allowed && (f.allowed == {} ==> s.denied == {})
    ensures var d := Run(f, s, events).denied; d !! f.allowed && (f.allowed == {} ==> d == {}) && s.denied <= d
    decreases |events|
  {
    if events != [] && s.ending.Going? {
      BlocksKeepDenied(f, s, events[0]);
      DeniedAreMissing(f, Step(f, s, events[0]), events[1..]);
    }
  }

  lemma BlocksKeepDenied(f: Format, s: Fold, e: Event)
    ensures Step(f, s, e).denied == if e.Result? && e.failure.NoFailure? then s.denied + Offered(f, e.refused)
            else s.denied
  {}

  // ---- The loop ------------------------------------------------------------------------------

  lemma RunNext(f: Format, s: Fold, events: seq<Event>, i: nat)
    requires i < |events| && s.ending.Going?
    ensures Run(f, s, events[i..]) == Run(f, Step(f, s, events[i]), events[i + 1..])
  {
    hide Step;
  }

  lemma RunDone(f: Format, s: Fold, events: seq<Event>)
    requires events == [] || !s.ending.Going?
    ensures Run(f, s, events) == s
  {}

  /** streamResponse: the loop over the events, with its locals. */
  method StreamResponse(f: Format, events: seq<Event>) returns (out: seq<Write>, outcome: Outcome)
    ensures out == Run(f, START, events).out && outcome == OutcomeOf(Run(f, START, events))
  {
    hide Run, SubagentBlocks, WholeBlocks, TrimNewlines, FormatBlock;
    var blockType, streaming, hadText := NoType, false, false;
    var toolName, toolStartInput, toolInput := "", "", "";
    var lineStarted, heldNewlines := false, "";
    var denied: set<string> := {};
    var ending := Going;
    out := [];
    var i := 0;
    assert events[0..] == events;
    while i < |events| && ending.Going?
      invariant i <= |events|
      invariant Run(f, START, events)
             == Run(f, Fold(blockType, streaming, toolName, toolStartInput, toolInput, lineStarted, heldNewlines,
                            hadText, denied, out, ending), events[i..])
    {
      ghost var s := Fold(blockType, streaming, toolName, toolStartInput, toolInput, lineStarted, heldNewlines,
                          hadText, denied, out, ending);
      RunNext(f, s, events, i);
      match events[i] {
        case MessageStart => streaming := true;
        case MessageStop => streaming := false;
        case BlockStart(b) =>
          blockType := TypeOf(b);
          match b {
            case Text(_) => if hadText { out := out + [Write(Reply, SEPARATOR)]; }
            case Thinking(_) => lineStarted, heldNewlines := false, "";
            case ToolUse(name, input) => toolName, toolStartInput, toolInput := name, input, "";
            case OtherBlock =>
          }
        case BlockDelta(TextDelta(text)) => out := out + [Write(Reply, text)];
        case BlockDelta(ThinkingDelta(thinking)) =>
          var text := heldNewlines + thinking;
          var visible := TrimNewlines(text);
          heldNewlines := text[|visible|..];
          if visible != "" {
            if !lineStarted {
              visible := THOUGHT + visible;
              lineStarted := true;
            }
            out := out + [Write(Status, visible)];
          }
        case BlockDelta(InputDelta(json)) => toolInput := toolInput + json;
        case BlockDelta(OtherDelta) =>
        case BlockStop =>
          if blockType == ToolUseType {
            var input := if toolInput != "" then toolInput else toolStartInput;
            out := out + [Write(Status, f.toolUse(toolName, input))];
          } else if blockType == TextType {
            hadText := true;
          } else if blockType == ThinkingType && lineStarted {
            out := out + [Write(Status, "\n")];
          }
          blockType := NoType;
        case Assistant(subagent, error, blocks) =>
          if error.AuthFailed? {
            ending := AuthRequired;
          } else if subagent {
            out := WriteSubagentBlocks(f, blocks, out, s);
          } else if !(streaming && error.NoError?) {
            out, hadText := WriteWholeBlocks(f, blocks, out, hadText, s);
          }
        case SubagentStream =>
        case Notice(line) => out := out + [Write(Status, line)];
        case Result(failure, refused, stats) =>
          if failure.RateLimit? {
            ending := RateLimited;
          } else if failure.OtherFailure? {
            ending := TurnFailed;
          } else {
            if f.allowed != {} { denied := denied + (refused - f.allowed); }
            assert denied == s.denied + Offered(f, refused);
            out := out + [Write(Status, stats)];
          }
        case ContextDone => ending := Stopped;
        case ReadError => ending := ReadFailed;
      }
      i := i + 1;
    }
    RunDone(f, Fold(blockType, streaming, toolName, toolStartInput, toolInput, lineStarted, heldNewlines,
                    hadText, denied, out, ending), events[i..]);
    if !ending.Going? { return out, Ended(ending); }
    return out, if denied != {} then ToolsDenied(denied) else Finished;
  }

  method WriteSubagentBlocks(f: Format, blocks: seq<Block>, written: seq<Write>, ghost s: Fold)
    returns (out: seq<Write>)
    requires s.out == written
    ensures s.(out := out) == SubagentBlocks(f, s, blocks)
  {
    out := written;
    for i := 0 to |blocks|
      invariant SubagentBlocks(f, s, blocks) == SubagentBlocks(f, s.(out := out), blocks[i..])
    {
      var line := "";
      match blocks[i] {
        case ToolUse(name, input) => line := f.toolUse(name, input);
        case Text(text) => line := f.subagentText(text);
        case _ =>
      }
      assert blocks[i..][1..] == blocks[i + 1..];
      if line != "" { out := out + [Write(Status, line)]; }
    }
  }

  method WriteWholeBlocks(f: Format, blocks: seq<Block>, written: seq<Write>, hadText: bool, ghost s: Fold)
    returns (out: seq<Write>, had: bool)
    requires s.out == written && s.hadText == hadText
    ensures s.(out := out, hadText := had) == WholeBlocks(f, s, blocks, false)
  {
    out := written;
    var fallbackHadText := false;
    for i := 0 to |blocks|
      invariant WholeBlocks(f, s, blocks, false) == WholeBlocks(f, s.(out := out), blocks[i..], fallbackHadText)
    {
      var text := FormatBlock(f, blocks[i]);
      assert blocks[i..][1..] == blocks[i + 1..];
      if text != "" {
        var kind := Status;
        if blocks[i].Text? {
          if fallbackHadText || hadText { text := SEPARATOR + text; }
          fallbackHadText, kind := true, Reply;
        }
        out := out + [Write(kind, text)];
      }
    }
    had := hadText || fallbackHadText;
  }
}
