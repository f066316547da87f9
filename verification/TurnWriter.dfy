/**
 The split-mode turn writer of internal/agent/handle.go: status lines and reply text of one turn
 go to separate chat messages. Texts are sequences of code points, limits count bytes.
 */
module TurnWriter {
  import opened Base
  import opened CodePoints

  const MAX_MESSAGE_LEN := 3500
  const TELEGRAM_TRUNCATE_LEN := 3900
  const DRAFT_INTERVAL := 700

  const TRUNCATION_NOTICE: string := "\U{2026}[truncated]"

  /** One message of the chat, in chat order; its index is its id, so ids are fresh. */
  datatype Message = Message(kind: Kind, content: string)

  /** What the writer asked of the transport, whether or not it succeeded. */
  datatype Call =
    | SendStatus(content: string)
    | EditStatus(shown: string, content: string)  // shown: what the edited message held before
    | SendReply(content: string)
    | EditReply(shown: string, content: string)
    | UpdateDraft(id: nat, content: string, at: int, answer: DraftAnswer)

  /** What the channel offers: the status wrap tags, the reply limit, and drafts. */
  datatype Config = Config(open: string, close: string, replyLimit: nat, canDraft: bool)

  datatype DraftAnswer = Accepted | Stopped | Refused

  /** How the transport answers during one write, and the time it happens at. */
  datatype Env = Env(flushOk: bool, draft: DraftAnswer, sendOk: bool, editOk: bool, recoveryOk: bool, now: int)

  datatype State = State(
    statusBuf: string, statusID: Option<nat>,
    respBuf: string, respID: Option<nat>,
    statusSealed: bool, respSealed: bool, wrapOpen: bool,
    drafts: bool, draftLive: bool, draftID: nat, lastDraft: Option<int>,  // draftID: how many drafts there were
    log: seq<Message>, calls: seq<Call>)

  /** The state after one operation, and whether the operation returned an error. */
  datatype Outcome = Outcome(state: State, failed: bool)

  function Initial(cfg: Config): State {
    State("", None, "", None, false, false, false, cfg.canDraft, false, 0, None, [], [])
  }

  /** truncateForTelegram, and the transport dropping a code point that the cut breaks. */
  function Truncate(s: string): string {
    if ByteLength(s) <= TELEGRAM_TRUNCATE_LEN then s else s[..Fitting(s, TELEGRAM_TRUNCATE_LEN)] + TRUNCATION_NOTICE
  }

  /** A text sent is within the cap and the notice, and over the cap exactly when it was cut. */
  lemma TruncateSize(s: string)
    ensures ByteLength(Truncate(s)) <= TELEGRAM_TRUNCATE_LEN + ByteLength(TRUNCATION_NOTICE)
    ensures ByteLength(Truncate(s)) > TELEGRAM_TRUNCATE_LEN <==> ByteLength(s) > TELEGRAM_TRUNCATE_LEN
  {
    var n := Fitting(s, TELEGRAM_TRUNCATE_LEN);
    FittingFills(s, TELEGRAM_TRUNCATE_LEN);
    ByteLengthConcat(s[..n], TRUNCATION_NOTICE);
  }

  function Suffix(cfg: Config, wrapOpen: bool, content: string): string {
    if wrapOpen && cfg.close != "" then content + cfg.close else content
  }

  function Prefix(cfg: Config, content: string): string {
    if cfg.open != "" then cfg.open + content else content
  }

  // ---- The transport -------------------------------------------------------------------------

  function Send(s: State, call: Call, kind: Kind, ok: bool): (State, Option<nat>) {
    var s := s.(calls := s.calls + [call]);
    if ok && !Blank(call.content) then
      (s.(log := s.log + [Message(kind, call.content)]), Some(|s.log|))
    else
      (s, None)
  }

  /** The content shown by a message of the chat. */
  function Shown(s: State, id: nat): string {
    if id < |s.log| then s.log[id].content else ""
  }

  /** The state after a successful edit. */
  function Replace(s: State, id: nat, content: string): State {
    if id < |s.log| then s.(log := s.log[id := s.log[id].(content := content)]) else s
  }

  // ---- The writer ----------------------------------------------------------------------------

  /** flushDraft: a draft is only a preview, so the reply exists once this has run. */
  function FlushDraft(s: State, ok: bool): Outcome {
    if !s.draftLive then Outcome(s, false)
    else
      var (s, id) := Send(s.(draftLive := false), SendReply(s.respBuf), Reply, ok);
      if id.None? then Outcome(s, true) else Outcome(s.(respID := id), false)
  }

  /** streamDraft: the state after it, and whether the draft stands for the reply so far. */
  function StreamDraft(s: State, env: Env): (r: (State, bool))
    ensures r.0 == s.(drafts := r.0.drafts, draftLive := r.1, draftID := r.0.draftID, lastDraft := r.0.lastDraft,
                      calls := r.0.calls)
    ensures r.1 ==> r.0.drafts == s.drafts
  {
    var s := if s.draftLive then s else s.(draftLive := true, draftID := s.draftID + 1, lastDraft := None);
    if s.lastDraft.Some? && env.now - s.lastDraft.value < DRAFT_INTERVAL then (s, true)
    else
      var s := s.(calls := s.calls + [UpdateDraft(s.draftID, s.respBuf, env.now, env.draft)]);
      match env.draft
      case Accepted => (s.(lastDraft := Some(env.now)), true)
      case Stopped => (s, true)
      case Refused => (s.(drafts := false, draftLive := false), false)
  }

  /** A sealed status message is left behind; the next status starts a new one. */
  function StartStatus(s: State): State {
    if s.statusSealed
    then s.(statusBuf := "", statusID := None, statusSealed := false, wrapOpen := false)
    else s
  }

  function SendNewStatus(s: State, content: string, ok: bool): (o: Outcome)
    ensures o.state.respBuf == s.respBuf && !o.failed
  {
    var (s, id) := Send(s, SendStatus(Truncate(content)), Status, ok);
    if id.None? then Outcome(s, false)  // status is informational: the error is swallowed
    else Outcome(s.(statusID := id, respSealed := s.respSealed || s.respID.Some?), false)
  }

  function RecoverStatus(cfg: Config, s: State, text: string, ok: bool): (o: Outcome)
    ensures o.state.respBuf == s.respBuf && !o.failed
  {
    var restart := Prefix(cfg, text);
    var s := s.(statusBuf := restart, statusID := None);
    var (s, id) := Send(s, SendStatus(Truncate(Suffix(cfg, s.wrapOpen, restart))), Status, ok);
    if id.None? then Outcome(s, false) else Outcome(s.(statusID := id), false)
  }

  function EditOrRecoverStatus(cfg: Config, s: State, text: string, content: string, env: Env): (o: Outcome)
    requires s.statusID.Some?
    ensures o.state.respBuf == s.respBuf && !o.failed
  {
    var id := s.statusID.value;
    var shown := Shown(s, id);
    var s := s.(calls := s.calls + [EditStatus(shown, Truncate(content))]);
    if env.editOk then Outcome(Replace(s, id, Truncate(content)), false)
    else if shown == Truncate(content) then Outcome(s, false)  // "message is not modified"
    else RecoverStatus(cfg, s, text, env.recoveryOk)
  }

  function AppendStatus(cfg: Config, s: State, raw: string, env: Env): (o: Outcome)
    ensures o.state.respBuf == s.respBuf && !o.failed
  {
    var opening := !s.wrapOpen && cfg.open != "";
    var text := if opening then cfg.open + raw else raw;
    var s := s.(wrapOpen := s.wrapOpen || opening, statusBuf := s.statusBuf + text);
    var content := Suffix(cfg, s.wrapOpen, s.statusBuf);
    if s.statusID.Some? && ByteLength(content) > MAX_MESSAGE_LEN then
      var restart := Prefix(cfg, text);
      SendNewStatus(s.(statusBuf := restart, statusID := None), Suffix(cfg, s.wrapOpen, restart), env.sendOk)
    else if s.statusID.None? then SendNewStatus(s, content, env.sendOk)
    else EditOrRecoverStatus(cfg, s, text, content, env)
  }

  function WriteStatus(cfg: Config, s: State, text: string, env: Env): (o: Outcome)
    ensures o.state.respBuf == s.respBuf
  {
    var flushed := FlushDraft(s, env.flushOk);
    if flushed.failed then flushed else AppendStatus(cfg, StartStatus(flushed.state), text, env)
  }

  /** A reply with a status below it is left behind; the next reply text starts a new one, and
      seals the status above it. */
  function StartReply(s: State): State {
    var s := if s.respSealed then s.(respBuf := "", respID := None, respSealed := false) else s;
    if s.respID.None? then s.(statusSealed := true) else s
  }

  /** Continue in a new message before the reply would pass its limit. */
  function RotateReply(cfg: Config, s: State, text: string, ok: bool): Outcome {
    if |s.respBuf| > 0 && ByteLength(s.respBuf) + ByteLength(text) > cfg.replyLimit then
      var flushed := FlushDraft(s, ok);
      if flushed.failed then flushed
      else Outcome(flushed.state.(respBuf := "", respID := None), false)
    else Outcome(s, false)
  }

  function SendNewReply(s: State, ok: bool): (o: Outcome)
    ensures o.state.respBuf == s.respBuf && o.state.draftLive == s.draftLive
  {
    var (s, id) := Send(s, SendReply(s.respBuf), Reply, ok);
    if id.None? then Outcome(s, true) else Outcome(s.(respID := id), false)
  }

  function EditOrRecoverReply(s: State, text: string, env: Env): (o: Outcome)
    requires s.respID.Some?
    ensures o.state.draftLive == s.draftLive
    ensures o.state.respBuf == s.respBuf || o.state.respBuf == text
  {
    var id := s.respID.value;
    var shown := Shown(s, id);
    var s := s.(calls := s.calls + [EditReply(shown, s.respBuf)]);
    if env.editOk then Outcome(Replace(s, id, s.respBuf), false)
    else if shown == s.respBuf then Outcome(s, false)  // "message is not modified"
    else SendNewReply(s.(respBuf := text, respID := None), env.recoveryOk)
  }

  function ShowReply(s: State, text: string, env: Env): (o: Outcome)
    ensures o.state.respBuf == s.respBuf || o.state.respBuf == text
  {
    if Blank(s.respBuf) then Outcome(s, false)
    else
      var (s, standing) := if s.drafts && s.respID.None? then StreamDraft(s, env) else (s, false);
      if standing then Outcome(s, false)
      else if s.respID.None? then SendNewReply(s, env.sendOk)
      else EditOrRecoverReply(s, text, env)
  }

  function WriteReply(cfg: Config, s: State, text: string, env: Env): Outcome {
    var rotated := RotateReply(cfg, StartReply(s), text, env.flushOk);
    if rotated.failed then rotated
    else ShowReply(rotated.state.(respBuf := rotated.state.respBuf + text), text, env)
  }

  function WriteSplit(cfg: Config, s: State, w: Write, env: Env): Outcome {
    match w.kind
    case Status => WriteStatus(cfg, s, w.text, env)
    case Reply => WriteReply(cfg, s, w.text, env)
  }

  // ---- A whole turn --------------------------------------------------------------------------

  datatype Step = Step(write: Write, env: Env)

  /** A turn: the writes done so far, in order, ending at the first one that returned an error. */
  datatype Turn = Turn(state: State, writes: seq<Write>, failed: bool)

  function Run(cfg: Config, steps: seq<Step>): Turn {
    if steps == [] then Turn(Initial(cfg), [], false)
    else
      var t := Run(cfg, steps[..|steps| - 1]);
      var step := steps[|steps| - 1];
      if t.failed then t
      else
        var o := WriteSplit(cfg, t.state, step.write, step.env);
        Turn(o.state, t.writes + [step.write], o.failed)
  }

  /** The turn with the flush that ends it, which runs whether or not a write failed. */
  function Finish(t: Turn, ok: bool): Outcome {
    FlushDraft(t.state, ok)
  }
}
