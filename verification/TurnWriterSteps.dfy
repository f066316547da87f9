/**
 What one more text does to the chat: whether it is edited into the message that is last or begins
 a new one. Sends are accepted, and no status text is white space in its tags.
 */
module TurnWriterSteps {
  import opened Base
  import opened CodePoints
  import opened TurnWriter
  import opened TurnWriterReading
  import opened TurnWriterCuts
  import opened TurnWriterDrafts
  import opened TurnWriterFailures

  predicate EndsInStatus(ws: seq<Write>) { ws != [] && ws[|ws| - 1].kind == Status }

  // ---- Which message is current ---------------------------------------------------------------

  /** A live reply message is sealed exactly when something stands below it. */
  predicate ReplyLast(s: State) {
    (s.respSealed ==> s.respID.Some?)
    && (s.respID.Some? ==> s.respID.value < |s.log| && (s.respSealed <==> s.respID.value + 1 < |s.log|))
  }

  /** A live status message is unsealed exactly when the last text was a status text, and then it is
      the chat's last message. */
  predicate StatusLast(s: State, ws: seq<Write>) {
    && (s.statusID.Some? ==> s.statusID.value < |s.log|)
    && (EndsInStatus(ws) <==> s.statusID.Some? && !s.statusSealed)
    && (s.statusID.Some? && !s.statusSealed ==> s.statusID.value + 1 == |s.log|)
  }

  lemma FlushKeepsLast(s: State, ok: bool)
    requires ReplyLast(s) && (s.draftLive ==> s.respID.None?) && !FlushDraft(s, ok).failed
    ensures ReplyLast(FlushDraft(s, ok).state)
  {
    hide Blank;
  }

  /** A status message sent below the reply seals it. */
  lemma SentKeepsLast(cfg: Config, s: State, texts: seq<string>, calls: seq<Call>)
    requires ReplyLast(s) && !s.statusSealed
    ensures var s' := StatusSent(cfg, s, texts, true, calls); ReplyLast(s') && s'.statusID == Some(|s.log|)
  {
    hide Render;
  }

  lemma EditedKeepsLast(cfg: Config, s: State, texts: seq<string>, calls: seq<Call>)
    requires ReplyLast(s) && s.statusID.Some? && s.statusID.value < |s.log|
    ensures ReplyLast(StatusEdited(cfg, s, texts, calls))
  {
    hide Render;
  }

  // ---- A status text --------------------------------------------------------------------------

  /** A status text, the draft before it flushed and a sealed message left behind. */
  lemma AppendExactly(cfg: Config, s: State, g: Texts, t: string, env: Env)
    requires MadeOf(cfg, s.log, g.chat) && StatusBuffer(cfg, s, g) && NoneWaits(s)
    requires !s.statusSealed && ReplyLast(s) && (s.statusID.Some? ==> s.statusID.value + 1 == |s.log|)
    requires s.statusID.Some? ==> s.respID.None? || s.respSealed
    requires env.sendOk && env.recoveryOk && !Blank(Wrap(cfg, t))
    ensures var body := Concat(g.status);
            var s' := AppendStatus(cfg, s, t, env).state;
            && ReplyLast(s') && s'.statusID.Some? && !s'.statusSealed && s'.statusID.value + 1 == |s'.log|
            && s'.log == if s.statusID.Some? && ByteLength(Wrap(cfg, body + t)) <= 3500 && (env.editOk || t == "")
                         then s.log[s.statusID.value := Message(Status, Wrap(cfg, body + t))]
                         else s.log + [Message(Status, Truncate(Wrap(cfg, t)))]
  {
    hide ByteLength, Blank, Truncate, Wrap, Concat;
    var texts := g.status + [t];
    ConcatSnoc(g.status, t);
    ConcatOne(t);
    CutStaysVisible(Wrap(cfg, t));
    StatusContent(cfg, s, g, t);
    AppendStatusForm(cfg, s, g, t, env);
    var s' := AppendStatus(cfg, s, t, env).state;
    if s.statusID.None? {
      WaitingIsNothing(cfg, s, g, t);
      SendNewStatusForm(cfg, Appended(cfg, s, texts), s, texts, env.sendOk);
      SentKeepsLast(cfg, s, texts, s'.calls);
    } else if ByteLength(Wrap(cfg, Concat(texts))) > MAX_MESSAGE_LEN {
      SendNewStatusForm(cfg, Appended(cfg, s, [t]).(statusID := None), s, [t], env.sendOk);
      SentKeepsLast(cfg, s, [t], s'.calls);
    } else {
      EditsExactly(cfg, s, g, t, env);
      if StatusEdits(cfg, s, texts, env) {
        EditStatusForm(cfg, s, texts, t, env);
        EditedKeepsLast(cfg, s, texts, s'.calls);
      } else {
        RecoverStatusForm(cfg, s, texts, t, env);
        SentKeepsLast(cfg, s, [t], s'.calls);
      }
    }
  }

  /** An edit that fits cuts nothing, and is refused for good unless it would change nothing. */
  lemma EditsExactly(cfg: Config, s: State, g: Texts, t: string, env: Env)
    requires MadeOf(cfg, s.log, g.chat) && StatusBuffer(cfg, s, g) && s.statusID.Some?
    requires ByteLength(Wrap(cfg, Concat(g.status + [t]))) <= MAX_MESSAGE_LEN
    ensures StatusEdits(cfg, s, g.status + [t], env) <==> env.editOk || t == ""
    ensures Truncate(Wrap(cfg, Concat(g.status + [t]))) == Wrap(cfg, Concat(g.status + [t]))
  {
    hide ByteLength, Concat;
    ConcatSnoc(g.status, t);
    PartsFit(cfg, Concat(g.status), t);
    assert Shown(s, s.statusID.value) == Wrap(cfg, Concat(g.status));
    if t == "" { Unit(Concat(g.status)); }
    assert |Wrap(cfg, Concat(g.status) + t)| == |Wrap(cfg, Concat(g.status))| + |t|;
  }

  /** The chat once a draft standing for the reply has been flushed. */
  function Flushed(s: State): seq<Message> {
    if s.draftLive then s.log + [Message(Reply, s.respBuf)] else s.log
  }

  lemma StatusWriteExactly(cfg: Config, s: State, g: Texts, ws: seq<Write>, t: string, env: Env)
    requires Inv(cfg, Everything, s, g, ws) && NoneWaits(s) && Answers(Everything, env) && !Blank(Wrap(cfg, t))
    requires ReplyLast(s) && StatusLast(s, ws)
    ensures var body := Concat(g.status);
            var o := WriteStatus(cfg, s, t, env);
            && !o.failed && ReplyLast(o.state) && StatusLast(o.state, ws + [Write(Status, t)])
            && (EndsInStatus(ws) ==> !s.draftLive)
            && o.state.log == if EndsInStatus(ws) && ByteLength(Wrap(cfg, body + t)) <= 3500 && (env.editOk || t == "")
                              then s.log[|s.log| - 1 := Message(Status, Wrap(cfg, body + t))]
                              else Flushed(s) + [Message(Status, Truncate(Wrap(cfg, t)))]
  {
    hide ByteLength, Blank, AppendStatus, Visible, Lowest, Concat, Wrap, Unshown, Truncate;
    var flushed := FlushDraft(s, env.flushOk);
    FlushAccepted(s, env.flushOk);
    FlushKeepsLast(s, env.flushOk);
    var g1 := FlushKeeps(cfg, Everything, s, g, ws, env.flushOk);
    var g2 := g1;
    if flushed.state.statusSealed { g2 := StartStatusKeeps(cfg, Everything, flushed.state, g1, ws); }
    var started := StartStatus(flushed.state);
    AppendExactly(cfg, started, g2, t, env);
  }

  // ---- A reply text ---------------------------------------------------------------------------

  lemma StartKeepsLast(s: State)
    requires ReplyLast(s)
    ensures ReplyLast(StartReply(s)) && !StartReply(s).respSealed
    ensures (s.draftLive ==> s.respID.None?) ==> (StartReply(s).draftLive ==> StartReply(s).respID.None?)
  {}

  lemma RotateKeepsLast(cfg: Config, s: State, t: string, ok: bool)
    requires ReplyLast(s) && !s.respSealed && (s.draftLive ==> s.respID.None?) && !RotateReply(cfg, s, t, ok).failed
    ensures ReplyLast(RotateReply(cfg, s, t, ok).state)
  {
    hide ByteLength, Blank;
  }

  /** The reply shown by a message that is the chat's last: edited, or the text alone below it. */
  lemma EditExactly(s: State, t: string, env: Env)
    requires s.respID.Some? && s.respID.value + 1 == |s.log| && !s.respSealed && !Blank(s.respBuf)
    requires s.log[s.respID.value] == Message(Reply, s.respBuf) && env.recoveryOk
    ensures var o := ShowReply(s.(respBuf := s.respBuf + t), t, env);
            && o.state.statusID == s.statusID && o.state.statusSealed == s.statusSealed
            && (o.failed <==> t != "" && Blank(t) && !env.editOk) && (!o.failed ==> ReplyLast(o.state))
            && o.state.log == if env.editOk || t == "" then s.log[|s.log| - 1 := Message(Reply, s.respBuf + t)]
                              else if Blank(t) then s.log else s.log + [Message(Reply, t)]
  {
    hide ShowReply;
    var added := s.(respBuf := s.respBuf + t);
    ShowsByEdit(added, t, env);
    StillShown(s.respBuf, t);
    assert |s.respBuf + t| == |s.respBuf| + |t|;
    if t == "" { Unit(s.respBuf); }
  }

  /** A reply without a message, on a channel that shows no drafts or has refused one. */
  lemma SendExactly(s: State, t: string, env: Env)
    requires s.respID.None? && ReplyLast(s) && env.sendOk
    ensures var o := ShowReply(s.(respBuf := s.respBuf + t), t, env);
            && o.state.statusID == s.statusID && o.state.statusSealed == s.statusSealed
            && !o.failed && ReplyLast(o.state) && |s.log| <= |o.state.log|
            && (!s.drafts ==>
                  o.state.log == if Blank(s.respBuf + t) then s.log else s.log + [Message(Reply, s.respBuf + t)])
  {
    hide Blank, StreamDraft;
  }

  /** Whether a text goes on in the reply message that stands last. */
  predicate GoesOn(cfg: Config, s: State, t: string) {
    s.respID.Some? && s.respID.value + 1 == |s.log| && !Rotates(cfg, s, t)
  }

  /** A reply text that goes on in a message, once the writer has looked at its limit. */
  lemma GoesOnSame(cfg: Config, s: State, t: string, ok: bool)
    requires ReplyLast(s) && GoesOn(cfg, s, t)
    ensures RotateReply(cfg, StartReply(s), t, ok) == Outcome(s, false)
  {
    hide ByteLength;
  }

  /** What the reading of a running turn tells of its state. */
  predicate Told(s: State) {
    && (s.draftLive ==> s.respID.None? && s.drafts && !Blank(s.respBuf))
    && (s.respID.Some? ==>
          s.respID.value < |s.log| && s.log[s.respID.value] == Message(Reply, s.respBuf) && !Blank(s.respBuf))
    && (s.statusID.Some? && !s.statusSealed ==> s.respID.None? || s.respSealed)
  }

  lemma InvTells(cfg: Config, v: View, s: State, g: Texts, ws: seq<Write>)
    requires Inv(cfg, v, s, g, ws)
    ensures Told(s)
  {}

  /** One that does not has no message when it is shown. */
  lemma BeginsNew(cfg: Config, s: State, t: string, ok: bool)
    requires ReplyLast(s) && !GoesOn(cfg, s, t) && Told(s) && ok
    ensures var o := RotateReply(cfg, StartReply(s), t, ok);
            && !o.failed && o.state.respID.None? && o.state.respBuf + t == ReplySoFar(cfg, s, t)
            && o.state.drafts == s.drafts && (!s.draftLive ==> o.state.log == s.log) && |s.log| <= |o.state.log|
            && o.state.statusID == s.statusID && StatusBehind(o.state)
  {
    hide ByteLength, Blank;
  }

  lemma ReplyWriteExactly(cfg: Config, s: State, ws: seq<Write>, t: string, env: Env)
    requires Told(s) && Answers(Everything, env) && ReplyLast(s) && StatusLast(s, ws)
    ensures var o := WriteReply(cfg, s, t, env);
            && (!o.failed ==> ReplyLast(o.state) && StatusLast(o.state, ws + [Write(Reply, t)]))
            && (GoesOn(cfg, s, t) ==>
                  s.log[|s.log| - 1] == Message(Reply, s.respBuf) && (o.failed <==> t != "" && Blank(t) && !env.editOk)
                  && o.state.log == if env.editOk || t == "" then s.log[|s.log| - 1 := Message(Reply, s.respBuf + t)]
                                    else if Blank(t) then s.log else s.log + [Message(Reply, t)])
            && (!GoesOn(cfg, s, t) ==> !o.failed)
            && (!GoesOn(cfg, s, t) && !s.drafts ==>
                  o.state.log == if Blank(ReplySoFar(cfg, s, t)) then s.log
                                 else s.log + [Message(Reply, ReplySoFar(cfg, s, t))])
  {
    hide ByteLength, Blank, ShowReply, RotateReply, StartReply, Rotates, ReplySoFar;
    StartKeepsLast(s);
    if GoesOn(cfg, s, t) {
      GoesOnSame(cfg, s, t, env.flushOk);
      EditExactly(s, t, env);
      assert StatusBehind(s);
    } else {
      BeginsNew(cfg, s, t, env.flushOk);
      var rotated := RotateReply(cfg, StartReply(s), t, env.flushOk).state;
      RotateKeepsLast(cfg, StartReply(s), t, env.flushOk);
      SendExactly(rotated, t, env);
    }
  }

  // ---- Turns ----------------------------------------------------------------------------------

  lemma {:induction false} RunKeepsLast(cfg: Config, steps: seq<Step>)
    requires Answered(Everything, steps) && Solid(cfg, steps) && !Run(cfg, steps).failed
    ensures var t := Run(cfg, steps); ReplyLast(t.state) && StatusLast(t.state, t.writes)
    decreases |steps|
  {
    hide WriteStatus, WriteReply, ByteLength, Blank, Inv, ReplyLast, StatusLast, Answers;
    if steps == [] {
      NothingYet(cfg);
    } else {
      var front, step := steps[..|steps| - 1], steps[|steps| - 1];
      RunKeepsLast(cfg, front);
      RunCuts(cfg, front);
      var t := Run(cfg, front);
      var g := RunKeeps(cfg, Everything, front);
      match step.write
      case Write(Status, text) => StatusWriteExactly(cfg, t.state, g, t.writes, text, step.env);
      case Write(Reply, text) =>
        InvTells(cfg, Everything, t.state, g, t.writes);
        ReplyWriteExactly(cfg, t.state, t.writes, text, step.env);
    }
  }

  lemma NothingYet(cfg: Config)
    ensures ReplyLast(Initial(cfg)) && StatusLast(Initial(cfg), [])
  {}

  /** Which messages a turn goes on writing: the status message exactly while nothing but status texts
      come, and the reply message exactly while nothing stands below it. */
  lemma CurrentExactly(cfg: Config, steps: seq<Step>)
    requires Answered(Everything, steps) && Solid(cfg, steps) && !Run(cfg, steps).failed
    ensures var t := Run(cfg, steps);
            && (EndsInStatus(t.writes) <==> t.state.statusID.Some? && !t.state.statusSealed)
            && (EndsInStatus(t.writes) ==> t.state.log != [] && t.state.log[|t.state.log| - 1].kind == Status)
            && (t.state.respID.Some? ==>
                  t.state.respID.value < |t.state.log|
                  && t.state.log[t.state.respID.value] == Message(Reply, t.state.respBuf)
                  && (t.state.respSealed <==> t.state.respID.value + 1 < |t.state.log|))
  {
    hide Run;
    RunKeepsLast(cfg, steps);
    var g := RunKeeps(cfg, Everything, steps);
  }

  /** A status text goes into the message of the status text just before it if with it that message
      is within 3500 bytes and the edit is taken. Otherwise it begins a new message, cut if it must
      be, below the reply that was shown as a draft, if one was. */
  lemma StatusTextExactly(cfg: Config, steps: seq<Step>, text: string, env: Env) returns (body: string)
    requires Answered(Everything, steps) && Solid(cfg, steps) && !Run(cfg, steps).failed
    requires Answers(Everything, env) && !Blank(Wrap(cfg, text))
    ensures var t := Run(cfg, steps);
            var log := t.state.log;
            var o := WriteSplit(cfg, t.state, Write(Status, text), env);
            && !o.failed
            && (EndsInStatus(t.writes) ==>
                  !t.state.draftLive && log != [] && log[|log| - 1] == Message(Status, Truncate(Wrap(cfg, body))))
            && o.state.log
               == if EndsInStatus(t.writes) && ByteLength(Wrap(cfg, body + text)) <= 3500 && (env.editOk || text == "")
                  then log[|log| - 1 := Message(Status, Wrap(cfg, body + text))]
                  else Flushed(t.state) + [Message(Status, Truncate(Wrap(cfg, text)))]
  {
    hide Run, WriteStatus, ByteLength, Blank, Truncate;
    var t := Run(cfg, steps);
    RunKeepsLast(cfg, steps);
    RunCuts(cfg, steps);
    var g := RunKeeps(cfg, Everything, steps);
    body := Concat(g.status);
    StatusWriteExactly(cfg, t.state, g, t.writes, text, env);
  }

  /** A reply text goes into the reply message that stands last, unless that would take it past its
      limit; if the edit is refused it is sent alone below, which fails for white space. Where no
      draft is shown, any other begins a new message, with the white space held back before it. */
  lemma ReplyTextExactly(cfg: Config, steps: seq<Step>, text: string, env: Env)
    requires Answered(Everything, steps) && Solid(cfg, steps) && !Run(cfg, steps).failed && Answers(Everything, env)
    ensures var s := Run(cfg, steps).state;
            var o := WriteSplit(cfg, s, Write(Reply, text), env);
            && (o.failed <==> GoesOn(cfg, s, text) && text != "" && Blank(text) && !env.editOk)
            && (GoesOn(cfg, s, text) ==>
                  s.log[|s.log| - 1] == Message(Reply, s.respBuf)
                  && o.state.log
                     == if env.editOk || text == "" then s.log[|s.log| - 1 := Message(Reply, s.respBuf + text)]
                        else if Blank(text) then s.log else s.log + [Message(Reply, text)])
            && (!GoesOn(cfg, s, text) && (!cfg.canDraft || SomeRefused(s.calls)) ==>
                  o.state.log == if Blank(ReplySoFar(cfg, s, text)) then s.log
                                 else s.log + [Message(Reply, ReplySoFar(cfg, s, text))])
  {
    hide Run, WriteReply, ByteLength, Blank, SomeRefused, GoesOn;
    RunKeepsLast(cfg, steps);
    RefusalEndsDrafts(cfg, steps);
    var t := Run(cfg, steps);
    var g := RunKeeps(cfg, Everything, steps);
    InvTells(cfg, Everything, t.state, g, t.writes);
    ReplyWriteExactly(cfg, t.state, t.writes, text, env);
  }
}
