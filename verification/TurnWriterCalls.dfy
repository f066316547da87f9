/**
 What the turn writer asks of the transport, whatever the transport answers: every message it
 sends or edits is built from consecutive texts of the turn, and stays within the size limits.
 */
module TurnWriterCalls {
  import opened Base
  import opened CodePoints
  import opened TurnWriter
  import opened TurnWriterReading

  /** Consecutive texts of a history. */
  ghost predicate Window(all: seq<string>, part: seq<string>) {
    exists n | 0 <= n <= |all| :: Ends(all[..n], part)
  }

  /** A reply fits the limit, or is one write's text alone. */
  predicate Fits(cfg: Config, texts: seq<string>, content: string) {
    ByteLength(content) <= cfg.replyLimit || content in texts
  }

  ghost predicate ProperSendStatus(cfg: Config, status: seq<string>, content: string, part: seq<string>) {
    Window(status, part) && content == Truncate(Wrap(cfg, Concat(part)))
  }

  ghost predicate ProperEditStatus(cfg: Config, status: seq<string>, shown: string, content: string,
                                   part: seq<string>, t: string) {
    && Window(status, part + [t]) && ByteLength(content) <= MAX_MESSAGE_LEN
    && shown == Wrap(cfg, Concat(part)) && content == Wrap(cfg, Concat(part + [t]))
  }

  ghost predicate ProperSendReply(cfg: Config, reply: seq<string>, content: string, part: seq<string>) {
    Window(reply, part) && content == Concat(part) && Fits(cfg, reply, content)
  }

  ghost predicate ProperEditReply(cfg: Config, reply: seq<string>, shown: string, content: string,
                                  part: seq<string>, t: string) {
    && Window(reply, part + [t]) && ByteLength(content) <= cfg.replyLimit
    && shown == Concat(part) && content == Concat(part + [t])
  }

  /** What one call may ask, the status and reply texts of the turn being these: a status message
      is one open tag, consecutive texts and one close tag, cut only when sent; an edit extends an
      uncut message by the next text and stays below the limit. */
  ghost predicate Proper(cfg: Config, status: seq<string>, reply: seq<string>, call: Call) {
    match call
    case SendStatus(content) => exists part :: ProperSendStatus(cfg, status, content, part)
    case EditStatus(shown, content) => exists part, t :: ProperEditStatus(cfg, status, shown, content, part, t)
    case SendReply(content) => exists part :: ProperSendReply(cfg, reply, content, part)
    case EditReply(shown, content) => exists part, t :: ProperEditReply(cfg, reply, shown, content, part, t)
    case UpdateDraft(_, content, _, _) => exists part :: ProperSendReply(cfg, reply, content, part)
  }

  ghost predicate AllProper(cfg: Config, status: seq<string>, reply: seq<string>, calls: seq<Call>) {
    forall i | 0 <= i < |calls| :: Proper(cfg, status, reply, calls[i])
  }

  lemma WindowGrows(all: seq<string>, part: seq<string>, t: string)
    requires Window(all, part)
    ensures Window(all + [t], part)
  {
    var n :| 0 <= n <= |all| && Ends(all[..n], part);
    assert (all + [t])[..n] == all[..n];
  }

  lemma EndsIsWindow(all: seq<string>, part: seq<string>)
    requires Ends(all, part)
    ensures Window(all, part)
  {
    assert all[..|all|] == all;
  }

  lemma ProperGrows(cfg: Config, status: seq<string>, reply: seq<string>, call: Call, t: string)
    requires Proper(cfg, status, reply, call)
    ensures Proper(cfg, status + [t], reply, call) && Proper(cfg, status, reply + [t], call)
  {
    match call
    case SendStatus(content) =>
      var part :| ProperSendStatus(cfg, status, content, part);
      WindowGrows(status, part, t);
      assert ProperSendStatus(cfg, status + [t], content, part);
    case EditStatus(shown, content) =>
      var part, u :| ProperEditStatus(cfg, status, shown, content, part, u);
      WindowGrows(status, part + [u], t);
      assert ProperEditStatus(cfg, status + [t], shown, content, part, u);
    case SendReply(content) =>
      var part :| ProperSendReply(cfg, reply, content, part);
      WindowGrows(reply, part, t);
      assert ProperSendReply(cfg, reply + [t], content, part);
    case EditReply(shown, content) =>
      var part, u :| ProperEditReply(cfg, reply, shown, content, part, u);
      WindowGrows(reply, part + [u], t);
      assert ProperEditReply(cfg, reply + [t], shown, content, part, u);
    case UpdateDraft(_, content, _, _) =>
      var part :| ProperSendReply(cfg, reply, content, part);
      WindowGrows(reply, part, t);
      assert ProperSendReply(cfg, reply + [t], content, part);
  }

  lemma AllProperGrows(cfg: Config, ws: seq<Write>, w: Write, calls: seq<Call>)
    requires AllProper(cfg, TextsOf(Status, ws), TextsOf(Reply, ws), calls)
    ensures AllProper(cfg, TextsOf(Status, ws + [w]), TextsOf(Reply, ws + [w]), calls)
  {
    TextsOfSnoc(Status, ws, w);
    TextsOfSnoc(Reply, ws, w);
    forall i | 0 <= i < |calls| ensures Proper(cfg, TextsOf(Status, ws + [w]), TextsOf(Reply, ws + [w]), calls[i]) {
      ProperGrows(cfg, TextsOf(Status, ws), TextsOf(Reply, ws), calls[i], w.text);
    }
  }

  lemma FlushProper(cfg: Config, s: State, g: Texts, status: seq<string>, reply: seq<string>, ok: bool)
    requires AllProper(cfg, status, reply, s.calls) && ReplyBuffer(s, g)
    requires Window(reply, g.reply) && Fits(cfg, reply, s.respBuf)
    ensures AllProper(cfg, status, reply, FlushDraft(s, ok).state.calls)
  {
    assert ProperSendReply(cfg, reply, s.respBuf, g.reply);
  }

  /** The calls of a status edit, all being the whole live message and one the new text alone. */
  function StatusEditCalls(shown: string, all: string, one: string, env: Env): seq<Call> {
    var edit := EditStatus(shown, Truncate(all));
    if env.editOk || shown == Truncate(all) then [edit] else [edit] + [SendStatus(Truncate(one))]
  }

  function StatusCalls(cfg: Config, s: State, all: string, one: string, env: Env): seq<Call> {
    if s.statusID.None? then [SendStatus(Truncate(all))]
    else if ByteLength(all) > MAX_MESSAGE_LEN then [SendStatus(Truncate(one))]
    else StatusEditCalls(Shown(s, s.statusID.value), all, one, env)
  }

  lemma EditOrRecoverStatusCalls(cfg: Config, s: State, t: string, all: string, env: Env)
    requires s.statusID.Some?
    ensures EditOrRecoverStatus(cfg, s, t, all, env).state.calls
            == s.calls + StatusEditCalls(Shown(s, s.statusID.value), all, Suffix(cfg, s.wrapOpen, Prefix(cfg, t)), env)
  {
    var edit, one := EditStatus(Shown(s, s.statusID.value), Truncate(all)), Suffix(cfg, s.wrapOpen, Prefix(cfg, t));
    Associative(s.calls, [edit], [SendStatus(Truncate(one))]);
  }

  lemma SendNewStatusCalls(s: State, content: string, ok: bool)
    ensures SendNewStatus(s, content, ok).state.calls == s.calls + [SendStatus(Truncate(content))]
  {}

  lemma AppendStatusCalls(cfg: Config, s: State, g: Texts, t: string, env: Env)
    requires StatusBuffer(cfg, s, g)
    ensures AppendStatus(cfg, s, t, env).state.calls
            == s.calls + StatusCalls(cfg, s, Wrap(cfg, Concat(g.status + [t])), Wrap(cfg, Concat([t])), env)
  {
    hide ByteLength;
    StatusContent(cfg, s, g, t);
    AppendStatusForm(cfg, s, g, t, env);
    var all, one := Wrap(cfg, Concat(g.status + [t])), Wrap(cfg, Concat([t]));
    if s.statusID.None? {
      SendNewStatusCalls(Appended(cfg, s, g.status + [t]), all, env.sendOk);
    } else if ByteLength(all) > MAX_MESSAGE_LEN {
      SendNewStatusCalls(Appended(cfg, s, [t]).(statusID := None), one, env.sendOk);
    } else {
      EditOrRecoverStatusCalls(cfg, Appended(cfg, s, g.status + [t]), t, all, env);
    }
  }

  lemma WrapGrows(cfg: Config, a: string, b: string)
    ensures ByteLength(Wrap(cfg, a + b)) == ByteLength(Wrap(cfg, a)) + ByteLength(b)
  {
    ByteLengthConcat(a, b);
    ByteLengthConcat(cfg.open, a);
    ByteLengthConcat(cfg.open, a + b);
    ByteLengthConcat(cfg.open + a, cfg.close);
    ByteLengthConcat(cfg.open + (a + b), cfg.close);
  }

  /** An edit below the limit extends an uncut message by the next text. */
  lemma StatusEditProper(cfg: Config, status: seq<string>, part: seq<string>, t: string)
    requires Window(status, part + [t]) && ByteLength(Wrap(cfg, Concat(part + [t]))) <= MAX_MESSAGE_LEN
    ensures ProperEditStatus(cfg, status, Truncate(Wrap(cfg, Concat(part))),
                             Truncate(Wrap(cfg, Concat(part + [t]))), part, t)
  {
    hide ByteLength, Concat, Window, Wrap;
    ConcatSnoc(part, t);
    WrapGrows(cfg, Concat(part), t);
  }

  lemma StatusCallsProper(cfg: Config, s: State, g: Texts, status: seq<string>, reply: seq<string>, t: string, env: Env)
    requires MadeOf(cfg, s.log, g.chat) && StatusBuffer(cfg, s, g)
    requires Window(status, g.status + [t]) && Window(status, [t])
    ensures AllProper(cfg, status, reply,
                      StatusCalls(cfg, s, Wrap(cfg, Concat(g.status + [t])), Wrap(cfg, Concat([t])), env))
  {
    hide ByteLength, Concat, Window, Wrap, Truncate, ProperEditStatus;
    var all := Wrap(cfg, Concat(g.status + [t]));
    assert ProperSendStatus(cfg, status, Truncate(all), g.status + [t]);
    assert ProperSendStatus(cfg, status, Truncate(Wrap(cfg, Concat([t]))), [t]);
    if s.statusID.Some? && ByteLength(all) <= MAX_MESSAGE_LEN {
      StatusEditProper(cfg, status, g.status, t);
    }
  }

  lemma AllProperConcat(cfg: Config, status: seq<string>, reply: seq<string>, a: seq<Call>, b: seq<Call>)
    requires AllProper(cfg, status, reply, a) && AllProper(cfg, status, reply, b)
    ensures AllProper(cfg, status, reply, a + b)
  {}

  function ReplyEditCalls(shown: string, content: string, t: string, env: Env): seq<Call> {
    var edit := EditReply(shown, content);
    if env.editOk || shown == content then [edit] else [edit] + [SendReply(t)]
  }

  /** The draft updates of a reply that has no message yet. */
  function DraftCalls(s: State, content: string, env: Env): seq<Call> {
    if !s.drafts
       || (s.draftLive && s.lastDraft.Some? && env.now - s.lastDraft.value < DRAFT_INTERVAL) then []
    else [UpdateDraft(if s.draftLive then s.draftID else s.draftID + 1, content, env.now, env.draft)]
  }

  /** The calls a reply write makes once its message was rotated if need be. */
  function ReplyCalls(s: State, t: string, env: Env): seq<Call> {
    var content := s.respBuf + t;
    if Blank(content) then []
    else if s.respID.None? then
      DraftCalls(s, content, env) + if s.drafts && StreamDraft(s, env).1 then [] else [SendReply(content)]
    else ReplyEditCalls(Shown(s, s.respID.value), content, t, env)
  }

  lemma EditOrRecoverReplyCalls(s: State, t: string, env: Env)
    requires s.respID.Some?
    ensures EditOrRecoverReply(s, t, env).state.calls
            == s.calls + ReplyEditCalls(Shown(s, s.respID.value), s.respBuf, t, env)
  {
    Associative(s.calls, [EditReply(Shown(s, s.respID.value), s.respBuf)], [SendReply(t)]);
  }

  lemma ShowReplyCalls(s: State, t: string, env: Env)
    ensures ShowReply(s.(respBuf := s.respBuf + t), t, env).state.calls == s.calls + ReplyCalls(s, t, env)
  {
    hide Blank, EditOrRecoverReply, ReplyEditCalls;
    var added := s.(respBuf := s.respBuf + t);
    Unit(s.calls);
    if s.respID.Some? {
      EditOrRecoverReplyCalls(added, t, env);
    } else {
      if s.drafts { DraftedCalls(s, t, env); }
      Unit(DraftCalls(s, added.respBuf, env));
      Associative(s.calls, DraftCalls(s, added.respBuf, env), [SendReply(added.respBuf)]);
    }
  }

  lemma DraftedCalls(s: State, t: string, env: Env)
    requires s.drafts
    ensures var added := s.(respBuf := s.respBuf + t);
            StreamDraft(s, env).1 == StreamDraft(added, env).1
            && StreamDraft(added, env).0.calls == s.calls + DraftCalls(s, added.respBuf, env)
  {}

  lemma ReplyCallsProper(cfg: Config, s: State, g: Texts, status: seq<string>, reply: seq<string>, t: string, env: Env)
    requires MadeOf(cfg, s.log, g.chat) && ReplyBuffer(s, g)
    requires Window(reply, g.reply + [t]) && Window(reply, [t])
    requires t in reply && (s.respBuf == "" || ByteLength(s.respBuf) + ByteLength(t) <= cfg.replyLimit)
    ensures AllProper(cfg, status, reply, ReplyCalls(s, t, env))
  {
    hide Window, ByteLength, Concat, StreamDraft;
    ConcatSnoc(g.reply, t);
    ConcatOne(t);
    Unit(t);
    ByteLengthConcat(s.respBuf, t);
    assert ProperSendReply(cfg, reply, s.respBuf + t, g.reply + [t]);
    assert ProperSendReply(cfg, reply, t, [t]);
    if s.respID.Some? {
      assert ProperEditReply(cfg, reply, s.respBuf, s.respBuf + t, g.reply, t);
    }
  }

  // ---- Whole turns ---------------------------------------------------------------------------

  /** The texts of a history, each call having been proper, and the reply buffer fitting. */
  ghost predicate Tidy(cfg: Config, s: State, ws: seq<Write>) {
    && AllProper(cfg, TextsOf(Status, ws), TextsOf(Reply, ws), s.calls)
    && Fits(cfg, TextsOf(Reply, ws), s.respBuf)
  }

  lemma AppendStatusProper(cfg: Config, s: State, g: Texts, status: seq<string>, reply: seq<string>,
                           t: string, env: Env)
    requires MadeOf(cfg, s.log, g.chat) && StatusBuffer(cfg, s, g) && AllProper(cfg, status, reply, s.calls)
    requires Window(status, g.status + [t]) && Window(status, [t])
    ensures AllProper(cfg, status, reply, AppendStatus(cfg, s, t, env).state.calls)
  {
    hide AllProper, AppendStatus, StatusCalls;
    AppendStatusCalls(cfg, s, g, t, env);
    StatusCallsProper(cfg, s, g, status, reply, t, env);
    AllProperConcat(cfg, status, reply, s.calls,
                    StatusCalls(cfg, s, Wrap(cfg, Concat(g.status + [t])), Wrap(cfg, Concat([t])), env));
  }

  lemma ShowReplyProper(cfg: Config, s: State, g: Texts, status: seq<string>, reply: seq<string>, t: string, env: Env)
    requires MadeOf(cfg, s.log, g.chat) && ReplyBuffer(s, g) && AllProper(cfg, status, reply, s.calls)
    requires Window(reply, g.reply + [t]) && Window(reply, [t])
    requires t in reply && (s.respBuf == "" || ByteLength(s.respBuf) + ByteLength(t) <= cfg.replyLimit)
    ensures AllProper(cfg, status, reply, ShowReply(s.(respBuf := s.respBuf + t), t, env).state.calls)
  {
    hide AllProper, ShowReply, ReplyCalls;
    ShowReplyCalls(s, t, env);
    ReplyCallsProper(cfg, s, g, status, reply, t, env);
    AllProperConcat(cfg, status, reply, s.calls, ReplyCalls(s, t, env));
  }

  /** The text just written, alone or after what a buffer held, is a window of the history. */
  lemma NextIsWindow(all: seq<string>, part: seq<string>, t: string)
    requires Ends(all, part)
    ensures Window(all + [t], part + [t]) && Window(all + [t], [t]) && Window(all + [t], part)
  {
    EndsIsWindow(all, part);
    WindowGrows(all, part, t);
    EndsFollows(all, part, part + [t], t);
    EndsFollows(all, part, [t], t);
    EndsIsWindow(all + [t], part + [t]);
    EndsIsWindow(all + [t], [t]);
  }

  lemma StatusWriteTidy(cfg: Config, s: State, g: Texts, ws: seq<Write>, t: string, env: Env)
    requires Inv(cfg, Nothing, s, g, ws) && Recent(g, ws) && Tidy(cfg, s, ws)
    ensures Tidy(cfg, WriteStatus(cfg, s, t, env).state, ws + [Write(Status, t)])
  {
    hide AllProper, AppendStatus, TextsOf;
    var status, reply := TextsOf(Status, ws) + [t], TextsOf(Reply, ws);
    TextsOfSnoc(Status, ws, Write(Status, t));
    TextsOfSnoc(Reply, ws, Write(Status, t));
    AllProperGrows(cfg, ws, Write(Status, t), s.calls);
    EndsIsWindow(reply, g.reply);
    FlushProper(cfg, s, g, status, reply, env.flushOk);
    var flushed := FlushDraft(s, env.flushOk);
    if !flushed.failed {
      var g1 := FlushKeeps(cfg, Nothing, s, g, ws, env.flushOk);
      var g2 := StartStatusKeeps(cfg, Nothing, flushed.state, g1, ws);
      NextIsWindow(TextsOf(Status, ws), g2.status, t);
      AppendStatusProper(cfg, StartStatus(flushed.state), g2, status, reply, t, env);
    }
  }

  lemma RotatedReplyTidy(cfg: Config, s: State, g: Texts, status: seq<string>, before: seq<string>, t: string, env: Env)
    requires MadeOf(cfg, s.log, g.chat) && ReplyBuffer(s, g) && Ends(before, g.reply)
    requires AllProper(cfg, status, before + [t], s.calls)
    requires s.respBuf == "" || ByteLength(s.respBuf) + ByteLength(t) <= cfg.replyLimit
    ensures var shown := ShowReply(s.(respBuf := s.respBuf + t), t, env).state;
            AllProper(cfg, status, before + [t], shown.calls) && Fits(cfg, before + [t], shown.respBuf)
  {
    hide AllProper, ShowReply, MadeOf, ReplyBuffer, Ends, Window, Fits;
    NextIsWindow(before, g.reply, t);
    ShowReplyProper(cfg, s, g, status, before + [t], t, env);
    ShownReplyFits(cfg, s, before + [t], t, env);
  }

  lemma FitsLater(cfg: Config, s: State, before: seq<string>, t: string)
    requires Fits(cfg, before, s.respBuf)
    ensures Fits(cfg, before + [t], StartReply(s).respBuf)
  {
    assert ByteLength("") == 0;
  }

  /** Looking at the limit calls for nothing but a flush, and leaves room for the text. */
  lemma RotateCalls(cfg: Config, s: State, t: string, ok: bool)
    ensures var started := StartReply(s);
            var o := RotateReply(cfg, started, t, ok);
            && started.calls == s.calls
            && (o.state.calls == started.calls || o.state.calls == FlushDraft(started, ok).state.calls)
            && (!o.failed ==> o.state.respBuf == "" || ByteLength(o.state.respBuf) + ByteLength(t) <= cfg.replyLimit)
  {
    hide ByteLength, FlushDraft;
  }

  lemma EmptyEnds(all: seq<string>)
    ensures Ends(all, [])
  {}

  lemma ReplyWriteTidy(cfg: Config, s: State, g: Texts, ws: seq<Write>, t: string, env: Env)
    requires Inv(cfg, Nothing, s, g, ws) && Recent(g, ws) && Tidy(cfg, s, ws)
    ensures var o := WriteReply(cfg, s, t, env); var ws' := ws + [Write(Reply, t)];
            && AllProper(cfg, TextsOf(Status, ws'), TextsOf(Reply, ws'), o.state.calls)
            && (!o.failed ==> Tidy(cfg, o.state, ws'))
  {
    hide AllProper, ShowReply, TextsOf, MadeOf, ReplyBuffer, Window, Fits, Unshown, Placement, Visible, ByteLength,
      RotateReply, StartReply, FlushDraft, Ends;
    TextsOfSnoc(Status, ws, Write(Reply, t));
    TextsOfSnoc(Reply, ws, Write(Reply, t));
    AllProperGrows(cfg, ws, Write(Reply, t), s.calls);
    var status, before := TextsOf(Status, ws), TextsOf(Reply, ws);
    var started := StartReply(s);
    var g1 := StartReplyKeeps(cfg, Nothing, s, g, ws);
    EmptyEnds(before);
    NextIsWindow(before, g1.reply, t);
    FitsLater(cfg, s, before, t);
    RotateCalls(cfg, s, t, env.flushOk);
    FlushProper(cfg, started, g1, status, before + [t], env.flushOk);
    var rotated := RotateReply(cfg, started, t, env.flushOk);
    if !rotated.failed {
      var g2 := RotateReplyKeeps(cfg, Nothing, started, g1, ws, t, env.flushOk);
      RotatedReplyTidy(cfg, rotated.state, g2, status, before, t, env);
    }
  }

  lemma ShownReplyFits(cfg: Config, s: State, reply: seq<string>, t: string, env: Env)
    requires t in reply && (s.respBuf == "" || ByteLength(s.respBuf) + ByteLength(t) <= cfg.replyLimit)
    ensures Fits(cfg, reply, ShowReply(s.(respBuf := s.respBuf + t), t, env).state.respBuf)
  {
    Unit(t);
    ByteLengthConcat(s.respBuf, t);
  }

  lemma {:induction false} RunTidy(cfg: Config, steps: seq<Step>)
    ensures var t := Run(cfg, steps); AllProper(cfg, TextsOf(Status, t.writes), TextsOf(Reply, t.writes), t.state.calls)
    ensures var t := Run(cfg, steps); !t.failed ==> Tidy(cfg, t.state, t.writes)
  {
    if steps != [] {
      var front, step := steps[..|steps| - 1], steps[|steps| - 1];
      var t := Run(cfg, front);
      RunTidy(cfg, front);
      if !t.failed {
        var g := RunKeeps(cfg, Nothing, front);
        match step.write
        case Write(Status, text) => StatusWriteTidy(cfg, t.state, g, t.writes, text, step.env);
        case Write(Reply, text) => ReplyWriteTidy(cfg, t.state, g, t.writes, text, step.env);
      }
    }
  }

  lemma FailedShowHoldsNoDraft(s: State, t: string, env: Env)
    requires (s.draftLive ==> s.respID.None? && s.drafts) && ShowReply(s, t, env).failed
    ensures !ShowReply(s, t, env).state.draftLive
  {
    hide Blank, EditOrRecoverReply, StreamDraft;
  }

  /** A write that fails leaves no draft behind, so the final flush sends nothing more. */
  lemma FailedWriteHoldsNoDraft(cfg: Config, s: State, w: Write, env: Env)
    requires (s.draftLive ==> s.respID.None? && s.drafts) && WriteSplit(cfg, s, w, env).failed
    ensures !WriteSplit(cfg, s, w, env).state.draftLive
  {
    hide ByteLength, AppendStatus, ShowReply;
    if w.kind == Reply {
      var rotated := RotateReply(cfg, StartReply(s), w.text, env.flushOk);
      if !rotated.failed {
        FailedShowHoldsNoDraft(rotated.state.(respBuf := rotated.state.respBuf + w.text), w.text, env);
      }
    }
  }

  lemma FailedTurnHoldsNoDraft(cfg: Config, steps: seq<Step>)
    requires Run(cfg, steps).failed
    ensures !Run(cfg, steps).state.draftLive
    decreases |steps|
  {
    hide WriteSplit;
    var front, step := steps[..|steps| - 1], steps[|steps| - 1];
    if Run(cfg, front).failed {
      FailedTurnHoldsNoDraft(cfg, front);
    } else {
      var g := RunKeeps(cfg, Nothing, front);
      FailedWriteHoldsNoDraft(cfg, Run(cfg, front).state, step.write, step.env);
    }
  }

  /** Whatever the transport answers, every call of a turn is proper, the final flush included. */
  lemma EveryCallProper(cfg: Config, steps: seq<Step>, ok: bool)
    ensures var t := Run(cfg, steps);
            AllProper(cfg, TextsOf(Status, t.writes), TextsOf(Reply, t.writes), Finish(t, ok).state.calls)
  {
    hide Run, TextsOf, AllProper, Window;
    var t := Run(cfg, steps);
    RunTidy(cfg, steps);
    if t.failed {
      FailedTurnHoldsNoDraft(cfg, steps);
    } else {
      var g := RunKeeps(cfg, Nothing, steps);
      EndsIsWindow(TextsOf(Reply, t.writes), g.reply);
      FlushProper(cfg, t.state, g, TextsOf(Status, t.writes), TextsOf(Reply, t.writes), ok);
    }
  }

  /** A proper call is within the size limits: an edit below the rotation limit, a status at the
      cap plus the notice, a reply at its limit unless it is one write's text alone. */
  lemma ProperSizes(cfg: Config, status: seq<string>, reply: seq<string>, call: Call)
    requires Proper(cfg, status, reply, call)
    ensures call.SendStatus? ==> ByteLength(call.content) <= TELEGRAM_TRUNCATE_LEN + ByteLength(TRUNCATION_NOTICE)
    ensures call.EditStatus? ==> ByteLength(call.shown) <= ByteLength(call.content) <= MAX_MESSAGE_LEN
    ensures call.SendReply? ==> ByteLength(call.content) <= cfg.replyLimit || call.content in reply
    ensures call.EditReply? ==> ByteLength(call.shown) <= ByteLength(call.content) <= cfg.replyLimit
    ensures call.UpdateDraft? ==> ByteLength(call.content) <= cfg.replyLimit || call.content in reply
  {
    match call
    case SendStatus(content) =>
      var part :| ProperSendStatus(cfg, status, content, part);
      TruncateSize(Wrap(cfg, Concat(part)));
    case EditStatus(shown, content) =>
      var part, t :| ProperEditStatus(cfg, status, shown, content, part, t);
      ConcatSnoc(part, t);
      WrapGrows(cfg, Concat(part), t);
    case SendReply(content) =>
    case EditReply(shown, content) =>
      var part, t :| ProperEditReply(cfg, reply, shown, content, part, t);
      ConcatSnoc(part, t);
      ByteLengthConcat(Concat(part), t);
    case UpdateDraft(_, content, _, _) =>
  }

  predicate WithinLimits(cfg: Config, reply: seq<string>, call: Call) {
    match call
    case SendStatus(content) => ByteLength(content) <= 3914
    case EditStatus(shown, content) => ByteLength(content) <= 3500
    case SendReply(content) => ByteLength(content) <= cfg.replyLimit || content in reply
    case EditReply(shown, content) => ByteLength(content) <= cfg.replyLimit
    case UpdateDraft(_, content, _, _) => ByteLength(content) <= cfg.replyLimit || content in reply
  }

  /** So is every call of every turn, the final flush included. */
  lemma EveryCallWithinLimits(cfg: Config, steps: seq<Step>, ok: bool)
    ensures var t := Run(cfg, steps);
            var calls := Finish(t, ok).state.calls;
            forall i | 0 <= i < |calls| :: WithinLimits(cfg, TextsOf(Reply, t.writes), calls[i])
  {
    hide Proper, TextsOf, Run, Finish;
    EveryCallProper(cfg, steps, ok);
    var t := Run(cfg, steps);
    var calls := Finish(t, ok).state.calls;
    forall i | 0 <= i < |calls| ensures WithinLimits(cfg, TextsOf(Reply, t.writes), calls[i]) {
      ProperSizes(cfg, TextsOf(Status, t.writes), TextsOf(Reply, t.writes), calls[i]);
    }
  }
}
