/**
 When a status message is cut at the transport's cap: exactly when one status text, in its tags,
 is longer than the cap on its own. A chat without such a text shows its status texts in full.
 */
module TurnWriterCuts {
  import opened Base
  import opened CodePoints
  import opened TurnWriter
  import opened TurnWriterReading

  /** A message longer than the cap: what a cut leaves, with its notice. */
  predicate IsCut(m: Message) { m.kind == Status && ByteLength(m.content) > TELEGRAM_TRUNCATE_LEN }

  predicate HasCut(log: seq<Message>) { exists k :: 0 <= k < |log| && IsCut(log[k]) }

  predicate TooLong(cfg: Config, w: Write) {
    w.kind == Status && ByteLength(Wrap(cfg, w.text)) > 3900
  }

  predicate SomeTooLong(cfg: Config, ws: seq<Write>) { exists i :: 0 <= i < |ws| && TooLong(cfg, ws[i]) }

  /** No status text is white space once in its tags, so none is held back. */
  predicate Solid(cfg: Config, steps: seq<Step>) {
    forall i | 0 <= i < |steps| :: steps[i].write.kind == Status ==> !Blank(Wrap(cfg, steps[i].write.text))
  }

  lemma TooLongSnoc(cfg: Config, ws: seq<Write>, w: Write)
    ensures SomeTooLong(cfg, ws + [w]) <==> SomeTooLong(cfg, ws) || TooLong(cfg, w)
  {
    hide TooLong;
    var all := ws + [w];
    assert all[|ws|] == w && forall i | 0 <= i < |ws| :: all[i] == ws[i];
    if SomeTooLong(cfg, ws) {
      var i :| 0 <= i < |ws| && TooLong(cfg, ws[i]);
      assert TooLong(cfg, all[i]);
    }
  }

  // ---- Logs -----------------------------------------------------------------------------------

  /** The same status messages, whatever became of the replies. */
  predicate SameStatuses(a: seq<Message>, b: seq<Message>) {
    && |a| <= |b|
    && (forall k | 0 <= k < |a| :: a[k].kind == b[k].kind && (a[k].kind == Status ==> a[k] == b[k]))
    && (forall k | |a| <= k < |b| :: b[k].kind == Reply)
  }

  lemma SameCuts(a: seq<Message>, b: seq<Message>)
    requires SameStatuses(a, b)
    ensures HasCut(a) <==> HasCut(b)
  {
    hide ByteLength;
    if HasCut(a) {
      var k :| 0 <= k < |a| && IsCut(a[k]);
      assert IsCut(b[k]);
    }
  }

  lemma SentCuts(log: seq<Message>, m: Message)
    ensures HasCut(log + [m]) <==> HasCut(log) || IsCut(m)
  {
    hide IsCut;
    var all := log + [m];
    assert all[|log|] == m && forall k | 0 <= k < |log| :: all[k] == log[k];
    if HasCut(log) {
      var k :| 0 <= k < |log| && IsCut(log[k]);
      assert IsCut(all[k]);
    }
  }

  lemma EditedCuts(log: seq<Message>, i: nat, m: Message)
    requires i < |log| && !IsCut(log[i]) && !IsCut(m)
    ensures HasCut(log[i := m]) <==> HasCut(log)
  {
    hide IsCut;
    var edited := log[i := m];
    assert forall k | 0 <= k < |log| && k != i :: edited[k] == log[k];
    if HasCut(log) {
      var k :| 0 <= k < |log| && IsCut(log[k]);
      assert IsCut(edited[k]);
    }
  }

  // ---- Reply writes ---------------------------------------------------------------------------

  /** The status half of a state. */
  predicate SameStatusHalf(a: State, b: State) {
    a.statusBuf == b.statusBuf && a.statusID == b.statusID && a.wrapOpen == b.wrapOpen && SameStatuses(a.log, b.log)
  }

  predicate ReplyIsReply(s: State) {
    s.respID.Some? ==> s.respID.value < |s.log| && s.log[s.respID.value].kind == Reply
  }

  /** Sending a reply and editing one leave the status messages alone. */
  lemma RepliesLeaveStatuses(log: seq<Message>, i: nat, content: string)
    ensures SameStatuses(log, log) && SameStatuses(log, log + [Message(Reply, content)])
    ensures i < |log| && log[i].kind == Reply ==> SameStatuses(log, log[i := log[i].(content := content)])
  {}

  lemma SameTransitive(a: seq<Message>, b: seq<Message>, c: seq<Message>)
    requires SameStatuses(a, b) && SameStatuses(b, c)
    ensures SameStatuses(a, c)
  {}

  lemma FlushLeavesStatus(s: State, ok: bool)
    requires ReplyIsReply(s)
    ensures SameStatusHalf(s, FlushDraft(s, ok).state) && ReplyIsReply(FlushDraft(s, ok).state)
  {
    hide SameStatuses, Blank;
    RepliesLeaveStatuses(s.log, 0, s.respBuf);
  }

  lemma SendLeavesStatus(s: State, ok: bool)
    ensures SameStatusHalf(s, SendNewReply(s, ok).state)
  {
    hide SameStatuses, Blank;
    RepliesLeaveStatuses(s.log, 0, s.respBuf);
  }

  lemma EditLeavesStatus(s: State, t: string, env: Env)
    requires ReplyIsReply(s) && s.respID.Some?
    ensures SameStatusHalf(s, EditOrRecoverReply(s, t, env).state)
  {
    hide SameStatuses, SendNewReply;
    var edit := EditReply(Shown(s, s.respID.value), s.respBuf);
    RepliesLeaveStatuses(s.log, s.respID.value, s.respBuf);
    SendLeavesStatus(s.(calls := s.calls + [edit], respBuf := t, respID := None), env.recoveryOk);
  }

  lemma ShowLeavesStatus(s: State, t: string, env: Env)
    requires ReplyIsReply(s)
    ensures SameStatusHalf(s, ShowReply(s, t, env).state)
  {
    hide Blank, SameStatuses, EditOrRecoverReply, SendNewReply;
    RepliesLeaveStatuses(s.log, 0, "");
    if s.respID.Some? {
      EditLeavesStatus(s, t, env);
    } else {
      SendLeavesStatus(if s.drafts then StreamDraft(s, env).0 else s, env.sendOk);
    }
  }

  lemma RotateLeavesStatus(cfg: Config, s: State, t: string, ok: bool)
    requires ReplyIsReply(s)
    ensures var rotated := RotateReply(cfg, StartReply(s), t, ok).state;
            SameStatusHalf(s, rotated) && ReplyIsReply(rotated)
  {
    hide ByteLength, FlushDraft, SameStatuses;
    RepliesLeaveStatuses(s.log, 0, "");
    FlushLeavesStatus(StartReply(s), ok);
  }

  lemma ReplyLeavesStatus(cfg: Config, s: State, t: string, env: Env)
    requires ReplyIsReply(s)
    ensures SameStatusHalf(s, WriteReply(cfg, s, t, env).state)
  {
    hide ShowReply, RotateReply, StartReply, SameStatuses;
    RotateLeavesStatus(cfg, s, t, env.flushOk);
    var rotated := RotateReply(cfg, StartReply(s), t, env.flushOk);
    if !rotated.failed {
      var added := rotated.state.(respBuf := rotated.state.respBuf + t);
      ShowLeavesStatus(added, t, env);
      SameTransitive(s.log, added.log, ShowReply(added, t, env).state.log);
    }
  }

  // ---- Status writes --------------------------------------------------------------------------

  /** Nothing waits in a status buffer that has no message. */
  predicate NoneWaits(s: State) { s.statusID.None? ==> s.statusBuf == "" && !s.wrapOpen }

  lemma CutStaysVisible(s: string)
    requires !Blank(s)
    ensures !Blank(Truncate(s))
  {
    hide ByteLength;
    if ByteLength(s) > TELEGRAM_TRUNCATE_LEN {
      assert Truncate(s)[Fitting(s, TELEGRAM_TRUNCATE_LEN)] == TRUNCATION_NOTICE[0];
    }
  }

  /** A fresh status message holding one text is accepted, and cut exactly if the text is too long. */
  lemma FreshCuts(cfg: Config, s: State, t: string)
    requires !Blank(Wrap(cfg, Concat([t])))
    ensures !Blank(Render(cfg, Entry(Status, [t])))
    ensures HasCut(s.log + [Message(Status, Render(cfg, Entry(Status, [t])))])
        <==> HasCut(s.log) || TooLong(cfg, Write(Status, t))
  {
    hide ByteLength, Blank, Concat, Wrap, Truncate, HasCut;
    var whole := Wrap(cfg, Concat([t]));
    ConcatOne(t);
    CutStaysVisible(whole);
    TruncateSize(whole);
    SentCuts(s.log, Message(Status, Truncate(whole)));
  }

  /** An edit below the rotation limit cuts nothing, and its text was not too long. */
  lemma EditCuts(cfg: Config, s: State, g: Texts, t: string)
    requires MadeOf(cfg, s.log, g.chat) && StatusBuffer(cfg, s, g) && s.statusID.Some?
    requires ByteLength(Wrap(cfg, Concat(g.status + [t]))) <= MAX_MESSAGE_LEN
    ensures !TooLong(cfg, Write(Status, t))
    ensures HasCut(s.log[s.statusID.value := Message(Status, Render(cfg, Entry(Status, g.status + [t])))])
        <==> HasCut(s.log)
  {
    var before, all := Wrap(cfg, Concat(g.status)), Wrap(cfg, Concat(g.status + [t]));
    ConcatSnoc(g.status, t);
    PartsFit(cfg, Concat(g.status), t);
    TruncateSize(before);
    TruncateSize(all);
    EditedCuts(s.log, s.statusID.value, Message(Status, Truncate(all)));
  }

  lemma PartsFit(cfg: Config, a: string, b: string)
    ensures ByteLength(Wrap(cfg, a)) <= ByteLength(Wrap(cfg, a + b))
    ensures ByteLength(Wrap(cfg, b)) <= ByteLength(Wrap(cfg, a + b))
  {
    ByteLengthConcat(a, b);
    ByteLengthConcat(cfg.open, a);
    ByteLengthConcat(cfg.open, b);
    ByteLengthConcat(cfg.open, a + b);
    ByteLengthConcat(cfg.open + a, cfg.close);
    ByteLengthConcat(cfg.open + b, cfg.close);
    ByteLengthConcat(cfg.open + (a + b), cfg.close);
  }

  lemma AppendCuts(cfg: Config, s: State, g: Texts, t: string, env: Env)
    requires MadeOf(cfg, s.log, g.chat) && StatusBuffer(cfg, s, g) && NoneWaits(s)
    requires s.statusID.Some? ==> s.respID.None? || s.respSealed
    requires env.sendOk && env.recoveryOk && !Blank(Wrap(cfg, Concat([t])))
    ensures var s' := AppendStatus(cfg, s, t, env).state;
            s'.statusID.Some? && (HasCut(s'.log) <==> HasCut(s.log) || TooLong(cfg, Write(Status, t)))
  {
    hide ByteLength, HasCut, TooLong, Blank, Truncate;
    var texts := g.status + [t];
    StatusContent(cfg, s, g, t);
    AppendStatusForm(cfg, s, g, t, env);
    FreshCuts(cfg, s, t);
    if s.statusID.None? {
      WaitingIsNothing(cfg, s, g, t);
      SendNewStatusForm(cfg, Appended(cfg, s, texts), s, texts, env.sendOk);
    } else if ByteLength(Wrap(cfg, Concat(texts))) > MAX_MESSAGE_LEN {
      SendNewStatusForm(cfg, Appended(cfg, s, [t]).(statusID := None), s, [t], env.sendOk);
    } else if StatusEdits(cfg, s, texts, env) {
      EditStatusForm(cfg, s, texts, t, env);
      EditCuts(cfg, s, g, t);
    } else {
      RecoverStatusForm(cfg, s, texts, t, env);
      EditCuts(cfg, s, g, t);
    }
  }

  lemma WaitingIsNothing(cfg: Config, s: State, g: Texts, t: string)
    requires StatusBuffer(cfg, s, g) && s.statusBuf == "" && !s.wrapOpen
    ensures Render(cfg, Entry(Status, g.status + [t])) == Render(cfg, Entry(Status, [t]))
  {
    ConcatSnoc(g.status, t);
    ConcatOne(t);
    assert Concat(g.status) == "" && "" + t == t;
  }

  // ---- Whole turns ----------------------------------------------------------------------------

  lemma StatusWriteCuts(cfg: Config, s: State, g: Texts, ws: seq<Write>, t: string, env: Env)
    requires Inv(cfg, Everything, s, g, ws) && NoneWaits(s) && Answers(Everything, env)
    requires !Blank(Wrap(cfg, t))
    ensures var s' := WriteStatus(cfg, s, t, env).state;
            NoneWaits(s') && (HasCut(s'.log) <==> HasCut(s.log) || TooLong(cfg, Write(Status, t)))
  {
    hide ByteLength, HasCut, TooLong, Blank, AppendStatus, Visible, Lowest, SameStatuses, Concat, Wrap, Unshown;
    var flushed := FlushDraft(s, env.flushOk);
    FlushLeavesStatus(s, env.flushOk);
    SameCuts(s.log, flushed.state.log);
    FlushAccepted(s, env.flushOk);
    var g1 := FlushKeeps(cfg, Everything, s, g, ws, env.flushOk);
    var g2 := StartStatusKeeps(cfg, Everything, flushed.state, g1, ws);
    ConcatOne(t);
    AppendCuts(cfg, StartStatus(flushed.state), g2, t, env);
  }

  lemma FlushAccepted(s: State, ok: bool)
    requires s.draftLive ==> !Blank(s.respBuf) && ok
    ensures !FlushDraft(s, ok).failed
  {}

  lemma {:induction false} RunCuts(cfg: Config, steps: seq<Step>)
    requires Answered(Everything, steps) && Solid(cfg, steps)
    ensures var t := Run(cfg, steps);
            NoneWaits(t.state) && (HasCut(t.state.log) <==> SomeTooLong(cfg, t.writes))
    decreases |steps|
  {
    hide ByteLength, Blank, TooLong, WriteStatus, WriteReply, HasCut, Answers;
    if steps != [] {
      var front, step := steps[..|steps| - 1], steps[|steps| - 1];
      var t := Run(cfg, front);
      RunCuts(cfg, front);
      if !t.failed {
        var g := RunKeeps(cfg, Everything, front);
        TooLongSnoc(cfg, t.writes, step.write);
        match step.write
        case Write(Status, text) => StatusWriteCuts(cfg, t.state, g, t.writes, text, step.env);
        case Write(Reply, text) =>
          ReplyLeavesStatus(cfg, t.state, text, step.env);
          SameCuts(t.state.log, WriteReply(cfg, t.state, text, step.env).state.log);
          ReplyIsNotTooLong(cfg, text);
      }
    } else {
      NothingIsCut();
    }
  }

  lemma ReplyIsNotTooLong(cfg: Config, text: string)
    ensures !TooLong(cfg, Write(Reply, text))
  {}

  lemma NothingIsCut()
    ensures !HasCut([])
  {}

  /** With visible sends accepted and no status text white space in its tags: a chat holds a cut
      status message exactly when some status text written, in its tags, exceeds the cap. */
  lemma StatusCutExactly(cfg: Config, steps: seq<Step>, ok: bool)
    requires Answered(Everything, steps) && Solid(cfg, steps)
    ensures var t := Run(cfg, steps); HasCut(Finish(t, ok).state.log) <==> SomeTooLong(cfg, t.writes)
  {
    hide HasCut, Run, FlushDraft;
    RunCuts(cfg, steps);
    var t := Run(cfg, steps);
    var g := RunKeeps(cfg, Everything, steps);
    FlushLeavesStatus(t.state, ok);
    SameCuts(t.state.log, Finish(t, ok).state.log);
  }

  /** What a message made of these texts shows when nothing is cut. */
  function Whole(cfg: Config, e: Entry): string {
    match e.kind
    case Status => Wrap(cfg, Concat(e.texts))
    case Reply => Concat(e.texts)
  }

  /** The chat literally shows these texts, message by message. */
  ghost predicate Shows(cfg: Config, log: seq<Message>, es: seq<Entry>) {
    |es| == |log| && forall k | 0 <= k < |log| :: log[k] == Message(es[k].kind, Whole(cfg, es[k]))
  }

  lemma UncutShows(cfg: Config, log: seq<Message>, es: seq<Entry>)
    requires MadeOf(cfg, log, es) && !HasCut(log)
    ensures Shows(cfg, log, es)
  {
    forall k | 0 <= k < |log| ensures log[k] == Message(es[k].kind, Whole(cfg, es[k])) {
      assert !IsCut(log[k]);
      TruncateSize(Wrap(cfg, Concat(es[k].texts)));
    }
  }

  /** So without such a text the chat shows every visible text in full, once and in order. */
  lemma ChatShowsInFull(cfg: Config, steps: seq<Step>)
    requires Answered(Everything, steps) && Solid(cfg, steps) && !SomeTooLong(cfg, Run(cfg, steps).writes)
    ensures var t := Run(cfg, steps);
            exists es :: Shows(cfg, Finish(t, true).state.log, es) && Read(Everything, es) == Keep(Everything, t.writes)
  {
    hide HasCut, Run, Finish, Shows, MadeOf;
    var t := Run(cfg, steps);
    ChatReadsAsWritten(cfg, steps);
    StatusCutExactly(cfg, steps, true);
    var log := Finish(t, true).state.log;
    var es :| MadeOf(cfg, log, es) && Read(Everything, es) == Keep(Everything, t.writes);
    UncutShows(cfg, log, es);
  }

  /** A visible opening tag, which every channel that splits messages has, makes any turn solid. */
  lemma TagsAreSolid(cfg: Config, steps: seq<Step>)
    requires !Blank(cfg.open)
    ensures Solid(cfg, steps)
  {
    forall i | 0 <= i < |steps| ensures !Blank(Wrap(cfg, steps[i].write.text)) {
      var text := steps[i].write.text;
      BlankOf(cfg.open, text);
      BlankOf(cfg.open + text, cfg.close);
      assert Wrap(cfg, text) == cfg.open + text + cfg.close;
    }
  }

  lemma BlankOf(a: string, b: string)
    ensures Blank(a + b) <==> Blank(a) && Blank(b)
  {
    if Blank(a + b) {
      forall i | 0 <= i < |a| ensures IsSpace(a[i]) { assert (a + b)[i] == a[i]; }
      forall i | 0 <= i < |b| ensures IsSpace(b[i]) { assert (a + b)[|a| + i] == b[i]; }
    }
  }

  // ---- A witness ------------------------------------------------------------------------------

  const LONG := seq(3901, i => 'a')
  const LONG_TURN := [Step(Write(Status, LONG), FINE)]

  /** It happens: one status text of 3901 characters. */
  lemma StatusCanBeCut()
    ensures Answered(Everything, LONG_TURN) && Solid(PLAIN, LONG_TURN)
    ensures HasCut(Finish(Run(PLAIN, LONG_TURN), true).state.log)
  {
    var w := LONG_TURN[0].write;
    assert Wrap(PLAIN, w.text) == LONG && !IsSpace(LONG[0]);
    StatusCutExactly(PLAIN, LONG_TURN, true);
    var empty := LONG_TURN[..0];
    assert Run(PLAIN, empty) == Turn(Initial(PLAIN), [], false);
    assert Run(PLAIN, LONG_TURN).writes == [w];
    assert TooLong(PLAIN, [w][0]);
  }
}
